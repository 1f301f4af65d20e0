/** A `ConcurrentHashMap` as the server uses it: the entries, plus the order in which
    iteration visits them. Java leaves that order unspecified; the model fixes one
    (a new key goes last, an overwritten key keeps its place). Membership, lookup and
    recipient properties hold whatever the order; exact texts and lists built by
    iterating a table hold for this order and match Java's only up to a permutation. */
module Tables {
  import opened Wrappers
  import opened Seqs

  datatype Table<K, V> = Table(entries: map<K, V>, order: seq<K>)

  /** The iteration order visits every key exactly once. */
  ghost predicate Valid<K(!new), V>(t: Table<K, V>) {
    && Distinct(t.order)
    && (forall k :: k in t.entries <==> k in t.order)
  }

  function Empty<K(!new), V>(): (t: Table<K, V>)
    ensures Valid(t) && t.entries == map[]
  {
    Table(map[], [])
  }

  /** `map.get(k)`, with `None` for a missing key. */
  function Get<K, V>(t: Table<K, V>, k: K): (r: Option<V>)
    ensures r.Some? <==> k in t.entries
    ensures r.Some? ==> r.value == t.entries[k]
  {
    if k in t.entries then Some(t.entries[k]) else None
  }

  /** `map.put(k, v)`: overwrites an existing key in place, otherwise adds it. */
  function Put<K(!new), V>(t: Table<K, V>, k: K, v: V): (r: Table<K, V>)
    requires Valid(t)
    ensures Valid(r)
    ensures r.entries == t.entries[k := v]
    ensures k in t.entries ==> r.order == t.order
    ensures k !in t.entries ==> r.order == t.order + [k]
  {
    assert k !in t.entries ==> Distinct(t.order + [k]) by {
      if k !in t.entries { AppendFreshKeepsDistinct(t.order, k); }
    }
    Table(t.entries[k := v], if k in t.entries then t.order else t.order + [k])
  }

  /** `map.remove(k)`; removing a missing key changes nothing. */
  function Remove<K(!new), V>(t: Table<K, V>, k: K): (r: Table<K, V>)
    requires Valid(t)
    ensures Valid(r)
    ensures r.entries == t.entries - {k}
    ensures k !in t.entries ==> r == t
  {
    RemoveFirstOfDistinct(t.order, k);
    Table(t.entries - {k}, RemoveFirst(t.order, k))
  }

  /** `new ArrayList<>(map.values())`: one value per key, in iteration order. */
  function Values<K(!new), V>(t: Table<K, V>): (vs: seq<V>)
    requires Valid(t)
    ensures |vs| == |t.order|
    ensures forall i | 0 <= i < |t.order| :: vs[i] == t.entries[t.order[i]]
  {
    seq(|t.order|, i requires 0 <= i < |t.order| => t.entries[t.order[i]])
  }

  /** Every value is reached by iteration. */
  lemma ValuesCover<K(!new), V>(t: Table<K, V>, k: K)
    requires Valid(t) && k in t.entries
    ensures t.entries[k] in Values(t)
  {
    var i := IndexOf(t.order, k);
    assert Values(t)[i] == t.entries[k];
  }

  /** The map's `size()` equals the number of keys iteration visits. */
  lemma SizeIsOrderLength<K(!new), V>(t: Table<K, V>)
    requires Valid(t)
    ensures |t.entries| == |t.order|
  {
    DistinctCardinality(t.order);
    assert t.entries.Keys == set x | x in t.order;
  }
}
