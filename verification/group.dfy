/** `common.Group`: a group chat, its id, its name and its member list. */
module Groups {
  import opened Wrappers
  import opened Seqs

  /** The member list is an `ArrayList<String>`, which admits `null`: a request handled
      before login carries a `null` username into `addMember`. The group name is `null`
      when the creating request left the name field unset. */
  datatype Group = Group(id: string, name: Option<string>, members: seq<Option<string>>)

  /** `new Group(groupId, groupName)` starts with no members. */
  function NewGroup(id: string, name: Option<string>): (g: Group)
    ensures g.id == id && g.name == name
    ensures |g.members| == 0
  {
    Group(id, name, [])
  }

  /** `addMember`: appends `u` unless it is already a member. */
  function AddMember(g: Group, u: Option<string>): (r: Group)
    ensures r.id == g.id && r.name == g.name
    ensures u in r.members
    ensures forall v :: v in r.members <==> v in g.members || v == u
    ensures |r.members| == |g.members| + (if u in g.members then 0 else 1)
    ensures r.members[..|g.members|] == g.members
    ensures Distinct(g.members) ==> Distinct(r.members)
  {
    if u in g.members then g
    else
      AppendFreshKeepsDistinct(g.members, u);
      assert (g.members + [u])[..|g.members|] == g.members;
      g.(members := g.members + [u])
  }

  /** `removeMember`: `List.remove(Object)`, which drops the first occurrence only. */
  function RemoveMember(g: Group, u: Option<string>): (r: Group)
    ensures r.id == g.id && r.name == g.name
    ensures u !in g.members ==> r == g
    ensures Distinct(g.members) ==> Distinct(r.members) && u !in r.members
    ensures Distinct(g.members) ==> forall v :: v != u ==> (v in r.members <==> v in g.members)
  {
    assert Distinct(g.members) ==>
             && Distinct(RemoveFirst(g.members, u))
             && u !in RemoveFirst(g.members, u)
             && forall v :: v != u ==> (v in RemoveFirst(g.members, u) <==> v in g.members) by {
      if Distinct(g.members) { RemoveFirstOfDistinct(g.members, u); }
    }
    g.(members := RemoveFirst(g.members, u))
  }

  /** Adding a member that is already there changes nothing, so adding twice is adding
      once. */
  lemma AddMemberIdempotent(g: Group, u: Option<string>)
    ensures AddMember(AddMember(g, u), u) == AddMember(g, u)
    ensures u in g.members ==> AddMember(g, u) == g
  {
  }

  /** Removing a member keeps the other members in their relative order: the list loses
      exactly the first position that held `u`. */
  lemma RemoveMemberKeepsOrder(g: Group, u: Option<string>)
    requires u in g.members
    ensures var i := IndexOf(g.members, u);
            && g.members[i] == u && u !in g.members[..i]
            && RemoveMember(g, u).members == g.members[..i] + g.members[i + 1..]
  {
    RemoveFirstSplices(g.members, u);
  }

  /** Adding a fresh name and then removing it restores the group. */
  lemma AddThenRemove(g: Group, u: Option<string>)
    requires u !in g.members
    ensures RemoveMember(AddMember(g, u), u) == g
  {
    RemoveFirstOfAppended(g.members, u);
  }
}
