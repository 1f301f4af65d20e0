/** `server.managers.GroupManager`: the group store, group id → group. Groups are only
    ever added; members come and go. */
module GroupManager {
  import opened Wrappers
  import opened Seqs
  import opened JavaString
  import opened Groups
  import Tables

  type Store = Tables.Table<string, Group>

  const DefaultGroupName := "默认群"

  /** Every group is filed under its own id and has a duplicate-free member list. */
  ghost predicate Valid(g: Store) {
    && Tables.Valid(g)
    && forall id | id in g.entries :: g.entries[id].id == id && Distinct(g.entries[id].members)
  }

  /** Some group in the store has a `null` name; reading it with `getGroupName().equals`
      or `.contains` throws. */
  predicate HasNullName(g: Store) {
    exists id | id in g.entries :: g.entries[id].name.None?
  }

  /** Some group carries the default name. */
  predicate HasDefaultGroup(g: Store) {
    exists id | id in g.entries :: g.entries[id].name == Some(DefaultGroupName)
  }

  /** `new GroupManager()` seeds the default group under a freshly generated id. */
  function New(defaultId: string): (g: Store)
    ensures Valid(g)
    ensures g.entries.Keys == {defaultId}
    ensures g.entries[defaultId].name == Some(DefaultGroupName)
    ensures |g.entries[defaultId].members| == 0
    ensures GetDefaultGroup(g) == Returned(Some(g.entries[defaultId]))
  {
    var g := Tables.Put(Tables.Empty(), defaultId, NewGroup(defaultId, Some(DefaultGroupName)));
    assert g.order == [defaultId];
    g
  }

  /** `createGroup(name)` with `id` the freshly generated UUID: exactly one new, empty
      group; the existing groups are untouched. */
  function CreateGroup(g: Store, name: Option<string>, id: string): (r: Store)
    requires Valid(g) && id !in g.entries
    ensures Valid(r)
    ensures r.entries.Keys == g.entries.Keys + {id}
    ensures r.entries[id].name == name && |r.entries[id].members| == 0
    ensures forall k | k in g.entries :: r.entries[k] == g.entries[k]
  {
    Tables.Put(g, id, NewGroup(id, name))
  }

  function GetGroupById(g: Store, id: string): (r: Option<Group>)
    requires Valid(g)
    ensures r.Some? <==> id in g.entries
    ensures r.Some? ==> r.value == g.entries[id] && r.value.id == id
  {
    Tables.Get(g, id)
  }

  function GetAllGroups(g: Store): (gs: seq<Group>)
    requires Valid(g)
    ensures |gs| == |g.entries|
    ensures forall id | id in g.entries :: g.entries[id] in gs
    ensures forall x | x in gs :: x.id in g.entries && g.entries[x.id] == x
  {
    Tables.SizeIsOrderLength(g);
    forall id | id in g.entries ensures g.entries[id] in Tables.Values(g) {
      Tables.ValuesCover(g, id);
    }
    Tables.Values(g)
  }

  /** The stream `filter(g -> g.getGroupName().equals(name)).findFirst()` over a list of
      groups: the first group with that name, or the exception from the first `null`
      name met before one. */
  function FirstNamed(gs: seq<Group>, name: Option<string>): (r: Call<Option<Group>>)
    ensures r.Returned? && r.value.Some? ==> r.value.value in gs && r.value.value.name == name && name.Some?
    ensures r == Returned(None) <==> forall x | x in gs :: x.name.Some? && x.name != name
    ensures r.Threw? ==> exists x | x in gs :: x.name.None?
  {
    if |gs| == 0 then Returned(None)
    else if gs[0].name.None? then Threw
    else if gs[0].name == name then Returned(Some(gs[0]))
    else
      var r := FirstNamed(gs[1..], name);
      assert forall x | x in gs :: x == gs[0] || x in gs[1..];
      r
  }

  /** `getGroupByName`: some group with that name if there is one, else `null`; names are
      not unique and which match comes first is the map's iteration order. */
  function GetGroupByName(g: Store, name: Option<string>): (r: Call<Option<Group>>)
    requires Valid(g)
    ensures r.Returned? && r.value.Some? ==>
              r.value.value.id in g.entries && g.entries[r.value.value.id] == r.value.value && r.value.value.name == name
    ensures r == Returned(None) <==> forall id | id in g.entries :: g.entries[id].name.Some? && g.entries[id].name != name
    ensures r.Threw? ==> HasNullName(g)
    ensures !HasNullName(g) ==> r.Returned? && (r.value.Some? <==> exists id | id in g.entries :: g.entries[id].name == name)
  {
    FirstNamed(GetAllGroups(g), name)
  }

  /** `getDefaultGroup`: the lookup by the well-known name. */
  function GetDefaultGroup(g: Store): (r: Call<Option<Group>>)
    requires Valid(g)
    ensures r.Returned? && r.value.Some? ==>
              r.value.value.id in g.entries && g.entries[r.value.value.id] == r.value.value
              && r.value.value.name == Some(DefaultGroupName)
    ensures !HasNullName(g) ==>
              && r.Returned?
              && (r.value.Some? <==> exists id | id in g.entries :: g.entries[id].name == Some(DefaultGroupName))
    ensures HasNullName(g) && !HasDefaultGroup(g) ==> r.Threw?
  {
    GetGroupByName(g, Some(DefaultGroupName))
  }

  /** The `searchGroups` loop over a list of groups. */
  function Matching(gs: seq<Group>, keyword: Option<string>): (r: Call<seq<Group>>)
    ensures r.Threw? <==> (exists x | x in gs :: x.name.None?) || (keyword.None? && |gs| > 0)
    ensures r.Returned? ==> forall x :: x in r.value <==> x in gs && Contains(x.name.value, keyword.value)
  {
    if |gs| == 0 then Returned([])
    else if gs[0].name.None? || keyword.None? then Threw
    else
      var rest := Matching(gs[1..], keyword);
      assert forall x | x in gs :: x == gs[0] || x in gs[1..];
      if rest.Threw? then Threw
      else if Contains(gs[0].name.value, keyword.value) then Returned([gs[0]] + rest.value)
      else Returned(rest.value)
  }

  /** `searchGroups(keyword)`: exactly the groups whose name contains the keyword
      (case-sensitive). A `null` name, or a `null` keyword when there is any group at all,
      makes `String.contains` throw. */
  function SearchGroups(g: Store, keyword: Option<string>): (r: Call<seq<Group>>)
    requires Valid(g)
    ensures r.Threw? <==> HasNullName(g) || (keyword.None? && |g.entries| > 0)
    ensures r.Returned? ==> forall x :: x in r.value <==>
              x.id in g.entries && g.entries[x.id] == x && Contains(x.name.value, keyword.value)
  {
    var all := GetAllGroups(g);
    assert HasNullName(g) <==> exists x | x in all :: x.name.None? by {
      if HasNullName(g) {
        var id :| id in g.entries && g.entries[id].name.None?;
        assert g.entries[id] in all;
      }
    }
    Matching(all, keyword)
  }

  /** `joinGroup(id, user)`: true iff the group exists, and then `user` is a member. */
  function JoinGroup(g: Store, id: string, u: Option<string>): (r: (Store, bool))
    requires Valid(g)
    ensures Valid(r.0)
    ensures r.1 <==> id in g.entries
    ensures r.0.entries.Keys == g.entries.Keys && r.0.order == g.order
    ensures r.1 ==> u in r.0.entries[id].members && r.0.entries[id] == AddMember(g.entries[id], u)
    ensures forall k | k in g.entries && k != id :: r.0.entries[k] == g.entries[k]
    ensures !r.1 ==> r.0 == g
  {
    if id in g.entries then (Tables.Put(g, id, AddMember(g.entries[id], u)), true)
    else (g, false)
  }

  /** Joining a group a second time leaves the store as the first join left it. */
  lemma JoinIdempotent(g: Store, id: string, u: Option<string>)
    requires Valid(g)
    ensures JoinGroup(JoinGroup(g, id, u).0, id, u) == JoinGroup(g, id, u)
  {
    var g1 := JoinGroup(g, id, u).0;
    if id in g.entries {
      AddMemberIdempotent(g.entries[id], u);
      assert g1.entries[id := AddMember(g1.entries[id], u)] == g1.entries;
    }
  }

  /** `leaveGroup(id, user)`: a missing group is ignored. */
  function LeaveGroup(g: Store, id: string, u: Option<string>): (r: Store)
    requires Valid(g)
    ensures Valid(r)
    ensures r.entries.Keys == g.entries.Keys && r.order == g.order
    ensures id in g.entries ==> u !in r.entries[id].members
    ensures id in g.entries ==> r.entries[id] == RemoveMember(g.entries[id], u)
    ensures forall k | k in g.entries && k != id :: r.entries[k] == g.entries[k]
    ensures id !in g.entries ==> r == g
  {
    if id in g.entries then Tables.Put(g, id, RemoveMember(g.entries[id], u)) else g
  }

  /** Leaving a group one has just joined, having not been a member before, restores the
      store: `leaveGroup` undoes `joinGroup`. */
  lemma {:induction false} JoinThenLeave(g: Store, id: string, u: Option<string>)
    requires Valid(g)
    requires id in g.entries ==> u !in g.entries[id].members
    ensures LeaveGroup(JoinGroup(g, id, u).0, id, u) == g
  {
    if id in g.entries {
      var g1 := JoinGroup(g, id, u).0;
      var g2 := LeaveGroup(g1, id, u);
      AddThenRemove(g.entries[id], u);
      assert g2.entries == g.entries;
    }
  }

  /** `removeUserFromAllGroups(user)`: afterwards no group holds `user`; the set of groups,
      their names and every other membership are unchanged. */
  function RemoveUserFromAllGroups(g: Store, u: string): (r: Store)
    requires Valid(g)
    ensures Valid(r)
    ensures r.entries.Keys == g.entries.Keys && r.order == g.order
    ensures forall id | id in r.entries :: Some(u) !in r.entries[id].members
    ensures forall id | id in r.entries :: r.entries[id].name == g.entries[id].name
    ensures forall id, v | id in r.entries && v != Some(u) :: v in r.entries[id].members <==> v in g.entries[id].members
    ensures forall id | id in g.entries :: r.entries[id] == RemoveMember(g.entries[id], Some(u))
  {
    Tables.Table(map id | id in g.entries :: RemoveMember(g.entries[id], Some(u)), g.order)
  }

  /** `getGroupMembers`: the member list, or an empty list for an unknown id. */
  function GetGroupMembers(g: Store, id: string): (ms: seq<Option<string>>)
    requires Valid(g)
    ensures id !in g.entries ==> ms == []
    ensures id in g.entries ==> ms == g.entries[id].members
  {
    if id in g.entries then g.entries[id].members else []
  }
}
