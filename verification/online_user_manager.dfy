/** `server.managers.OnlineUserManager`: the presence registry, online username →
    output channel of that user's connection. */
module OnlineUserManager {
  import opened Wrappers
  import opened Seqs
  import opened Messages
  import Tables

  /** An opaque handle on one connection's `ObjectOutputStream`. */
  type Channel = nat

  type Registry = Tables.Table<string, Channel>

  function NewRegistry(): (p: Registry)
    ensures Tables.Valid(p) && |GetOnlineUsers(p)| == 0
  {
    Tables.Empty()
  }

  predicate IsUserOnline(p: Registry, u: string) {
    u in p.entries
  }

  /** `getUserOutputStream`, `None` standing for the `null` of an offline user. */
  function GetUserOutputStream(p: Registry, u: string): (c: Option<Channel>)
    ensures c.Some? <==> IsUserOnline(p, u)
    ensures c.Some? ==> c.value == p.entries[u]
  {
    Tables.Get(p, u)
  }

  /** `addUser`: a plain `put`, which overwrites an existing entry without checking. */
  function AddUser(p: Registry, u: string, c: Channel): (r: Registry)
    requires Tables.Valid(p)
    ensures Tables.Valid(r)
    ensures IsUserOnline(r, u) && GetUserOutputStream(r, u) == Some(c)
    ensures forall v | v != u :: GetUserOutputStream(r, v) == GetUserOutputStream(p, v)
  {
    Tables.Put(p, u, c)
  }

  /** `removeUser`: takes `u` offline and leaves everybody else alone. */
  function RemoveUser(p: Registry, u: string): (r: Registry)
    requires Tables.Valid(p)
    ensures Tables.Valid(r)
    ensures !IsUserOnline(r, u)
    ensures forall v | v != u :: GetUserOutputStream(r, v) == GetUserOutputStream(p, v)
    ensures !IsUserOnline(p, u) ==> r == p
  {
    Tables.Remove(p, u)
  }

  /** `getOnlineUsers`: a snapshot of the online names, each once. */
  function GetOnlineUsers(p: Registry): (us: seq<string>)
    requires Tables.Valid(p)
    ensures Distinct(us)
    ensures forall u :: u in us <==> IsUserOnline(p, u)
  {
    p.order
  }

  /** `getAllOutputStreams`: one channel per online user, in the same order as
      `getOnlineUsers`. */
  function GetAllOutputStreams(p: Registry): (cs: seq<Channel>)
    requires Tables.Valid(p)
    ensures |cs| == |GetOnlineUsers(p)|
    ensures forall i | 0 <= i < |cs| :: GetUserOutputStream(p, GetOnlineUsers(p)[i]) == Some(cs[i])
  {
    Tables.Values(p)
  }

  /** `getOnlineUserCount`: the size of the map, which is the length of the snapshot. */
  function GetOnlineUserCount(p: Registry): (n: nat)
    requires Tables.Valid(p)
    ensures n == |GetOnlineUsers(p)|
  {
    Tables.SizeIsOrderLength(p);
    |p.entries|
  }

  /** `sendMessageToUser`: one delivery to an online user, none to an offline one; a
      `null` name makes the map lookup throw. */
  function SendMessageToUser(p: Registry, u: Option<string>, m: Message): (e: Emit)
    ensures e.fault <==> u.None?
    ensures u.Some? && IsUserOnline(p, u.value) ==> e.out == [Delivery(User(u.value), m)]
    ensures u.None? || !IsUserOnline(p, u.value) ==> e.out == []
  {
    match u
    case None => Emit([], true)
    case Some(name) => Emit(if IsUserOnline(p, name) then [Delivery(User(name), m)] else [], false)
  }
}
