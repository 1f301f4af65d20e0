/** `server.broadcast.BroadcastService`: fan-out to every online user. Each function
    only produces deliveries; none has a store to change. */
module BroadcastService {
  import opened Wrappers
  import opened Seqs
  import opened Groups
  import opened Messages
  import Tables
  import OnlineUserManager
  import GroupManager

  /** `broadcastToAll`: one copy to every online channel and to nothing else. */
  function BroadcastToAll(p: OnlineUserManager.Registry, m: Message): (out: seq<Delivery>)
    requires Tables.Valid(p)
    ensures |out| == |p.entries|
    ensures Distinct(out)
    ensures forall d | d in out :: d.msg == m && d.to.User? && d.to.name in p.entries
    ensures forall u | u in p.entries :: Delivery(User(u), m) in out
  {
    Tables.SizeIsOrderLength(p);
    var out := seq(|p.order|, i requires 0 <= i < |p.order| => Delivery(User(p.order[i]), m));
    assert forall u | u in p.entries :: Delivery(User(u), m) in out by {
      forall u | u in p.entries ensures Delivery(User(u), m) in out {
        assert out[IndexOf(p.order, u)] == Delivery(User(u), m);
      }
    }
    out
  }

  /** The online notification: "<name> 已上线！" from the server. */
  function OnlineNotifyMessage(u: string): (m: Message)
    ensures m.kind == OnlineNotify && m.sender == Some(ServerName) && m.receiver == Some("")
    ensures m.content == Some(u + " 已上线！")
  {
    Notice(OnlineNotify, Some(""), u + " 已上线！")
  }

  /** The offline notification: "<name> 已下线！" from the server. */
  function OfflineNotifyMessage(u: string): (m: Message)
    ensures m.kind == OfflineNotify && m.sender == Some(ServerName) && m.receiver == Some("")
    ensures m.content == Some(u + " 已下线！")
  {
    Notice(OfflineNotify, Some(""), u + " 已下线！")
  }

  /** The ONLINE_USERS message carries exactly the current online set, each name once. */
  function OnlineUsersMessage(p: OnlineUserManager.Registry): (m: Message)
    requires Tables.Valid(p)
    ensures m.kind == OnlineUsers && m.sender == Some(ServerName) && m.onlineUsers.Some?
    ensures Distinct(m.onlineUsers.value)
    ensures forall u :: u in m.onlineUsers.value <==> u in p.entries
  {
    Listing(OnlineUsers).(onlineUsers := Some(OnlineUserManager.GetOnlineUsers(p)))
  }

  /** The GROUP_LIST message carries every group in the store, each once. */
  function GroupListMessage(g: GroupManager.Store): (m: Message)
    requires GroupManager.Valid(g)
    ensures m.kind == GroupList && m.sender == Some(ServerName) && m.groupList.Some?
    ensures |m.groupList.value| == |g.entries|
    ensures forall id | id in g.entries :: g.entries[id] in m.groupList.value
    ensures forall x | x in m.groupList.value :: x.id in g.entries && g.entries[x.id] == x
  {
    Listing(GroupList).(groupList := Some(GroupManager.GetAllGroups(g)))
  }

  function BroadcastOnlineNotify(p: OnlineUserManager.Registry, u: string): (out: seq<Delivery>)
    requires Tables.Valid(p)
    ensures forall d | d in out :: d.msg == OnlineNotifyMessage(u) && d.to.User? && d.to.name in p.entries
    ensures forall v | v in p.entries :: Delivery(User(v), OnlineNotifyMessage(u)) in out
  {
    BroadcastToAll(p, OnlineNotifyMessage(u))
  }

  function BroadcastOfflineNotify(p: OnlineUserManager.Registry, u: string): (out: seq<Delivery>)
    requires Tables.Valid(p)
    ensures forall d | d in out :: d.msg == OfflineNotifyMessage(u) && d.to.User? && d.to.name in p.entries
    ensures forall v | v in p.entries :: Delivery(User(v), OfflineNotifyMessage(u)) in out
  {
    BroadcastToAll(p, OfflineNotifyMessage(u))
  }

  function BroadcastOnlineUsers(p: OnlineUserManager.Registry): (out: seq<Delivery>)
    requires Tables.Valid(p)
    ensures forall d | d in out :: d.msg == OnlineUsersMessage(p) && d.to.User? && d.to.name in p.entries
    ensures forall v | v in p.entries :: Delivery(User(v), OnlineUsersMessage(p)) in out
  {
    BroadcastToAll(p, OnlineUsersMessage(p))
  }

  function BroadcastGroupList(p: OnlineUserManager.Registry, g: GroupManager.Store): (out: seq<Delivery>)
    requires Tables.Valid(p) && GroupManager.Valid(g)
    ensures forall d | d in out :: d.msg == GroupListMessage(g) && d.to.User? && d.to.name in p.entries
    ensures forall v | v in p.entries :: Delivery(User(v), GroupListMessage(g)) in out
  {
    BroadcastToAll(p, GroupListMessage(g))
  }

  /** `sendOnlineUsersToUser(name)`: the list goes to that user only, to nobody if the
      user is offline; a `null` name throws in the map lookup. */
  function SendOnlineUsersToUser(p: OnlineUserManager.Registry, u: Option<string>): (e: Emit)
    requires Tables.Valid(p)
    ensures e.fault <==> u.None?
    ensures forall d | d in e.out :: u.Some? && d == Delivery(User(u.value), OnlineUsersMessage(p))
    ensures u.Some? && u.value in p.entries ==> |e.out| == 1
    ensures u.None? || u.value !in p.entries ==> e.out == []
  {
    OnlineUserManager.SendMessageToUser(p, u, OnlineUsersMessage(p))
  }
}
