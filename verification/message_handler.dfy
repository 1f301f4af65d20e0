/** `server.handlers.MessageHandler` of the refactored server: chat, file, shake and
    group requests. `sender` is the connection's bound username, `null` before login. */
module MessageHandler {
  import opened Wrappers
  import opened Seqs
  import opened JavaString
  import opened Groups
  import opened Messages
  import opened ServerState
  import Tables
  import OnlineUserManager
  import GroupManager
  import BroadcastService

  /** What a group fan-out does: it throws iff the member list holds `null` (from
      `member.equals`), it only reaches online members other than the sender, each with
      the one message, and when it completes it has reached every one of them, once each
      on a duplicate-free list. */
  ghost predicate FansOutTo(e: Emit, members: seq<Option<string>>, sender: Option<string>,
                            online: OnlineUserManager.Registry, m: Message) {
    && (e.fault <==> None in members)
    && (forall d | d in e.out ::
          d.msg == m && d.to.User? && Some(d.to.name) in members
          && Some(d.to.name) != sender && d.to.name in online.entries)
    && (!e.fault ==> forall u | Some(u) in members && Some(u) != sender && u in online.entries ::
          Delivery(User(u), m) in e.out)
    && (Distinct(members) ==> Distinct(e.out))
  }

  /** The loop `for (member : members) if (!member.equals(sender)) send to member's
      stream if online`. A `null` member throws; what was written before stays written. */
  function FanOut(members: seq<Option<string>>, sender: Option<string>,
                  online: OnlineUserManager.Registry, m: Message): (e: Emit)
    ensures FansOutTo(e, members, sender, online, m)
  {
    if |members| == 0 then Emit([], false)
    else
      var rest := FanOut(members[1..], sender, online, m);
      assert forall x | x in members :: x == members[0] || x in members[1..];
      assert Distinct(members) ==> Distinct(members[1..]) && members[0] !in members[1..] by {
        if Distinct(members) {
          forall i, j | 0 <= i < j < |members[1..]| ensures members[1..][i] != members[1..][j] {
            assert members[1..][i] == members[i + 1] && members[1..][j] == members[j + 1];
          }
          forall k | 0 <= k < |members[1..]| ensures members[1..][k] != members[0] {
            assert members[1..][k] == members[k + 1];
          }
        }
      }
      match members[0]
      case None => Emit([], true)
      case Some(u) =>
        if Some(u) != sender && u in online.entries then
          var d := Delivery(User(u), m);
          assert Distinct(members) ==> d !in rest.out;
          assert Distinct(members) ==> Distinct([d] + rest.out) by {
            if Distinct(members) {
              forall i, j | 0 <= i < j < |[d] + rest.out| ensures ([d] + rest.out)[i] != ([d] + rest.out)[j] {
                if i == 0 {
                  assert ([d] + rest.out)[j] == rest.out[j - 1];
                } else {
                  assert ([d] + rest.out)[i] == rest.out[i - 1] && ([d] + rest.out)[j] == rest.out[j - 1];
                }
              }
            }
          }
          Emit([d] + rest.out, rest.fault)
        else
          rest
  }

  /** `handlePrivateChat`: to an online receiver, one PRIVATE_CHAT carrying the original
      sender and content; to an offline one, one notice back to the requester. */
  function HandlePrivateChat(s: State, m: Message, sender: Option<string>): (e: Emit)
    ensures m.receiver.None? ==> e.fault && e.out == []
    ensures m.receiver.Some? && m.receiver.value in s.online.entries ==>
              && !e.fault
              && e.out == [Delivery(User(m.receiver.value), Text(PrivateChat, m.sender, m.receiver, m.content))]
    ensures m.receiver.Some? && m.receiver.value !in s.online.entries ==>
              && !e.fault
              && e.out == Reply(Notice(PrivateChat, sender, "用户 " + m.receiver.value + " 不在线！"))
  {
    match m.receiver
    case None => Emit([], true)
    case Some(r) =>
      if OnlineUserManager.IsUserOnline(s.online, r) then
        Emit([Delivery(User(r), Text(PrivateChat, m.sender, m.receiver, m.content))], false)
      else
        Emit(Reply(Notice(PrivateChat, sender, "用户 " + r + " 不在线！")), false)
  }

  /** `handleGroupChat`: an unknown group id gets one notice to the requester and no
      fan-out; a known one fans out to its online members except the sender. */
  function HandleGroupChat(s: State, m: Message, sender: Option<string>): (e: Emit)
    requires Valid(s)
    ensures m.receiver.None? ==> e.fault && e.out == []
    ensures m.receiver.Some? && m.receiver.value !in s.groups.entries ==>
              && !e.fault
              && e.out == Reply(Notice(GroupChat, sender, "群组 " + m.receiver.value + " 不存在！"))
    ensures m.receiver.Some? && m.receiver.value in s.groups.entries ==>
              FansOutTo(e, s.groups.entries[m.receiver.value].members, sender, s.online,
                        Text(GroupChat, m.sender, m.receiver, m.content))
  {
    match m.receiver
    case None => Emit([], true)
    case Some(id) =>
      match GroupManager.GetGroupById(s.groups, id)
      case None => Emit(Reply(Notice(GroupChat, sender, "群组 " + id + " 不存在！")), false)
      case Some(g) => FanOut(g.members, sender, s.online, Text(GroupChat, m.sender, m.receiver, m.content))
  }

  /** `handlePrivateFile`: the file message is forwarded as it came, so name, size and
      bytes arrive unchanged; an offline receiver yields a notice to the requester. */
  function HandlePrivateFile(s: State, m: Message, sender: Option<string>): (e: Emit)
    ensures m.receiver.None? ==> e.fault && e.out == []
    ensures m.receiver.Some? && m.receiver.value in s.online.entries ==>
              !e.fault && e.out == [Delivery(User(m.receiver.value), m)]
    ensures m.receiver.Some? && m.receiver.value !in s.online.entries ==>
              && !e.fault
              && e.out == Reply(Notice(PrivateChat, sender, "用户 " + m.receiver.value + " 不在线，文件发送失败！"))
  {
    match m.receiver
    case None => Emit([], true)
    case Some(r) =>
      if OnlineUserManager.IsUserOnline(s.online, r) then Emit([Delivery(User(r), m)], false)
      else Emit(Reply(Notice(PrivateChat, sender, "用户 " + r + " 不在线，文件发送失败！")), false)
  }

  /** `handleGroupFile`: the target group is looked up by NAME (`receiver` holds it); the
      file message fans out unchanged to the online members except the sender. */
  function HandleGroupFile(s: State, m: Message, sender: Option<string>): (e: Emit)
    requires Valid(s)
    ensures e.fault && e.out == [] <== GroupManager.GetGroupByName(s.groups, m.receiver).Threw?
    ensures GroupManager.GetGroupByName(s.groups, m.receiver) == Returned(None) ==>
              && !e.fault
              && e.out == Reply(Notice(GroupChat, sender, "群组 " + Show(m.receiver) + " 不存在，文件发送失败！"))
    ensures forall id | id in s.groups.entries && GroupManager.GetGroupByName(s.groups, m.receiver) == Returned(Some(s.groups.entries[id])) ::
              s.groups.entries[id].name == m.receiver && FansOutTo(e, s.groups.entries[id].members, sender, s.online, m)
  {
    match GroupManager.GetGroupByName(s.groups, m.receiver)
    case Threw => Emit([], true)
    case Returned(None) => Emit(Reply(Notice(GroupChat, sender, "群组 " + Show(m.receiver) + " 不存在，文件发送失败！")), false)
    case Returned(Some(g)) => FanOut(g.members, sender, s.online, m)
  }

  /** `handleShake`: an online user named by `receiver` first, then a group with that
      NAME; if neither matches, nothing at all is sent. */
  function HandleShake(s: State, m: Message, sender: Option<string>): (e: Emit)
    requires Valid(s)
    ensures m.receiver.None? ==> e.fault && e.out == []
    ensures m.receiver.Some? && m.receiver.value in s.online.entries ==>
              !e.fault && e.out == [Delivery(User(m.receiver.value), m)]
    ensures m.receiver.Some? && m.receiver.value !in s.online.entries
            && GroupManager.GetGroupByName(s.groups, m.receiver) == Returned(None) ==>
              !e.fault && e.out == []
    ensures m.receiver.Some? && m.receiver.value !in s.online.entries
            && GroupManager.GetGroupByName(s.groups, m.receiver).Threw? ==>
              e.fault && e.out == []
    ensures m.receiver.Some? && m.receiver.value !in s.online.entries ==>
              forall id | id in s.groups.entries && GroupManager.GetGroupByName(s.groups, m.receiver) == Returned(Some(s.groups.entries[id])) ::
                FansOutTo(e, s.groups.entries[id].members, sender, s.online, m)
    ensures forall d | d in e.out :: d.to.User? && d.msg == m
  {
    match m.receiver
    case None => Emit([], true)
    case Some(t) =>
      if OnlineUserManager.IsUserOnline(s.online, t) then Emit([Delivery(User(t), m)], false)
      else
        match GroupManager.GetGroupByName(s.groups, m.receiver)
        case Threw => Emit([], true)
        case Returned(None) => Emit([], false)
        case Returned(Some(g)) => FanOut(g.members, sender, s.online, m)
  }

  /** The reply text of `handleCreateGroup`. */
  function CreatedText(name: Option<string>, id: string): string {
    "创建群组[" + Show(name) + "]成功！群ID：" + id
  }

  /** `handleCreateGroup`: a new group named by `content` (no emptiness check) holding
      just the sender, a reply carrying its id, then the group list to everybody. */
  function HandleCreateGroup(s: State, m: Message, sender: Option<string>, newId: string): (e: Effect)
    requires Valid(s) && newId !in s.groups.entries
    ensures Valid(e.state) && !e.fault
    ensures e.state.accounts == s.accounts && e.state.online == s.online
    ensures e.state.groups.entries.Keys == s.groups.entries.Keys + {newId}
    ensures forall id | id in s.groups.entries :: e.state.groups.entries[id] == s.groups.entries[id]
    ensures e.state.groups.entries[newId] == Group(newId, m.content, [sender])
    ensures e.out == Reply(Notice(GroupChat, sender, CreatedText(m.content, newId)))
                     + BroadcastService.BroadcastGroupList(s.online, e.state.groups)
  {
    var g1 := GroupManager.CreateGroup(s.groups, m.content, newId);
    var g2 := GroupManager.JoinGroup(g1, newId, sender).0;
    assert g2.entries[newId] == AddMember(g1.entries[newId], sender);
    assert g1.entries[newId].members == [];
    Effect(s.(groups := g2),
           Reply(Notice(GroupChat, sender, CreatedText(m.content, newId)))
           + BroadcastService.BroadcastGroupList(s.online, g2),
           false)
  }

  /** One "- name (ID: id)" line per hit. */
  function HitLines(hits: seq<Group>): string {
    if |hits| == 0 then ""
    else "- " + Show(hits[0].name) + " (ID: " + hits[0].id + ")\n" + HitLines(hits[1..])
  }

  /** The reply text of `handleSearchGroup`. */
  function SearchText(keyword: Option<string>, hits: seq<Group>): string {
    if |hits| == 0 then "未找到包含[" + Show(keyword) + "]的群组"
    else "找到以下群组：\n" + HitLines(hits)
  }

  /** `handleSearchGroup`: keyword search over the names; one reply to the requester
      and nothing else. */
  function HandleSearchGroup(s: State, m: Message): (e: Emit)
    requires Valid(s)
    ensures e.fault <==> GroupManager.SearchGroups(s.groups, m.content).Threw?
    ensures e.fault ==> e.out == []
    ensures !e.fault ==> |e.out| == 1 && e.out[0].to == Requester
    ensures !e.fault ==> e.out[0].msg == Notice(GroupChat, Some(""),
              SearchText(m.content, GroupManager.SearchGroups(s.groups, m.content).value))
  {
    match GroupManager.SearchGroups(s.groups, m.content)
    case Threw => Emit([], true)
    case Returned(hits) => Emit(Reply(Notice(GroupChat, Some(""), SearchText(m.content, hits))), false)
  }

  const JoinFailed := "加入群组失败，群组不存在！"

  /** `handleJoinGroup`: succeeds iff the group id in `receiver` exists. There is no
      "already a member" outcome and no group-list broadcast. */
  function HandleJoinGroup(s: State, m: Message, sender: Option<string>): (e: Effect)
    requires Valid(s)
    ensures Valid(e.state)
    ensures e.state.accounts == s.accounts && e.state.online == s.online
    ensures e.state.groups.entries.Keys == s.groups.entries.Keys
    ensures m.receiver.None? ==> e.fault && e.state == s && e.out == []
    ensures m.receiver.Some? && m.receiver.value !in s.groups.entries ==>
              !e.fault && e.state == s && e.out == Reply(Notice(GroupChat, sender, JoinFailed))
    ensures m.receiver.Some? && m.receiver.value in s.groups.entries ==>
              && !e.fault
              && sender in e.state.groups.entries[m.receiver.value].members
              && e.state.groups.entries[m.receiver.value] == AddMember(s.groups.entries[m.receiver.value], sender)
              && (forall id | id in s.groups.entries && id != m.receiver.value ::
                    e.state.groups.entries[id] == s.groups.entries[id])
              && e.out == Reply(Notice(GroupChat, sender,
                   "成功加入群组[" + Show(s.groups.entries[m.receiver.value].name) + "]！"))
  {
    match m.receiver
    case None => Effect(s, [], true)
    case Some(id) =>
      var (g', ok) := GroupManager.JoinGroup(s.groups, id, sender);
      if ok then
        Effect(s.(groups := g'),
               Reply(Notice(GroupChat, sender, "成功加入群组[" + Show(g'.entries[id].name) + "]！")), false)
      else
        Effect(s, Reply(Notice(GroupChat, sender, JoinFailed)), false)
  }
}
