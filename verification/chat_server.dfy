/** `server.ChatServer`, the monolithic server with its nested `ClientHandler`. It keeps
    the same three maps as the refactored server, so it is modelled over the same
    `State`; the handlers that behave exactly like the refactored ones (register, find
    and reset password, private chat and file, teardown, the broadcasts) are reused, and
    only the handlers whose behaviour differs are written out here. */
module ChatServer {
  import opened Wrappers
  import opened JavaString
  import opened Groups
  import opened Messages
  import opened ServerState
  import UserManager
  import OnlineUserManager
  import GroupManager
  import BroadcastService
  import MessageHandler
  import ClientHandler

  /** The login's `filter(...).findFirst().get()` followed by `addMember`: unlike the
      refactored lookup, a missing default group throws. */
  function JoinDefaultGroup(g: GroupManager.Store, a: string): (r: Call<GroupManager.Store>)
    requires GroupManager.Valid(g)
    ensures r.Threw? ==> GroupManager.HasNullName(g) || !GroupManager.HasDefaultGroup(g)
    ensures !GroupManager.HasNullName(g) ==> (r.Returned? <==> GroupManager.HasDefaultGroup(g))
    ensures r.Returned? ==>
              && GroupManager.Valid(r.value)
              && r.value.entries.Keys == g.entries.Keys
              && ClientHandler.JoinedDefault(g, r.value, a)
  {
    match GroupManager.GetDefaultGroup(g)
    case Threw => Threw
    case Returned(None) => Threw
    case Returned(Some(dg)) =>
      var g' := GroupManager.JoinGroup(g, dg.id, Some(a)).0;
      assert g'.entries == g.entries[dg.id := AddMember(g.entries[dg.id], Some(a))];
      Returned(g')
  }

  /** The successful branch of the monolithic login. */
  function Admit(s: State, ses: Session, a: string): (r: Step)
    requires Valid(s) && a in s.accounts && a !in s.online.entries
    ensures Valid(r.state)
    ensures r.state.accounts == s.accounts && r.username == Some(a)
    ensures r.state.online.entries == s.online.entries[a := ses.channel]
    ensures r.fault ==> r.out == [] && r.state.groups == s.groups
    ensures r.fault <==> JoinDefaultGroup(s.groups, a).Threw?
    ensures !r.fault ==>
              && r.out == ClientHandler.Welcome(r.state, a)
              && r.state.groups.entries.Keys == s.groups.entries.Keys
              && ClientHandler.JoinedDefault(s.groups, r.state.groups, a)
  {
    var s1 := ClientHandler.Enter(s, ses, a);
    match JoinDefaultGroup(s.groups, a)
    case Threw => Step(s1, Some(a), [], true)
    case Returned(groups') =>
      var s' := s1.(groups := groups');
      assert Valid(s');
      Step(s', Some(a), ClientHandler.Welcome(s', a), false)
  }

  /** The monolithic login keeps every step's guarantees. */
  lemma AdmitPreserves(s: State, ses: Session, a: string)
    requires Valid(s) && a in s.accounts && a !in s.online.entries
    ensures Preserves(s, ses, Admit(s, ses, a))
  {
  }

  /** `handleLoginWithAuth` of the monolithic server: the same three checks and replies
      as the refactored one; on success the account goes online before the default
      group is looked up, so a server without a default group leaves the account online
      on a dead connection. */
  function HandleLoginWithAuth(s: State, ses: Session, m: Message): (r: Step)
    requires Valid(s)
    ensures Preserves(s, ses, r)
    ensures r.state.accounts == s.accounts
    ensures r.username != ses.username ==>
              r.username.Some? && r.username.value in r.state.online.entries
              && r.state.online.entries[r.username.value] == ses.channel
    ensures m.sender.None? ==> r == Step(s, ses.username, [], true)
    ensures m.sender.Some? && !ClientHandler.LoginAccepted(s, m) ==>
              r == Step(s, ses.username,
                        Reply(Notice(Login, m.sender, ClientHandler.LoginRefusal(s, m.sender.value, m.password))), false)
    ensures ClientHandler.LoginAccepted(s, m) ==>
              && r.username == m.sender
              && r.state.online.entries == s.online.entries[m.sender.value := ses.channel]
    ensures ClientHandler.LoginAccepted(s, m) && !GroupManager.HasNullName(s.groups) ==>
              (r.fault <==> !GroupManager.HasDefaultGroup(s.groups))
    ensures ClientHandler.LoginAccepted(s, m) && r.fault ==> r.out == [] && r.state.groups == s.groups
    ensures ClientHandler.LoginAccepted(s, m) && !r.fault ==>
              && r.out == ClientHandler.Welcome(r.state, m.sender.value)
              && r.state.groups.entries.Keys == s.groups.entries.Keys
              && ClientHandler.JoinedDefault(s.groups, r.state.groups, m.sender.value)
  {
    if m.sender.None? then Step(s, ses.username, [], true)
    else if !ClientHandler.LoginAccepted(s, m) then
      Step(s, ses.username, Reply(Notice(Login, m.sender, ClientHandler.LoginRefusal(s, m.sender.value, m.password))), false)
    else
      AdmitPreserves(s, ses, m.sender.value);
      Admit(s, ses, m.sender.value)
  }

  /** The notice for an unknown group: the source concatenates the `null` lookup result
      rather than the requested id, so it always names the group "null". */
  const GroupMissing := "群组 " + Show(None) + " 不存在！"

  /** `handleGroupChat` of the monolithic server: the same fan-out as the refactored
      one; an unknown group id gets the fixed notice `GroupMissing`. */
  function HandleGroupChat(s: State, m: Message, sender: Option<string>): (e: Emit)
    requires Valid(s)
    ensures m.receiver.None? ==> e.fault && e.out == []
    ensures m.receiver.Some? && m.receiver.value !in s.groups.entries ==>
              !e.fault && e.out == Reply(Notice(GroupChat, sender, GroupMissing))
    ensures m.receiver.Some? && m.receiver.value in s.groups.entries ==>
              MessageHandler.FansOutTo(e, s.groups.entries[m.receiver.value].members, sender, s.online,
                                       Text(GroupChat, m.sender, m.receiver, m.content))
  {
    match m.receiver
    case None => Emit([], true)
    case Some(id) =>
      match GroupManager.GetGroupById(s.groups, id)
      case None => Emit(Reply(Notice(GroupChat, sender, GroupMissing)), false)
      case Some(g) => MessageHandler.FanOut(g.members, sender, s.online, Text(GroupChat, m.sender, m.receiver, m.content))
  }

  /** `sendOnlineUsers`: the online list goes back on the requester's own stream, so it
      works before login too. */
  function SendOnlineUsers(s: State): (e: Emit)
    requires Valid(s)
    ensures !e.fault && |e.out| == 1 && e.out[0].to == Requester
    ensures e.out[0].msg.kind == OnlineUsers && e.out[0].msg.onlineUsers.Some?
    ensures forall u :: u in e.out[0].msg.onlineUsers.value <==> u in s.online.entries
  {
    Emit(Reply(BroadcastService.OnlineUsersMessage(s.online)), false)
  }

  /** `handleGroupFile` of the monolithic server: the group is looked up by ID (the
      `receiver` field), and the file message fans out unchanged. */
  function HandleGroupFile(s: State, m: Message, sender: Option<string>): (e: Emit)
    requires Valid(s)
    ensures m.receiver.None? ==> e.fault && e.out == []
    ensures m.receiver.Some? && m.receiver.value !in s.groups.entries ==>
              && !e.fault
              && e.out == Reply(Notice(GroupChat, sender, "群组 " + m.receiver.value + " 不存在，文件发送失败！"))
    ensures m.receiver.Some? && m.receiver.value in s.groups.entries ==>
              MessageHandler.FansOutTo(e, s.groups.entries[m.receiver.value].members, sender, s.online, m)
  {
    match m.receiver
    case None => Emit([], true)
    case Some(id) =>
      match GroupManager.GetGroupById(s.groups, id)
      case None => Emit(Reply(Notice(GroupChat, sender, "群组 " + id + " 不存在，文件发送失败！")), false)
      case Some(g) => MessageHandler.FanOut(g.members, sender, s.online, m)
  }

  /** `handleShake` of the monolithic server: an online user first, then a group ID;
      a target that is neither gets a notice back. */
  function HandleShake(s: State, m: Message, sender: Option<string>): (e: Emit)
    requires Valid(s)
    ensures m.receiver.None? ==> e.fault && e.out == []
    ensures m.receiver.Some? && m.receiver.value in s.online.entries ==>
              !e.fault && e.out == [Delivery(User(m.receiver.value), m)]
    ensures m.receiver.Some? && m.receiver.value !in s.online.entries && m.receiver.value in s.groups.entries ==>
              MessageHandler.FansOutTo(e, s.groups.entries[m.receiver.value].members, sender, s.online, m)
    ensures m.receiver.Some? && m.receiver.value !in s.online.entries && m.receiver.value !in s.groups.entries ==>
              && !e.fault
              && e.out == Reply(Notice(PrivateChat, sender, "目标 " + m.receiver.value + " 不存在，抖动发送失败！"))
  {
    match m.receiver
    case None => Emit([], true)
    case Some(t) =>
      if OnlineUserManager.IsUserOnline(s.online, t) then Emit([Delivery(User(t), m)], false)
      else if t in s.groups.entries then MessageHandler.FanOut(s.groups.entries[t].members, sender, s.online, m)
      else Emit(Reply(Notice(PrivateChat, sender, "目标 " + t + " 不存在，抖动发送失败！")), false)
  }

  const NameRequired := "群名称不能为空！"

  /** The reply text of a successful monolithic `handleCreateGroup`. */
  function CreatedText(id: string, name: string): string {
    "群聊创建成功！群ID：" + id + "，群名：" + name
  }

  /** `handleCreateGroup` of the monolithic server: the name comes from `groupName` and
      must be non-empty; the new group holds just the creator, and the group list goes
      to everybody online. */
  function HandleCreateGroup(s: State, m: Message, sender: Option<string>, newId: string): (e: Effect)
    requires Valid(s) && newId !in s.groups.entries
    ensures Valid(e.state) && !e.fault
    ensures e.state.accounts == s.accounts && e.state.online == s.online
    ensures NullOrEmpty(m.groupName) ==> e.state == s && e.out == Reply(Notice(CreateGroup, sender, NameRequired))
    ensures !NullOrEmpty(m.groupName) ==>
              && e.state.groups.entries.Keys == s.groups.entries.Keys + {newId}
              && (forall id | id in s.groups.entries :: e.state.groups.entries[id] == s.groups.entries[id])
              && e.state.groups.entries[newId] == Group(newId, m.groupName, [sender])
              && e.out == Reply(Notice(CreateGroup, sender, CreatedText(newId, m.groupName.value)))
                          + BroadcastService.BroadcastGroupList(s.online, e.state.groups)
  {
    if NullOrEmpty(m.groupName) then Effect(s, Reply(Notice(CreateGroup, sender, NameRequired)), false)
    else
      var g1 := GroupManager.CreateGroup(s.groups, m.groupName, newId);
      var g2 := GroupManager.JoinGroup(g1, newId, sender).0;
      assert g2.entries[newId] == AddMember(g1.entries[newId], sender);
      assert g1.entries[newId].members == [];
      Effect(s.(groups := g2),
             Reply(Notice(CreateGroup, sender, CreatedText(newId, m.groupName.value)))
             + BroadcastService.BroadcastGroupList(s.online, g2),
             false)
  }

  /** The reply text of the monolithic `handleSearchGroup`. */
  function FoundText(id: string, g: Option<Group>): string {
    match g
    case None => "未找到群ID为" + id + "的群聊！"
    case Some(x) => "找到群聊：" + Show(x.name) + "（群ID：" + id + "）"
  }

  /** `handleSearchGroup` of the monolithic server: an exact lookup by the `groupId`
      field, answered with one reply. */
  function HandleSearchGroup(s: State, m: Message, sender: Option<string>): (e: Emit)
    requires Valid(s)
    ensures e.fault <==> m.groupId.None?
    ensures e.fault ==> e.out == []
    ensures m.groupId.Some? && m.groupId.value !in s.groups.entries ==>
              e.out == Reply(Notice(SearchGroup, sender, "未找到群ID为" + m.groupId.value + "的群聊！"))
    ensures m.groupId.Some? && m.groupId.value in s.groups.entries ==>
              e.out == Reply(Notice(SearchGroup, sender,
                "找到群聊：" + Show(s.groups.entries[m.groupId.value].name) + "（群ID：" + m.groupId.value + "）"))
  {
    match m.groupId
    case None => Emit([], true)
    case Some(id) => Emit(Reply(Notice(SearchGroup, sender, FoundText(id, GroupManager.GetGroupById(s.groups, id)))), false)
  }

  const JoinNoGroup := "群ID不存在，加入失败！"
  const JoinAlready := "你已加入该群聊，无需重复加入！"

  /** The reply text of a successful monolithic `handleJoinGroup`. */
  function JoinedText(id: string, name: Option<string>): string {
    "成功加入群聊：" + Show(name) + "（群ID：" + id + "）"
  }

  /** `handleJoinGroup` of the monolithic server: the group comes from the `groupId`
      field; an unknown id and an existing membership each get a refusal that changes
      nothing; otherwise the requester is added and the group list goes to everybody. */
  function HandleJoinGroup(s: State, m: Message, sender: Option<string>): (e: Effect)
    requires Valid(s)
    ensures Valid(e.state)
    ensures e.state.accounts == s.accounts && e.state.online == s.online
    ensures e.state.groups.entries.Keys == s.groups.entries.Keys
    ensures m.groupId.None? ==> e.fault && e.state == s && e.out == []
    ensures m.groupId.Some? && m.groupId.value !in s.groups.entries ==>
              !e.fault && e.state == s && e.out == Reply(Notice(JoinGroup, sender, JoinNoGroup))
    ensures m.groupId.Some? && m.groupId.value in s.groups.entries && sender in s.groups.entries[m.groupId.value].members ==>
              !e.fault && e.state == s && e.out == Reply(Notice(JoinGroup, sender, JoinAlready))
    ensures m.groupId.Some? && m.groupId.value in s.groups.entries && sender !in s.groups.entries[m.groupId.value].members ==>
              && !e.fault
              && e.state.groups.entries[m.groupId.value].members == s.groups.entries[m.groupId.value].members + [sender]
              && e.state.groups.entries[m.groupId.value].name == s.groups.entries[m.groupId.value].name
              && (forall id | id in s.groups.entries && id != m.groupId.value ::
                    e.state.groups.entries[id] == s.groups.entries[id])
              && e.out == Reply(Notice(JoinGroup, sender, JoinedText(m.groupId.value, s.groups.entries[m.groupId.value].name)))
                          + BroadcastService.BroadcastGroupList(s.online, e.state.groups)
  {
    match m.groupId
    case None => Effect(s, [], true)
    case Some(id) =>
      match GroupManager.GetGroupById(s.groups, id)
      case None => Effect(s, Reply(Notice(JoinGroup, sender, JoinNoGroup)), false)
      case Some(g) =>
        if sender in g.members then Effect(s, Reply(Notice(JoinGroup, sender, JoinAlready)), false)
        else
          var g' := GroupManager.JoinGroup(s.groups, id, sender).0;
          var joined := g'.entries[id];
          assert joined.members == g.members + [sender] by {
            assert joined == AddMember(g, sender);
            assert joined.members[..|g.members|] == g.members;
          }
          Effect(s.(groups := g'),
                 Reply(Notice(JoinGroup, sender, JoinedText(id, g.name)))
                 + BroadcastService.BroadcastGroupList(s.online, g'),
                 false)
  }

  /** The `switch` in the monolithic `run`, with the same guarantees as the refactored
      dispatch. */
  function Handle(s: State, ses: Session, m: Message, newId: string): (r: Step)
    requires Valid(s) && newId !in s.groups.entries
    ensures Preserves(s, ses, r)
    ensures m.kind != Login ==> r.username == ses.username
    ensures r.username != ses.username ==>
              r.username.Some? && r.username.value in r.state.online.entries
              && r.state.online.entries[r.username.value] == ses.channel
    ensures !Handled(m.kind) ==> r == Step(s, ses.username, [], false)
    ensures m.kind !in {Register, ResetPassword} ==> r.state.accounts == s.accounts
    ensures m.kind !in {Login, CreateGroup, JoinGroup} ==> r.state.groups == s.groups
    ensures m.kind == Register ==>
              var (a', reply) := UserManager.HandleRegister(s.accounts, m);
              r == Step(s.(accounts := a'), ses.username, Reply(reply), false)
    ensures m.kind == Login ==> r == HandleLoginWithAuth(s, ses, m)
    ensures m.kind == FindPassword ==>
              r == Step(s, ses.username, Reply(UserManager.HandleFindPassword(s.accounts, m)), false)
    ensures m.kind == ResetPassword ==>
              var (a', reply) := UserManager.HandleResetPassword(s.accounts, m);
              r == Step(s.(accounts := a'), ses.username, Reply(reply), false)
    ensures m.kind == PrivateChat ==> r == Read(s, ses.username, MessageHandler.HandlePrivateChat(s, m, ses.username))
    ensures m.kind == GroupChat ==> r == Read(s, ses.username, HandleGroupChat(s, m, ses.username))
    ensures m.kind == GetOnlineUsers ==> r == Read(s, ses.username, SendOnlineUsers(s))
    ensures m.kind == FilePrivate ==> r == Read(s, ses.username, MessageHandler.HandlePrivateFile(s, m, ses.username))
    ensures m.kind == FileGroup ==> r == Read(s, ses.username, HandleGroupFile(s, m, ses.username))
    ensures m.kind == Shake ==> r == Read(s, ses.username, HandleShake(s, m, ses.username))
    ensures m.kind == CreateGroup ==> r == Write(ses.username, HandleCreateGroup(s, m, ses.username, newId))
    ensures m.kind == SearchGroup ==> r == Read(s, ses.username, HandleSearchGroup(s, m, ses.username))
    ensures m.kind == JoinGroup ==> r == Write(ses.username, HandleJoinGroup(s, m, ses.username))
  {
    var u := ses.username;
    match m.kind
    case Register =>
      var (a', reply) := UserManager.HandleRegister(s.accounts, m);
      Step(s.(accounts := a'), u, Reply(reply), false)
    case Login => HandleLoginWithAuth(s, ses, m)
    case FindPassword => Step(s, u, Reply(UserManager.HandleFindPassword(s.accounts, m)), false)
    case ResetPassword =>
      var (a', reply) := UserManager.HandleResetPassword(s.accounts, m);
      Step(s.(accounts := a'), u, Reply(reply), false)
    case PrivateChat => Read(s, u, MessageHandler.HandlePrivateChat(s, m, u))
    case GroupChat => Read(s, u, HandleGroupChat(s, m, u))
    case GetOnlineUsers => Read(s, u, SendOnlineUsers(s))
    case FilePrivate => Read(s, u, MessageHandler.HandlePrivateFile(s, m, u))
    case FileGroup => Read(s, u, HandleGroupFile(s, m, u))
    case Shake => Read(s, u, HandleShake(s, m, u))
    case CreateGroup => Write(u, HandleCreateGroup(s, m, u, newId))
    case SearchGroup => Read(s, u, HandleSearchGroup(s, m, u))
    case JoinGroup => Write(u, HandleJoinGroup(s, m, u))
    case _ => Step(s, u, [], false)
  }
}
