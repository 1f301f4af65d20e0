/** `server.handlers.ClientHandler` of the refactored server: the per-connection
    dispatch loop, login and teardown. Requests are dispatched whether or not the
    connection has logged in; before login the handlers see a `null` username. */
module ClientHandler {
  import opened Wrappers
  import opened Seqs
  import opened Groups
  import opened Messages
  import opened ServerState
  import Tables
  import UserManager
  import OnlineUserManager
  import GroupManager
  import BroadcastService
  import MessageHandler

  const NotRegistered := "账号未注册，请先注册！"
  const WrongPassword := "密码错误，请重新输入！"
  const AlreadyOnline := "账号已登录，请勿重复登录！"
  const LoginOk := "登录成功！"

  /** The three login checks, in order: registered, password, not already online. */
  predicate LoginAccepted(s: State, m: Message) {
    && m.sender.Some?
    && UserManager.AccountExists(s.accounts, m.sender.value)
    && UserManager.VerifyPassword(s.accounts, m.sender.value, m.password)
    && !OnlineUserManager.IsUserOnline(s.online, m.sender.value)
  }

  /** The rejection text a refused login gets, checked in the source's order. */
  function LoginRefusal(s: State, a: string, password: Option<string>): string {
    if !UserManager.AccountExists(s.accounts, a) then NotRegistered
    else if !UserManager.VerifyPassword(s.accounts, a, password) then WrongPassword
    else AlreadyOnline
  }

  /** The four messages of a successful login, in the order they are written: the reply,
      then the online notice, the online list and the group list to everybody online. */
  function Welcome(s: State, a: string): seq<Delivery>
    requires Valid(s)
  {
    Reply(Notice(Login, Some(a), LoginOk))
    + BroadcastService.BroadcastOnlineNotify(s.online, a)
    + BroadcastService.BroadcastOnlineUsers(s.online)
    + BroadcastService.BroadcastGroupList(s.online, s.groups)
  }

  /** Some group with the default name has `a` as a member. */
  ghost predicate InDefaultGroup(g: GroupManager.Store, a: string) {
    exists id | id in g.entries ::
      g.entries[id].name == Some(GroupManager.DefaultGroupName) && Some(a) in g.entries[id].members
  }

  /** `g'` is `g` with `a` appended, by `addMember`, to one group that carries the
      default name; every other group, and the iteration order, are as they were. */
  ghost predicate JoinedDefault(g: GroupManager.Store, g': GroupManager.Store, a: string) {
    && g'.order == g.order
    && exists dg | dg in g.entries ::
         && g.entries[dg].name == Some(GroupManager.DefaultGroupName)
         && g'.entries == g.entries[dg := AddMember(g.entries[dg], Some(a))]
  }

  /** Joining the default group makes `a` a member of a group with the default name. */
  lemma JoinedDefaultIsMember(g: GroupManager.Store, g': GroupManager.Store, a: string)
    requires JoinedDefault(g, g', a)
    ensures InDefaultGroup(g', a)
    ensures g'.entries.Keys == g.entries.Keys
  {
    var dg :| dg in g.entries && g.entries[dg].name == Some(GroupManager.DefaultGroupName)
              && g'.entries == g.entries[dg := AddMember(g.entries[dg], Some(a))];
    assert g'.entries[dg].name == Some(GroupManager.DefaultGroupName) && Some(a) in g'.entries[dg].members;
  }

  /** `getDefaultGroup()` then `addMember` on the group found, if any; a store without a
      default group is left as it is. */
  function JoinDefaultGroup(g: GroupManager.Store, a: string): (r: Call<GroupManager.Store>)
    requires GroupManager.Valid(g)
    ensures r.Threw? ==> GroupManager.HasNullName(g)
    ensures r.Returned? ==> GroupManager.Valid(r.value) && r.value.entries.Keys == g.entries.Keys
    ensures !GroupManager.HasNullName(g) ==> r.Returned?
    ensures r.Returned? && GroupManager.HasDefaultGroup(g) ==> JoinedDefault(g, r.value, a)
    ensures r.Returned? && !GroupManager.HasDefaultGroup(g) ==> r.value == g
    ensures GroupManager.HasNullName(g) && !GroupManager.HasDefaultGroup(g) ==> r.Threw?
  {
    match GroupManager.GetDefaultGroup(g)
    case Threw => Threw
    case Returned(None) => Returned(g)
    case Returned(Some(dg)) =>
      var g' := GroupManager.JoinGroup(g, dg.id, Some(a)).0;
      assert g'.entries == g.entries[dg.id := AddMember(g.entries[dg.id], Some(a))];
      Returned(g')
  }

  /** `addUser` as a login does it: the account goes online on this connection, and
      every other entry of the presence registry is left as it was. */
  function Enter(s: State, ses: Session, a: string): (s': State)
    requires Valid(s) && a in s.accounts
    ensures Valid(s') && s'.accounts == s.accounts && s'.groups == s.groups
    ensures s'.online.entries == s.online.entries[a := ses.channel]
  {
    var online' := OnlineUserManager.AddUser(s.online, a, ses.channel);
    assert online'.entries == s.online.entries[a := ses.channel] by {
      forall v ensures v in online'.entries <==> v in s.online.entries[a := ses.channel] {
        if v != a {
          assert OnlineUserManager.GetUserOutputStream(online', v) == OnlineUserManager.GetUserOutputStream(s.online, v);
        }
      }
      forall v | v in online'.entries ensures online'.entries[v] == s.online.entries[a := ses.channel][v] {
        assert OnlineUserManager.GetUserOutputStream(online', v) == Some(online'.entries[v]);
        if v != a {
          assert OnlineUserManager.GetUserOutputStream(online', v) == OnlineUserManager.GetUserOutputStream(s.online, v);
        }
      }
    }
    s.(online := online')
  }

  /** The successful branch of a login. */
  function Admit(s: State, ses: Session, a: string): (r: Step)
    requires Valid(s) && a in s.accounts && a !in s.online.entries
    ensures Valid(r.state)
    ensures r.state.accounts == s.accounts && r.username == Some(a)
    ensures r.state.online.entries == s.online.entries[a := ses.channel]
    ensures r.fault ==> GroupManager.HasNullName(s.groups)
    ensures r.fault ==> r.out == [] && r.state.groups == s.groups
    ensures GroupManager.HasNullName(s.groups) && !GroupManager.HasDefaultGroup(s.groups) ==> r.fault
    ensures !r.fault ==> r.out == Welcome(r.state, a) && r.state.groups.entries.Keys == s.groups.entries.Keys
    ensures !r.fault && GroupManager.HasDefaultGroup(s.groups) ==> JoinedDefault(s.groups, r.state.groups, a)
    ensures !r.fault && !GroupManager.HasDefaultGroup(s.groups) ==> r.state.groups == s.groups
  {
    var s1 := Enter(s, ses, a);
    match JoinDefaultGroup(s.groups, a)
    case Threw => Step(s1, Some(a), [], true)
    case Returned(groups') =>
      var s' := s1.(groups := groups');
      assert Valid(s');
      Step(s', Some(a), Welcome(s', a), false)
  }

  /** A login keeps every step's guarantees: it only adds its own account to the
      presence registry, on its own connection. */
  lemma AdmitPreserves(s: State, ses: Session, a: string)
    requires Valid(s) && a in s.accounts && a !in s.online.entries
    ensures Preserves(s, ses, Admit(s, ses, a))
  {
    var r := Admit(s, ses, a);
    assert s.groups.entries.Keys <= r.state.groups.entries.Keys by {
      if !r.fault { } else { assert r.state.groups == s.groups; }
    }
  }

  /** `handleLoginWithAuth`. A refusal writes one LOGIN reply and changes nothing, not
      even the connection's username. Success binds the username, puts the account
      online on this connection and adds it to the default group. A `null` account
      throws in the first map lookup. */
  function HandleLoginWithAuth(s: State, ses: Session, m: Message): (r: Step)
    requires Valid(s)
    ensures Preserves(s, ses, r)
    ensures r.state.accounts == s.accounts
    ensures r.username != ses.username ==>
              r.username.Some? && r.username.value in r.state.online.entries
              && r.state.online.entries[r.username.value] == ses.channel
    ensures m.sender.None? ==> r == Step(s, ses.username, [], true)
    ensures m.sender.Some? && !LoginAccepted(s, m) ==>
              r == Step(s, ses.username, Reply(Notice(Login, m.sender, LoginRefusal(s, m.sender.value, m.password))), false)
    ensures LoginAccepted(s, m) ==>
              && r.username == m.sender
              && r.state.online.entries == s.online.entries[m.sender.value := ses.channel]
    ensures LoginAccepted(s, m) && !GroupManager.HasNullName(s.groups) ==>
              && !r.fault
              && r.out == Welcome(r.state, m.sender.value)
              && r.state.groups.entries.Keys == s.groups.entries.Keys
    ensures LoginAccepted(s, m) && r.fault ==> r.out == [] && r.state.groups == s.groups
    ensures LoginAccepted(s, m) && !r.fault ==> r.out == Welcome(r.state, m.sender.value)
    ensures LoginAccepted(s, m) && GroupManager.HasNullName(s.groups) && !GroupManager.HasDefaultGroup(s.groups) ==>
              r.fault
    ensures LoginAccepted(s, m) && !r.fault && GroupManager.HasDefaultGroup(s.groups) ==>
              JoinedDefault(s.groups, r.state.groups, m.sender.value)
    ensures LoginAccepted(s, m) && !r.fault && !GroupManager.HasDefaultGroup(s.groups) ==>
              r.state.groups == s.groups
  {
    if m.sender.None? then Step(s, ses.username, [], true)
    else if !LoginAccepted(s, m) then
      Step(s, ses.username, Reply(Notice(Login, m.sender, LoginRefusal(s, m.sender.value, m.password))), false)
    else
      AdmitPreserves(s, ses, m.sender.value);
      Admit(s, ses, m.sender.value)
  }

  /** `handleDisconnect`. A bound, online user is taken offline and out of every group,
      then the offline notice, the online list and the group list go to the users who
      remain. Otherwise nothing changes and nothing is sent. */
  function HandleDisconnect(s: State, u: Option<string>): (e: Effect)
    requires Valid(s)
    ensures Valid(e.state) && !e.fault
    ensures e.state.accounts == s.accounts
    ensures e.state.groups.entries.Keys == s.groups.entries.Keys
    ensures u.None? || u.value !in s.online.entries ==> e.state == s && e.out == []
    ensures u.Some? && u.value in s.online.entries ==>
              && !OnlineUserManager.IsUserOnline(e.state.online, u.value)
              && (forall v | v != u.value ::
                    OnlineUserManager.GetUserOutputStream(e.state.online, v) == OnlineUserManager.GetUserOutputStream(s.online, v))
              && (forall id | id in e.state.groups.entries :: u !in e.state.groups.entries[id].members)
              && (forall id, v | id in e.state.groups.entries && v != u ::
                    v in e.state.groups.entries[id].members <==> v in s.groups.entries[id].members)
              && e.state.groups.order == s.groups.order
              && (forall id | id in s.groups.entries ::
                    e.state.groups.entries[id] == RemoveMember(s.groups.entries[id], u))
              && (forall d | d in e.out :: d.to.User? && d.to.name != u.value && d.to.name in s.online.entries)
              && e.out == BroadcastService.BroadcastOfflineNotify(e.state.online, u.value)
                          + BroadcastService.BroadcastOnlineUsers(e.state.online)
                          + BroadcastService.BroadcastGroupList(e.state.online, e.state.groups)
  {
    if u.Some? && OnlineUserManager.IsUserOnline(s.online, u.value) then
      var online' := OnlineUserManager.RemoveUser(s.online, u.value);
      var groups' := GroupManager.RemoveUserFromAllGroups(s.groups, u.value);
      var s' := State(s.accounts, online', groups');
      Effect(s',
             BroadcastService.BroadcastOfflineNotify(online', u.value)
             + BroadcastService.BroadcastOnlineUsers(online')
             + BroadcastService.BroadcastGroupList(online', groups'),
             false)
    else
      Effect(s, [], false)
  }

  /** A second teardown right after the first changes nothing and sends nothing. */
  lemma DisconnectTwiceIsOnce(s: State, u: Option<string>)
    requires Valid(s)
    ensures HandleDisconnect(HandleDisconnect(s, u).state, u)
              == Effect(HandleDisconnect(s, u).state, [], false)
  {
  }

  /** The `switch` in `run`: each handled type goes to its one handler with the
      connection's current username; any other type is only logged. */
  function Handle(s: State, ses: Session, m: Message, newId: string): (r: Step)
    requires Valid(s) && newId !in s.groups.entries
    ensures Preserves(s, ses, r)
    ensures m.kind != Login ==> r.username == ses.username
    ensures r.username != ses.username ==>
              r.username.Some? && r.username.value in r.state.online.entries
              && r.state.online.entries[r.username.value] == ses.channel
    ensures !Handled(m.kind) ==> r == Step(s, ses.username, [], false)
    ensures m.kind !in {Register, ResetPassword} ==> r.state.accounts == s.accounts
    ensures m.kind !in {Login, CreateGroup, JoinGroup} ==> r.state.groups == s.groups
    ensures m.kind == Register ==>
              var (a', reply) := UserManager.HandleRegister(s.accounts, m);
              r == Step(s.(accounts := a'), ses.username, Reply(reply), false)
    ensures m.kind == Login ==> r == HandleLoginWithAuth(s, ses, m)
    ensures m.kind == FindPassword ==>
              r == Step(s, ses.username, Reply(UserManager.HandleFindPassword(s.accounts, m)), false)
    ensures m.kind == ResetPassword ==>
              var (a', reply) := UserManager.HandleResetPassword(s.accounts, m);
              r == Step(s.(accounts := a'), ses.username, Reply(reply), false)
    ensures m.kind == PrivateChat ==> r == Read(s, ses.username, MessageHandler.HandlePrivateChat(s, m, ses.username))
    ensures m.kind == GroupChat ==> r == Read(s, ses.username, MessageHandler.HandleGroupChat(s, m, ses.username))
    ensures m.kind == GetOnlineUsers ==>
              r == Read(s, ses.username, BroadcastService.SendOnlineUsersToUser(s.online, ses.username))
    ensures m.kind == FilePrivate ==> r == Read(s, ses.username, MessageHandler.HandlePrivateFile(s, m, ses.username))
    ensures m.kind == FileGroup ==> r == Read(s, ses.username, MessageHandler.HandleGroupFile(s, m, ses.username))
    ensures m.kind == Shake ==> r == Read(s, ses.username, MessageHandler.HandleShake(s, m, ses.username))
    ensures m.kind == CreateGroup ==> r == Write(ses.username, MessageHandler.HandleCreateGroup(s, m, ses.username, newId))
    ensures m.kind == SearchGroup ==> r == Read(s, ses.username, MessageHandler.HandleSearchGroup(s, m))
    ensures m.kind == JoinGroup ==> r == Write(ses.username, MessageHandler.HandleJoinGroup(s, m, ses.username))
  {
    var u := ses.username;
    match m.kind
    case Register =>
      var (a', reply) := UserManager.HandleRegister(s.accounts, m);
      Step(s.(accounts := a'), u, Reply(reply), false)
    case Login => HandleLoginWithAuth(s, ses, m)
    case FindPassword => Step(s, u, Reply(UserManager.HandleFindPassword(s.accounts, m)), false)
    case ResetPassword =>
      var (a', reply) := UserManager.HandleResetPassword(s.accounts, m);
      Step(s.(accounts := a'), u, Reply(reply), false)
    case PrivateChat => Read(s, u, MessageHandler.HandlePrivateChat(s, m, u))
    case GroupChat => Read(s, u, MessageHandler.HandleGroupChat(s, m, u))
    case GetOnlineUsers => Read(s, u, BroadcastService.SendOnlineUsersToUser(s.online, u))
    case FilePrivate => Read(s, u, MessageHandler.HandlePrivateFile(s, m, u))
    case FileGroup => Read(s, u, MessageHandler.HandleGroupFile(s, m, u))
    case Shake => Read(s, u, MessageHandler.HandleShake(s, m, u))
    case CreateGroup => Write(u, MessageHandler.HandleCreateGroup(s, m, u, newId))
    case SearchGroup => Read(s, u, MessageHandler.HandleSearchGroup(s, m))
    case JoinGroup => Write(u, MessageHandler.HandleJoinGroup(s, m, u))
    case _ => Step(s, u, [], false)
  }
}
