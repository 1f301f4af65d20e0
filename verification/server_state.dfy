/** The state both server versions share: the credential store, the presence registry
    and the group store, as one immutable record. */
module ServerState {
  import opened Wrappers
  import opened Messages
  import Tables
  import UserManager
  import OnlineUserManager
  import GroupManager

  datatype State = State(
    accounts: UserManager.Accounts,
    online: OnlineUserManager.Registry,
    groups: GroupManager.Store)

  /** Well-formed stores, and every online user is a registered account. */
  ghost predicate Valid(s: State) {
    && Tables.Valid(s.online)
    && GroupManager.Valid(s.groups)
    && forall u | u in s.online.entries :: u in s.accounts
  }

  /** A state-changing step: the new state, the deliveries written, and whether the step
      ended in an uncaught exception. */
  datatype Effect = Effect(state: State, out: seq<Delivery>, fault: bool)

  /** Server start: no accounts, nobody online, and the default group alone under a
      freshly generated id. */
  function Init(defaultId: string): (s: State)
    ensures Valid(s)
    ensures s.accounts == map[] && s.online.entries == map[]
    ensures s.groups.entries.Keys == {defaultId}
    ensures s.groups.entries[defaultId].name == Some(GroupManager.DefaultGroupName)
    ensures |s.groups.entries[defaultId].members| == 0
  {
    State(map[], OnlineUserManager.NewRegistry(), GroupManager.New(defaultId))
  }

  /** One connection: the channel its handler writes to, and the username bound to it
      (`null` until a login succeeds). */
  datatype Session = Session(channel: OnlineUserManager.Channel, username: Option<string>)

  /** One request handled by a connection: the new state, the connection's username
      afterwards, the deliveries written, and whether the handler thread died. */
  datatype Step = Step(state: State, username: Option<string>, out: seq<Delivery>, fault: bool)

  /** The request types both dispatch loops have a case for; any other type only gets
      logged. */
  predicate Handled(t: Type) {
    t in {Register, Login, FindPassword, ResetPassword, PrivateChat, GroupChat, GetOnlineUsers,
          FilePrivate, FileGroup, Shake, CreateGroup, SearchGroup, JoinGroup}
  }

  /** A read-only handler's deliveries as a step of the connection. */
  function Read(s: State, u: Option<string>, e: Emit): (r: Step)
    ensures r.state == s && r.username == u && r.out == e.out && r.fault == e.fault
  {
    Step(s, u, e.out, e.fault)
  }

  /** A state-changing handler's effect as a step of the connection. */
  function Write(u: Option<string>, e: Effect): (r: Step)
    ensures r.state == e.state && r.username == u && r.out == e.out && r.fault == e.fault
  {
    Step(e.state, u, e.out, e.fault)
  }

  /** What every request step keeps: well-formed stores, no account or group ever
      removed, and the presence registry changed only by adding the requesting
      connection's own new username (nobody else's entry is removed or overwritten). */
  ghost predicate Preserves(s: State, ses: Session, r: Step) {
    && Valid(r.state)
    && s.accounts.Keys <= r.state.accounts.Keys
    && s.groups.entries.Keys <= r.state.groups.entries.Keys
    && (forall v | v in s.online.entries ::
          v in r.state.online.entries && r.state.online.entries[v] == s.online.entries[v])
    && (forall v | v in r.state.online.entries && v !in s.online.entries ::
          r.state.online.entries[v] == ses.channel && r.username == Some(v))
  }
}
