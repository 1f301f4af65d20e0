/** Many connections over one shared state: the accept loop hands every socket its own
    handler, each handler runs requests one at a time, and a connection ends when its
    socket fails (teardown runs) or when a handler throws (no teardown). Interleaving is
    modelled as a sequence of events, each applied atomically. */
module ServerRun {
  import opened Wrappers
  import opened Messages
  import opened ServerState
  import Tables
  import OnlineUserManager
  import GroupManager
  import ClientHandler
  import ChatServer

  /** Which of the two servers is running. */
  datatype Version = Refactored | Monolithic

  /** One accepted connection: the username bound to it, and whether its handler thread
      is still reading requests. */
  datatype Conn = Conn(username: Option<string>, live: bool)

  datatype Server = Server(state: State, conns: map<OnlineUserManager.Channel, Conn>)

  /** A socket accepted on a new channel, a request read on a channel, or a read that
      failed with an I/O error (the client went away). */
  datatype Event =
    | Connect(c: OnlineUserManager.Channel)
    | Receive(c: OnlineUserManager.Channel, m: Message)
    | Drop(c: OnlineUserManager.Channel)

  /** The longest length among some strings. */
  function MaxLength(ks: seq<string>): (n: nat)
    ensures forall k | k in ks :: |k| <= n
  {
    if |ks| == 0 then 0
    else
      var rest := MaxLength(ks[1..]);
      assert forall k | k in ks :: k == ks[0] || k in ks[1..];
      if |ks[0]| > rest then |ks[0]| else rest
  }

  /** A stand-in for `UUID.randomUUID()`: a group id no group has yet. */
  function FreshId(g: GroupManager.Store): (id: string)
    requires GroupManager.Valid(g)
    ensures id !in g.entries
  {
    var n := MaxLength(g.order);
    seq(n + 1, _ => 'g')
  }

  /** Server start: the stores of `Init` and no connections. */
  function Start(defaultId: string): (sv: Server)
    ensures Valid(sv.state) && sv.conns == map[]
    ensures sv.state.groups.entries.Keys == {defaultId}
    ensures sv.state.groups.entries[defaultId].name == Some(GroupManager.DefaultGroupName)
    ensures sv.state.groups.entries[defaultId].members == []
  {
    Server(Init(defaultId), map[])
  }

  /** One request through the running version's dispatch. */
  function Dispatch(v: Version, s: State, ses: Session, m: Message): (r: Step)
    requires Valid(s)
    ensures Preserves(s, ses, r)
    ensures r.username != ses.username ==>
              r.username.Some? && r.username.value in r.state.online.entries
              && r.state.online.entries[r.username.value] == ses.channel
  {
    var newId := FreshId(s.groups);
    match v
    case Refactored => ClientHandler.Handle(s, ses, m, newId)
    case Monolithic => ChatServer.Handle(s, ses, m, newId)
  }

  /** One event. A channel is accepted once; events for a channel that is unknown or
      whose handler has ended change nothing. */
  function Apply(v: Version, sv: Server, ev: Event): (r: Server)
    requires Valid(sv.state)
    ensures Valid(r.state)
    ensures ev.c !in sv.conns && !ev.Connect? ==> r == sv
    ensures ev.c in sv.conns && !sv.conns[ev.c].live ==> r == sv
    ensures ev.Connect? && ev.c !in sv.conns ==> r == sv.(conns := sv.conns[ev.c := Conn(None, true)])
    ensures ev.Drop? && ev.c in sv.conns ==> ev.c in r.conns && !r.conns[ev.c].live
    ensures forall c | c in sv.conns && c != ev.c :: c in r.conns && r.conns[c] == sv.conns[c]
  {
    match ev
    case Connect(c) =>
      if c in sv.conns then sv else sv.(conns := sv.conns[c := Conn(None, true)])
    case Receive(c, m) =>
      if c !in sv.conns || !sv.conns[c].live then sv
      else
        var r := Dispatch(v, sv.state, Session(c, sv.conns[c].username), m);
        Server(r.state, sv.conns[c := Conn(r.username, !r.fault)])
    case Drop(c) =>
      if c !in sv.conns || !sv.conns[c].live then sv
      else
        var e := ClientHandler.HandleDisconnect(sv.state, sv.conns[c].username);
        Server(e.state, sv.conns[c := Conn(sv.conns[c].username, false)])
  }

  /** A run of events from a given server. */
  function Run(v: Version, sv: Server, evs: seq<Event>): (r: Server)
    requires Valid(sv.state)
    ensures Valid(r.state)
    decreases |evs|
  {
    if |evs| == 0 then sv else Run(v, Apply(v, sv, evs[0]), evs[1..])
  }

  /** Every live connection with a username is that user's entry in the presence
      registry. */
  ghost predicate Consistent(sv: Server) {
    forall c | c in sv.conns && sv.conns[c].live && sv.conns[c].username.Some? ::
      sv.conns[c].username.value in sv.state.online.entries
      && sv.state.online.entries[sv.conns[c].username.value] == c
  }

  /** Stores well-formed and connections consistent with presence. */
  ghost predicate Inv(sv: Server) {
    Valid(sv.state) && Consistent(sv)
  }

  /** Two live connections never speak for the same account. */
  lemma SingleSession(sv: Server, c: OnlineUserManager.Channel, d: OnlineUserManager.Channel)
    requires Inv(sv)
    requires c in sv.conns && d in sv.conns && sv.conns[c].live && sv.conns[d].live
    requires sv.conns[c].username.Some? && sv.conns[c].username == sv.conns[d].username
    ensures c == d
  {
  }

  lemma {:induction false} ApplyKeepsInv(v: Version, sv: Server, ev: Event)
    requires Inv(sv)
    ensures Inv(Apply(v, sv, ev))
  {
    var r := Apply(v, sv, ev);
    match ev
    case Connect(c) =>
    case Receive(c, m) =>
      if c in sv.conns && sv.conns[c].live {
        var step := Dispatch(v, sv.state, Session(c, sv.conns[c].username), m);
        assert r == Server(step.state, sv.conns[c := Conn(step.username, !step.fault)]);
        forall d | d in r.conns && r.conns[d].live && r.conns[d].username.Some?
          ensures r.conns[d].username.value in r.state.online.entries
                  && r.state.online.entries[r.conns[d].username.value] == d
        {
          if d != c {
            var u := sv.conns[d].username.value;
            assert u in sv.state.online.entries && sv.state.online.entries[u] == d;
          }
        }
      }
    case Drop(c) =>
      if c in sv.conns && sv.conns[c].live {
        var u := sv.conns[c].username;
        var e := ClientHandler.HandleDisconnect(sv.state, u);
        assert r == Server(e.state, sv.conns[c := Conn(u, false)]);
        forall d | d in r.conns && r.conns[d].live && r.conns[d].username.Some?
          ensures r.conns[d].username.value in r.state.online.entries
                  && r.state.online.entries[r.conns[d].username.value] == d
        {
          var w := sv.conns[d].username.value;
          assert d != c;
          assert w in sv.state.online.entries && sv.state.online.entries[w] == d;
          if u.Some? && u.value in sv.state.online.entries {
            assert sv.state.online.entries[u.value] == c;
            assert w != u.value;
            assert OnlineUserManager.GetUserOutputStream(e.state.online, w)
                == OnlineUserManager.GetUserOutputStream(sv.state.online, w);
          }
        }
      }
  }

  /** The invariant holds after any run from a server that satisfies it, in particular
      from `Start`. */
  lemma {:induction false} RunKeepsInv(v: Version, sv: Server, evs: seq<Event>)
    requires Inv(sv)
    ensures Inv(Run(v, sv, evs))
    decreases |evs|
  {
    if |evs| > 0 {
      ApplyKeepsInv(v, sv, evs[0]);
      RunKeepsInv(v, Apply(v, sv, evs[0]), evs[1..]);
    }
  }

  /** No event removes an account or a group. */
  lemma {:induction false} ApplyGrows(v: Version, sv: Server, ev: Event)
    requires Valid(sv.state)
    ensures sv.state.accounts.Keys <= Apply(v, sv, ev).state.accounts.Keys
    ensures sv.state.groups.entries.Keys <= Apply(v, sv, ev).state.groups.entries.Keys
    ensures sv.conns.Keys <= Apply(v, sv, ev).conns.Keys
  {
    match ev
    case Connect(c) =>
    case Receive(c, m) =>
      if c in sv.conns && sv.conns[c].live {
        var step := Dispatch(v, sv.state, Session(c, sv.conns[c].username), m);
        assert Apply(v, sv, ev).state == step.state;
      }
    case Drop(c) =>
  }

  /** Registered accounts and created groups are never lost over a run. */
  lemma {:induction false} RunGrows(v: Version, sv: Server, evs: seq<Event>)
    requires Valid(sv.state)
    ensures sv.state.accounts.Keys <= Run(v, sv, evs).state.accounts.Keys
    ensures sv.state.groups.entries.Keys <= Run(v, sv, evs).state.groups.entries.Keys
    decreases |evs|
  {
    if |evs| > 0 {
      ApplyGrows(v, sv, evs[0]);
      RunGrows(v, Apply(v, sv, evs[0]), evs[1..]);
    }
  }

  /** A connection whose handler has ended, by a failed read or by an exception, stays
      ended and is never torn down again: no later event on it changes anything. */
  lemma {:induction false} EndedStaysEnded(v: Version, sv: Server, c: OnlineUserManager.Channel, evs: seq<Event>)
    requires Valid(sv.state) && c in sv.conns && !sv.conns[c].live
    ensures c in Run(v, sv, evs).conns && Run(v, sv, evs).conns[c] == sv.conns[c]
    decreases |evs|
  {
    if |evs| > 0 {
      var sv' := Apply(v, sv, evs[0]);
      assert c in sv'.conns && sv'.conns[c] == sv.conns[c];
      EndedStaysEnded(v, sv', c, evs[1..]);
    }
  }

  /** A request whose handler throws ends the connection without the teardown: the
      account it is logged in with stays online. */
  lemma FaultSkipsTeardown(v: Version, sv: Server, c: OnlineUserManager.Channel, m: Message)
    requires Inv(sv) && c in sv.conns && sv.conns[c].live
    ensures var r := Apply(v, sv, Receive(c, m));
            Dispatch(v, sv.state, Session(c, sv.conns[c].username), m).fault ==>
              && c in r.conns && !r.conns[c].live
              && (r.conns[c].username.Some? ==> r.conns[c].username.value in r.state.online.entries)
  {
    var step := Dispatch(v, sv.state, Session(c, sv.conns[c].username), m);
    var r := Apply(v, sv, Receive(c, m));
    assert r == Server(step.state, sv.conns[c := Conn(step.username, !step.fault)]);
    var u := sv.conns[c].username;
    if step.username.Some? && step.username == u {
      assert u.value in sv.state.online.entries;
      assert u.value in step.state.online.entries;
    }
  }

  /** From server start, whatever the interleaving of connections and requests, no two
      live connections are logged in to the same account. */
  lemma {:induction false} NoSharedAccount(v: Version, defaultId: string, evs: seq<Event>,
                                           c: OnlineUserManager.Channel, d: OnlineUserManager.Channel)
    requires var sv := Run(v, Start(defaultId), evs);
             && c in sv.conns && d in sv.conns && sv.conns[c].live && sv.conns[d].live
             && sv.conns[c].username.Some? && sv.conns[c].username == sv.conns[d].username
    ensures c == d
  {
    RunKeepsInv(v, Start(defaultId), evs);
    SingleSession(Run(v, Start(defaultId), evs), c, d);
  }
}
