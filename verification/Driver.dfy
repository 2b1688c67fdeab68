/** Session bookkeeping of the server driver (crates/lockframe-server/src/driver.rs). */
module Drivers {
  import opened Wrappers
  import opened Connections
  import R = Registries

  datatype DriverConfig = DriverConfig(connection: Config, maxConnections: nat)

  datatype Driver = Driver(connections: map<nat, Conn>, registry: R.Registry, rooms: set<nat>)

  /** A received frame, by the arm of `handle_frame_received` that takes it. A `Session` frame is a
      Hello, Ping, Pong or Goodbye, well-formed or not. */
  datatype Incoming = Session(frame: SessionFrame) | SyncRequest | Welcome(room: nat) | RoomFrame

  datatype Event =
    | Accepted(session: nat)
    | Received(session: nat, incoming: Incoming)
    | Disconnected(session: nat)
    | Tick
    | CreateRoom(room: nat, creator: nat, mlsFails: bool)
    | SubscribeTo(session: nat, room: nat)
    | UnsubscribeFrom(session: nat, room: nat)

  const NEW_SESSION := R.SessionInfo(None, false)

  function AcceptedBy(cfg: DriverConfig, d: Driver, session: nat, now: nat): Driver {
    if |d.connections| >= cfg.maxConnections then d
    else d.(connections := d.connections[session := NewConn(now).(sessionId := Some(session))],
            registry := R.Apply(d.registry, R.Register(session, NEW_SESSION)).0)
  }

  /** A Hello that the connection takes marks the session authenticated. */
  function MarkAuthenticated(g: R.Registry, session: nat, userId: Option<nat>): R.Registry {
    if session in g.sessions then g.(sessions := g.sessions[session := R.SessionInfo(userId, true)]) else g
  }

  function ReceivedBy(d: Driver, session: nat, incoming: Incoming, now: nat): Driver {
    if session !in d.connections then d
    else
      var c := d.connections[session];
      match incoming
      case Session(f) =>
        var (c', r) := Handled(c, f, now);
        Driver(d.connections[session := c'],
               if r.Ok? && f.Hello? then MarkAuthenticated(d.registry, session, c'.sessionId) else d.registry, d.rooms)
      case SyncRequest => d
      case Welcome(room) =>
        d.(connections := d.connections[session := c.(lastActivity := now)],
           registry := R.Apply(d.registry, R.Subscribe(session, room)).0)
      case RoomFrame => d.(connections := d.connections[session := c.(lastActivity := now)])
  }

  function TickedAll(cfg: DriverConfig, connections: map<nat, Conn>, now: nat): map<nat, Conn> {
    map session | session in connections :: Ticked(cfg.connection, connections[session], now).0
  }

  function Step(cfg: DriverConfig, d: Driver, e: Event, now: nat): Driver {
    match e
    case Accepted(session) => AcceptedBy(cfg, d, session, now)
    case Received(session, incoming) => ReceivedBy(d, session, incoming, now)
    case Disconnected(session) =>
      d.(connections := d.connections - {session}, registry := R.Apply(d.registry, R.Unregister(session)).0)
    case Tick => d.(connections := TickedAll(cfg, d.connections, now))
    case CreateRoom(room, creator, mlsFails) =>
      if creator !in d.registry.sessions || room in d.rooms || mlsFails then d
      else d.(rooms := d.rooms + {room}, registry := R.Apply(d.registry, R.Subscribe(creator, room)).0)
    case SubscribeTo(session, room) => d.(registry := R.Apply(d.registry, R.Subscribe(session, room)).0)
    case UnsubscribeFrom(session, room) => d.(registry := R.Apply(d.registry, R.Unsubscribe(session, room)).0)
  }

  /** Events with the time each happens at. */
  function Run(cfg: DriverConfig, d: Driver, es: seq<(Event, nat)>): Driver
    decreases |es|
  {
    if es == [] then d else Run(cfg, Step(cfg, d, es[0].0, es[0].1), es[1..])
  }

  const EMPTY := Driver(map[], R.EMPTY, {})

  /** Registered sessions are the open connections, no more of them than allowed, and the
      subscription index is sound. */
  ghost predicate Bookkept(cfg: DriverConfig, d: Driver) {
    && d.registry.sessions.Keys == d.connections.Keys
    && |d.connections| <= cfg.maxConnections
    && R.Inverse(d.registry)
  }

  /** A registry operation keeps the index sound and changes the session set only as it says. */
  lemma OperationKeepsIndex(g: R.Registry, op: R.Operation)
    requires R.Inverse(g)
    ensures var g' := R.Apply(g, op).0;
            && R.Inverse(g')
            && g'.sessions.Keys == (if op.Register? then g.sessions.Keys + {op.session}
                                    else if op.Unregister? then g.sessions.Keys - {op.session} else g.sessions.Keys)
  {
    var pairs := set session, room | session in g.sessionRooms && room in g.sessionRooms[session] :: (session, room);
    R.ApplyRefines(g, R.Relation(g.sessions, pairs), op);
  }

  lemma {:induction false} SizeOfUpdate(m: map<nat, Conn>, k: nat, c: Conn)
    ensures |m[k := c]| == if k in m then |m| else |m| + 1
  {
    if k in m {
      assert m[k := c].Keys == m.Keys;
    } else {
      assert m[k := c].Keys == m.Keys + {k};
    }
    assert |m.Keys| == |m| && |m[k := c].Keys| == |m[k := c]|;
  }

  /** A registry operation on a session that stays, over the same connections. */
  lemma SubscriptionKeepsBooks(cfg: DriverConfig, d: Driver, d': Driver, op: R.Operation)
    requires Bookkept(cfg, d) && (op.Subscribe? || op.Unsubscribe?)
    requires d'.connections.Keys == d.connections.Keys && d'.registry == R.Apply(d.registry, op).0
    ensures Bookkept(cfg, d')
  {
    OperationKeepsIndex(d.registry, op);
    assert |d'.connections.Keys| == |d.connections.Keys|;
  }

  lemma AcceptedKeepsBooks(cfg: DriverConfig, d: Driver, session: nat, now: nat)
    requires Bookkept(cfg, d)
    ensures Bookkept(cfg, AcceptedBy(cfg, d, session, now))
  {
    SizeOfUpdate(d.connections, session, NewConn(now).(sessionId := Some(session)));
    OperationKeepsIndex(d.registry, R.Register(session, NEW_SESSION));
  }

  lemma AuthenticatingKeepsIndex(g: R.Registry, session: nat, userId: Option<nat>)
    requires R.Inverse(g)
    ensures R.Inverse(MarkAuthenticated(g, session, userId))
    ensures MarkAuthenticated(g, session, userId).sessions.Keys == g.sessions.Keys
  {
    var g' := MarkAuthenticated(g, session, userId);
    assert g'.sessions.Keys == g.sessions.Keys;
    forall s: nat, room: nat ensures s in R.SubsOf(g', room) <==> room in R.RoomsOf(g', s) {
      assert s in R.SubsOf(g, room) <==> room in R.RoomsOf(g, s);
    }
  }

  lemma ReceivedKeepsBooks(cfg: DriverConfig, d: Driver, session: nat, incoming: Incoming, now: nat)
    requires Bookkept(cfg, d)
    ensures Bookkept(cfg, ReceivedBy(d, session, incoming, now))
  {
    var d' := ReceivedBy(d, session, incoming, now);
    assert d'.connections.Keys == d.connections.Keys;
    assert |d'.connections.Keys| == |d.connections.Keys|;
    if session in d.connections && incoming.Welcome? {
      SubscriptionKeepsBooks(cfg, d, d', R.Subscribe(session, incoming.room));
    } else if session in d.connections && incoming.Session? {
      var c := d.connections[session];
      AuthenticatingKeepsIndex(d.registry, session, Handled(c, incoming.frame, now).0.sessionId);
    }
  }

  lemma DisconnectKeepsBooks(cfg: DriverConfig, d: Driver, session: nat, now: nat)
    requires Bookkept(cfg, d)
    ensures Bookkept(cfg, Step(cfg, d, Disconnected(session), now))
  {
    OperationKeepsIndex(d.registry, R.Unregister(session));
    assert (d.connections - {session}).Keys == d.connections.Keys - {session};
    assert |(d.connections - {session}).Keys| <= |d.connections.Keys|;
  }

  lemma StepKeepsBooks(cfg: DriverConfig, d: Driver, e: Event, now: nat)
    requires Bookkept(cfg, d)
    ensures Bookkept(cfg, Step(cfg, d, e, now))
  {
    var d' := Step(cfg, d, e, now);
    match e {
      case Accepted(session) => AcceptedKeepsBooks(cfg, d, session, now);
      case Received(session, incoming) => ReceivedKeepsBooks(cfg, d, session, incoming, now);
      case Disconnected(session) => DisconnectKeepsBooks(cfg, d, session, now);
      case Tick =>
        assert d'.connections.Keys == d.connections.Keys;
        assert |d'.connections.Keys| == |d.connections.Keys|;
      case CreateRoom(room, creator, _) =>
        if d' != d { SubscriptionKeepsBooks(cfg, d, d', R.Subscribe(creator, room)); }
      case SubscribeTo(session, room) => SubscriptionKeepsBooks(cfg, d, d', R.Subscribe(session, room));
      case UnsubscribeFrom(session, room) => SubscriptionKeepsBooks(cfg, d, d', R.Unsubscribe(session, room));
    }
  }

  lemma {:induction false} RunKeepsBooks(cfg: DriverConfig, d: Driver, es: seq<(Event, nat)>)
    requires Bookkept(cfg, d)
    ensures Bookkept(cfg, Run(cfg, d, es))
    decreases |es|
  {
    if es != [] {
      StepKeepsBooks(cfg, d, es[0].0, es[0].1);
      RunKeepsBooks(cfg, Step(cfg, d, es[0].0, es[0].1), es[1..]);
    }
  }

  /** In every state reached from a new driver registered sessions and connections coincide, their
      number is within the limit, and every target of a broadcast has a connection. */
  lemma DriverKeepsBooks(cfg: DriverConfig, es: seq<(Event, nat)>)
    ensures var d := Run(cfg, EMPTY, es);
            Bookkept(cfg, d) && forall room :: R.SubsOf(d.registry, room) <= d.connections.Keys
  {
    RunKeepsBooks(cfg, EMPTY, es);
    var d := Run(cfg, EMPTY, es);
    forall room, session | session in R.SubsOf(d.registry, room) ensures session in d.connections {
      assert room in R.RoomsOf(d.registry, session);
    }
  }

  // ---------------------------------------------------------------------------------------------
  // "Authenticated" in the registry against the connection's own state

  /** The registry's flag and the connection agree about one session: an authenticated connection is
      flagged, a flagged one authenticated at some point, under its own session id. */
  predicate FlagAgrees(c: Conn, info: R.SessionInfo, session: nat) {
    && c.sessionId == Some(session)
    && c.state != Pending
    && (c.state == State.Authenticated ==> info.authenticated)
    && (info.authenticated ==> info.userId == Some(session) && c.state in {State.Authenticated, Closed})
  }

  predicate FlagsAgree(d: Driver) {
    forall session <- d.connections.Keys ::
      session in d.registry.sessions ==> FlagAgrees(d.connections[session], d.registry.sessions[session], session)
  }

  /** The connection of a flagged session is replaced by a new one: its flag is not reset. */
  predicate ReplacesFlagged(cfg: DriverConfig, d: Driver, e: Event) {
    && e.Accepted? && |d.connections| < cfg.maxConnections
    && e.session in d.registry.sessions && d.registry.sessions[e.session].authenticated
  }

  /** Session frames only. */
  predicate ServerSide(e: Event) {
    e.Received? && e.incoming.Session? ==>
      var f := e.incoming.frame; f.Hello? || f.Ping? || f.Pong? || f.Goodbye? || f.Malformed?
  }

  lemma AcceptFlags(cfg: DriverConfig, d: Driver, e: Event, now: nat)
    requires Bookkept(cfg, d) && FlagsAgree(d) && e.Accepted?
    ensures FlagsAgree(Step(cfg, d, e, now)) <==> !ReplacesFlagged(cfg, d, e)
  {
    var d' := AcceptedBy(cfg, d, e.session, now);
    if ReplacesFlagged(cfg, d, e) {
      assert e.session in d'.connections.Keys && e.session in d'.registry.sessions;
      assert !FlagAgrees(d'.connections[e.session], d'.registry.sessions[e.session], e.session);
    }
  }

  lemma HandledAgrees(c: Conn, info: R.SessionInfo, session: nat, f: SessionFrame, now: nat)
    requires FlagAgrees(c, info, session) && (f.Hello? || f.Ping? || f.Pong? || f.Goodbye? || f.Malformed?)
    ensures var (c', r) := Handled(c, f, now);
            FlagAgrees(c', if r.Ok? && f.Hello? then R.SessionInfo(c'.sessionId, true) else info, session)
  {
  }

  lemma ReceiveFlags(cfg: DriverConfig, d: Driver, e: Event, now: nat)
    requires Bookkept(cfg, d) && FlagsAgree(d) && ServerSide(e) && e.Received?
    ensures FlagsAgree(Step(cfg, d, e, now))
  {
    var session, d' := e.session, ReceivedBy(d, e.session, e.incoming, now);
    if session in d.connections {
      var c, info := d.connections[session], d.registry.sessions[session];
      assert FlagAgrees(c, info, session);
      if e.incoming.Session? { HandledAgrees(c, info, session, e.incoming.frame, now); }
      assert FlagAgrees(d'.connections[session], d'.registry.sessions[session], session);
    }
  }

  lemma TickFlags(cfg: DriverConfig, d: Driver, now: nat)
    requires FlagsAgree(d)
    ensures FlagsAgree(Step(cfg, d, Tick, now))
  {
  }

  /** Every step keeps flag and connection in agreement, except exactly an accept under the id of a
      session that is already flagged. */
  lemma FlagsKeptIff(cfg: DriverConfig, d: Driver, e: Event, now: nat)
    requires Bookkept(cfg, d) && FlagsAgree(d) && ServerSide(e)
    ensures FlagsAgree(Step(cfg, d, e, now)) <==> !ReplacesFlagged(cfg, d, e)
  {
    if e.Accepted? {
      AcceptFlags(cfg, d, e, now);
    } else if e.Received? {
      ReceiveFlags(cfg, d, e, now);
    } else if e.Tick? {
      TickFlags(cfg, d, now);
    }
  }

  predicate NoneReplaced(cfg: DriverConfig, d: Driver, es: seq<(Event, nat)>)
    decreases |es|
  {
    es != [] ==>
      && ServerSide(es[0].0) && !ReplacesFlagged(cfg, d, es[0].0)
      && NoneReplaced(cfg, Step(cfg, d, es[0].0, es[0].1), es[1..])
  }

  lemma {:induction false} RunKeepsFlags(cfg: DriverConfig, d: Driver, es: seq<(Event, nat)>)
    requires Bookkept(cfg, d) && FlagsAgree(d) && NoneReplaced(cfg, d, es)
    ensures FlagsAgree(Run(cfg, d, es))
    decreases |es|
  {
    if es != [] {
      FlagsKeptIff(cfg, d, es[0].0, es[0].1);
      StepKeepsBooks(cfg, d, es[0].0, es[0].1);
      RunKeepsFlags(cfg, Step(cfg, d, es[0].0, es[0].1), es[1..]);
    }
  }

  /** So in every run of a new driver that replaces no flagged session's connection. */
  lemma FlagsAgreeInEveryRun(cfg: DriverConfig, es: seq<(Event, nat)>)
    requires NoneReplaced(cfg, EMPTY, es)
    ensures FlagsAgree(Run(cfg, EMPTY, es))
  {
    RunKeepsFlags(cfg, EMPTY, es);
  }

  /** Three events after which session 7 is flagged and its connection has not authenticated: accept,
      a good Hello, accept again. */
  lemma FlagsDisagreeExample(cfg: DriverConfig, now: nat)
    requires cfg.maxConnections >= 2
    ensures var es := [(Accepted(7), now), (Received(7, Session(Hello(1))), now), (Accepted(7), now)];
            var d := Run(cfg, EMPTY, es);
            && !FlagsAgree(d) && 7 in d.connections && 7 in d.registry.sessions
            && d.connections[7].state == Init && d.registry.sessions[7].authenticated
  {
    var es := [(Accepted(7), now), (Received(7, Session(Hello(1))), now), (Accepted(7), now)];
    var d1 := Step(cfg, EMPTY, es[0].0, now);
    assert d1.connections == map[7 := NewConn(now).(sessionId := Some(7))];
    var d2 := Step(cfg, d1, es[1].0, now);
    assert d2.connections.Keys == {7} && |d2.connections.Keys| == |d2.connections|;
    assert d2.registry.sessions[7] == R.SessionInfo(Some(7), true);
    var d3 := Step(cfg, d2, es[2].0, now);
    assert es[1..][1..] == es[2..] && es[2..][1..] == es[3..];
    assert Run(cfg, EMPTY, es) == Run(cfg, d1, es[1..]) == Run(cfg, d2, es[2..]) == d3;
    assert !FlagAgrees(d3.connections[7], d3.registry.sessions[7], 7);
  }

  class ServerDriver {
    const config: DriverConfig
    const registry: R.ConnectionRegistry
    var connections: map<nat, Conn>
    var rooms: set<nat>

    ghost function View(): Driver
      reads this, registry
    {
      Driver(connections, registry.View(), rooms)
    }

    constructor (config: DriverConfig)
      ensures View() == EMPTY && this.config == config && fresh(registry)
    {
      this.config, connections, rooms := config, map[], {};
      registry := new R.ConnectionRegistry();
    }

    method HandleAccepted(session: nat, now: nat) returns (accepted: bool)
      modifies this, registry
      ensures View() == AcceptedBy(config, old(View()), session, now)
      ensures accepted <==> |old(connections)| < config.maxConnections
    {
      if |connections| >= config.maxConnections { return false; }
      connections := connections[session := NewConn(now).(sessionId := Some(session))];
      var _ := registry.RegisterSession(session, NEW_SESSION);
      return true;
    }

    method HandleClosed(session: nat, now: nat)
      modifies this, registry
      ensures View() == Step(config, old(View()), Disconnected(session), now)
    {
      connections := connections - {session};
      var _ := registry.UnregisterSession(session);
    }

    /** `false` is the error return: an unknown session, a frame its connection refuses, or a room
        frame the room manager refuses, which `roomFails` tells. By then the session's activity, and
        for a Welcome its subscription, are recorded. */
    method HandleReceived(session: nat, incoming: Incoming, now: nat, roomFails: bool) returns (ok: bool)
      modifies this, registry
      ensures View() == ReceivedBy(old(View()), session, incoming, now)
      ensures ok <==> session in old(connections)
                      && (incoming.Session? ==> Handled(old(connections)[session], incoming.frame, now).1.Ok?)
                      && (incoming.Welcome? || incoming.RoomFrame? ==> !roomFails)
    {
      if session !in connections { return false; }
      var c := connections[session];
      match incoming {
        case Session(f) =>
          var (c', r) := Handled(c, f, now);
          connections := connections[session := c'];
          if r.Err? { return false; }
          if f.Hello? && session in registry.sessions {
            registry.sessions := registry.sessions[session := R.SessionInfo(c'.sessionId, true)];
          }
        case SyncRequest =>
        case Welcome(room) =>
          connections := connections[session := c.(lastActivity := now)];
          var _ := registry.Subscribe(session, room);
          if roomFails { return false; }
        case RoomFrame =>
          connections := connections[session := c.(lastActivity := now)];
          if roomFails { return false; }
      }
      return true;
    }

    /** The creator is subscribed to the room it creates; an unknown session, a room that exists or a
        group that MLS does not make is an error that changes nothing. */
    method CreateRoomFor(room: nat, creator: nat, mlsFails: bool) returns (ok: bool)
      modifies this, registry
      ensures View() == Step(config, old(View()), CreateRoom(room, creator, mlsFails), 0)
      ensures ok <==> creator in old(registry.sessions) && room !in old(rooms) && !mlsFails
    {
      if creator !in registry.sessions || room in rooms || mlsFails { return false; }
      rooms := rooms + {room};
      ok := registry.Subscribe(creator, room);
    }

    /** Every connection is ticked once, in whatever order. */
    method HandleTick(now: nat)
      modifies this
      ensures View() == Step(config, old(View()), Tick, now)
    {
      var left := connections.Keys;
      while left != {}
        invariant connections.Keys == old(connections).Keys && left <= connections.Keys
        invariant rooms == old(rooms)
        invariant forall s <- connections.Keys ::
                    connections[s] == if s in left then old(connections)[s]
                                      else Ticked(config.connection, old(connections)[s], now).0
        decreases left
      {
        var session :| session in left;
        left := left - {session};
        connections := connections[session := Ticked(config.connection, connections[session], now).0];
      }
      assert connections == TickedAll(config, old(connections), now);
    }
  }
}
