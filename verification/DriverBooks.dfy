/** Who is connected and who is subscribed, as the driver's events alone tell it. */
module DriverBooks {
  import opened Wrappers
  import opened Connections
  import R = Registries
  import opened Drivers

  /** The plain account: sessions, rooms, and which session is subscribed to which room. */
  datatype Book = Book(sessions: set<nat>, rooms: set<nat>, pairs: set<(nat, nat)>)

  /** A connection accepted below the limit adds its session; a creation that succeeds adds the room and
      subscribes its creator; a Welcome subscribes its receiver; subscribing and unsubscribing do as they
      say, for sessions there are; a disconnect takes the session out everywhere. Nothing else counts. */
  function Told(cfg: DriverConfig, b: Book, e: Event): Book {
    match e
    case Accepted(session) => if |b.sessions| < cfg.maxConnections then b.(sessions := b.sessions + {session}) else b
    case Disconnected(session) =>
      b.(sessions := b.sessions - {session}, pairs := set p | p in b.pairs && p.0 != session)
    case CreateRoom(room, creator, mlsFails) =>
      if creator in b.sessions && room !in b.rooms && !mlsFails
      then b.(rooms := b.rooms + {room}, pairs := b.pairs + {(creator, room)})
      else b
    case SubscribeTo(session, room) => if session in b.sessions then b.(pairs := b.pairs + {(session, room)}) else b
    case UnsubscribeFrom(session, room) => b.(pairs := b.pairs - {(session, room)})
    case Received(session, incoming) =>
      if incoming.Welcome? && session in b.sessions then b.(pairs := b.pairs + {(session, incoming.room)}) else b
    case Tick => b
  }

  function ToldAll(cfg: DriverConfig, b: Book, es: seq<(Event, nat)>): Book
    decreases |es|
  {
    if es == [] then b else ToldAll(cfg, Told(cfg, b, es[0].0), es[1..])
  }

  /** The driver's maps say what the account says. */
  ghost predicate Agree(cfg: DriverConfig, d: Driver, b: Book) {
    && Bookkept(cfg, d)
    && d.connections.Keys == b.sessions && d.rooms == b.rooms
    && (forall session: nat, room: nat :: session in R.SubsOf(d.registry, room) <==> (session, room) in b.pairs)
  }

  lemma Sizes(d: Driver, b: Book)
    requires d.connections.Keys == b.sessions
    ensures |d.connections| == |b.sessions|
  {
  }

  lemma SubscriptionAgrees(cfg: DriverConfig, d: Driver, b: Book, e: Event, now: nat)
    requires Agree(cfg, d, b) && (e.CreateRoom? || e.SubscribeTo? || e.UnsubscribeFrom?)
    ensures Agree(cfg, Step(cfg, d, e, now), Told(cfg, b, e))
  {
    var d', b' := Step(cfg, d, e, now), Told(cfg, b, e);
    StepKeepsBooks(cfg, d, e, now);
    forall session: nat, room: nat ensures session in R.SubsOf(d'.registry, room) <==> (session, room) in b'.pairs {
      assert session in R.SubsOf(d.registry, room) <==> (session, room) in b.pairs;
      var op := if e.CreateRoom? then R.Subscribe(e.creator, e.room)
                else if e.SubscribeTo? then R.Subscribe(e.session, e.room) else R.Unsubscribe(e.session, e.room);
      R.SubscribersAfter(d.registry, op, session, room);
    }
  }

  lemma ReceivedAgrees(cfg: DriverConfig, d: Driver, b: Book, e: Event, now: nat)
    requires Agree(cfg, d, b) && e.Received?
    ensures Agree(cfg, Step(cfg, d, e, now), Told(cfg, b, e))
  {
    var d', b' := Step(cfg, d, e, now), Told(cfg, b, e);
    StepKeepsBooks(cfg, d, e, now);
    assert d'.connections.Keys == d.connections.Keys;
    forall session: nat, room: nat ensures session in R.SubsOf(d'.registry, room) <==> (session, room) in b'.pairs {
      assert session in R.SubsOf(d.registry, room) <==> (session, room) in b.pairs;
    }
  }

  lemma ArrivalAgrees(cfg: DriverConfig, d: Driver, b: Book, e: Event, now: nat)
    requires Agree(cfg, d, b) && (e.Accepted? || e.Tick?)
    ensures Agree(cfg, Step(cfg, d, e, now), Told(cfg, b, e))
  {
    var d', b' := Step(cfg, d, e, now), Told(cfg, b, e);
    StepKeepsBooks(cfg, d, e, now);
    Sizes(d, b);
    forall session: nat, room: nat ensures session in R.SubsOf(d'.registry, room) <==> (session, room) in b'.pairs {
      assert session in R.SubsOf(d.registry, room) <==> (session, room) in b.pairs;
    }
  }

  lemma DisconnectAgrees(cfg: DriverConfig, d: Driver, b: Book, e: Event, now: nat)
    requires Agree(cfg, d, b) && e.Disconnected?
    ensures Agree(cfg, Step(cfg, d, e, now), Told(cfg, b, e))
  {
    var d', b' := Step(cfg, d, e, now), Told(cfg, b, e);
    StepKeepsBooks(cfg, d, e, now);
    forall session: nat, room: nat ensures session in R.SubsOf(d'.registry, room) <==> (session, room) in b'.pairs {
      assert session in R.SubsOf(d.registry, room) <==> (session, room) in b.pairs;
      R.SubscribersAfter(d.registry, R.Unregister(e.session), session, room);
    }
  }

  lemma StepAgrees(cfg: DriverConfig, d: Driver, b: Book, e: Event, now: nat)
    requires Agree(cfg, d, b)
    ensures Agree(cfg, Step(cfg, d, e, now), Told(cfg, b, e))
  {
    if e.Received? {
      ReceivedAgrees(cfg, d, b, e, now);
    } else if e.Disconnected? {
      DisconnectAgrees(cfg, d, b, e, now);
    } else if e.Accepted? || e.Tick? {
      ArrivalAgrees(cfg, d, b, e, now);
    } else {
      SubscriptionAgrees(cfg, d, b, e, now);
    }
  }

  lemma {:induction false} RunAgrees(cfg: DriverConfig, d: Driver, b: Book, es: seq<(Event, nat)>)
    requires Agree(cfg, d, b)
    ensures Agree(cfg, Run(cfg, d, es), ToldAll(cfg, b, es))
    decreases |es|
  {
    if es != [] {
      StepAgrees(cfg, d, b, es[0].0, es[0].1);
      RunAgrees(cfg, Step(cfg, d, es[0].0, es[0].1), Told(cfg, b, es[0].0), es[1..]);
    }
  }

  /** In every run of a new driver the connections, the rooms and every room's subscribers are exactly those
      of the plain account of its events. */
  lemma DriverFollowsItsEvents(cfg: DriverConfig, es: seq<(Event, nat)>)
    ensures var d, b := Run(cfg, EMPTY, es), ToldAll(cfg, Book({}, {}, {}), es);
            && d.connections.Keys == d.registry.sessions.Keys == b.sessions && d.rooms == b.rooms
            && forall session: nat, room: nat ::
                 session in R.SubsOf(d.registry, room) <==> (session, room) in b.pairs
  {
    RunAgrees(cfg, EMPTY, Book({}, {}, {}), es);
  }

  // ---------------------------------------------------------------------------------------------
  // Each session's connection is its own

  /** A session's connection, from its own events and the ticks: opened under its id when accepted below the
      limit; fed its session frames; marked active by its room frames, though not by its sync requests;
      gone when it disconnects. */
  function Own(cfg: DriverConfig, b: Book, o: Option<Conn>, session: nat, e: Event, now: nat): Option<Conn> {
    match e
    case Accepted(who) =>
      if who == session && |b.sessions| < cfg.maxConnections then Some(Conn(Init, now, None, Some(session))) else o
    case Disconnected(who) => if who == session then None else o
    case Tick => if o.Some? then Some(Ticked(cfg.connection, o.value, now).0) else None
    case Received(who, incoming) =>
      if who != session || o.None? || incoming.SyncRequest? then o
      else if incoming.Session? then Some(Handled(o.value, incoming.frame, now).0)
      else Some(o.value.(lastActivity := now))
    case CreateRoom(_, _, _) => o
    case SubscribeTo(_, _) => o
    case UnsubscribeFrom(_, _) => o
  }

  function OwnAll(cfg: DriverConfig, b: Book, o: Option<Conn>, session: nat, es: seq<(Event, nat)>): Option<Conn>
    decreases |es|
  {
    if es == [] then o
    else OwnAll(cfg, Told(cfg, b, es[0].0), Own(cfg, b, o, session, es[0].0, es[0].1), session, es[1..])
  }

  lemma StepIsOwn(cfg: DriverConfig, d: Driver, b: Book, e: Event, now: nat, session: nat)
    requires Agree(cfg, d, b)
    ensures Get(Step(cfg, d, e, now).connections, session) == Own(cfg, b, Get(d.connections, session), session, e, now)
  {
    Sizes(d, b);
  }

  lemma {:induction false} RunIsOwn(cfg: DriverConfig, d: Driver, b: Book, es: seq<(Event, nat)>, session: nat)
    requires Agree(cfg, d, b)
    ensures Get(Run(cfg, d, es).connections, session) == OwnAll(cfg, b, Get(d.connections, session), session, es)
    decreases |es|
  {
    if es != [] {
      StepIsOwn(cfg, d, b, es[0].0, es[0].1, session);
      StepAgrees(cfg, d, b, es[0].0, es[0].1);
      RunIsOwn(cfg, Step(cfg, d, es[0].0, es[0].1), Told(cfg, b, es[0].0), es[1..], session);
    }
  }

  /** In every run of a new driver each session's connection is what its own events and the ticks make of it,
      whatever the other sessions do. */
  lemma SessionsAreIndependent(cfg: DriverConfig, es: seq<(Event, nat)>, session: nat)
    ensures Get(Run(cfg, EMPTY, es).connections, session)
            == OwnAll(cfg, Book({}, {}, {}), None, session, es)
  {
    RunIsOwn(cfg, EMPTY, Book({}, {}, {}), es, session);
  }

  /** A tick of the driver closes a session's authenticated connection exactly when nothing but sync requests
      came from it for longer than the idle timeout: whatever else it sends at `at` counts. */
  lemma SyncRequestsDoNotRenew(cfg: DriverConfig, d: Driver, session: nat, incoming: Incoming, at: nat, now: nat)
    requires session in d.connections && d.connections[session].state == State.Authenticated && at <= now
    requires d.connections[session].lastActivity <= at
    requires ReceivedBy(d, session, incoming, at).connections[session].state == State.Authenticated
    ensures var d' := Step(cfg, ReceivedBy(d, session, incoming, at), Tick, now);
            var since := if incoming.SyncRequest? then d.connections[session].lastActivity else at;
            d'.connections[session].state == Closed <==> now - since > cfg.connection.idleTimeout
  {
  }
}
