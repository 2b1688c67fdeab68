/** Sessions and room subscriptions, indexed both ways (crates/lockframe-server/src/registry.rs). */
module Registries {
  import opened Wrappers

  datatype SessionInfo = SessionInfo(userId: Option<nat>, authenticated: bool)

  /** Session to info; room to subscribed sessions; session to subscribed rooms. */
  datatype Registry = Registry(sessions: map<nat, SessionInfo>, roomSubs: map<nat, set<nat>>,
                               sessionRooms: map<nat, set<nat>>)

  datatype Operation =
    | Register(session: nat, info: SessionInfo)
    | Unregister(session: nat)
    | Subscribe(session: nat, room: nat)
    | Unsubscribe(session: nat, room: nat)

  datatype Reply = Did(done: bool) | Gone | Left(info: SessionInfo, rooms: set<nat>)

  function SubsOf(g: Registry, room: nat): set<nat> { if room in g.roomSubs then g.roomSubs[room] else {} }

  function RoomsOf(g: Registry, session: nat): set<nat> {
    if session in g.sessionRooms then g.sessionRooms[session] else {}
  }

  /** Take one session out of a room's set, and the set out of the map once it is empty. */
  function DropSub(roomSubs: map<nat, set<nat>>, session: nat, room: nat): map<nat, set<nat>> {
    if room !in roomSubs then roomSubs
    else if roomSubs[room] <= {session} then roomSubs - {room}
    else roomSubs[room := roomSubs[room] - {session}]
  }

  function Unregistered(g: Registry, session: nat): Registry {
    var rooms := RoomsOf(g, session);
    Registry(g.sessions - {session},
             map room | room in g.roomSubs && (room in rooms ==> !(g.roomSubs[room] <= {session}))
                      :: if room in rooms then g.roomSubs[room] - {session} else g.roomSubs[room],
             g.sessionRooms - {session})
  }

  function Apply(g: Registry, op: Operation): (Registry, Reply) {
    match op
    case Register(session, info) =>
      if session in g.sessions then (g, Did(false))
      else (g.(sessions := g.sessions[session := info], sessionRooms := g.sessionRooms[session := {}]), Did(true))
    case Unregister(session) =>
      if session !in g.sessions then (g, Gone)
      else (Unregistered(g, session), Left(g.sessions[session], RoomsOf(g, session)))
    case Subscribe(session, room) =>
      if session !in g.sessions then (g, Did(false))
      else (g.(roomSubs := g.roomSubs[room := SubsOf(g, room) + {session}],
               sessionRooms := g.sessionRooms[session := RoomsOf(g, session) + {room}]), Did(true))
    case Unsubscribe(session, room) =>
      (g.(roomSubs := DropSub(g.roomSubs, session, room),
          sessionRooms := if session in g.sessionRooms then g.sessionRooms[session := g.sessionRooms[session] - {room}]
                          else g.sessionRooms),
       Did(session in SubsOf(g, room) && room in RoomsOf(g, session)))
  }

  /** The two maps are inverse to each other, no room's set is empty, and the sessions indexed are the
      registered ones. */
  ghost predicate Inverse(g: Registry) {
    && g.sessionRooms.Keys == g.sessions.Keys
    && (forall room <- g.roomSubs.Keys :: g.roomSubs[room] != {})
    && (forall session: nat, room: nat :: session in SubsOf(g, room) <==> room in RoomsOf(g, session))
  }

  /** Who is in a room's set after an operation. */
  lemma SubscribersAfter(g: Registry, op: Operation, session: nat, room: nat)
    requires Inverse(g)
    ensures session in SubsOf(Apply(g, op).0, room) <==>
            match op
            case Register(_, _) => session in SubsOf(g, room)
            case Unregister(gone) => session in SubsOf(g, room) && session != gone
            case Subscribe(who, where) =>
              session in SubsOf(g, room) || (who in g.sessions && session == who && room == where)
            case Unsubscribe(who, where) => session in SubsOf(g, room) && !(session == who && room == where)
  {
    assert session in SubsOf(g, room) <==> room in RoomsOf(g, session);
    if op.Unregister? { assert op.session in SubsOf(g, room) <==> room in RoomsOf(g, op.session); }
  }

  // The plain relation the two maps stand for.

  datatype Relation = Relation(sessions: map<nat, SessionInfo>, pairs: set<(nat, nat)>)

  function RelApply(r: Relation, op: Operation): (Relation, Reply) {
    match op
    case Register(session, info) =>
      if session in r.sessions then (r, Did(false)) else (r.(sessions := r.sessions[session := info]), Did(true))
    case Unregister(session) =>
      if session !in r.sessions then (r, Gone)
      else (Relation(r.sessions - {session}, set p | p in r.pairs && p.0 != session),
            Left(r.sessions[session], set p | p in r.pairs && p.0 == session :: p.1))
    case Subscribe(session, room) =>
      if session !in r.sessions then (r, Did(false)) else (r.(pairs := r.pairs + {(session, room)}), Did(true))
    case Unsubscribe(session, room) =>
      (r.(pairs := r.pairs - {(session, room)}), Did((session, room) in r.pairs))
  }

  /** The registry stands for the relation. */
  ghost predicate StandsFor(g: Registry, r: Relation) {
    && g.sessions == r.sessions
    && (forall session: nat, room: nat :: (session, room) in r.pairs <==> room in RoomsOf(g, session))
  }

  lemma UnregisterRefines(g: Registry, r: Relation, session: nat)
    requires Inverse(g) && StandsFor(g, r) && session in g.sessions
    ensures var (g', a), (r', b) := Apply(g, Unregister(session)), RelApply(r, Unregister(session));
            Inverse(g') && StandsFor(g', r') && a == b
  {
    var g', r' := Unregistered(g, session), RelApply(r, Unregister(session)).0;
    forall s: nat, room: nat ensures s in SubsOf(g', room) <==> room in RoomsOf(g', s) {
      assert s in SubsOf(g, room) <==> room in RoomsOf(g, s);
      assert session in SubsOf(g, room) <==> room in RoomsOf(g, session);
    }
    assert RoomsOf(g, session) == set p | p in r.pairs && p.0 == session :: p.1 by {
      forall room | room in RoomsOf(g, session) ensures exists p :: p in r.pairs && p.0 == session && p.1 == room {
        assert (session, room) in r.pairs;
      }
    }
    forall s: nat, room: nat ensures (s, room) in r'.pairs <==> room in RoomsOf(g', s) {
      assert (s, room) in r.pairs <==> room in RoomsOf(g, s);
    }
  }

  lemma UnsubscribeRefines(g: Registry, r: Relation, session: nat, room: nat)
    requires Inverse(g) && StandsFor(g, r)
    ensures var (g', a), (r', b) := Apply(g, Unsubscribe(session, room)), RelApply(r, Unsubscribe(session, room));
            Inverse(g') && StandsFor(g', r') && a == b
  {
    var g' := Apply(g, Unsubscribe(session, room)).0;
    assert g'.sessionRooms.Keys == g.sessionRooms.Keys;
    forall s: nat, q: nat ensures s in SubsOf(g', q) <==> q in RoomsOf(g', s) {
      assert s in SubsOf(g, q) <==> q in RoomsOf(g, s);
    }
    assert session in SubsOf(g, room) <==> room in RoomsOf(g, session);
    assert (session, room) in r.pairs <==> room in RoomsOf(g, session);
  }

  lemma ApplyRefines(g: Registry, r: Relation, op: Operation)
    requires Inverse(g) && StandsFor(g, r)
    ensures var (g', a), (r', b) := Apply(g, op), RelApply(r, op);
            Inverse(g') && StandsFor(g', r') && a == b
  {
    match op {
      case Register(session, _) =>
        var g' := Apply(g, op).0;
        forall s: nat, q: nat ensures s in SubsOf(g', q) <==> q in RoomsOf(g', s) {
          assert s in SubsOf(g, q) <==> q in RoomsOf(g, s);
        }
      case Unregister(session) => if session in g.sessions { UnregisterRefines(g, r, session); }
      case Subscribe(session, room) =>
        var g' := Apply(g, op).0;
        forall s: nat, q: nat ensures s in SubsOf(g', q) <==> q in RoomsOf(g', s) {
          assert s in SubsOf(g, q) <==> q in RoomsOf(g, s);
        }
      case Unsubscribe(session, room) => UnsubscribeRefines(g, r, session, room);
    }
  }

  function RunOps(g: Registry, ops: seq<Operation>): (Registry, seq<Reply>)
    decreases |ops|
  {
    if ops == [] then (g, [])
    else
      var (g1, a) := Apply(g, ops[0]);
      var (g2, more) := RunOps(g1, ops[1..]);
      (g2, [a] + more)
  }

  function RelRunOps(r: Relation, ops: seq<Operation>): (Relation, seq<Reply>)
    decreases |ops|
  {
    if ops == [] then (r, [])
    else
      var (r1, a) := RelApply(r, ops[0]);
      var (r2, more) := RelRunOps(r1, ops[1..]);
      (r2, [a] + more)
  }

  lemma {:induction false} RunRefines(g: Registry, r: Relation, ops: seq<Operation>)
    requires Inverse(g) && StandsFor(g, r)
    ensures Inverse(RunOps(g, ops).0) && StandsFor(RunOps(g, ops).0, RelRunOps(r, ops).0)
    ensures RunOps(g, ops).1 == RelRunOps(r, ops).1
    decreases |ops|
  {
    if ops != [] {
      ApplyRefines(g, r, ops[0]);
      RunRefines(Apply(g, ops[0]).0, RelApply(r, ops[0]).0, ops[1..]);
    }
  }

  const EMPTY := Registry(map[], map[], map[])

  /** Over every run from the empty registry the two maps are exact inverses with no empty room, every
      subscriber is registered, and every reply is the one the plain relation gives. */
  lemma RegistryRefinesRelation(ops: seq<Operation>)
    ensures var (g, replies), (r, expected) := RunOps(EMPTY, ops), RelRunOps(Relation(map[], {}), ops);
            && Inverse(g) && StandsFor(g, r) && replies == expected
            && forall room :: SubsOf(g, room) <= g.sessions.Keys
  {
    RunRefines(EMPTY, Relation(map[], {}), ops);
    var g := RunOps(EMPTY, ops).0;
    forall room, session | session in SubsOf(g, room) ensures session in g.sessions {
      assert room in RoomsOf(g, session);
    }
  }

  class ConnectionRegistry {
    var sessions: map<nat, SessionInfo>
    var roomSubs: map<nat, set<nat>>
    var sessionRooms: map<nat, set<nat>>

    function View(): Registry
      reads this
    {
      Registry(sessions, roomSubs, sessionRooms)
    }

    constructor ()
      ensures View() == EMPTY
    {
      sessions, roomSubs, sessionRooms := map[], map[], map[];
    }

    method RegisterSession(session: nat, info: SessionInfo) returns (ok: bool)
      modifies this
      ensures (View(), Did(ok)) == Apply(old(View()), Register(session, info))
    {
      if session in sessions { return false; }
      sessions := sessions[session := info];
      sessionRooms := sessionRooms[session := {}];
      return true;
    }

    /** The cleanup loop, over the session's rooms in whatever order. */
    method UnregisterSession(session: nat) returns (r: Option<(SessionInfo, set<nat>)>)
      modifies this
      ensures r.None? <==> session !in old(sessions)
      ensures (View(), if r.None? then Gone else Left(r.value.0, r.value.1)) == Apply(old(View()), Unregister(session))
    {
      if session !in sessions { return None; }
      var info := sessions[session];
      sessions := sessions - {session};
      var rooms := if session in sessionRooms then sessionRooms[session] else {};
      sessionRooms := sessionRooms - {session};
      var left := rooms;
      while left != {}
        invariant left <= rooms
        invariant sessions == old(sessions) - {session} && sessionRooms == old(sessionRooms) - {session}
        invariant forall q :: q in roomSubs <==>
                    q in old(roomSubs) && (q in rooms - left ==> !(old(roomSubs)[q] <= {session}))
        invariant forall q <- roomSubs.Keys ::
                    roomSubs[q] == if q in rooms - left then old(roomSubs)[q] - {session} else old(roomSubs)[q]
        decreases left
      {
        var room :| room in left;
        left := left - {room};
        if room in roomSubs {
          var subscribers := roomSubs[room] - {session};
          roomSubs := if subscribers == {} then roomSubs - {room} else roomSubs[room := subscribers];
        }
      }
      assert roomSubs == Unregistered(old(View()), session).roomSubs;
      return Some((info, rooms));
    }

    method Subscribe(session: nat, room: nat) returns (ok: bool)
      modifies this
      ensures (View(), Did(ok)) == Apply(old(View()), Operation.Subscribe(session, room))
    {
      if session !in sessions { return false; }
      roomSubs := roomSubs[room := (if room in roomSubs then roomSubs[room] else {}) + {session}];
      sessionRooms := sessionRooms[session := (if session in sessionRooms then sessionRooms[session] else {}) + {room}];
      return true;
    }

    method Unsubscribe(session: nat, room: nat) returns (ok: bool)
      modifies this
      ensures (View(), Did(ok)) == Apply(old(View()), Operation.Unsubscribe(session, room))
    {
      var fromRoom := room in roomSubs && session in roomSubs[room];
      if room in roomSubs { roomSubs := roomSubs[room := roomSubs[room] - {session}]; }
      var fromSession := session in sessionRooms && room in sessionRooms[session];
      if session in sessionRooms { sessionRooms := sessionRooms[session := sessionRooms[session] - {room}]; }
      if room in roomSubs && roomSubs[room] == {} { roomSubs := roomSubs - {room}; }
      assert roomSubs == DropSub(old(roomSubs), session, room);
      return fromRoom && fromSession;
    }
  }
}
