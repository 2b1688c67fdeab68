/** What the reference model keeps across clients and server. */
module ModelViews {
  import opened Bytes
  import opened ModelWorlds

  // ---------------------------------------------------------------------------------------------
  // Membership

  predicate Listed(rooms: map<nat, ServerRoom>, room: nat, c: nat) { room in rooms && c in rooms[room].members }

  predicate InRoom(clients: seq<Client>, c: nat, room: nat) { c < |clients| && room in clients[c] }

  /** A client is in a room exactly when the server lists it there; no listed room is empty. */
  ghost predicate Membership(w: World) {
    && (forall c: nat, room: nat :: InRoom(w.clients, c, room) <==> Listed(w.rooms, room, c))
    && (forall room <- w.rooms.Keys :: w.rooms[room].members != {})
  }

  lemma {:induction false} DeliveryKeepsRooms(clients: seq<Client>, pending: seq<PendingMessage>, c: nat, room: nat)
    ensures InRoom(DeliveredAll(clients, pending), c, room) <==> InRoom(clients, c, room)
    decreases |pending|
  {
    if pending != [] {
      DeliveryKeepsRooms(Delivered(clients, pending[0]), pending[1..], c, room);
    }
  }

  lemma DepartureKeepsMembership(w: World, c: nat, room: nat)
    requires Membership(w) && InRoom(w.clients, c, room)
    ensures Membership(Departed(w, c, room))
  {
    var w' := Departed(w, c, room);
    forall x: nat, q: nat ensures InRoom(w'.clients, x, q) <==> Listed(w'.rooms, q, x) {
      assert InRoom(w.clients, x, q) <==> Listed(w.rooms, q, x);
    }
  }

  /** Every operation keeps it, whatever the operation and whether or not it succeeds. */
  lemma ApplyKeepsMembership(w: World, op: Operation)
    requires Membership(w)
    ensures Membership(Apply(w, op).0)
  {
    var w' := Apply(w, op).0;
    match op {
      case LeaveRoom(c, room) =>
        if InRoom(w.clients, c, room) { DepartureKeepsMembership(w, c, room); }
      case RemoveMember(_, target, room) =>
        if w' != w { DepartureKeepsMembership(w, target, room); }
      case DeliverPending =>
        forall c: nat, q: nat ensures InRoom(w'.clients, c, q) <==> Listed(w'.rooms, q, c) {
          DeliveryKeepsRooms(w.clients, w.pending, c, q);
          assert InRoom(w.clients, c, q) <==> Listed(w.rooms, q, c);
        }
      case CreateRoom(_, _) =>
        forall x: nat, q: nat ensures InRoom(w'.clients, x, q) <==> Listed(w'.rooms, q, x) {
          assert InRoom(w.clients, x, q) <==> Listed(w.rooms, q, x);
        }
      case AddMember(inviter, _, room) =>
        assert InRoom(w.clients, inviter, room) <==> Listed(w.rooms, room, inviter);
        forall x: nat, q: nat ensures InRoom(w'.clients, x, q) <==> Listed(w'.rooms, q, x) {
          assert InRoom(w.clients, x, q) <==> Listed(w.rooms, q, x);
        }
      case SendMessage(_, _, _) =>
        forall x: nat, q: nat ensures InRoom(w'.clients, x, q) <==> Listed(w'.rooms, q, x) {
          assert InRoom(w.clients, x, q) <==> Listed(w.rooms, q, x);
        }
      case AdvanceTime =>
    }
  }

  lemma {:induction false} RunKeepsMembership(w: World, ops: seq<Operation>)
    requires Membership(w)
    ensures Membership(Run(w, ops))
    decreases |ops|
  {
    if ops != [] {
      ApplyKeepsMembership(w, ops[0]);
      RunKeepsMembership(Apply(w, ops[0]).0, ops[1..]);
    }
  }

  /** After any operations at all on a new world, membership agrees on both sides. */
  lemma MembershipInEveryRun(n: nat, ops: seq<Operation>)
    ensures Membership(Run(NewWorld(n), ops))
  {
    RunKeepsMembership(NewWorld(n), ops);
  }

  // ---------------------------------------------------------------------------------------------
  // Message lists

  function LogOf(rooms: map<nat, ServerRoom>, room: nat): seq<Message> {
    if room in rooms then rooms[room].messages else []
  }

  function Seen(clients: seq<Client>, c: nat, room: nat): seq<Message> {
    if InRoom(clients, c, room) then clients[c][room].messages else []
  }

  /** A subsequence of the log with strictly increasing indices. */
  predicate Selected(list: seq<Message>, log: seq<Message>) {
    && (forall j :: 0 <= j < |list| ==> list[j].logIndex < |log| && log[list[j].logIndex] == list[j])
    && (forall i, j :: 0 <= i < j < |list| ==> list[i].logIndex < list[j].logIndex)
  }

  /** Every client's list in every room is such a subsequence of the server's log. */
  ghost predicate ViewsRefineLog(w: World) {
    forall c: nat, room: nat :: Selected(Seen(w.clients, c, room), LogOf(w.rooms, room))
  }

  predicate Indexed(r: ServerRoom) {
    |r.messages| == r.nextLogIndex && forall i :: 0 <= i < |r.messages| ==> r.messages[i].logIndex == i
  }

  predicate AllBefore(list: seq<Message>, index: nat) {
    forall j :: 0 <= j < |list| ==> list[j].logIndex < index
  }

  /** A queued message of an existing room is an entry of its log, and went to somebody. */
  predicate Queued(clients: nat, rooms: map<nat, ServerRoom>, p: PendingMessage) {
    && p.recipients != {} && (forall c <- p.recipients :: c < clients)
    && (p.room in rooms ==>
          p.message.logIndex < |rooms[p.room].messages| && rooms[p.room].messages[p.message.logIndex] == p.message)
  }

  /** The queue of each room runs ahead of what its members have seen, in log order. */
  ghost predicate QueueAhead(clients: seq<Client>, pending: seq<PendingMessage>) {
    && (forall k, l :: 0 <= k < l < |pending| && pending[k].room == pending[l].room
                       ==> pending[k].message.logIndex < pending[l].message.logIndex)
    && (forall p <- pending, c: nat :: AllBefore(Seen(clients, c, p.room), p.message.logIndex))
  }

  ghost predicate Consistent(clients: seq<Client>, rooms: map<nat, ServerRoom>, pending: seq<PendingMessage>) {
    && (forall room <- rooms.Keys :: Indexed(rooms[room]))
    && (forall c: nat, room: nat :: Selected(Seen(clients, c, room), LogOf(rooms, room)))
    && (forall p <- pending :: Queued(|clients|, rooms, p))
    && QueueAhead(clients, pending)
  }

  ghost predicate Good(w: World) { Membership(w) && Consistent(w.clients, w.rooms, w.pending) }

  predicate PendingFor(w: World, room: nat) { exists p <- w.pending :: p.room == room }

  /** The operation brings a room to life while messages of an earlier room of that id are queued. */
  predicate RevivesQueued(w: World, op: Operation) {
    op.CreateRoom? && op.client < |w.clients| && op.room !in w.rooms && PendingFor(w, op.room)
  }

  lemma NothingSelected(list: seq<Message>, log: seq<Message>)
    requires Selected(list, log)
    ensures log == [] ==> list == []
  {
    if list != [] { assert list[0].logIndex < |log|; }
  }

  /** A room that was there keeps its log; one that was not is blank, with nothing queued for it. */
  predicate LogKept(rooms: map<nat, ServerRoom>, pending: seq<PendingMessage>, room: nat, r: ServerRoom) {
    if room in rooms then r.messages == rooms[room].messages && r.nextLogIndex == rooms[room].nextLogIndex
    else r.messages == [] && r.nextLogIndex == 0 && forall p <- pending :: p.room != room
  }

  /** Lists kept or emptied, logs kept, new rooms blank and unmentioned: consistency stays. */
  lemma ForgettingKeepsConsistent(clients: seq<Client>, rooms: map<nat, ServerRoom>, pending: seq<PendingMessage>,
                                  clients': seq<Client>, rooms': map<nat, ServerRoom>)
    requires Consistent(clients, rooms, pending) && |clients'| == |clients|
    requires forall c: nat, room: nat ::
               Seen(clients', c, room) == Seen(clients, c, room) || Seen(clients', c, room) == []
    requires forall room <- rooms'.Keys :: LogKept(rooms, pending, room, rooms'[room])
    requires forall c: nat, room: nat :: room !in rooms' ==> Seen(clients', c, room) == []
    ensures Consistent(clients', rooms', pending)
  {
    forall c: nat, room: nat ensures Selected(Seen(clients', c, room), LogOf(rooms', room)) {
      assert Selected(Seen(clients, c, room), LogOf(rooms, room));
      assert Seen(clients', c, room) == Seen(clients, c, room) || Seen(clients', c, room) == [];
      if room in rooms' && room !in rooms { NothingSelected(Seen(clients, c, room), LogOf(rooms, room)); }
    }
    forall p, c: nat | p in pending ensures AllBefore(Seen(clients', c, p.room), p.message.logIndex) {
      assert AllBefore(Seen(clients, c, p.room), p.message.logIndex);
    }
    forall p | p in pending ensures Queued(|clients'|, rooms', p) { assert Queued(|clients|, rooms, p); }
  }

  /** Where the server has no room, no client has seen anything. */
  lemma NoRoomNothingSeen(w: World, c: nat, room: nat)
    requires Membership(w) && room !in w.rooms
    ensures Seen(w.clients, c, room) == []
  {
    assert InRoom(w.clients, c, room) <==> Listed(w.rooms, room, c);
  }

  /** A change of membership leaves each list as it was, or empty. */
  lemma MembershipChangeKeepsLists(w: World, op: Operation, c: nat, room: nat)
    requires op.CreateRoom? || op.LeaveRoom? || op.AddMember? || op.RemoveMember?
    ensures var w' := Apply(w, op).0;
            && |w'.clients| == |w.clients| && w'.pending == w.pending
            && (Seen(w'.clients, c, room) == Seen(w.clients, c, room) || Seen(w'.clients, c, room) == [])
  {
  }

  /** It leaves each existing room's log as it was; the only new room is a blank one just created. */
  lemma MembershipChangeKeepsLogs(w: World, op: Operation, room: nat)
    requires op.CreateRoom? || op.LeaveRoom? || op.AddMember? || op.RemoveMember?
    requires room in Apply(w, op).0.rooms
    ensures var r := Apply(w, op).0.rooms[room];
            if room in w.rooms then r.messages == w.rooms[room].messages && r.nextLogIndex == w.rooms[room].nextLogIndex
            else r.messages == [] && r.nextLogIndex == 0 && op == CreateRoom(op.client, room) && op.client < |w.clients|
  {
  }

  lemma MembershipChangeKeepsConsistent(w: World, op: Operation)
    requires Good(w) && (op.CreateRoom? || op.LeaveRoom? || op.AddMember? || op.RemoveMember?)
    requires !RevivesQueued(w, op)
    ensures var w' := Apply(w, op).0; Consistent(w'.clients, w'.rooms, w'.pending)
  {
    var w' := Apply(w, op).0;
    ApplyKeepsMembership(w, op);
    MembershipChangeKeepsLists(w, op, 0, 0);
    forall c: nat, room: nat
      ensures Seen(w'.clients, c, room) == Seen(w.clients, c, room) || Seen(w'.clients, c, room) == []
    {
      MembershipChangeKeepsLists(w, op, c, room);
    }
    forall room | room in w'.rooms.Keys
      ensures LogKept(w.rooms, w.pending, room, w'.rooms[room])
    {
      MembershipChangeKeepsLogs(w, op, room);
    }
    forall c: nat, room: nat | room !in w'.rooms ensures Seen(w'.clients, c, room) == [] {
      NoRoomNothingSeen(w', c, room);
    }
    ForgettingKeepsConsistent(w.clients, w.rooms, w.pending, w'.clients, w'.rooms);
  }

  lemma SendKeepsConsistent(w: World, c: nat, room: nat, content: seq<byte>)
    requires Good(w)
    ensures var w' := SentBy(w, c, room, content).0; Consistent(w'.clients, w'.rooms, w'.pending)
  {
    var w' := SentBy(w, c, room, content).0;
    if w' != w {
      var log := w.rooms[room].messages;
      assert Indexed(w.rooms[room]);
      forall x: nat, q: nat ensures Selected(Seen(w'.clients, x, q), LogOf(w'.rooms, q)) {
        assert Selected(Seen(w.clients, x, q), LogOf(w.rooms, q));
      }
      forall p | p in w'.pending ensures Queued(|w'.clients|, w'.rooms, p) {
        if p in w.pending { assert Queued(|w.clients|, w.rooms, p); }
        else {
          forall x | x in p.recipients ensures x < |w.clients| {
            assert InRoom(w.clients, x, room) <==> Listed(w.rooms, room, x);
          }
        }
      }
      forall p, x: nat | p in w'.pending ensures AllBefore(Seen(w'.clients, x, p.room), p.message.logIndex) {
        if p in w.pending {
          assert AllBefore(Seen(w.clients, x, p.room), p.message.logIndex);
        } else {
          assert Selected(Seen(w.clients, x, room), LogOf(w.rooms, room));
        }
      }
      forall k, l | 0 <= k < l < |w'.pending| && w'.pending[k].room == w'.pending[l].room
        ensures w'.pending[k].message.logIndex < w'.pending[l].message.logIndex
      {
        assert Queued(|w.clients|, w.rooms, w'.pending[k]);
      }
    }
  }

  /** Delivery of one message adds it to the list of each recipient still in the room, and to no
      other list. */
  lemma SeenAfterOne(clients: seq<Client>, p: PendingMessage, c: nat, room: nat)
    ensures Seen(Delivered(clients, p), c, room)
            == Seen(clients, c, room)
               + (if room == p.room && c in p.recipients && InRoom(clients, c, room) then [p.message] else [])
    ensures InRoom(Delivered(clients, p), c, room) <==> InRoom(clients, c, room)
  {
  }

  lemma SelectedOneMore(list: seq<Message>, log: seq<Message>, m: Message)
    requires Selected(list, log) && AllBefore(list, m.logIndex) && m.logIndex < |log| && log[m.logIndex] == m
    ensures Selected(list + [m], log)
  {
  }

  lemma DeliverOneKeepsSelected(clients: seq<Client>, rooms: map<nat, ServerRoom>, p: PendingMessage, c: nat, room: nat)
    requires Selected(Seen(clients, c, room), LogOf(rooms, room)) && Queued(|clients|, rooms, p)
    requires AllBefore(Seen(clients, c, p.room), p.message.logIndex)
    requires InRoom(clients, c, room) ==> room in rooms
    ensures Selected(Seen(Delivered(clients, p), c, room), LogOf(rooms, room))
  {
    SeenAfterOne(clients, p, c, room);
    if room == p.room && c in p.recipients && InRoom(clients, c, room) {
      SelectedOneMore(Seen(clients, c, room), LogOf(rooms, room), p.message);
    }
  }

  lemma DeliverOneKeepsAhead(clients: seq<Client>, pending: seq<PendingMessage>)
    requires QueueAhead(clients, pending) && pending != []
    ensures QueueAhead(Delivered(clients, pending[0]), pending[1..])
  {
    forall q, c: nat | q in pending[1..]
      ensures AllBefore(Seen(Delivered(clients, pending[0]), c, q.room), q.message.logIndex)
    {
      var l :| 0 <= l < |pending[1..]| && pending[1..][l] == q;
      assert pending[l + 1] == q && q in pending;
      assert AllBefore(Seen(clients, c, q.room), q.message.logIndex);
      SeenAfterOne(clients, pending[0], c, q.room);
    }
  }

  lemma DeliverOneKeepsConsistent(clients: seq<Client>, rooms: map<nat, ServerRoom>, pending: seq<PendingMessage>)
    requires Consistent(clients, rooms, pending) && pending != []
    requires forall c: nat, room: nat :: InRoom(clients, c, room) ==> room in rooms
    ensures Consistent(Delivered(clients, pending[0]), rooms, pending[1..])
  {
    var p := pending[0];
    assert p in pending && Queued(|clients|, rooms, p);
    forall c: nat, room: nat ensures Selected(Seen(Delivered(clients, p), c, room), LogOf(rooms, room)) {
      assert Selected(Seen(clients, c, room), LogOf(rooms, room));
      assert AllBefore(Seen(clients, c, p.room), p.message.logIndex);
      assert InRoom(clients, c, room) ==> room in rooms;
      DeliverOneKeepsSelected(clients, rooms, p, c, room);
    }
    forall k | 0 <= k < |pending| - 1 ensures Queued(|clients|, rooms, pending[1..][k]) {
      assert pending[1..][k] in pending;
    }
    DeliverOneKeepsAhead(clients, pending);
  }

  lemma {:induction false} DeliverAllKeepsConsistent(clients: seq<Client>, rooms: map<nat, ServerRoom>,
                                                     pending: seq<PendingMessage>)
    requires Consistent(clients, rooms, pending)
    requires forall c: nat, room: nat :: InRoom(clients, c, room) ==> room in rooms
    ensures Consistent(DeliveredAll(clients, pending), rooms, [])
    decreases |pending|
  {
    if pending != [] {
      DeliverOneKeepsConsistent(clients, rooms, pending);
      var clients' := Delivered(clients, pending[0]);
      forall c: nat, room: nat | InRoom(clients', c, room) ensures room in rooms {
        assert InRoom(clients, c, room);
      }
      DeliverAllKeepsConsistent(clients', rooms, pending[1..]);
    }
  }

  lemma ApplyKeepsGood(w: World, op: Operation)
    requires Good(w) && !RevivesQueued(w, op)
    ensures Good(Apply(w, op).0)
  {
    ApplyKeepsMembership(w, op);
    match op {
      case SendMessage(c, room, content) => SendKeepsConsistent(w, c, room, content);
      case DeliverPending =>
        forall c: nat, room: nat | InRoom(w.clients, c, room) ensures room in w.rooms {
          assert Listed(w.rooms, room, c);
        }
        DeliverAllKeepsConsistent(w.clients, w.rooms, w.pending);
      case AdvanceTime =>
      case CreateRoom(_, _) => MembershipChangeKeepsConsistent(w, op);
      case LeaveRoom(_, _) => MembershipChangeKeepsConsistent(w, op);
      case AddMember(_, _, _) => MembershipChangeKeepsConsistent(w, op);
      case RemoveMember(_, _, _) => MembershipChangeKeepsConsistent(w, op);
    }
  }

  /** No operation of the run revives a room whose old messages are still queued. */
  predicate NothingRevived(w: World, ops: seq<Operation>)
    decreases |ops|
  {
    ops != [] ==> !RevivesQueued(w, ops[0]) && NothingRevived(Apply(w, ops[0]).0, ops[1..])
  }

  lemma {:induction false} RunKeepsGood(w: World, ops: seq<Operation>)
    requires Good(w) && NothingRevived(w, ops)
    ensures Good(Run(w, ops)) && ViewsRefineLog(Run(w, ops))
    decreases |ops|
  {
    if ops != [] {
      ApplyKeepsGood(w, ops[0]);
      RunKeepsGood(Apply(w, ops[0]).0, ops[1..]);
    }
  }

  /** Along such a run of a new world every client's message list is a subsequence of the server's
      log, with strictly increasing log indices. */
  lemma ViewsRefineLogInEveryRun(n: nat, ops: seq<Operation>)
    requires NothingRevived(NewWorld(n), ops)
    ensures ViewsRefineLog(Run(NewWorld(n), ops))
  {
    RunKeepsGood(NewWorld(n), ops);
  }

  // Reviving a room whose old messages are queued is exactly what breaks it.

  /** One delivered message is enough for a non-empty list. */
  lemma {:induction false} DeliveryLengthens(clients: seq<Client>, pending: seq<PendingMessage>, c: nat, room: nat)
    requires InRoom(clients, c, room)
    ensures |Seen(DeliveredAll(clients, pending), c, room)| >= |Seen(clients, c, room)|
    ensures (exists p <- pending :: p.room == room && c in p.recipients) ==>
              |Seen(DeliveredAll(clients, pending), c, room)| > |Seen(clients, c, room)|
    decreases |pending|
  {
    if pending != [] {
      var clients' := Delivered(clients, pending[0]);
      assert InRoom(clients', c, room);
      DeliveryLengthens(clients', pending[1..], c, room);
      assert pending == [pending[0]] + pending[1..];
    }
  }

  /** With a stale message queued for a client who is in a room with an empty log, delivery gives the
      client a message the log does not have. */
  lemma StaleDelivery(w: World, c: nat, p: PendingMessage)
    requires p in w.pending && c in p.recipients && InRoom(w.clients, c, p.room)
    requires LogOf(w.rooms, p.room) == []
    ensures !ViewsRefineLog(Run(w, [DeliverPending]))
  {
    var w' := Run(w, [DeliverPending]);
    assert w' == Apply(w, DeliverPending).0;
    DeliveryLengthens(w.clients, w.pending, c, p.room);
    if Selected(Seen(w'.clients, c, p.room), LogOf(w'.rooms, p.room)) {
      NothingSelected(Seen(w'.clients, c, p.room), LogOf(w'.rooms, p.room));
    }
  }

  /** A run of at most two operations, creating nothing, that shows the stale message. */
  lemma RevivalShows(w: World, op: Operation) returns (ops: seq<Operation>)
    requires Good(w) && RevivesQueued(w, op)
    ensures var w' := Apply(w, op).0; NothingRevived(w', ops) && !ViewsRefineLog(Run(w', ops))
  {
    var w' := Apply(w, op).0;
    var room := op.room;
    var p :| p in w.pending && p.room == room;
    assert Queued(|w.clients|, w.rooms, p);
    var c :| c in p.recipients;
    assert InRoom(w.clients, op.client, room) <==> Listed(w.rooms, room, op.client);
    if c == op.client {
      ops := [DeliverPending];
      StaleDelivery(w', c, p);
    } else {
      assert InRoom(w.clients, c, room) <==> Listed(w.rooms, room, c);
      var add := AddMember(op.client, c, room);
      var w'' := Apply(w', add).0;
      ops := [add, DeliverPending];
      StaleDelivery(w'', c, p);
      assert ops[1..] == [DeliverPending];
      assert Run(w', ops) == Run(w'', ops[1..]);
    }
  }

  /** From a consistent state, an operation leaves every continuation that revives nothing with lists
      that are subsequences of the log, exactly when it revives nothing itself. */
  lemma ViewsRefineLogIff(w: World, op: Operation)
    requires Good(w)
    ensures !RevivesQueued(w, op)
       <==> forall ops | NothingRevived(Apply(w, op).0, ops) :: ViewsRefineLog(Run(Apply(w, op).0, ops))
  {
    if RevivesQueued(w, op) {
      var _ := RevivalShows(w, op);
    } else {
      ApplyKeepsGood(w, op);
      forall ops | NothingRevived(Apply(w, op).0, ops) ensures ViewsRefineLog(Run(Apply(w, op).0, ops)) {
        RunKeepsGood(Apply(w, op).0, ops);
      }
    }
  }

  /** A message sent, its room abandoned and created again before delivery: the list of the new room
      then holds a message its log does not have. */
  lemma ViewsBreakExample(n: nat, room: nat, content: seq<byte>)
    requires n > 0
    ensures var ops := [CreateRoom(0, room), SendMessage(0, room, content), LeaveRoom(0, room), CreateRoom(0, room),
                        DeliverPending];
            !ViewsRefineLog(Run(NewWorld(n), ops))
  {
    var ops := [CreateRoom(0, room), SendMessage(0, room, content), LeaveRoom(0, room), CreateRoom(0, room),
                DeliverPending];
    var w1 := Apply(NewWorld(n), ops[0]).0;
    var w2 := Apply(w1, ops[1]).0;
    var w3 := Apply(w2, ops[2]).0;
    var w4 := Apply(w3, ops[3]).0;
    var p := PendingMessage(room, Message(0, content, 0, 0), {0});
    assert w2.pending == [p];
    assert w2.rooms[room].members == {0} && room !in w3.rooms;
    assert ops[1..][1..] == ops[2..] && ops[2..][1..] == ops[3..] && ops[3..][1..] == ops[4..];
    assert Run(NewWorld(n), ops) == Run(w1, ops[1..]) == Run(w2, ops[2..]) == Run(w3, ops[3..]) == Run(w4, ops[4..]);
    assert ops[4..] == [DeliverPending];
    StaleDelivery(w4, 0, p);
  }

  // Never creating a room id again after its last member left is more than enough.

  /** Rooms that have gone so far are never created again. */
  predicate NeverRecreated(w: World, gone: set<nat>, ops: seq<Operation>)
    decreases |ops|
  {
    ops != [] ==>
      var w' := Apply(w, ops[0]).0;
      (ops[0].CreateRoom? ==> ops[0].room !in gone)
      && NeverRecreated(w', gone + (w.rooms.Keys - w'.rooms.Keys), ops[1..])
  }

  predicate QueueKnown(w: World, gone: set<nat>) { forall p <- w.pending :: p.room in w.rooms || p.room in gone }

  lemma QueueStaysKnown(w: World, gone: set<nat>, op: Operation)
    requires QueueKnown(w, gone)
    ensures var w' := Apply(w, op).0; QueueKnown(w', gone + (w.rooms.Keys - w'.rooms.Keys))
  {
  }

  lemma {:induction false} NeverRecreatedRevivesNothing(w: World, gone: set<nat>, ops: seq<Operation>)
    requires NeverRecreated(w, gone, ops) && QueueKnown(w, gone)
    ensures NothingRevived(w, ops)
    decreases |ops|
  {
    if ops != [] {
      var w' := Apply(w, ops[0]).0;
      var gone' := gone + (w.rooms.Keys - w'.rooms.Keys);
      assert QueueKnown(w', gone') by { QueueStaysKnown(w, gone, ops[0]); }
      NeverRecreatedRevivesNothing(w', gone', ops[1..]);
    }
  }

  /** If no room id is created again after its last member left, every client's list is such a
      subsequence, whatever else happens. */
  lemma ViewsRefineLogUnlessRecreated(n: nat, ops: seq<Operation>)
    requires NeverRecreated(NewWorld(n), {}, ops)
    ensures ViewsRefineLog(Run(NewWorld(n), ops))
  {
    NeverRecreatedRevivesNothing(NewWorld(n), {}, ops);
    ViewsRefineLogInEveryRun(n, ops);
  }

  // ---------------------------------------------------------------------------------------------
  // Epochs

  /** Every member of a room is at the server's epoch. */
  ghost predicate EpochsAgree(w: World) {
    forall c: nat, room: nat ::
      InRoom(w.clients, c, room) ==> room in w.rooms && w.clients[c][room].epoch == w.rooms[room].epoch
  }

  /** A client creates, for itself, a room the server already has at a later epoch. */
  predicate JoinsBehind(w: World, op: Operation) {
    && op.CreateRoom? && op.client < |w.clients| && op.room !in w.clients[op.client]
    && op.room in w.rooms && w.rooms[op.room].epoch != 0
  }

  lemma {:induction false} DeliveryKeepsEpoch(clients: seq<Client>, pending: seq<PendingMessage>, c: nat, room: nat)
    requires InRoom(clients, c, room)
    ensures InRoom(DeliveredAll(clients, pending), c, room)
    ensures DeliveredAll(clients, pending)[c][room].epoch == clients[c][room].epoch
    decreases |pending|
  {
    if pending != [] {
      var clients' := Delivered(clients, pending[0]);
      assert InRoom(clients', c, room) && clients'[c][room].epoch == clients[c][room].epoch;
      DeliveryKeepsEpoch(clients', pending[1..], c, room);
    }
  }

  lemma EpochAfter(w: World, op: Operation, c: nat, room: nat)
    requires Membership(w) && EpochsAgree(w) && !JoinsBehind(w, op) && !op.DeliverPending?
    requires InRoom(Apply(w, op).0.clients, c, room) && Membership(Apply(w, op).0)
    ensures var w' := Apply(w, op).0; room in w'.rooms && w'.clients[c][room].epoch == w'.rooms[room].epoch
  {
    var w' := Apply(w, op).0;
    assert Listed(w'.rooms, room, c);
    assert InRoom(w.clients, c, room) ==> room in w.rooms && w.clients[c][room].epoch == w.rooms[room].epoch;
  }

  /** Every operation keeps the epochs in agreement, except exactly a creation by which a client
      enters an existing room that has moved past epoch 0. */
  lemma EpochsKeptIff(w: World, op: Operation)
    requires Membership(w) && EpochsAgree(w)
    ensures EpochsAgree(Apply(w, op).0) <==> !JoinsBehind(w, op)
  {
    var w' := Apply(w, op).0;
    if JoinsBehind(w, op) {
      assert InRoom(w'.clients, op.client, op.room);
    } else if op.DeliverPending? {
      forall c: nat, room: nat | InRoom(w'.clients, c, room)
        ensures room in w'.rooms && w'.clients[c][room].epoch == w'.rooms[room].epoch
      {
        DeliveryKeepsRooms(w.clients, w.pending, c, room);
        DeliveryKeepsEpoch(w.clients, w.pending, c, room);
      }
    } else {
      ApplyKeepsMembership(w, op);
      forall c: nat, room: nat | InRoom(w'.clients, c, room)
        ensures room in w'.rooms && w'.clients[c][room].epoch == w'.rooms[room].epoch
      {
        EpochAfter(w, op, c, room);
      }
    }
  }

  predicate NoneJoinsBehind(w: World, ops: seq<Operation>)
    decreases |ops|
  {
    ops != [] ==> !JoinsBehind(w, ops[0]) && NoneJoinsBehind(Apply(w, ops[0]).0, ops[1..])
  }

  lemma {:induction false} RunKeepsEpochs(w: World, ops: seq<Operation>)
    requires Membership(w) && EpochsAgree(w) && NoneJoinsBehind(w, ops)
    ensures EpochsAgree(Run(w, ops))
    decreases |ops|
  {
    if ops != [] {
      EpochsKeptIff(w, ops[0]);
      ApplyKeepsMembership(w, ops[0]);
      RunKeepsEpochs(Apply(w, ops[0]).0, ops[1..]);
    }
  }

  /** So along every run of a new world without such a creation all members are at the server's
      epoch. */
  lemma EpochsAgreeInEveryRun(n: nat, ops: seq<Operation>)
    requires NoneJoinsBehind(NewWorld(n), ops)
    ensures EpochsAgree(Run(NewWorld(n), ops))
  {
    RunKeepsEpochs(NewWorld(n), ops);
  }

  /** Client 2 creates for itself a room the server has moved to epoch 1: it is at epoch 0. */
  lemma EpochsBreakExample(n: nat, room: nat)
    requires n > 2
    ensures var ops := [CreateRoom(0, room), AddMember(0, 1, room), CreateRoom(2, room)];
            !EpochsAgree(Run(NewWorld(n), ops))
  {
    var ops := [CreateRoom(0, room), AddMember(0, 1, room), CreateRoom(2, room)];
    var w1 := Apply(NewWorld(n), ops[0]).0;
    var w2 := Apply(w1, ops[1]).0;
    var w3 := Apply(w2, ops[2]).0;
    assert ops[1..][1..] == ops[2..] && ops[2..][1..] == [];
    assert Run(NewWorld(n), ops) == Run(w1, ops[1..]) == Run(w2, ops[2..]) == w3;
    assert InRoom(w3.clients, 2, room) && w3.clients[2][room].epoch == 0 && w3.rooms[room].epoch == 1;
  }
}
