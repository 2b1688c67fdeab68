/** What a member of a room in the reference model is sure to see. */
module ModelDelivery {
  import opened Wrappers
  import opened Bytes
  import opened ModelWorlds
  import opened ModelViews

  /** The queued messages of a room addressed to a client, in order. */
  function Awaiting(pending: seq<PendingMessage>, c: nat, room: nat): seq<Message> {
    if pending == [] then []
    else (if pending[0].room == room && c in pending[0].recipients then [pending[0].message] else [])
         + Awaiting(pending[1..], c, room)
  }

  /** What the client has seen, then what is queued for it, is the room's log from entry `from` on. */
  predicate UpToDate(w: World, c: nat, room: nat, from: nat) {
    && InRoom(w.clients, c, room)
    && from <= |LogOf(w.rooms, room)|
    && Seen(w.clients, c, room) + Awaiting(w.pending, c, room) == LogOf(w.rooms, room)[from..]
  }

  lemma {:induction false} AwaitingOneMore(pending: seq<PendingMessage>, p: PendingMessage, c: nat, room: nat)
    ensures Awaiting(pending + [p], c, room)
            == Awaiting(pending, c, room) + (if p.room == room && c in p.recipients then [p.message] else [])
  {
    if pending == [] {
      assert pending + [p] == [p] && [p][1..] == [];
    } else {
      AwaitingOneMore(pending[1..], p, c, room);
      assert (pending + [p])[1..] == pending[1..] + [p];
    }
  }

  /** Delivering the queue gives each member exactly what was queued for it, in order. */
  lemma {:induction false} DeliveryGivesAwaiting(clients: seq<Client>, pending: seq<PendingMessage>, c: nat, room: nat)
    requires InRoom(clients, c, room)
    ensures Seen(DeliveredAll(clients, pending), c, room) == Seen(clients, c, room) + Awaiting(pending, c, room)
    decreases |pending|
  {
    if pending != [] {
      var p, clients' := pending[0], Delivered(clients, pending[0]);
      assert InRoom(clients', c, room);
      DeliveryGivesAwaiting(clients', pending[1..], c, room);
      var one := if p.room == room && c in p.recipients then [p.message] else [];
      assert Seen(clients', c, room) == Seen(clients, c, room) + one;
      Associative(Seen(clients, c, room), one, Awaiting(pending[1..], c, room));
    }
  }

  /** The operation takes the client out of the room. */
  predicate Departs(w: World, op: Operation, c: nat, room: nat) {
    || op == LeaveRoom(c, room)
    || (op.RemoveMember? && op.target == c && op.room == room && op.remover != c && InRoom(w.clients, op.remover, room))
  }

  lemma SendKeepsUpToDate(w: World, sender: nat, q: nat, content: seq<byte>, c: nat, room: nat, from: nat)
    requires Membership(w) && UpToDate(w, c, room, from)
    ensures UpToDate(SentBy(w, sender, q, content).0, c, room, from)
  {
    var w' := SentBy(w, sender, q, content).0;
    if w' != w {
      assert InRoom(w.clients, c, room) && Listed(w.rooms, room, c);
      var p := w'.pending[|w.pending|];
      AwaitingOneMore(w.pending, p, c, room);
      if q == room {
        Associative(Seen(w.clients, c, room), Awaiting(w.pending, c, room), [p.message]);
        assert LogOf(w'.rooms, room)[from..] == LogOf(w.rooms, room)[from..] + [p.message];
      }
    }
  }

  /** A change of membership that leaves a member in its room leaves its list alone. */
  lemma MembershipChangeKeepsSeen(w: World, op: Operation, c: nat, room: nat)
    requires InRoom(w.clients, c, room)
    requires op.CreateRoom? || op.LeaveRoom? || op.AddMember? || op.RemoveMember?
    ensures var w' := Apply(w, op).0;
            && (InRoom(w'.clients, c, room) <==> !Departs(w, op, c, room))
            && (InRoom(w'.clients, c, room) ==> Seen(w'.clients, c, room) == Seen(w.clients, c, room))
            && w'.pending == w.pending
  {
  }

  lemma MembershipChangeKeepsUpToDate(w: World, op: Operation, c: nat, room: nat, from: nat)
    requires Membership(w) && UpToDate(w, c, room, from)
    requires op.CreateRoom? || op.LeaveRoom? || op.AddMember? || op.RemoveMember?
    ensures UpToDate(Apply(w, op).0, c, room, from) <==> !Departs(w, op, c, room)
  {
    var w' := Apply(w, op).0;
    MembershipChangeKeepsSeen(w, op, c, room);
    if !Departs(w, op, c, room) {
      ApplyKeepsMembership(w, op);
      assert Listed(w.rooms, room, c) && Listed(w'.rooms, room, c);
      MembershipChangeKeepsLogs(w, op, room);
    }
  }

  /** A member that misses nothing so far goes on missing nothing exactly as long as it stays. */
  lemma UpToDateKeptIff(w: World, op: Operation, c: nat, room: nat, from: nat)
    requires Membership(w) && UpToDate(w, c, room, from)
    ensures UpToDate(Apply(w, op).0, c, room, from) <==> !Departs(w, op, c, room)
  {
    if op.SendMessage? {
      SendKeepsUpToDate(w, op.client, op.room, op.content, c, room, from);
    } else if op.DeliverPending? {
      DeliveryGivesAwaiting(w.clients, w.pending, c, room);
      DeliveryKeepsRooms(w.clients, w.pending, c, room);
    } else if !op.AdvanceTime? {
      MembershipChangeKeepsUpToDate(w, op, c, room, from);
    }
  }

  /** A client that enters a room is up to date from there on exactly when no message of that room is
      still queued for it, from an earlier stay. */
  lemma EntersUpToDateIff(w: World, op: Operation, c: nat, room: nat)
    requires Membership(w) && !InRoom(w.clients, c, room) && InRoom(Apply(w, op).0.clients, c, room)
    ensures UpToDate(Apply(w, op).0, c, room, |LogOf(w.rooms, room)|) <==> Awaiting(w.pending, c, room) == []
  {
    var w' := Apply(w, op).0;
    if op.DeliverPending? { DeliveryKeepsRooms(w.clients, w.pending, c, room); }
    assert op.CreateRoom? || op.AddMember?;
    ApplyKeepsMembership(w, op);
    assert Listed(w'.rooms, room, c);
    MembershipChangeKeepsLogs(w, op, room);
    assert Seen(w'.clients, c, room) == [];
  }

  predicate Stays(w: World, ops: seq<Operation>, c: nat, room: nat)
    decreases |ops|
  {
    ops != [] ==> !Departs(w, ops[0], c, room) && Stays(Apply(w, ops[0]).0, ops[1..], c, room)
  }

  lemma {:induction false} StaysUpToDate(w: World, ops: seq<Operation>, c: nat, room: nat, from: nat)
    requires Membership(w) && UpToDate(w, c, room, from) && Stays(w, ops, c, room)
    ensures UpToDate(Run(w, ops), c, room, from) && Membership(Run(w, ops))
    decreases |ops|
  {
    if ops != [] {
      UpToDateKeptIff(w, ops[0], c, room, from);
      ApplyKeepsMembership(w, ops[0]);
      StaysUpToDate(Apply(w, ops[0]).0, ops[1..], c, room, from);
    }
  }

  /** Whatever everyone does in between, a member that stays has, after each delivery, exactly the
      log since it entered. */
  lemma MemberSeesEverything(w: World, ops: seq<Operation>, c: nat, room: nat, from: nat)
    requires Membership(w) && UpToDate(w, c, room, from) && Stays(w, ops, c, room)
    ensures var w' := Apply(Run(w, ops), DeliverPending).0;
            from <= |LogOf(w'.rooms, room)| && Seen(w'.clients, c, room) == LogOf(w'.rooms, room)[from..]
  {
    StaysUpToDate(w, ops, c, room, from);
    UpToDateKeptIff(Run(w, ops), DeliverPending, c, room, from);
    var w' := Apply(Run(w, ops), DeliverPending).0;
    assert Awaiting(w'.pending, c, room) == [];
  }

  /** The same over a whole run of a new world: a client enters a room with nothing of it queued from
      an earlier stay, and stays. */
  lemma EntrantSeesEverything(n: nat, before: seq<Operation>, entry: Operation, after: seq<Operation>,
                              c: nat, room: nat)
    requires var w := Run(NewWorld(n), before);
             && !InRoom(w.clients, c, room) && InRoom(Apply(w, entry).0.clients, c, room)
             && Awaiting(w.pending, c, room) == [] && Stays(Apply(w, entry).0, after, c, room)
    ensures var w := Run(NewWorld(n), before);
            var from := |LogOf(w.rooms, room)|;
            var w' := Apply(Run(Apply(w, entry).0, after), DeliverPending).0;
            from <= |LogOf(w'.rooms, room)| && Seen(w'.clients, c, room) == LogOf(w'.rooms, room)[from..]
  {
    var w := Run(NewWorld(n), before);
    MembershipInEveryRun(n, before);
    EntersUpToDateIff(w, entry, c, room);
    ApplyKeepsMembership(w, entry);
    MemberSeesEverything(Apply(w, entry).0, after, c, room, |LogOf(w.rooms, room)|);
  }
}
