/** The reference model's rooms, as the operations alone tell them. */
module ModelBooks {
  import opened Wrappers
  import opened Bytes
  import opened ModelWorlds
  import opened ModelViews
  import opened ModelDelivery

  /** What was said: by whom, what, and at which epoch of the room. */
  datatype Said = Said(sender: nat, content: seq<byte>, epoch: nat)

  /** The plain account of one room id. */
  datatype Book = Gone | Live(creator: nat, members: set<nat>, epoch: nat, said: seq<Said>)

  predicate Speaks(b: Book, c: nat) { b.Live? && c in b.members }

  /** One member fewer: everyone else moves an epoch on, and the last to go takes the room along. */
  function Without(b: Book, c: nat): Book
    requires b.Live?
  {
    if b.members == {c} then Gone else b.(members := b.members - {c}, epoch := b.epoch + 1)
  }

  /** What an operation does to a room id, with `n` clients in the world. */
  function Told(n: nat, b: Book, room: nat, op: Operation): Book {
    match op
    case CreateRoom(c, r) =>
      if r != room || c >= n || Speaks(b, c) then b
      else if b.Gone? then Live(c, {c}, 0, [])
      else b.(members := b.members + {c})
    case SendMessage(c, r, content) =>
      if r == room && Speaks(b, c) then b.(said := b.said + [Said(c, content, b.epoch)]) else b
    case LeaveRoom(c, r) => if r == room && Speaks(b, c) then Without(b, c) else b
    case AddMember(inviter, invitee, r) =>
      if r == room && Speaks(b, inviter) && invitee < n && invitee !in b.members
      then b.(members := b.members + {invitee}, epoch := b.epoch + 1)
      else b
    case RemoveMember(remover, target, r) =>
      if r == room && Speaks(b, remover) && Speaks(b, target) && remover != target then Without(b, target) else b
    case AdvanceTime => b
    case DeliverPending => b
  }

  function ToldAll(n: nat, b: Book, room: nat, ops: seq<Operation>): Book
    decreases |ops|
  {
    if ops == [] then b else ToldAll(n, Told(n, b, room, ops[0]), room, ops[1..])
  }

  /** The log that what was said makes: each message at its own position. */
  function LogFrom(said: seq<Said>): seq<Message> {
    seq(|said|, i requires 0 <= i < |said| => Message(said[i].sender, said[i].content, i, said[i].epoch))
  }

  /** The server's room is the account's. */
  predicate RoomAgrees(rooms: map<nat, ServerRoom>, room: nat, b: Book) {
    match b
    case Gone => room !in rooms
    case Live(creator, members, epoch, said) =>
      room in rooms && rooms[room] == ServerRoom(creator, members, LogFrom(said), |said|, epoch)
  }

  /** The account of a room whose members are clients of the world. */
  ghost predicate Agrees(w: World, room: nat, b: Book) {
    && Membership(w) && RoomAgrees(w.rooms, room, b)
    && (b.Live? ==> forall c <- b.members :: c < |w.clients|)
  }

  lemma SpeaksIff(w: World, room: nat, b: Book, c: nat)
    requires Agrees(w, room, b)
    ensures Speaks(b, c) <==> InRoom(w.clients, c, room)
    ensures Speaks(b, c) <==> Listed(w.rooms, room, c)
  {
    assert InRoom(w.clients, c, room) <==> Listed(w.rooms, room, c);
  }

  lemma OneMoreSaid(said: seq<Said>, more: Said)
    ensures LogFrom(said + [more]) == LogFrom(said) + [Message(more.sender, more.content, |said|, more.epoch)]
  {
  }

  lemma SendAgrees(w: World, room: nat, b: Book, op: Operation)
    requires Agrees(w, room, b) && op.SendMessage?
    ensures Agrees(Apply(w, op).0, room, Told(|w.clients|, b, room, op))
  {
    ApplyKeepsMembership(w, op);
    if op.room == room {
      SpeaksIff(w, room, b, op.client);
      if Speaks(b, op.client) { OneMoreSaid(b.said, Said(op.client, op.content, b.epoch)); }
    }
  }

  lemma CreateAgrees(w: World, room: nat, b: Book, op: Operation)
    requires Agrees(w, room, b) && op.CreateRoom?
    ensures Agrees(Apply(w, op).0, room, Told(|w.clients|, b, room, op))
  {
    ApplyKeepsMembership(w, op);
    if op.room == room {
      SpeaksIff(w, room, b, op.client);
      assert {op.client} + {op.client} == {op.client};
    }
  }

  lemma AddAgrees(w: World, room: nat, b: Book, op: Operation)
    requires Agrees(w, room, b) && op.AddMember?
    ensures Agrees(Apply(w, op).0, room, Told(|w.clients|, b, room, op))
  {
    ApplyKeepsMembership(w, op);
    if op.room == room {
      SpeaksIff(w, room, b, op.inviter);
      SpeaksIff(w, room, b, op.invitee);
    }
  }

  lemma DepartureAgrees(w: World, room: nat, b: Book, op: Operation)
    requires Agrees(w, room, b) && (op.LeaveRoom? || op.RemoveMember?)
    ensures Agrees(Apply(w, op).0, room, Told(|w.clients|, b, room, op))
  {
    ApplyKeepsMembership(w, op);
    if op.room == room {
      var target := if op.LeaveRoom? then op.client else op.target;
      SpeaksIff(w, room, b, target);
      if op.RemoveMember? { SpeaksIff(w, room, b, op.remover); }
    }
  }

  lemma StepAgrees(w: World, room: nat, b: Book, op: Operation)
    requires Agrees(w, room, b)
    ensures Agrees(Apply(w, op).0, room, Told(|w.clients|, b, room, op)) && |Apply(w, op).0.clients| == |w.clients|
  {
    if op.SendMessage? {
      SendAgrees(w, room, b, op);
    } else if op.CreateRoom? {
      CreateAgrees(w, room, b, op);
    } else if op.AddMember? {
      AddAgrees(w, room, b, op);
    } else if op.LeaveRoom? || op.RemoveMember? {
      DepartureAgrees(w, room, b, op);
    } else {
      ApplyKeepsMembership(w, op);
    }
  }

  lemma {:induction false} RunAgrees(w: World, room: nat, b: Book, ops: seq<Operation>)
    requires Agrees(w, room, b)
    ensures Agrees(Run(w, ops), room, ToldAll(|w.clients|, b, room, ops))
    decreases |ops|
  {
    if ops != [] {
      StepAgrees(w, room, b, ops[0]);
      RunAgrees(Apply(w, ops[0]).0, room, Told(|w.clients|, b, room, ops[0]), ops[1..]);
    }
  }

  /** In every run of a new world each room of the server is the account of its operations: there or gone, with
      its members and epoch, and a log of everything said there since it was created, in order, each message
      with its sender, its content, its position and the epoch of the moment. */
  lemma RoomsFollowOperations(n: nat, ops: seq<Operation>, room: nat)
    ensures RoomAgrees(Run(NewWorld(n), ops).rooms, room, ToldAll(n, Gone, room, ops))
  {
    RunAgrees(NewWorld(n), room, Gone, ops);
  }

  lemma {:induction false} RunKeepsClients(w: World, ops: seq<Operation>)
    ensures |Run(w, ops).clients| == |w.clients|
    decreases |ops|
  {
    if ops != [] { RunKeepsClients(Apply(w, ops[0]).0, ops[1..]); }
  }

  /** It is still in the room, so the room is there. */
  lemma EntrantIsIn(n: nat, before: seq<Operation>, entry: Operation, after: seq<Operation>, c: nat, room: nat)
    requires var w := Run(NewWorld(n), before);
             && !InRoom(w.clients, c, room) && InRoom(Apply(w, entry).0.clients, c, room)
             && Awaiting(w.pending, c, room) == [] && Stays(Apply(w, entry).0, after, c, room)
    ensures room in Run(Apply(Run(NewWorld(n), before), entry).0, after).rooms
  {
    var w := Run(NewWorld(n), before);
    MembershipInEveryRun(n, before);
    EntersUpToDateIff(w, entry, c, room);
    ApplyKeepsMembership(w, entry);
    StaysUpToDate(Apply(w, entry).0, after, c, room, |LogOf(w.rooms, room)|);
    var w' := Run(Apply(w, entry).0, after);
    assert InRoom(w'.clients, c, room) && Listed(w'.rooms, room, c);
  }

  /** So a client that enters a room with nothing of it queued from an earlier stay, and stays, has after a
      delivery exactly what was said there since it entered. */
  lemma EntrantHearsWhatWasSaid(n: nat, before: seq<Operation>, entry: Operation, after: seq<Operation>,
                                c: nat, room: nat)
    requires var w := Run(NewWorld(n), before);
             && !InRoom(w.clients, c, room) && InRoom(Apply(w, entry).0.clients, c, room)
             && Awaiting(w.pending, c, room) == [] && Stays(Apply(w, entry).0, after, c, room)
    ensures var w := Run(NewWorld(n), before);
            var w' := Apply(Run(Apply(w, entry).0, after), DeliverPending).0;
            var earlier := ToldAll(n, Gone, room, before);
            var b := ToldAll(n, Told(n, earlier, room, entry), room, after);
            && b.Live?
            && var from := if earlier.Live? then |earlier.said| else 0;
               from <= |b.said| && Seen(w'.clients, c, room) == LogFrom(b.said)[from..]
  {
    var w, earlier := Run(NewWorld(n), before), ToldAll(n, Gone, room, before);
    RunAgrees(NewWorld(n), room, Gone, before);
    RunKeepsClients(NewWorld(n), before);
    StepAgrees(w, room, earlier, entry);
    RunAgrees(Apply(w, entry).0, room, Told(n, earlier, room, entry), after);
    EntrantSeesEverything(n, before, entry, after, c, room);
    EntrantIsIn(n, before, entry, after, c, room);
  }

  // ---------------------------------------------------------------------------------------------
  // Results

  /** What an operation answers, from the account of its room: a client there is not, a room one is in
      already, a room one is not in, a member added twice, oneself removed. */
  function Answer(n: nat, b: Book, op: Operation): OperationResult {
    match op
    case CreateRoom(c, _) =>
      if c >= n then Err(InvalidClient) else if Speaks(b, c) then Err(RoomAlreadyExists) else Ok(())
    case SendMessage(c, _, _) => if c >= n then Err(InvalidClient) else if !Speaks(b, c) then Err(NotMember) else Ok(())
    case LeaveRoom(c, _) => if c >= n then Err(InvalidClient) else if !Speaks(b, c) then Err(NotMember) else Ok(())
    case AddMember(inviter, invitee, _) =>
      if inviter >= n || invitee >= n then Err(InvalidClient)
      else if !Speaks(b, inviter) then Err(NotMember)
      else if Speaks(b, invitee) then Err(AlreadyMember) else Ok(())
    case RemoveMember(remover, target, _) =>
      if remover >= n || target >= n then Err(InvalidClient)
      else if remover == target then Err(CannotRemoveSelf)
      else if !Speaks(b, remover) || !Speaks(b, target) then Err(NotMember) else Ok(())
    case AdvanceTime => Ok(())
    case DeliverPending => Ok(())
  }

  predicate InRoomOf(op: Operation, room: nat) { op.AdvanceTime? || op.DeliverPending? || op.room == room }

  /** In every run of a new world each operation answers what the account of its room says; a member is never
      told that its room does not exist. */
  lemma AnswersFollowOperations(n: nat, ops: seq<Operation>, op: Operation, room: nat)
    requires InRoomOf(op, room)
    ensures Apply(Run(NewWorld(n), ops), op).1 == Answer(n, ToldAll(n, Gone, room, ops), op)
  {
    var w, b := Run(NewWorld(n), ops), ToldAll(n, Gone, room, ops);
    RunAgrees(NewWorld(n), room, Gone, ops);
    RunKeepsClients(NewWorld(n), ops);
    forall c: nat ensures Speaks(b, c) <==> InRoom(w.clients, c, room) { SpeaksIff(w, room, b, c); }
    forall c: nat ensures Speaks(b, c) <==> Listed(w.rooms, room, c) { SpeaksIff(w, room, b, c); }
  }
}
