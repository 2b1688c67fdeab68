/** The reference model: clients and one server
    (crates/lockframe-harness/src/model/world.rs, server.rs, client.rs). */
module ModelWorlds {
  import opened Wrappers
  import opened Bytes

  datatype Message = Message(sender: nat, content: seq<byte>, logIndex: nat, epoch: nat)

  datatype ClientRoom = ClientRoom(epoch: nat, messages: seq<Message>)

  type Client = map<nat, ClientRoom>

  datatype ServerRoom = ServerRoom(creator: nat, members: set<nat>, messages: seq<Message>,
                                   nextLogIndex: nat, epoch: nat)

  /** `recipients` is the membership at the time of sending. */
  datatype PendingMessage = PendingMessage(room: nat, message: Message, recipients: set<nat>)

  datatype World = World(clients: seq<Client>, rooms: map<nat, ServerRoom>, pending: seq<PendingMessage>)

  datatype Operation =
    | CreateRoom(client: nat, room: nat)
    | SendMessage(client: nat, room: nat, content: seq<byte>)
    | LeaveRoom(client: nat, room: nat)
    | AddMember(inviter: nat, invitee: nat, room: nat)
    | RemoveMember(remover: nat, target: nat, room: nat)
    | AdvanceTime
    | DeliverPending

  datatype OperationError =
    | RoomAlreadyExists
    | RoomNotFound
    | NotMember
    | InvalidClient
    | AlreadyMember
    | CannotRemoveSelf

  type OperationResult = Result<(), OperationError>

  function NewWorld(clients: nat): World { World(seq(clients, _ => map[]), map[], []) }

  // The server's part.

  function ServerCreated(rooms: map<nat, ServerRoom>, room: nat, creator: nat): map<nat, ServerRoom> {
    if room in rooms then rooms else rooms[room := ServerRoom(creator, {creator}, [], 0, 0)]
  }

  function ServerAdded(rooms: map<nat, ServerRoom>, room: nat, client: nat): map<nat, ServerRoom> {
    if room in rooms then rooms[room := rooms[room].(members := rooms[room].members + {client})] else rooms
  }

  /** The last member to leave takes the room with it. */
  function ServerRemoved(rooms: map<nat, ServerRoom>, room: nat, client: nat): map<nat, ServerRoom> {
    if room !in rooms || client !in rooms[room].members then rooms
    else if rooms[room].members == {client} then rooms - {room}
    else rooms[room := rooms[room].(members := rooms[room].members - {client})]
  }

  function ServerAdvanced(rooms: map<nat, ServerRoom>, room: nat): map<nat, ServerRoom> {
    if room in rooms then rooms[room := rooms[room].(epoch := rooms[room].epoch + 1)] else rooms
  }

  // The clients' part.

  /** A room entered at the given epoch, with no messages yet. */
  function ClientJoined(c: Client, room: nat, epoch: nat): Client { c[room := ClientRoom(epoch, [])] }

  function ClientAdvanced(c: Client, room: nat): Client {
    if room in c then c[room := c[room].(epoch := c[room].epoch + 1)] else c
  }

  function ClientsAdvanced(clients: seq<Client>, room: nat): seq<Client> {
    seq(|clients|, i requires 0 <= i < |clients| => ClientAdvanced(clients[i], room))
  }

  /** Delivery to one client: only if it is (still, or again) in the room. */
  function ClientReceived(c: Client, p: PendingMessage): Client {
    if p.room in c then c[p.room := c[p.room].(messages := c[p.room].messages + [p.message])] else c
  }

  function Delivered(clients: seq<Client>, p: PendingMessage): seq<Client> {
    seq(|clients|, i requires 0 <= i < |clients| =>
      if i in p.recipients then ClientReceived(clients[i], p) else clients[i])
  }

  function DeliveredAll(clients: seq<Client>, pending: seq<PendingMessage>): (r: seq<Client>)
    ensures |r| == |clients|
    decreases |pending|
  {
    if pending == [] then clients else DeliveredAll(Delivered(clients, pending[0]), pending[1..])
  }

  // Operations.

  function Created(w: World, c: nat, room: nat): (World, OperationResult) {
    if c >= |w.clients| then (w, Err(InvalidClient))
    else if room in w.clients[c] then (w, Err(RoomAlreadyExists))
    else (w.(clients := w.clients[c := ClientJoined(w.clients[c], room, 0)],
             rooms := ServerAdded(ServerCreated(w.rooms, room, c), room, c)), Ok(()))
  }

  function SentBy(w: World, c: nat, room: nat, content: seq<byte>): (World, OperationResult) {
    if c >= |w.clients| then (w, Err(InvalidClient))
    else if room !in w.clients[c] then (w, Err(NotMember))
    else if room !in w.rooms then (w, Err(RoomNotFound))
    else if c !in w.rooms[room].members then (w, Err(NotMember))
    else
      var r := w.rooms[room];
      var m := Message(c, content, r.nextLogIndex, r.epoch);
      (w.(rooms := w.rooms[room := r.(messages := r.messages + [m], nextLogIndex := r.nextLogIndex + 1)],
          pending := w.pending + [PendingMessage(room, m, r.members)]), Ok(()))
  }

  /** A client's departure from a room, by its own will or not. */
  function Departed(w: World, c: nat, room: nat): World
    requires c < |w.clients|
  {
    w.(clients := ClientsAdvanced(w.clients[c := w.clients[c] - {room}], room),
       rooms := ServerAdvanced(ServerRemoved(w.rooms, room, c), room))
  }

  function Left(w: World, c: nat, room: nat): (World, OperationResult) {
    if c >= |w.clients| then (w, Err(InvalidClient))
    else if room !in w.clients[c] then (w, Err(NotMember))
    else (Departed(w, c, room), Ok(()))
  }

  function Added(w: World, inviter: nat, invitee: nat, room: nat): (World, OperationResult) {
    if inviter >= |w.clients| || invitee >= |w.clients| then (w, Err(InvalidClient))
    else if room !in w.clients[inviter] then (w, Err(NotMember))
    else if room in w.clients[invitee] then (w, Err(AlreadyMember))
    else
      var rooms := ServerAdvanced(w.rooms, room);
      var epoch := if room in rooms then rooms[room].epoch else 0;
      var clients := ClientsAdvanced(w.clients, room);
      (w.(clients := clients[invitee := ClientJoined(clients[invitee], room, epoch)],
          rooms := ServerAdded(rooms, room, invitee)), Ok(()))
  }

  function Removed(w: World, remover: nat, target: nat, room: nat): (World, OperationResult) {
    if remover >= |w.clients| || target >= |w.clients| then (w, Err(InvalidClient))
    else if remover == target then (w, Err(CannotRemoveSelf))
    else if room !in w.clients[remover] || room !in w.clients[target] then (w, Err(NotMember))
    else (Departed(w, target, room), Ok(()))
  }

  function Apply(w: World, op: Operation): (World, OperationResult) {
    match op
    case CreateRoom(c, room) => Created(w, c, room)
    case SendMessage(c, room, content) => SentBy(w, c, room, content)
    case LeaveRoom(c, room) => Left(w, c, room)
    case AddMember(inviter, invitee, room) => Added(w, inviter, invitee, room)
    case RemoveMember(remover, target, room) => Removed(w, remover, target, room)
    case AdvanceTime => (w, Ok(()))
    case DeliverPending => (w.(clients := DeliveredAll(w.clients, w.pending), pending := []), Ok(()))
  }

  function Run(w: World, ops: seq<Operation>): World
    decreases |ops|
  {
    if ops == [] then w else Run(Apply(w, ops[0]).0, ops[1..])
  }

  // ---------------------------------------------------------------------------------------------

  class ModelWorld {
    var clients: seq<Client>
    var rooms: map<nat, ServerRoom>
    var pending: seq<PendingMessage>

    function View(): World
      reads this
    {
      World(clients, rooms, pending)
    }

    constructor (numClients: nat)
      ensures View() == NewWorld(numClients)
    {
      clients, rooms, pending := seq(numClients, _ => map[]), map[], [];
    }

    method ApplyCreateRoom(c: nat, room: nat) returns (r: OperationResult)
      modifies this
      ensures (View(), r) == Created(old(View()), c, room)
    {
      if c >= |clients| { return Err(InvalidClient); }
      if room in clients[c] { return Err(RoomAlreadyExists); }
      clients := clients[c := ClientJoined(clients[c], room, 0)];
      rooms := ServerCreated(rooms, room, c);
      rooms := ServerAdded(rooms, room, c);
      return Ok(());
    }

    method ApplySendMessage(c: nat, room: nat, content: seq<byte>) returns (r: OperationResult)
      modifies this
      ensures (View(), r) == SentBy(old(View()), c, room, content)
    {
      if c >= |clients| { return Err(InvalidClient); }
      if room !in clients[c] { return Err(NotMember); }
      if room !in rooms { return Err(RoomNotFound); }
      var state := rooms[room];
      if c !in state.members { return Err(NotMember); }
      var message := Message(c, content, state.nextLogIndex, state.epoch);
      rooms := rooms[room := state.(messages := state.messages + [message], nextLogIndex := state.nextLogIndex + 1)];
      pending := pending + [PendingMessage(room, message, state.members)];
      return Ok(());
    }

    /** The loop that moves every member of a room to the next epoch. */
    method AdvanceMembers(room: nat)
      modifies this`clients
      ensures clients == ClientsAdvanced(old(clients), room)
    {
      for i := 0 to |clients|
        invariant |clients| == |old(clients)|
        invariant forall k :: 0 <= k < |clients| ==>
                    clients[k] == if k < i then ClientAdvanced(old(clients)[k], room) else old(clients)[k]
      {
        if room in clients[i] {
          clients := clients[i := clients[i][room := clients[i][room].(epoch := clients[i][room].epoch + 1)]];
        }
      }
    }

    method ApplyLeaveRoom(c: nat, room: nat) returns (r: OperationResult)
      modifies this
      ensures (View(), r) == Left(old(View()), c, room)
    {
      if c >= |clients| { return Err(InvalidClient); }
      if room !in clients[c] { return Err(NotMember); }
      clients := clients[c := clients[c] - {room}];
      rooms := ServerRemoved(rooms, room, c);
      rooms := ServerAdvanced(rooms, room);
      AdvanceMembers(room);
      return Ok(());
    }

    method ApplyAddMember(inviter: nat, invitee: nat, room: nat) returns (r: OperationResult)
      modifies this
      ensures (View(), r) == Added(old(View()), inviter, invitee, room)
    {
      if inviter >= |clients| || invitee >= |clients| { return Err(InvalidClient); }
      if room !in clients[inviter] { return Err(NotMember); }
      if room in clients[invitee] { return Err(AlreadyMember); }
      rooms := ServerAdvanced(rooms, room);
      var epoch := if room in rooms then rooms[room].epoch else 0;
      AdvanceMembers(room);
      rooms := ServerAdded(rooms, room, invitee);
      clients := clients[invitee := ClientJoined(clients[invitee], room, epoch)];
      return Ok(());
    }

    method ApplyRemoveMember(remover: nat, target: nat, room: nat) returns (r: OperationResult)
      modifies this
      ensures (View(), r) == Removed(old(View()), remover, target, room)
    {
      if remover >= |clients| || target >= |clients| { return Err(InvalidClient); }
      if remover == target { return Err(CannotRemoveSelf); }
      if room !in clients[remover] || room !in clients[target] { return Err(NotMember); }
      clients := clients[target := clients[target] - {room}];
      rooms := ServerRemoved(rooms, room, target);
      rooms := ServerAdvanced(rooms, room);
      AdvanceMembers(room);
      return Ok(());
    }

    /** One message to its recipients, in whatever order the set yields them. */
    method DeliverOne(p: PendingMessage)
      modifies this`clients
      ensures clients == Delivered(old(clients), p)
    {
      var left := p.recipients;
      while left != {}
        invariant left <= p.recipients && |clients| == |old(clients)|
        invariant forall k :: 0 <= k < |clients| ==>
                    clients[k] == if k in p.recipients - left then ClientReceived(old(clients)[k], p)
                                  else old(clients)[k]
        decreases left
      {
        var recipient :| recipient in left;
        left := left - {recipient};
        if recipient < |clients| {
          clients := clients[recipient := ClientReceived(clients[recipient], p)];
        }
      }
    }

    method ApplyDeliverPending()
      modifies this
      ensures View() == Apply(old(View()), DeliverPending).0
    {
      var taken := pending;
      pending := [];
      var left := taken;
      while left != []
        invariant DeliveredAll(clients, left) == DeliveredAll(old(clients), taken)
        invariant rooms == old(rooms) && pending == []
        decreases |left|
      {
        DeliverOne(left[0]);
        left := left[1..];
      }
    }
  }
}
