/** Log-index assignment from a cached per-room counter (crates/lockframe-server/src/sequencer.rs). */
module Sequencer {
  import opened Wrappers
  import opened Bytes
  import H = Header
  import opened Frames
  import opened Validator
  import opened Storage

  const MAX_EPOCH: nat := 1_000_000

  datatype StructureError = BadMagic | BadVersion | SizeMismatch | ZeroRoom | EpochTooLarge

  datatype SequencerError = Storage(cause: StorageError) | Validation(what: StructureError) | IndexOverflow

  datatype SequencerAction =
    | AcceptFrame(roomId: nat, logIndex: nat, frame: Frame)
    | RejectFrame(roomId: nat, frame: Frame)
    | StoreFrame(roomId: nat, logIndex: nat, frame: Frame)
    | BroadcastToRoom(roomId: nat, frame: Frame)

  function ValidateStructure(f: Frame): Result<(), StructureError> {
    if H.Magic(f.header) != H.MAGIC then Err(BadMagic)
    else if f.header.version != H.VERSION then Err(BadVersion)
    else if |f.payload| != H.PayloadSize(f.header) then Err(SizeMismatch)
    else if RoomId(f) == 0 then Err(ZeroRoom)
    else if Epoch(f) > MAX_EPOCH then Err(EpochTooLarge)
    else Ok(())
  }

  /** `rebuild_frame_with_index`: a new header with the index, through `Frame::new`. */
  function WithIndex(f: Frame, logIndex: nat): Frame {
    New(H.SetLogIndex(f.header, logIndex), f.payload)
  }

  function FirstFree(latest: Option<nat>): nat {
    match latest case None => 0 case Some(i) => i + 1
  }

  /** The index a room would get next: the cached counter, or one past the last stored frame. */
  function NextIndex(rooms: map<nat, nat>, room: nat, latest: Option<nat>): nat {
    if room in rooms then rooms[room] else FirstFree(latest)
  }

  /** The three actions for a frame given index `i`. */
  function SequencedActions(room: nat, i: nat, f: Frame): seq<SequencerAction> {
    [AcceptFrame(room, i, WithIndex(f, i)), StoreFrame(room, i, WithIndex(f, i)),
     BroadcastToRoom(room, WithIndex(f, i))]
  }

  /** `Sequencer::process_frame` on the counter map. `latest` is what storage answers, if asked. */
  function Sequence(rooms: map<nat, nat>, f: Frame, latest: Result<Option<nat>, StorageError>)
    : (map<nat, nat>, Result<seq<SequencerAction>, SequencerError>)
  {
    var room := RoomId(f);
    if ValidateStructure(f).Err? then (rooms, Err(Validation(ValidateStructure(f).error)))
    else if Opcode(f) == H.WELCOME then (rooms, Ok([BroadcastToRoom(room, f)]))
    else if room !in rooms && latest.Err? then (rooms, Err(Storage(latest.error)))
    else
      var i := NextIndex(rooms, room, if latest.Ok? then latest.value else None);
      if i >= U64_MAX then (rooms[room := i], Err(IndexOverflow))
      else (rooms[room := i + 1], Ok(SequencedActions(room, i, f)))
  }

  /** Given a frame whose size field is right, rebuilding it changes the context id and nothing
      else; and only then. */
  lemma WithIndexChangesOnlyContext(f: Frame, i: nat)
    ensures WithIndex(f, i) == f.(header := H.SetLogIndex(f.header, i))
       <==> ToBe(|f.payload|, 4) == f.header.payloadSize
    ensures |f.payload| == H.PayloadSize(f.header)
            ==> WithIndex(f, i) == f.(header := H.SetLogIndex(f.header, i))
  {
    ToBeFromBe(f.header.payloadSize);
  }

  lemma WithIndexReadsBack(f: Frame, i: nat)
    requires i <= U64_MAX
    ensures LogIndex(WithIndex(f, i)) == i
  {
    Widths();
    FromBeToBe(i, 8);
  }

  /** Sequencing leaves the signature verdict alone: for every frame that passes the structural
      check and any index, the signed bytes, sender, epoch, room, opcode, payload and signature are
      those of the original, so `validate_signature` answers as before. Sequencing again keeps only the last index. */
  lemma SequencingKeepsVerdict(ed: Ed25519, f: Frame, i: nat, j: nat, st: MlsGroupState)
    requires ValidateStructure(f).Ok?
    ensures var g := WithIndex(f, i);
            && H.SigningData(g.header) == H.SigningData(f.header)
            && g.payload == f.payload && g.header.signature == f.header.signature
            && SenderId(g) == SenderId(f) && Epoch(g) == Epoch(f) && RoomId(g) == RoomId(f)
            && Opcode(g) == Opcode(f)
            && ValidateSignature(ed, g, st) == ValidateSignature(ed, f, st)
            && ValidateStructure(g).Ok?
            && WithIndex(g, j) == WithIndex(f, j)
  {
    WithIndexChangesOnlyContext(f, i);
    H.SameSigningData(WithIndex(f, i).header, f.header);
  }

  /** Off the structural check the signed bytes survive exactly when the size field already held
      the payload length cut to 32 bits. */
  lemma SigningDataSurvivesIff(f: Frame, i: nat)
    ensures H.SigningData(WithIndex(f, i).header) == H.SigningData(f.header)
       <==> ToBe(|f.payload|, 4) == f.header.payloadSize
  {
    H.SameSigningData(WithIndex(f, i).header, f.header);
  }

  class FrameSequencer {
    var rooms: map<nat, nat>

    constructor ()
      ensures rooms == map[]
    {
      rooms := map[];
    }

    /** `latestFails` is a storage wrapper refusing to answer. */
    method ProcessFrame(f: Frame, storage: MemoryStorage, latestFails: bool)
      returns (r: Result<seq<SequencerAction>, SequencerError>)
      modifies this
      ensures (rooms, r) == Sequence(old(rooms), f,
                                     if latestFails then Err(Io) else Ok(Latest(storage.View(), RoomId(f))))
      ensures r.Ok? && Opcode(f) != H.WELCOME ==>
                && RoomId(f) in rooms && rooms[RoomId(f)] > 0
                && r.value == SequencedActions(RoomId(f), rooms[RoomId(f)] - 1, f)
      ensures forall other :: other != RoomId(f) ==> Get(rooms, other) == Get(old(rooms), other)
    {
      var valid := ValidateStructure(f);
      if valid.Err? { return Err(Validation(valid.error)); }
      var room := RoomId(f);
      if Opcode(f) == H.WELCOME {
        return Ok([BroadcastToRoom(room, f)]);
      }
      if room !in rooms {
        if latestFails { return Err(Storage(Io)); }
        var latest := storage.LatestLogIndex(room);
        rooms := rooms[room := FirstFree(latest)];
      }
      var logIndex := rooms[room];
      assert rooms == old(rooms)[room := logIndex];
      if logIndex >= U64_MAX { return Err(IndexOverflow); }
      rooms := rooms[room := logIndex + 1];
      assert rooms == old(rooms)[room := logIndex + 1];
      return Ok(SequencedActions(room, logIndex, f));
    }
  }
}
