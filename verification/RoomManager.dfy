/** Room validation and sequencing (crates/lockframe-server/src/room_manager.rs). */
module RoomManager {
  import opened Wrappers
  import opened Bytes
  import H = Header
  import opened Frames
  import opened Validator
  import opened Storage
  import S = Sequencer

  /** Members of a group, and their signature keys. */
  datatype Roster = Roster(members: seq<nat>, keys: map<nat, seq<byte>>)

  /** The server's MLS group: its epoch, whether it holds a commit of its own, and its members. */
  datatype Group = Group(epoch: nat, pending: bool, roster: Roster)

  /** What MLS makes of a Commit frame. `Refused` changes nothing. Content that is no commit is
      processed without changing the group; a commit moves the epoch by one (section 12.4.2 of RFC
      9420) and leaves the given roster. Exporting the resulting state may fail after that. */
  datatype CommitOutcome =
    | Refused
    | Processed(isCommit: bool, roster: Roster, exported: bool)

  datatype MlsError =
    | MemberNotFound(id: nat)
    | ValidationFailed(reason: RejectReason)
    | CommitRefused
    | ExportFailed
    | GroupNotCreated

  datatype RoomError =
    | MlsValidation(mls: MlsError)
    | Sequencing(sequencer: S.SequencerError)
    | Storage(storage: StorageError)
    | RoomNotFound(room: nat)
    | RoomAlreadyExists(room: nat)
    | InvalidEpoch(expected: nat, actual: nat)
    | NotMember(id: nat)

  datatype RoomAction =
    | Broadcast(roomId: nat, frame: Frame)
    | PersistFrame(roomId: nat, logIndex: nat, frame: Frame)
    | PersistMlsState(roomId: nat, state: MlsGroupState)
    | Reject(senderId: nat)

  datatype Manager = Manager(groups: map<nat, Group>, creators: map<nat, nat>, next: map<nat, nat>)

  /** Storage reads that a failing store refuses to answer. */
  datatype Faults = Faults(loadMls: bool, latest: bool)

  function StoredMls(st: Store, f: Frame, faults: Faults): Result<Option<MlsGroupState>, StorageError> {
    if faults.loadMls then Err(Io) else Ok(Get(st.mls, RoomId(f)))
  }

  function StoredLatest(st: Store, f: Frame, faults: Faults): Result<Option<nat>, StorageError> {
    if faults.latest then Err(Io) else Ok(Latest(st, RoomId(f)))
  }

  /** `validate_frame_basic`: epoch, membership and a usable key, but no signature. */
  function ValidateBasic(ed: Ed25519, f: Frame, group: Group, mls: Option<MlsGroupState>): Result<(), RoomError> {
    if Epoch(f) != group.epoch then Err(InvalidEpoch(group.epoch, Epoch(f)))
    else if mls.Some? && SenderId(f) !in mls.value.members then Err(NotMember(SenderId(f)))
    else if mls.Some? && MemberKey(ed, mls.value, SenderId(f)).None?
      then Err(MlsValidation(MemberNotFound(SenderId(f))))
    else if mls.None? && Epoch(f) != 0 then Err(InvalidEpoch(0, Epoch(f)))
    else Ok(())
  }

  /** Everything before sequencing; yields the MLS state the frame was checked against. */
  function Admit(ed: Ed25519, m: Manager, st: Store, f: Frame, faults: Faults)
    : (r: Result<Option<MlsGroupState>, RoomError>)
    ensures r.Ok? ==> RoomId(f) in m.groups
  {
    if RoomId(f) !in m.groups then Err(RoomNotFound(RoomId(f)))
    else
      match StoredMls(st, f, faults)
      case Err(e) => Err(Storage(e))
      case Ok(mls) =>
        match ValidateBasic(ed, f, m.groups[RoomId(f)], mls)
        case Err(e) => Err(e)
        case Ok(_) => Ok(mls)
  }

  /** Known opcodes other than the MLS handshake ones carry a checked signature. */
  predicate NeedsSignature(f: Frame) {
    H.KnownOpcode(Opcode(f)) && Opcode(f) !in {H.COMMIT, H.PROPOSAL, H.WELCOME}
  }

  function CheckSignature(ed: Ed25519, f: Frame, mls: Option<MlsGroupState>): Result<(), RoomError> {
    if !NeedsSignature(f) || mls.None? then Ok(())
    else
      match ValidateSignature(ed, f, mls.value)
      case Accept => Ok(())
      case Reject(reason) => Err(MlsValidation(ValidationFailed(reason)))
  }

  /** The first signature failure over the sequenced actions, if any. */
  function CheckSignatures(ed: Ed25519, actions: seq<S.SequencerAction>, mls: Option<MlsGroupState>)
    : Result<(), RoomError>
  {
    if actions == [] then Ok(())
    else if !actions[0].RejectFrame? && CheckSignature(ed, actions[0].frame, mls).Err?
      then CheckSignature(ed, actions[0].frame, mls)
    else CheckSignatures(ed, actions[1..], mls)
  }

  function ToRoomAction(a: S.SequencerAction): RoomAction {
    match a
    case AcceptFrame(room, i, f) => PersistFrame(room, i, f)
    case StoreFrame(room, i, f) => PersistFrame(room, i, f)
    case BroadcastToRoom(room, f) => Broadcast(room, f)
    case RejectFrame(_, f) => RoomAction.Reject(SenderId(f))
  }

  function ToRoomActions(actions: seq<S.SequencerAction>): seq<RoomAction> {
    seq(|actions|, k requires 0 <= k < |actions| => ToRoomAction(actions[k]))
  }

  /** Merging our own pending commit, or processing a peer's. */
  function ApplyCommit(g: Group, room: nat, outcome: CommitOutcome): (Group, Result<MlsGroupState, MlsError>) {
    match outcome
    case Refused => (g, Err(CommitRefused))
    case Processed(isCommit, roster, exported) =>
      var g' := if g.pending || isCommit then Group(g.epoch + 1, false, roster) else g;
      (g', if exported then Ok(MlsGroupState(room, g'.epoch, g'.roster.members, g'.roster.keys)) else Err(ExportFailed))
  }

  /** What follows sequencing: signatures, conversion and, for a Commit, the MLS group. */
  function Finish(ed: Ed25519, m: Manager, f: Frame, mls: Option<MlsGroupState>, actions: seq<S.SequencerAction>,
                  outcome: CommitOutcome): (Manager, Result<seq<RoomAction>, RoomError>)
    requires RoomId(f) in m.groups
  {
    match CheckSignatures(ed, actions, mls)
    case Err(e) => (m, Err(e))
    case Ok(_) =>
      if Opcode(f) != H.COMMIT then (m, Ok(ToRoomActions(actions)))
      else
        var (group, exported) := ApplyCommit(m.groups[RoomId(f)], RoomId(f), outcome);
        var m' := m.(groups := m.groups[RoomId(f) := group]);
        match exported
        case Err(e) => (m', Err(MlsValidation(e)))
        case Ok(state) => (m', Ok(ToRoomActions(actions) + [PersistMlsState(RoomId(f), state)]))
  }

  /** `RoomManager::process_frame`. The counter moves before signatures are checked. */
  function Process(ed: Ed25519, m: Manager, st: Store, f: Frame, faults: Faults, outcome: CommitOutcome)
    : (Manager, Result<seq<RoomAction>, RoomError>)
  {
    match Admit(ed, m, st, f, faults)
    case Err(e) => (m, Err(e))
    case Ok(mls) =>
      var (next, sequenced) := S.Sequence(m.next, f, StoredLatest(st, f, faults));
      match sequenced
      case Err(e) => (m.(next := next), Err(Sequencing(e)))
      case Ok(actions) => Finish(ed, m.(next := next), f, mls, actions, outcome)
  }

  /** The index the room's next sequenced frame would get. */
  function NextOf(m: Manager, st: Store, room: nat): nat {
    S.NextIndex(m.next, room, Latest(st, room))
  }

  function EpochOf(m: Manager, room: nat): nat { if room in m.groups then m.groups[room].epoch else 0 }

  function RosterOf(m: Manager, room: nat): Roster {
    if room in m.groups then m.groups[room].roster else Roster([], map[])
  }

  function MembersOf(m: Manager, room: nat): seq<nat> { RosterOf(m, room).members }

  /** The frame reaches the sequencer and takes an index. */
  predicate TakesIndex(ed: Ed25519, m: Manager, st: Store, f: Frame, faults: Faults) {
    && Admit(ed, m, st, f, faults).Ok?
    && S.ValidateStructure(f).Ok?
    && Opcode(f) != H.WELCOME
    && (RoomId(f) in m.next || !faults.latest)
    && NextOf(m, st, RoomId(f)) < U64_MAX
  }

  /** A check that comes only after the index was taken will fail: a bad signature on the frame as
      it arrived, or a commit that MLS refuses or cannot export. */
  predicate FailsLate(ed: Ed25519, st: Store, f: Frame, outcome: CommitOutcome) {
    || (NeedsSignature(f) && RoomId(f) in st.mls && ValidateSignature(ed, f, st.mls[RoomId(f)]) != Accept)
    || (Opcode(f) == H.COMMIT && (outcome.Refused? || !outcome.exported))
  }

  lemma CheckSignaturesOfSequenced(ed: Ed25519, room: nat, i: nat, f: Frame, mls: Option<MlsGroupState>)
    requires S.ValidateStructure(f).Ok?
    ensures CheckSignatures(ed, S.SequencedActions(room, i, f), mls) == CheckSignature(ed, f, mls)
  {
    var g := S.WithIndex(f, i);
    if mls.Some? {
      S.SequencingKeepsVerdict(ed, f, i, 0, mls.value);
    } else {
      S.SequencingKeepsVerdict(ed, f, i, 0, MlsGroupState(0, 0, [], map[]));
    }
    assert CheckSignature(ed, g, mls) == CheckSignature(ed, f, mls);
    var actions := S.SequencedActions(room, i, f);
    assert actions[1..][1..] == [S.BroadcastToRoom(room, g)];
    assert CheckSignatures(ed, actions[1..][1..], mls) == CheckSignature(ed, g, mls);
  }

  /** A frame that takes an index moves its room's counter by exactly one and leaves every other
      counter alone. */
  lemma TakesIndexMovesCounter(ed: Ed25519, m: Manager, st: Store, f: Frame, faults: Faults, outcome: CommitOutcome)
    requires TakesIndex(ed, m, st, f, faults)
    ensures var i := NextOf(m, st, RoomId(f));
            Process(ed, m, st, f, faults, outcome)
            == Finish(ed, m.(next := m.next[RoomId(f) := i + 1]), f, Admit(ed, m, st, f, faults).value,
                      S.SequencedActions(RoomId(f), i, f), outcome)
  {
  }

  /** After taking its index the frame is rejected exactly when a late check fails; otherwise it
      yields two persists of the same indexed frame, a broadcast, and for a Commit the MLS state at the
      group's new epoch. */
  lemma FinishByCase(ed: Ed25519, m: Manager, f: Frame, mls: Option<MlsGroupState>, i: nat, outcome: CommitOutcome)
    requires RoomId(f) in m.groups && S.ValidateStructure(f).Ok?
    ensures var (m', r) := Finish(ed, m, f, mls, S.SequencedActions(RoomId(f), i, f), outcome);
            var g := S.WithIndex(f, i);
            && m'.next == m.next && m'.creators == m.creators
            && (r.Err? <==> CheckSignature(ed, f, mls).Err?
                            || (Opcode(f) == H.COMMIT && (outcome.Refused? || !outcome.exported)))
            && (r.Ok? ==>
                  && |r.value| == (if Opcode(f) == H.COMMIT then 4 else 3)
                  && r.value[0] == r.value[1] == PersistFrame(RoomId(f), i, g)
                  && r.value[2] == Broadcast(RoomId(f), g)
                  && (Opcode(f) == H.COMMIT ==>
                        && r.value[3].PersistMlsState? && r.value[3].roomId == r.value[3].state.roomId == RoomId(f)
                        && RoomId(f) in m'.groups && r.value[3].state.epoch == m'.groups[RoomId(f)].epoch
                        && Roster(r.value[3].state.members, r.value[3].state.memberKeys) == RosterOf(m', RoomId(f))))
            && (forall other :: other != RoomId(f) ==> Get(m'.groups, other) == Get(m.groups, other))
            && (Opcode(f) != H.COMMIT ==> m'.groups == m.groups)
  {
    CheckSignaturesOfSequenced(ed, RoomId(f), i, f, mls);
  }

  /** The two together: one index taken, then a rejection exactly when a late check fails, or the
      actions that persist and broadcast the frame at that index. */
  lemma ProcessWithIndex(ed: Ed25519, m: Manager, st: Store, f: Frame, faults: Faults, outcome: CommitOutcome)
    requires TakesIndex(ed, m, st, f, faults)
    ensures var (m', r) := Process(ed, m, st, f, faults, outcome);
            var i := NextOf(m, st, RoomId(f));
            && m'.next == m.next[RoomId(f) := i + 1] && m'.creators == m.creators
            && (r.Err? <==> FailsLate(ed, st, f, outcome))
            && (r.Ok? ==>
                  && |r.value| == (if Opcode(f) == H.COMMIT then 4 else 3)
                  && r.value[0] == r.value[1] == PersistFrame(RoomId(f), i, S.WithIndex(f, i))
                  && r.value[2] == Broadcast(RoomId(f), S.WithIndex(f, i))
                  && (Opcode(f) == H.COMMIT ==>
                        && r.value[3].PersistMlsState? && r.value[3].roomId == RoomId(f)
                        && r.value[3].state.epoch == EpochOf(m', RoomId(f))
                        && Roster(r.value[3].state.members, r.value[3].state.memberKeys) == RosterOf(m', RoomId(f))))
  {
    var i := NextOf(m, st, RoomId(f));
    TakesIndexMovesCounter(ed, m, st, f, faults, outcome);
    FinishByCase(ed, m.(next := m.next[RoomId(f) := i + 1]), f, Admit(ed, m, st, f, faults).value, i, outcome);
  }

  /** A frame that takes no index leaves the room's next index, every other counter and all groups
      alone, and nothing is persisted for it. */
  lemma NoIndexNoPersist(ed: Ed25519, m: Manager, st: Store, f: Frame, faults: Faults, outcome: CommitOutcome)
    requires !TakesIndex(ed, m, st, f, faults)
    ensures var (m', r) := Process(ed, m, st, f, faults, outcome);
            && NextOf(m', st, RoomId(f)) == NextOf(m, st, RoomId(f))
            && m'.groups == m.groups && m'.creators == m.creators
            && (m'.next == m.next || m'.next == m.next[RoomId(f) := NextOf(m, st, RoomId(f))])
            && (r.Ok? ==> r.value == [Broadcast(RoomId(f), f)])
  {
    if Admit(ed, m, st, f, faults).Ok? && S.ValidateStructure(f).Ok? && Opcode(f) == H.WELCOME {
      var actions := [S.BroadcastToRoom(RoomId(f), f)];
      assert actions[1..] == [];
      assert CheckSignatures(ed, actions, Admit(ed, m, st, f, faults).value) == Ok(());
    }
  }

  /** "A rejected frame never gets an index" fails on exactly the frames that take one and then
      fail a late check. */
  lemma RejectedFrameTakesIndexIff(ed: Ed25519, m: Manager, st: Store, f: Frame, faults: Faults, outcome: CommitOutcome)
    ensures var (m', r) := Process(ed, m, st, f, faults, outcome);
            (r.Err? && NextOf(m', st, RoomId(f)) != NextOf(m, st, RoomId(f))
             <==> TakesIndex(ed, m, st, f, faults) && FailsLate(ed, st, f, outcome))
  {
    if TakesIndex(ed, m, st, f, faults) {
      ProcessWithIndex(ed, m, st, f, faults, outcome);
    } else {
      NoIndexNoPersist(ed, m, st, f, faults, outcome);
    }
  }

  /** The frame is a Commit that MLS processes as one, or our own pending one. */
  predicate Commits(m: Manager, f: Frame, outcome: CommitOutcome) {
    && Opcode(f) == H.COMMIT && outcome.Processed? && RoomId(f) in m.groups
    && (m.groups[RoomId(f)].pending || outcome.isCommit)
  }

  /** The MLS epoch moves, by exactly one and in the frame's room alone, exactly on a Commit that
      takes an index and that MLS processes as one; only then does the roster change. It moves though
      the frame is rejected exactly when the new state then cannot be exported. */
  lemma EpochMovesIff(ed: Ed25519, m: Manager, st: Store, f: Frame, faults: Faults, outcome: CommitOutcome)
    ensures var (m', r) := Process(ed, m, st, f, faults, outcome);
            var moves := TakesIndex(ed, m, st, f, faults) && Commits(m, f, outcome);
            && m'.groups.Keys == m.groups.Keys
            && EpochOf(m', RoomId(f)) == EpochOf(m, RoomId(f)) + (if moves then 1 else 0)
            && RosterOf(m', RoomId(f)) == (if moves then outcome.roster else RosterOf(m, RoomId(f)))
            && (forall other :: other != RoomId(f) ==> Get(m'.groups, other) == Get(m.groups, other))
            && (r.Err? && EpochOf(m', RoomId(f)) != EpochOf(m, RoomId(f)) <==> moves && !outcome.exported)
  {
    if TakesIndex(ed, m, st, f, faults) {
      var i := NextOf(m, st, RoomId(f));
      TakesIndexMovesCounter(ed, m, st, f, faults, outcome);
      CheckSignaturesOfSequenced(ed, RoomId(f), i, f, Admit(ed, m, st, f, faults).value);
      ProcessWithIndex(ed, m, st, f, faults, outcome);
    } else {
      NoIndexNoPersist(ed, m, st, f, faults, outcome);
    }
  }

  predicate SignatureVerifies(ed: Ed25519, st: Store, f: Frame) {
    RoomId(f) in st.mls && ValidateSignature(ed, f, st.mls[RoomId(f)]) == Accept
  }

  /** A frame whose signature does not verify against stored state is accepted all the same exactly when
      its opcode carries no checked signature or the room has no stored state, and MLS takes it if it is
      a Commit. */
  lemma UnsignedFrameAcceptedIff(ed: Ed25519, m: Manager, st: Store, f: Frame, faults: Faults, outcome: CommitOutcome)
    requires TakesIndex(ed, m, st, f, faults) && !SignatureVerifies(ed, st, f)
    ensures Process(ed, m, st, f, faults, outcome).1.Ok?
       <==> (!NeedsSignature(f) || RoomId(f) !in st.mls)
            && (Opcode(f) == H.COMMIT ==> outcome.Processed? && outcome.exported)
  {
    ProcessWithIndex(ed, m, st, f, faults, outcome);
  }

  /** Splitting validation around sequencing loses nothing: with stored MLS state, a frame that
      needs a signature goes through both halves exactly when the one-shot `validate_frame` accepts
      it as it arrived, whatever index it was given in between. */
  lemma SplitValidationAgrees(ed: Ed25519, f: Frame, group: Group, mls: MlsGroupState, i: nat)
    requires S.ValidateStructure(f).Ok? && NeedsSignature(f)
    ensures ValidateBasic(ed, f, group, Some(mls)).Ok?
            && CheckSignatures(ed, S.SequencedActions(RoomId(f), i, f), Some(mls)).Ok?
       <==> ValidateFrame(ed, f, group.epoch, mls) == Accept
  {
    CheckSignaturesOfSequenced(ed, RoomId(f), i, f, Some(mls));
  }

  /** A group of the creator alone, under the signature key made for it. */
  function Founded(creator: nat, key: seq<byte>): Group { Group(0, false, Roster([creator], map[creator := key])) }

  function Created(m: Manager, room: nat, creator: nat, key: seq<byte>): Manager {
    if room in m.creators then m
    else m.(groups := m.groups[room := Founded(creator, key)], creators := m.creators[room := creator])
  }

  class RoomManager {
    var groups: map<nat, Group>
    var creators: map<nat, nat>
    const sequencer: S.FrameSequencer

    ghost function View(): Manager
      reads this, sequencer
    {
      Manager(groups, creators, sequencer.rooms)
    }

    constructor ()
      ensures View() == Manager(map[], map[], map[])
      ensures fresh(sequencer)
    {
      groups, creators := map[], map[];
      sequencer := new S.FrameSequencer();
    }

    /** A room is created once, at epoch 0; a second creation, or one for which MLS makes no group,
        changes nothing. */
    method CreateRoom(room: nat, creator: nat, key: seq<byte>, mlsFails: bool) returns (r: Result<(), RoomError>)
      modifies this
      ensures r == if room in old(creators) then Err(RoomAlreadyExists(room))
                   else if mlsFails then Err(MlsValidation(GroupNotCreated)) else Ok(())
      ensures View() == if r.Ok? then Created(old(View()), room, creator, key) else old(View())
    {
      if room in creators { return Err(RoomAlreadyExists(room)); }
      if mlsFails { return Err(MlsValidation(GroupNotCreated)); }
      groups := groups[room := Founded(creator, key)];
      creators := creators[room := creator];
      return Ok(());
    }

    /** `validate_sequenced_actions_signatures`. */
    method ValidateSequenced(ed: Ed25519, actions: seq<S.SequencerAction>, mls: Option<MlsGroupState>)
      returns (r: Result<(), RoomError>)
      ensures r == CheckSignatures(ed, actions, mls)
    {
      var k := 0;
      while k < |actions|
        invariant 0 <= k <= |actions|
        invariant CheckSignatures(ed, actions[k..], mls) == CheckSignatures(ed, actions, mls)
      {
        assert actions[k..][1..] == actions[k + 1..];
        if !actions[k].RejectFrame? {
          var checked := CheckSignature(ed, actions[k].frame, mls);
          if checked.Err? { return checked; }
        }
        k := k + 1;
      }
      return Ok(());
    }

    method ProcessFrame(ed: Ed25519, f: Frame, storage: MemoryStorage, faults: Faults, outcome: CommitOutcome)
      returns (r: Result<seq<RoomAction>, RoomError>)
      modifies this, sequencer
      ensures (View(), r) == Process(ed, old(View()), storage.View(), f, faults, outcome)
    {
      var room := RoomId(f);
      if room !in groups { return Err(RoomNotFound(room)); }
      if faults.loadMls { return Err(Storage(Io)); }
      var mls := Get(storage.mlsStates, room);
      var basic := ValidateBasic(ed, f, groups[room], mls);
      if basic.Err? { return Err(basic.error); }
      assert Admit(ed, old(View()), storage.View(), f, faults) == Ok(mls);
      var sequenced := sequencer.ProcessFrame(f, storage, faults.latest);
      if sequenced.Err? { return Err(Sequencing(sequenced.error)); }
      var signed := ValidateSequenced(ed, sequenced.value, mls);
      if signed.Err? { return Err(signed.error); }
      var actions := ToRoomActions(sequenced.value);
      if Opcode(f) != H.COMMIT { return Ok(actions); }
      var (group, exported) := ApplyCommit(groups[room], room, outcome);
      groups := groups[room := group];
      if exported.Err? { return Err(MlsValidation(exported.error)); }
      return Ok(actions + [PersistMlsState(room, exported.value)]);
    }
  }
}
