/** Frames and states for concrete runs: a room just created, where nobody's signature verifies. */
module Scenarios {
  import opened Wrappers
  import opened Bytes
  import H = Header
  import opened Frames
  import opened Validator
  import opened Storage
  import S = Sequencer
  import opened RoomManager
  import opened Pipeline

  /** A frame with no payload. */
  function FrameOf(room: nat, sender: nat, opcode: nat, epoch: nat): Frame {
    New(H.Blank(opcode).(roomId := ToBe(room, 16), senderId := ToBe(sender, 8), epoch := ToBe(epoch, 8)), [])
  }

  lemma FrameOfFields(room: nat, sender: u64, opcode: nat, epoch: nat)
    requires 0 < room < Pow256(16) && opcode < 0x1_0000 && epoch <= S.MAX_EPOCH
    ensures var f := FrameOf(room, sender, opcode, epoch);
            && RoomId(f) == room && SenderId(f) == sender && Epoch(f) == epoch && Opcode(f) == opcode
            && f.payload == [] && S.ValidateStructure(f).Ok?
  {
    Widths();
    FromBeToBe(room, 16);
    FromBeToBe(sender, 8);
    FromBeToBe(epoch, 8);
    FromBeToBe(0, 4);
    FromBeToBe(H.MAGIC, 4);
    assert Pow256(2) == 0x1_0000;
    FromBeToBe(opcode, 2);
  }

  /** A frame of sender 7 in room 1. */
  predicate At(f: Frame, opcode: nat, epoch: nat) {
    && RoomId(f) == 1 && SenderId(f) == 7 && Epoch(f) == epoch && Opcode(f) == opcode && f.payload == []
    && S.ValidateStructure(f).Ok?
  }

  function Sample(opcode: nat, epoch: nat): Frame { FrameOf(1, 7, opcode, epoch) }

  lemma SampleFields(opcode: nat, epoch: nat)
    requires opcode < 0x1_0000 && epoch <= S.MAX_EPOCH
    ensures At(Sample(opcode, epoch), opcode, epoch)
  {
    assert Pow256(16) >= Pow256(8) by {
      assert Pow256(10) >= Pow256(8) && Pow256(12) >= Pow256(10) && Pow256(14) >= Pow256(12);
    }
    Widths();
    FrameOfFields(1, 7, opcode, epoch);
  }

  function NobodySigns(): Ed25519 { Ed25519(_ => true, (_, _, _) => false) }

  const NO_FAULTS := Faults(false, false)

  const FOUNDED := MlsGroupState(1, 0, [7], map[7 := []])

  /** The server after one event: room 1 created by 7, whose stored MLS state lists 7. */
  function FreshRoom(): Server { Run(NobodySigns(), Start(map[1 := FOUNDED]), [CreateRoom(1, 7, [])]) }

  /** Room 1 at an epoch, with its first MLS state stored and `n` its next index. */
  predicate Ready(s: Server, epoch: nat, n: nat) {
    && 1 in s.manager.groups && s.manager.groups[1].epoch == epoch
    && s.store.mls == map[1 := FOUNDED]
    && NextOf(s.manager, s.store, 1) == n < U64_MAX
  }

  lemma FreshRoomIsReady()
    ensures var s := FreshRoom();
            && Ready(s, 0, 0) && s.outstanding == [] && s.store.frames == map[] && s.history == map[]
            && s.manager == Manager(map[1 := Group(0, false, Roster([7], map[7 := []]))], map[1 := 7], map[])
  {
    var es := [CreateRoom(1, 7, [])];
    assert es[1..] == [];
    assert FreshRoom() == Step(NobodySigns(), Start(map[1 := FOUNDED]), es[0]);
  }

  lemma FrameTakesIndex(s: Server, f: Frame, opcode: nat, epoch: nat, n: nat)
    requires Ready(s, epoch, n) && At(f, opcode, epoch) && opcode != H.WELCOME
    ensures TakesIndex(NobodySigns(), s.manager, s.store, f, NO_FAULTS)
  {
    assert Admit(NobodySigns(), s.manager, s.store, f, NO_FAULTS).Ok?;
  }

  lemma MessageRejectedLate(s: Server, f: Frame, epoch: nat, n: nat)
    requires Ready(s, epoch, n) && At(f, H.APP_MESSAGE, epoch)
    ensures TakesIndex(NobodySigns(), s.manager, s.store, f, NO_FAULTS) && FailsLate(NobodySigns(), s.store, f, Refused)
  {
    FrameTakesIndex(s, f, H.APP_MESSAGE, epoch, n);
    assert ValidateSignature(NobodySigns(), f, FOUNDED) == Verdict.Reject(SignatureFailed);
  }

  /** One more record in room 1, of the frame at index `n` and the group's epoch. */
  ghost predicate Recorded(s: Server, s': Server, f: Frame, n: nat, advanced: bool) {
    exists a :: && AssignedIn(s', 1) == AssignedIn(s, 1) + [a] && a.frame == S.WithIndex(f, n)
                && a.groupEpoch == EpochOf(s.manager, 1) && a.advanced == advanced
  }

  lemma FrameRecorded(s: Server, f: Frame, epoch: nat, n: nat, outcome: CommitOutcome)
    requires Ready(s, epoch, n) && RoomId(f) == 1 && TakesIndex(NobodySigns(), s.manager, s.store, f, NO_FAULTS)
    ensures Recorded(s, Received(NobodySigns(), s, f, NO_FAULTS, outcome), f, n, Commits(s.manager, f, outcome))
  {
    var a := RecordOf(NobodySigns(), s, f, NO_FAULTS, outcome);
    EpochMovesIff(NobodySigns(), s.manager, s.store, f, NO_FAULTS, outcome);
    assert AssignedIn(Received(NobodySigns(), s, f, NO_FAULTS, outcome), 1) == AssignedIn(s, 1) + [a];
  }

  /** A Proposal is accepted unsigned, and changes nothing but the next index. */
  lemma ProposalAccepted(s: Server, f: Frame, epoch: nat, n: nat) returns (batch: Batch)
    requires Ready(s, epoch, n) && At(f, H.PROPOSAL, epoch) && n + 1 < U64_MAX
    ensures var s' := Received(NobodySigns(), s, f, NO_FAULTS, Refused);
            && Ready(s', epoch, n + 1) && s'.store == s.store && s'.manager.groups == s.manager.groups
            && s'.outstanding == s.outstanding + [batch] && Carries(batch, 1, n, S.WithIndex(f, n)) && |batch| == 3
            && Recorded(s, s', f, n, false)
  {
    FrameTakesIndex(s, f, H.PROPOSAL, epoch, n);
    EpochMovesIff(NobodySigns(), s.manager, s.store, f, NO_FAULTS, Refused);
    ProcessWithIndex(NobodySigns(), s.manager, s.store, f, NO_FAULTS, Refused);
    TakesIndexMovesCounter(NobodySigns(), s.manager, s.store, f, NO_FAULTS, Refused);
    FinishByCase(NobodySigns(), s.manager.(next := s.manager.next[1 := n + 1]), f,
                 Admit(NobodySigns(), s.manager, s.store, f, NO_FAULTS).value, n, Refused);
    FrameRecorded(s, f, epoch, n, Refused);
    batch := BatchOf(NobodySigns(), s, f, NO_FAULTS, Refused).value;
  }

  /** A commit that leaves the given members. */
  function Leaves(members: seq<nat>): CommitOutcome { Processed(true, Roster(members, map[]), true) }

  lemma CommitAccepted(s: Server, f: Frame, epoch: nat, n: nat, members: seq<nat>) returns (batch: Batch)
    requires Ready(s, epoch, n) && At(f, H.COMMIT, epoch) && n + 1 < U64_MAX
    ensures var s' := Received(NobodySigns(), s, f, NO_FAULTS, Leaves(members));
            && Ready(s', epoch + 1, n + 1) && s'.store == s.store && MembersOf(s'.manager, 1) == members
            && s'.outstanding == s.outstanding + [batch] && Carries(batch, 1, n, S.WithIndex(f, n)) && |batch| == 4
            && batch[3].roomId == 1 && batch[3].state.epoch == epoch + 1 && Recorded(s, s', f, n, true)
  {
    FrameTakesIndex(s, f, H.COMMIT, epoch, n);
    EpochMovesIff(NobodySigns(), s.manager, s.store, f, NO_FAULTS, Leaves(members));
    ProcessWithIndex(NobodySigns(), s.manager, s.store, f, NO_FAULTS, Leaves(members));
    FrameRecorded(s, f, epoch, n, Leaves(members));
    batch := BatchOf(NobodySigns(), s, f, NO_FAULTS, Leaves(members)).value;
  }

  /** The same, its new state not exported. */
  function Unexported(members: seq<nat>): CommitOutcome { Processed(true, Roster(members, map[]), false) }

  /** A commit whose new state cannot be exported is rejected, with the index gone and the epoch moved. */
  lemma ExportFails(s: Server, f: Frame, epoch: nat, n: nat, members: seq<nat>)
    requires Ready(s, epoch, n) && At(f, H.COMMIT, epoch) && n + 1 < U64_MAX
    ensures var s' := Received(NobodySigns(), s, f, NO_FAULTS, Unexported(members));
            && BatchOf(NobodySigns(), s, f, NO_FAULTS, Unexported(members)).None?
            && Ready(s', epoch + 1, n + 1) && s'.store == s.store && s'.outstanding == s.outstanding
            && Recorded(s, s', f, n, true)
  {
    FrameTakesIndex(s, f, H.COMMIT, epoch, n);
    EpochMovesIff(NobodySigns(), s.manager, s.store, f, NO_FAULTS, Unexported(members));
    ProcessWithIndex(NobodySigns(), s.manager, s.store, f, NO_FAULTS, Unexported(members));
    FrameRecorded(s, f, epoch, n, Unexported(members));
  }
}
