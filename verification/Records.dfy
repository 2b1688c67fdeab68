/** What is true of every frame that was given an index, and so of every stored frame. */
module Records {
  import opened Wrappers
  import H = Header
  import opened Frames
  import opened Validator
  import opened Storage
  import S = Sequencer
  import opened RoomManager
  import opened Pipeline
  import opened TotalOrder
  import opened Provenance
  import opened Scenarios

  /** The frame passed every check that applies to it, against the group epoch and the stored MLS
      state of the moment; only a Commit moved the epoch. */
  predicate Checked(ed: Ed25519, a: Assigned) {
    && S.ValidateStructure(a.frame).Ok?
    && Opcode(a.frame) != H.WELCOME
    && ValidateBasic(ed, a.frame, Group(a.groupEpoch, false, Roster([], map[])), a.mls).Ok?
    && (a.accepted ==> CheckSignature(ed, a.frame, a.mls).Ok?)
    && (a.advanced ==> Opcode(a.frame) == H.COMMIT)
  }

  /** The group epoch after a record: a commit raises it by one, nothing else changes it. */
  function EpochAfter(records: seq<Assigned>): nat {
    if records == [] then 0
    else
      var last := records[|records| - 1];
      last.groupEpoch + if last.advanced then 1 else 0
  }

  predicate Chained(records: seq<Assigned>) {
    forall i :: 0 <= i < |records| ==> records[i].groupEpoch == EpochAfter(records[..i])
  }

  predicate RoomChecked(ed: Ed25519, s: Server, room: nat) {
    var records := AssignedIn(s, room);
    && (room in s.manager.groups <==> room in s.manager.creators)
    && (if room in s.manager.groups then s.manager.groups[room].epoch == EpochAfter(records) else records == [])
    && Chained(records)
    && (forall a <- records :: Checked(ed, a))
  }

  ghost predicate AllChecked(ed: Ed25519, s: Server) { forall room :: RoomChecked(ed, s, room) }

  /** The record of a frame that takes an index, and what the frame does to the groups. */
  lemma RecordIsChecked(ed: Ed25519, s: Server, f: Frame, faults: Faults, outcome: CommitOutcome)
    requires TakesIndex(ed, s.manager, s.store, f, faults)
    ensures Checked(ed, RecordOf(ed, s, f, faults, outcome))
  {
    var i := NextOf(s.manager, s.store, RoomId(f));
    var mls := Admit(ed, s.manager, s.store, f, faults).value;
    TakesIndexMovesCounter(ed, s.manager, s.store, f, faults, outcome);
    CheckSignaturesOfSequenced(ed, RoomId(f), i, f, mls);
    S.SequencingKeepsVerdict(ed, f, i, 0, if mls.Some? then mls.value else MlsGroupState(0, 0, [], map[]));
  }

  lemma RecordMovesGroup(ed: Ed25519, s: Server, f: Frame, faults: Faults, outcome: CommitOutcome)
    requires TakesIndex(ed, s.manager, s.store, f, faults)
    ensures var s' := Received(ed, s, f, faults, outcome);
            var a := RecordOf(ed, s, f, faults, outcome);
            && s'.manager.creators == s.manager.creators
            && RoomId(f) in s.manager.groups && RoomId(f) in s'.manager.groups
            && a.groupEpoch == s.manager.groups[RoomId(f)].epoch
            && s'.manager.groups[RoomId(f)].epoch == EpochAfter([a])
            && forall other :: other != RoomId(f) ==> Get(s'.manager.groups, other) == Get(s.manager.groups, other)
  {
    TakesIndexMovesCounter(ed, s.manager, s.store, f, faults, outcome);
  }

  lemma ChainedAppend(records: seq<Assigned>, a: Assigned)
    requires Chained(records) && a.groupEpoch == EpochAfter(records)
    ensures Chained(records + [a]) && EpochAfter(records + [a]) == EpochAfter([a])
  {
    forall i | 0 <= i < |records| + 1 ensures (records + [a])[i].groupEpoch == EpochAfter((records + [a])[..i]) {
      assert (records + [a])[..i] == records[..i];
      assert records[..|records|] == records;
    }
  }

  lemma AppendChecked(ed: Ed25519, s: Server, s': Server, q: nat, a: Assigned)
    requires AllChecked(ed, s) && Checked(ed, a)
    requires s'.history == s.history[q := AssignedIn(s, q) + [a]]
    requires s'.manager.creators == s.manager.creators
    requires q in s.manager.groups && q in s'.manager.groups
    requires forall other :: other != q ==> Get(s'.manager.groups, other) == Get(s.manager.groups, other)
    requires Chained(AssignedIn(s, q) + [a])
    requires s'.manager.groups[q].epoch == EpochAfter(AssignedIn(s, q) + [a])
    ensures AllChecked(ed, s')
  {
    forall room ensures RoomChecked(ed, s', room) {
      assert RoomChecked(ed, s, room);
      assert room != q ==> Get(s'.manager.groups, room) == Get(s.manager.groups, room);
    }
  }

  lemma ReceivedKeepsChecked(ed: Ed25519, s: Server, f: Frame, faults: Faults, outcome: CommitOutcome)
    requires AllChecked(ed, s) && TakesIndex(ed, s.manager, s.store, f, faults)
    ensures AllChecked(ed, Received(ed, s, f, faults, outcome))
  {
    var s', a := Received(ed, s, f, faults, outcome), RecordOf(ed, s, f, faults, outcome);
    ReceivedWithIndex(ed, s, f, faults, outcome);
    RecordIsChecked(ed, s, f, faults, outcome);
    RecordMovesGroup(ed, s, f, faults, outcome);
    assert RoomChecked(ed, s, RoomId(f));
    ChainedAppend(AssignedIn(s, RoomId(f)), a);
    AppendChecked(ed, s, s', RoomId(f), a);
  }

  lemma StepKeepsChecked(ed: Ed25519, s: Server, e: Event)
    requires AllChecked(ed, s)
    ensures AllChecked(ed, Step(ed, s, e))
  {
    if e.Receive? && TakesIndex(ed, s.manager, s.store, e.frame, e.faults) {
      ReceivedKeepsChecked(ed, s, e.frame, e.faults, e.outcome);
    } else {
      if e.Receive? { ReceivedWithoutIndex(ed, s, e.frame, e.faults, e.outcome); }
      var s' := Step(ed, s, e);
      forall room ensures RoomChecked(ed, s', room) { assert RoomChecked(ed, s, room); }
    }
  }

  lemma {:induction false} RunKeepsChecked(ed: Ed25519, s: Server, es: seq<Event>)
    requires AllChecked(ed, s)
    ensures AllChecked(ed, Run(ed, s, es))
    decreases |es|
  {
    if es != [] {
      StepKeepsChecked(ed, s, es[0]);
      RunKeepsChecked(ed, Step(ed, s, es[0]), es[1..]);
    }
  }

  /** Storage holds only frames that passed validation, in every run, new sequencers included: each
      stored frame was given an index and accepted, with the structure, epoch, membership, key and
      signature checks all passed at the time. */
  lemma StoredFramesWereChecked(ed: Ed25519, mls: map<nat, MlsGroupState>, es: seq<Event>, room: nat, f: Frame)
    requires f in LogOf(Run(ed, Start(mls), es), room)
    ensures exists a <- AssignedIn(Run(ed, Start(mls), es), room) :: a.frame == f && a.accepted && Checked(ed, a)
  {
    var s := Run(ed, Start(mls), es);
    StoredFramesWereAccepted(ed, mls, es, room);
    RunKeepsChecked(ed, Start(mls), es);
    assert RoomChecked(ed, s, room) && Accepted(s.history, room, f);
    var a :| a in RecordsIn(s.history, room) && a.frame == f && a.accepted;
    assert a in AssignedIn(s, room);
  }

  /** The signature verified against the MLS state stored at the time. */
  predicate Signed(ed: Ed25519, a: Assigned) {
    a.mls.Some? && ValidateSignature(ed, a.frame, a.mls.value) == Accept
  }

  /** In every run each stored frame was signed, or of an opcode whose signature is not checked, or stored
      in a room that had no MLS state. */
  lemma StoredFramesSignedUnlessExempt(ed: Ed25519, mls: map<nat, MlsGroupState>, es: seq<Event>, room: nat, f: Frame)
    requires f in LogOf(Run(ed, Start(mls), es), room)
    ensures exists a <- AssignedIn(Run(ed, Start(mls), es), room) ::
              a.frame == f && a.accepted && (Signed(ed, a) || !NeedsSignature(f) || a.mls.None?)
  {
    StoredFramesWereChecked(ed, mls, es, room, f);
    var s := Run(ed, Start(mls), es);
    var a :| a in AssignedIn(s, room) && a.frame == f && a.accepted && Checked(ed, a);
    assert Signed(ed, a) || !NeedsSignature(f) || a.mls.None?;
  }

  lemma ProposalStored(s: Server, f: Frame)
    requires Ready(s, 0, 0) && s.outstanding == [] && s.store.frames == map[] && At(f, H.PROPOSAL, 0)
    ensures var s' := Step(NobodySigns(), Received(NobodySigns(), s, f, NO_FAULTS, Refused), Execute(0, []));
            LogOf(s', 1) == [S.WithIndex(f, 0)]
  {
    var batch := ProposalAccepted(s, f, 0, 0);
    var s1 := Received(NobodySigns(), s, f, NO_FAULTS, Refused);
    ExecutedCarrying(s1.store, batch, [], 1, 0, S.WithIndex(f, 0), 1);
    assert LogOf(s1, 1) + [S.WithIndex(f, 0)] == [S.WithIndex(f, 0)];
  }

  /** Where no signature verifies, a Proposal is stored. */
  lemma UnsignedFrameStoredExample()
    ensures var s := Received(NobodySigns(), FreshRoom(), Sample(H.PROPOSAL, 0), NO_FAULTS, Refused);
            LogOf(Step(NobodySigns(), s, Execute(0, [])), 1) == [S.WithIndex(Sample(H.PROPOSAL, 0), 0)]
    ensures forall f, st :: ValidateSignature(NobodySigns(), f, st) != Accept
  {
    FreshRoomIsReady();
    SampleFields(H.PROPOSAL, 0);
    ProposalStored(FreshRoom(), Sample(H.PROPOSAL, 0));
  }

  /** Epochs start at 0, rise by at most one at a time and only right after a Commit, and stay
      within the limit. */
  predicate EpochsClimb(log: seq<Frame>) {
    && (log != [] ==> Epoch(log[0]) == 0)
    && (forall i :: 0 <= i < |log| ==> Epoch(log[i]) <= S.MAX_EPOCH)
    && (forall i :: 0 < i < |log| ==>
          Epoch(log[i]) == Epoch(log[i - 1])
          || (Epoch(log[i]) == Epoch(log[i - 1]) + 1 && Opcode(log[i - 1]) == H.COMMIT))
  }

  lemma CheckedEpoch(ed: Ed25519, a: Assigned)
    requires Checked(ed, a)
    ensures Epoch(a.frame) == a.groupEpoch <= S.MAX_EPOCH
  {
  }

  lemma ChainClimbs(ed: Ed25519, log: seq<Frame>, records: seq<Assigned>)
    requires Follows(log, records) && Chained(records) && forall a <- records :: Checked(ed, a)
    ensures EpochsClimb(log)
  {
    forall i | 0 <= i < |log|
      ensures Epoch(log[i]) == records[i].groupEpoch == EpochAfter(records[..i]) <= S.MAX_EPOCH
    {
      assert records[i] in records;
      CheckedEpoch(ed, records[i]);
    }
    forall i | 0 < i < |log|
      ensures EpochAfter(records[..i]) == records[i - 1].groupEpoch + if records[i - 1].advanced then 1 else 0
      ensures records[i - 1].advanced ==> Opcode(log[i - 1]) == H.COMMIT
    {
      assert records[..i][i - 1] == records[i - 1];
      assert records[i - 1] in records;
    }
  }

  /** In every run, new sequencers included, a room's group is never more than one past the limit. */
  lemma GroupEpochBounded(ed: Ed25519, mls: map<nat, MlsGroupState>, es: seq<Event>, room: nat)
    ensures EpochOf(Run(ed, Start(mls), es).manager, room) <= S.MAX_EPOCH + 1
  {
    var s := Run(ed, Start(mls), es);
    var records := AssignedIn(s, room);
    RunKeepsChecked(ed, Start(mls), es);
    assert RoomChecked(ed, s, room);
    if records != [] {
      assert records[|records| - 1] in records;
      CheckedEpoch(ed, records[|records| - 1]);
    }
  }

  /** In every run whose new sequencers start caught up the epochs of each stored log climb that way. */
  lemma EpochsAlongLog(ed: Ed25519, mls: map<nat, MlsGroupState>, es: seq<Event>, room: nat)
    requires RestartsCaughtUp(ed, Start(mls), es)
    ensures EpochsClimb(LogOf(Run(ed, Start(mls), es), room))
  {
    var s := Run(ed, Start(mls), es);
    TotalOrderInEveryRun(ed, mls, es, room);
    RunKeepsChecked(ed, Start(mls), es);
    assert RoomChecked(ed, s, room);
    ChainClimbs(ed, LogOf(s, room), AssignedIn(s, room));
  }

  predicate NoneAdvancesFrom(records: seq<Assigned>, n: nat) {
    forall i :: n <= i < |records| ==> !records[i].advanced
  }

  lemma EpochOneOn(records: seq<Assigned>, n: nat)
    requires Chained(records) && n < |records|
    ensures EpochAfter(records[..n + 1]) == EpochAfter(records[..n]) + if records[n].advanced then 1 else 0
  {
    assert records[..n + 1][n] == records[n];
  }

  lemma {:induction false} EpochPastIff(records: seq<Assigned>, n: nat)
    requires Chained(records) && n <= |records|
    ensures EpochAfter(records[..n]) <= EpochAfter(records)
    ensures EpochAfter(records) == EpochAfter(records[..n]) <==> NoneAdvancesFrom(records, n)
    decreases |records| - n
  {
    if n == |records| {
      assert records[..n] == records;
    } else {
      EpochOneOn(records, n);
      EpochPastIff(records, n + 1);
    }
  }

  /** The epoch a sync reply carries is the one its log leads to exactly when no frame that was given an
      index past the log moved the group. */
  lemma ServerEpochIsLogsIff(ed: Ed25519, mls: map<nat, MlsGroupState>, es: seq<Event>, room: nat)
    requires RestartsCaughtUp(ed, Start(mls), es)
    ensures var s := Run(ed, Start(mls), es);
            var records, n := AssignedIn(s, room), |LogOf(s, room)|;
            && n <= |records|
            && (EpochOf(s.manager, room) == EpochAfter(records[..n]) <==> NoneAdvancesFrom(records, n))
  {
    var s := Run(ed, Start(mls), es);
    TotalOrderInEveryRun(ed, mls, es, room);
    RunKeepsChecked(ed, Start(mls), es);
    assert RoomChecked(ed, s, room);
    EpochPastIff(AssignedIn(s, room), |LogOf(s, room)|);
  }

  lemma {:induction false} ExecutedKeepsMls(st: Store, batch: Batch, fails: seq<bool>)
    requires forall a <- batch :: !a.PersistMlsState?
    ensures ExecutedAll(st, batch, fails).mls == st.mls
    decreases |batch|
  {
    if batch != [] {
      assert !batch[0].PersistMlsState?;
      var st' := if fails != [] && fails[0] then st else Executed(st, batch[0]);
      ExecutedKeepsMls(st', batch[1..], if fails == [] then [] else fails[1..]);
    }
  }

  lemma EpochRunsAhead(s: Server, f: Frame, g: Frame)
    requires Ready(s, 0, 0) && s.outstanding == [] && s.store.frames == map[] && s.history == map[]
    requires At(f, H.PROPOSAL, 0) && At(g, H.COMMIT, 0)
    ensures var ed := NobodySigns();
            var s1 := Step(ed, Received(ed, s, f, NO_FAULTS, Refused), Execute(0, []));
            var s2 := Received(ed, s1, g, NO_FAULTS, Unexported([7]));
            && LogOf(s2, 1) == [S.WithIndex(f, 0)] && EpochOf(s2.manager, 1) == 1
            && |AssignedIn(s2, 1)| == 2 && EpochAfter(AssignedIn(s2, 1)[..1]) == 0
  {
    var batch := ProposalAccepted(s, f, 0, 0);
    ProposalStored(s, f);
    var s0 := Received(NobodySigns(), s, f, NO_FAULTS, Refused);
    var s1 := Step(NobodySigns(), s0, Execute(0, []));
    ExecutedKeepsMls(s0.store, batch, []);
    assert Ready(s1, 0, 1);
    ExportFails(s1, g, 0, 1, [7]);
  }

  /** A Proposal stored, then a Commit whose new state cannot be exported: the log holds one frame of
      epoch 0 and leads to epoch 0, and the server is at epoch 1. */
  lemma ServerEpochAheadExample()
    ensures var ed := NobodySigns();
            var s1 := Step(ed, Received(ed, FreshRoom(), Sample(H.PROPOSAL, 0), NO_FAULTS, Refused), Execute(0, []));
            var s2 := Received(ed, s1, Sample(H.COMMIT, 0), NO_FAULTS, Unexported([7]));
            && LogOf(s2, 1) == [S.WithIndex(Sample(H.PROPOSAL, 0), 0)] && EpochOf(s2.manager, 1) == 1
            && |AssignedIn(s2, 1)| == 2 && EpochAfter(AssignedIn(s2, 1)[..1]) == 0
  {
    FreshRoomIsReady();
    SampleFields(H.PROPOSAL, 0);
    SampleFields(H.COMMIT, 0);
    EpochRunsAhead(FreshRoom(), Sample(H.PROPOSAL, 0), Sample(H.COMMIT, 0));
  }

  // ---------------------------------------------------------------------------------------------
  // Frames that came off the wire

  predicate OffTheWire(es: seq<Event>) { forall e <- es :: e.Receive? ==> WireValid(e.frame) }

  predicate ValidRecords(records: seq<Assigned>) { forall a <- records :: WireValid(a.frame) }

  ghost predicate AllValid(s: Server) { forall room :: ValidRecords(AssignedIn(s, room)) }

  lemma WithIndexStaysValid(f: Frame, i: nat)
    requires WireValid(f)
    ensures WireValid(S.WithIndex(f, i))
  {
    S.WithIndexChangesOnlyContext(f, i);
  }

  lemma HistoryValid(s: Server, s': Server, q: nat, a: Assigned)
    requires AllValid(s) && WireValid(a.frame)
    requires s'.history == s.history[q := AssignedIn(s, q) + [a]]
    ensures AllValid(s')
  {
    forall room ensures ValidRecords(AssignedIn(s', room)) { assert ValidRecords(AssignedIn(s, room)); }
  }

  lemma StepKeepsValid(ed: Ed25519, s: Server, e: Event)
    requires AllValid(s) && (e.Receive? ==> WireValid(e.frame))
    ensures AllValid(Step(ed, s, e))
  {
    if e.Receive? && TakesIndex(ed, s.manager, s.store, e.frame, e.faults) {
      ReceivedWithIndex(ed, s, e.frame, e.faults, e.outcome);
      WithIndexStaysValid(e.frame, NextOf(s.manager, s.store, RoomId(e.frame)));
      HistoryValid(s, Step(ed, s, e), RoomId(e.frame), RecordOf(ed, s, e.frame, e.faults, e.outcome));
    } else if e.Receive? {
      ReceivedWithoutIndex(ed, s, e.frame, e.faults, e.outcome);
      forall room ensures ValidRecords(AssignedIn(Step(ed, s, e), room)) { assert ValidRecords(AssignedIn(s, room)); }
    } else {
      forall room ensures ValidRecords(AssignedIn(Step(ed, s, e), room)) { assert ValidRecords(AssignedIn(s, room)); }
    }
  }

  lemma {:induction false} RunKeepsValid(ed: Ed25519, s: Server, es: seq<Event>)
    requires AllValid(s) && OffTheWire(es)
    ensures AllValid(Run(ed, s, es))
    decreases |es|
  {
    if es != [] {
      assert es[0].Receive? ==> WireValid(es[0].frame);
      StepKeepsValid(ed, s, es[0]);
      RunKeepsValid(ed, Step(ed, s, es[0]), es[1..]);
    }
  }

  /** If every frame came in through `Frame::decode`, every stored frame encodes without error and
      decodes to itself: the size field is the payload length, and at most 16 MB. */
  lemma StoredFramesTravel(ed: Ed25519, mls: map<nat, MlsGroupState>, es: seq<Event>, room: nat, f: Frame)
    requires OffTheWire(es) && f in LogOf(Run(ed, Start(mls), es), room)
    ensures WireValid(f) && Encode(f).Ok? && Decode(Encode(f).value) == Ok(f)
  {
    var s := Run(ed, Start(mls), es);
    StoredFramesWereChecked(ed, mls, es, room, f);
    RunKeepsValid(ed, Start(mls), es);
    assert ValidRecords(AssignedIn(s, room));
    DecodeEncode(f, []);
    assert Encode(f).value + [] == Encode(f).value;
  }
}
