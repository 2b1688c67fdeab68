/** The stored MLS state against the group, when the batches that store it run in any order. */
module MlsEpochs {
  import opened Wrappers
  import H = Header
  import S = Sequencer
  import opened Frames
  import opened Validator
  import opened Storage
  import opened RoomManager
  import opened Pipeline
  import opened Queues
  import opened Scenarios

  function StoredEpoch(st: Store, room: nat): nat { if room in st.mls then st.mls[room].epoch else 0 }

  /** No action of a batch but the last stores MLS state. */
  predicate MlsLast(batch: Batch) {
    batch != [] && forall i :: 0 <= i < |batch| - 1 ==> !batch[i].PersistMlsState?
  }

  /** The epoch a batch is to store for a room, if any. */
  function MlsIn(batch: Batch, room: nat): seq<nat> {
    if batch == [] then []
    else
      var last := batch[|batch| - 1];
      if last.PersistMlsState? && last.roomId == room then [last.state.epoch] else []
  }

  function MlsQueue(batches: seq<Batch>, room: nat): seq<nat> { Gather(batches, batch => MlsIn(batch, room)) }

  /** The last action is reached, and storage takes it. */
  predicate Stores(batch: Batch, fails: seq<bool>) {
    batch != [] && !RefusedAt(fails, |batch| - 1) && forall i :: 0 <= i < |batch| - 1 ==> !Stops(batch[i])
  }

  lemma StoresRest(batch: Batch, fails: seq<bool>)
    requires |batch| > 1 && !Stops(batch[0])
    ensures Stores(batch, fails) <==> Stores(batch[1..], if fails == [] then [] else fails[1..])
  {
    if Stores(batch[1..], if fails == [] then [] else fails[1..]) {
      forall i | 0 <= i < |batch| - 1 ensures !Stops(batch[i]) {
        if i > 0 { assert batch[1..][i - 1] == batch[i]; }
      }
    }
  }

  lemma {:induction false} ExecutedMls(st: Store, batch: Batch, fails: seq<bool>, room: nat)
    requires MlsLast(batch)
    ensures StoredEpoch(ExecutedAll(st, batch, fails), room)
            == if MlsIn(batch, room) != [] && Stores(batch, fails) then MlsIn(batch, room)[0] else StoredEpoch(st, room)
    decreases |batch|
  {
    var st' := if fails != [] && fails[0] then st else Executed(st, batch[0]);
    var rest := if fails == [] then [] else fails[1..];
    if |batch| == 1 {
      assert batch[1..] == [];
    } else if !Stops(batch[0]) {
      ExecutedMls(st', batch[1..], rest, room);
      assert batch[1..][|batch| - 2] == batch[|batch| - 1];
      assert Stores(batch, fails) <==> Stores(batch[1..], rest) by { StoresRest(batch, fails); }
    }
  }

  // ---------------------------------------------------------------------------------------------
  // Never ahead of the group

  predicate Sorted(q: seq<nat>) { forall i, j :: 0 <= i < j < |q| ==> q[i] <= q[j] }

  predicate AtMost(q: seq<nat>, top: nat) { forall i :: 0 <= i < |q| ==> q[i] <= top }

  predicate RoomMls(s: Server, room: nat) {
    var q, top := MlsQueue(s.outstanding, room), EpochOf(s.manager, room);
    StoredEpoch(s.store, room) <= top && Sorted(q) && AtMost(q, top)
  }

  predicate Tidy(s: Server) {
    s.manager.groups.Keys == s.manager.creators.Keys && forall batch <- s.outstanding :: MlsLast(batch)
  }

  lemma QueueOneMore(batches: seq<Batch>, batch: Batch, room: nat)
    ensures MlsQueue(batches + [batch], room) == MlsQueue(batches, room) + MlsIn(batch, room)
  {
    GatherOneMore(batches, batch, b => MlsIn(b, room));
  }

  /** The epoch a received frame queues for its room: the group's, after an accepted Commit. */
  function Added(ed: Ed25519, s: Server, f: Frame, faults: Faults, outcome: CommitOutcome): seq<nat> {
    if Opcode(f) == H.COMMIT && TakesIndex(ed, s.manager, s.store, f, faults) && !FailsLate(ed, s.store, f, outcome)
    then [EpochOf(s.manager, RoomId(f)) + if Commits(s.manager, f, outcome) then 1 else 0]
    else []
  }

  lemma AcceptedBatch(batch: Batch, room: nat, i: nat, g: Frame, q: nat)
    requires Carries(batch, room, i, g)
    ensures MlsLast(batch)
    ensures MlsIn(batch, q) == if |batch| == 4 && batch[3].roomId == q then [batch[3].state.epoch] else []
  {
  }

  lemma ReceivedQueue(ed: Ed25519, s: Server, f: Frame, faults: Faults, outcome: CommitOutcome, room: nat)
    ensures MlsQueue(Received(ed, s, f, faults, outcome).outstanding, room)
            == MlsQueue(s.outstanding, room) + (if room == RoomId(f) then Added(ed, s, f, faults, outcome) else [])
  {
    var s' := Received(ed, s, f, faults, outcome);
    assert MlsQueue(s.outstanding, room) + [] == MlsQueue(s.outstanding, room);
    if TakesIndex(ed, s.manager, s.store, f, faults) {
      var i := NextOf(s.manager, s.store, RoomId(f));
      EpochMovesIff(ed, s.manager, s.store, f, faults, outcome);
      ProcessWithIndex(ed, s.manager, s.store, f, faults, outcome);
      var batch := BatchOf(ed, s, f, faults, outcome);
      if batch.Some? {
        AcceptedBatch(batch.value, RoomId(f), i, batch.value[0].frame, room);
        QueueOneMore(s.outstanding, batch.value, room);
      }
    } else {
      ReceivedWithoutIndex(ed, s, f, faults, outcome);
      if s'.outstanding != s.outstanding { QueueOneMore(s.outstanding, s'.outstanding[|s.outstanding|], room); }
    }
  }

  lemma ReceivedShape(ed: Ed25519, s: Server, f: Frame, faults: Faults, outcome: CommitOutcome, batch: Batch)
    requires batch in Received(ed, s, f, faults, outcome).outstanding && batch !in s.outstanding
    ensures MlsLast(batch)
  {
    if TakesIndex(ed, s.manager, s.store, f, faults) {
      ProcessWithIndex(ed, s.manager, s.store, f, faults, outcome);
      AcceptedBatch(batch, RoomId(f), NextOf(s.manager, s.store, RoomId(f)), batch[0].frame, 0);
    } else {
      ReceivedWithoutIndex(ed, s, f, faults, outcome);
    }
  }

  /** The queue around batch `k`, which holds one epoch for the room or none. */
  lemma QueueAround(batches: seq<Batch>, k: nat, room: nat)
    requires k < |batches|
    ensures MlsQueue(batches, room)
            == MlsQueue(batches[..k], room) + MlsIn(batches[k], room) + MlsQueue(batches[k + 1..], room)
    ensures MlsQueue(batches[..k] + batches[k + 1..], room)
            == MlsQueue(batches[..k], room) + MlsQueue(batches[k + 1..], room)
    ensures MlsIn(batches[k], room) == []
            ==> MlsQueue(batches[..k] + batches[k + 1..], room) == MlsQueue(batches, room)
  {
    GatherAround(batches, k, b => MlsIn(b, room));
  }

  lemma WithoutMiddle(before: seq<nat>, middle: seq<nat>, after: seq<nat>, top: nat)
    requires Sorted(before + middle + after) && AtMost(before + middle + after, top)
    ensures Sorted(before + after) && AtMost(before + after, top) && AtMost(middle, top)
  {
    var q, r, n, m := before + middle + after, before + after, |before|, |middle|;
    forall i | 0 <= i < |r| ensures r[i] == q[if i < n then i else i + m] {}
    forall i | 0 <= i < m ensures middle[i] == q[n + i] {}
    forall i, j | 0 <= i < j < |r| ensures r[i] <= r[j] {
      assert q[if i < n then i else i + m] <= q[if j < n then j else j + m];
    }
  }

  lemma SortedOneMore(q: seq<nat>, top: nat, top': nat, added: seq<nat>)
    requires Sorted(q) && AtMost(q, top) && top <= top' && (added == [] || added == [top'])
    ensures Sorted(q + added) && AtMost(q + added, top')
  {
  }

  lemma ExecuteKeepsRoom(s: Server, s': Server, k: nat, fails: seq<bool>, room: nat)
    requires RoomMls(s, room) && k < |s.outstanding| && MlsLast(s.outstanding[k])
    requires s' == s.(store := ExecutedAll(s.store, s.outstanding[k], fails),
                      outstanding := s.outstanding[..k] + s.outstanding[k + 1..])
    ensures RoomMls(s', room)
  {
    ExecutedMls(s.store, s.outstanding[k], fails, room);
    QueueAround(s.outstanding, k, room);
    WithoutMiddle(MlsQueue(s.outstanding[..k], room), MlsIn(s.outstanding[k], room),
                  MlsQueue(s.outstanding[k + 1..], room), EpochOf(s.manager, room));
  }

  lemma ReceiveKeepsRoom(ed: Ed25519, s: Server, f: Frame, faults: Faults, outcome: CommitOutcome, room: nat)
    requires RoomMls(s, room)
    ensures RoomMls(Received(ed, s, f, faults, outcome), room)
  {
    EpochMovesIff(ed, s.manager, s.store, f, faults, outcome);
    ReceivedQueue(ed, s, f, faults, outcome, room);
    var m' := Received(ed, s, f, faults, outcome).manager;
    assert room != RoomId(f) ==> Get(m'.groups, room) == Get(s.manager.groups, room);
    SortedOneMore(MlsQueue(s.outstanding, room), EpochOf(s.manager, room), EpochOf(m', room),
                  if room == RoomId(f) then Added(ed, s, f, faults, outcome) else []);
  }

  lemma ReceiveKeepsCreators(ed: Ed25519, s: Server, f: Frame, faults: Faults, outcome: CommitOutcome)
    ensures Received(ed, s, f, faults, outcome).manager.creators == s.manager.creators
  {
    if TakesIndex(ed, s.manager, s.store, f, faults) {
      ProcessWithIndex(ed, s.manager, s.store, f, faults, outcome);
    } else {
      NoIndexNoPersist(ed, s.manager, s.store, f, faults, outcome);
    }
  }

  lemma StepKeepsTidy(ed: Ed25519, s: Server, e: Event)
    requires Tidy(s)
    ensures Tidy(Step(ed, s, e))
  {
    if e.Receive? {
      EpochMovesIff(ed, s.manager, s.store, e.frame, e.faults, e.outcome);
      ReceiveKeepsCreators(ed, s, e.frame, e.faults, e.outcome);
      forall batch | batch in Step(ed, s, e).outstanding ensures MlsLast(batch) {
        if batch !in s.outstanding { ReceivedShape(ed, s, e.frame, e.faults, e.outcome, batch); }
      }
    }
  }

  lemma StepKeepsRoom(ed: Ed25519, s: Server, e: Event, room: nat)
    requires Tidy(s) && RoomMls(s, room)
    ensures RoomMls(Step(ed, s, e), room)
  {
    if e.Receive? {
      ReceiveKeepsRoom(ed, s, e.frame, e.faults, e.outcome, room);
    } else if e.Execute? && e.batch < |s.outstanding| {
      assert MlsLast(s.outstanding[e.batch]);
      ExecuteKeepsRoom(s, Step(ed, s, e), e.batch, e.fails, room);
    }
  }

  lemma {:induction false} RunKeepsRoom(ed: Ed25519, s: Server, es: seq<Event>, room: nat)
    requires Tidy(s) && RoomMls(s, room)
    ensures Tidy(Run(ed, s, es)) && RoomMls(Run(ed, s, es), room)
    decreases |es|
  {
    if es != [] {
      StepKeepsTidy(ed, s, es[0]);
      StepKeepsRoom(ed, s, es[0], room);
      RunKeepsRoom(ed, Step(ed, s, es[0]), es[1..], room);
    }
  }

  /** A room starts level if any MLS state stored for it beforehand is one of epoch 0. */
  predicate StartsLevel(mls: map<nat, MlsGroupState>, room: nat) { room in mls ==> mls[room].epoch == 0 }

  /** In every run, new sequencers included, the stored epoch and those waiting to be stored are at most
      the group's, and those waiting are in order, exactly when the room starts level. */
  lemma StoredNeverAheadIff(ed: Ed25519, mls: map<nat, MlsGroupState>, room: nat)
    ensures StartsLevel(mls, room) <==> forall es :: RoomMls(Run(ed, Start(mls), es), room)
  {
    if StartsLevel(mls, room) {
      forall es ensures RoomMls(Run(ed, Start(mls), es), room) { RunKeepsRoom(ed, Start(mls), es, room); }
    } else {
      var none: seq<Event> := [];
      assert Run(ed, Start(mls), none) == Start(mls);
      assert StoredEpoch(Start(mls).store, room) > 0 == EpochOf(Start(mls).manager, room);
      assert !RoomMls(Run(ed, Start(mls), none), room);
    }
  }

  // ---------------------------------------------------------------------------------------------
  // When it goes back, and when it is behind

  /** The stored epoch, then those waiting. */
  function Line(s: Server, room: nat): seq<nat> {
    [StoredEpoch(s.store, room)] + MlsQueue(s.outstanding, room)
  }

  /** Batch `e.batch` stores an older epoch of the room over a newer one. */
  predicate Lowers(s: Server, e: Event, room: nat) {
    && e.Execute? && e.batch < |s.outstanding|
    && var batch := s.outstanding[e.batch];
       MlsIn(batch, room) != [] && Stores(batch, e.fails) && MlsIn(batch, room)[0] < StoredEpoch(s.store, room)
  }

  /** Exactly such an execution, and no other step, takes the stored epoch back. */
  lemma StoredGoesBackIff(ed: Ed25519, s: Server, e: Event, room: nat)
    requires Tidy(s)
    ensures StoredEpoch(Step(ed, s, e).store, room) < StoredEpoch(s.store, room) <==> Lowers(s, e, room)
  {
    if e.Execute? && e.batch < |s.outstanding| {
      assert MlsLast(s.outstanding[e.batch]);
      ExecutedMls(s.store, s.outstanding[e.batch], e.fails, room);
    }
  }

  /** A batch that, executed with nothing refused, stores the epoch for room 1. */
  predicate Waits(batch: Batch, epoch: nat) { MlsLast(batch) && MlsIn(batch, 1) == [epoch] && Stores(batch, []) }

  lemma AcceptedWaits(batch: Batch, i: nat, g: Frame)
    requires Carries(batch, 1, i, g) && |batch| == 4 && batch[3].roomId == 1 && g.payload == []
    ensures Waits(batch, batch[3].state.epoch)
  {
  }

  lemma SecondThenFirst(ed: Ed25519, s: Server, first: Batch, second: Batch, a: nat, b: nat)
    requires s.outstanding == [first, second] && Waits(first, a) && Waits(second, b)
    ensures var s1 := Step(ed, s, Execute(1, []));
            var s2 := Step(ed, s1, Execute(0, []));
            StoredEpoch(s1.store, 1) == b && StoredEpoch(s2.store, 1) == a && s2.manager == s.manager
  {
    var s1 := Step(ed, s, Execute(1, []));
    assert s1.outstanding == [first];
    ExecutedMls(s.store, second, [], 1);
    ExecutedMls(s1.store, first, [], 1);
  }

  lemma CommitsOutOfOrder(s: Server, f: Frame, g: Frame)
    requires Ready(s, 0, 0) && s.outstanding == [] && At(f, H.COMMIT, 0) && At(g, H.COMMIT, 1)
    ensures var s1 := Received(NobodySigns(), s, f, NO_FAULTS, Leaves([7]));
            var s2 := Received(NobodySigns(), s1, g, NO_FAULTS, Leaves([7]));
            var s3 := Step(NobodySigns(), s2, Execute(1, []));
            var s4 := Step(NobodySigns(), s3, Execute(0, []));
            StoredEpoch(s3.store, 1) == 2 && StoredEpoch(s4.store, 1) == 1 && EpochOf(s4.manager, 1) == 2
  {
    var first := CommitAccepted(s, f, 0, 0, [7]);
    AcceptedWaits(first, 0, S.WithIndex(f, 0));
    var s1 := Received(NobodySigns(), s, f, NO_FAULTS, Leaves([7]));
    var second := CommitAccepted(s1, g, 1, 1, [7]);
    AcceptedWaits(second, 1, S.WithIndex(g, 1));
    SecondThenFirst(NobodySigns(), Received(NobodySigns(), s1, g, NO_FAULTS, Leaves([7])), first, second, 1, 2);
  }

  /** Two commits received, the second's batch executed first: the stored epoch goes from 2 back to 1
      while the group stands at 2. */
  lemma StoredGoesBackExample()
    ensures var s1 := Received(NobodySigns(), FreshRoom(), Sample(H.COMMIT, 0), NO_FAULTS, Leaves([7]));
            var s2 := Received(NobodySigns(), s1, Sample(H.COMMIT, 1), NO_FAULTS, Leaves([7]));
            var s3 := Step(NobodySigns(), s2, Execute(1, []));
            var s4 := Step(NobodySigns(), s3, Execute(0, []));
            StoredEpoch(s3.store, 1) == 2 && StoredEpoch(s4.store, 1) == 1 && EpochOf(s4.manager, 1) == 2
  {
    FreshRoomIsReady();
    SampleFields(H.COMMIT, 0);
    SampleFields(H.COMMIT, 1);
    CommitsOutOfOrder(FreshRoom(), Sample(H.COMMIT, 0), Sample(H.COMMIT, 1));
  }

  /** A batch stores its epoch ahead of an older one that still waits. */
  predicate Overtakes(s: Server, e: Event, room: nat) {
    && e.Execute? && e.batch < |s.outstanding|
    && var batch, before := s.outstanding[e.batch], MlsQueue(s.outstanding[..e.batch], room);
       MlsIn(batch, room) != [] && Stores(batch, e.fails) && before != [] && before[0] < MlsIn(batch, room)[0]
  }

  lemma SortedAfter(stored: nat, before: seq<nat>, e: nat, after: seq<nat>, stores: bool)
    requires Sorted([stored] + (before + [e] + after))
    ensures stored <= e
    ensures Sorted([if stores then e else stored] + (before + after)) <==> !(stores && before != [] && before[0] < e)
  {
    var line, line' := [stored] + (before + [e] + after), [if stores then e else stored] + (before + after);
    var n := |before|;
    assert line[0] <= line[n + 1] == e;
    forall i | 0 < i < |line'| ensures line'[i] == line[if i <= n then i else i + 1] {}
    if stores && n > 0 && before[0] < e {
      assert line'[0] > line'[1];
    } else {
      forall i, j | 0 <= i < j < |line'| ensures line'[i] <= line'[j] {
        assert line[if i <= n then i else i + 1] <= line[if j <= n then j else j + 1];
        assert stores ==> e <= line[1] <= line[if j <= n then j else j + 1];
      }
    }
  }

  /** Where a batch that holds an epoch of the room leaves its line. */
  lemma ExecuteLine(s: Server, s': Server, k: nat, fails: seq<bool>, room: nat)
    requires k < |s.outstanding| && MlsLast(s.outstanding[k])
    requires s' == s.(store := ExecutedAll(s.store, s.outstanding[k], fails),
                      outstanding := s.outstanding[..k] + s.outstanding[k + 1..])
    ensures var before, after := MlsQueue(s.outstanding[..k], room), MlsQueue(s.outstanding[k + 1..], room);
            var batch, stored := s.outstanding[k], StoredEpoch(s.store, room);
            if MlsIn(batch, room) == [] then Line(s', room) == Line(s, room)
            else var e := MlsIn(batch, room)[0];
                 && Line(s, room) == [stored] + (before + [e] + after)
                 && Line(s', room) == [if Stores(batch, fails) then e else stored] + (before + after)
  {
    ExecutedMls(s.store, s.outstanding[k], fails, room);
    QueueAround(s.outstanding, k, room);
    if MlsIn(s.outstanding[k], room) != [] {
      assert MlsIn(s.outstanding[k], room) == [MlsIn(s.outstanding[k], room)[0]];
    }
  }

  lemma ReceiveLine(ed: Ed25519, s: Server, f: Frame, faults: Faults, outcome: CommitOutcome, room: nat)
    ensures Line(Received(ed, s, f, faults, outcome), room)
            == Line(s, room) + (if room == RoomId(f) then Added(ed, s, f, faults, outcome) else [])
  {
    ReceivedQueue(ed, s, f, faults, outcome, room);
  }

  lemma ExecuteInOrderIff(s: Server, s': Server, k: nat, fails: seq<bool>, room: nat)
    requires k < |s.outstanding| && MlsLast(s.outstanding[k]) && Sorted(Line(s, room))
    requires s' == s.(store := ExecutedAll(s.store, s.outstanding[k], fails),
                      outstanding := s.outstanding[..k] + s.outstanding[k + 1..])
    ensures Sorted(Line(s', room)) <==> !Overtakes(s, Execute(k, fails), room)
    ensures StoredEpoch(s.store, room) <= StoredEpoch(s'.store, room)
  {
    ExecuteLine(s, s', k, fails, room);
    if MlsIn(s.outstanding[k], room) != [] {
      SortedAfter(StoredEpoch(s.store, room), MlsQueue(s.outstanding[..k], room), MlsIn(s.outstanding[k], room)[0],
                  MlsQueue(s.outstanding[k + 1..], room), Stores(s.outstanding[k], fails));
    }
    ExecutedMls(s.store, s.outstanding[k], fails, room);
  }

  lemma ReceiveInOrder(ed: Ed25519, s: Server, f: Frame, faults: Faults, outcome: CommitOutcome, room: nat)
    requires RoomMls(s, room) && Sorted(Line(s, room))
    ensures Sorted(Line(Received(ed, s, f, faults, outcome), room))
  {
    ReceiveLine(ed, s, f, faults, outcome, room);
    SortedOneMore(Line(s, room), EpochOf(s.manager, room),
                  EpochOf(s.manager, room) + (if Commits(s.manager, f, outcome) then 1 else 0),
                  if room == RoomId(f) then Added(ed, s, f, faults, outcome) else []);
  }

  /** As long as the stored epoch and those waiting are in order, none goes back; and a step keeps them
      in order exactly when no batch overtakes an older one. */
  lemma InOrderKeptIff(ed: Ed25519, s: Server, e: Event, room: nat)
    requires Tidy(s) && RoomMls(s, room) && Sorted(Line(s, room))
    ensures Sorted(Line(Step(ed, s, e), room)) <==> !Overtakes(s, e, room)
    ensures StoredEpoch(s.store, room) <= StoredEpoch(Step(ed, s, e).store, room)
  {
    if e.Execute? && e.batch < |s.outstanding| {
      assert MlsLast(s.outstanding[e.batch]);
      ExecuteInOrderIff(s, Step(ed, s, e), e.batch, e.fails, room);
    } else if e.Receive? {
      ReceiveInOrder(ed, s, e.frame, e.faults, e.outcome, room);
    }
  }

  /** Storing what waits, in order, brings storage to the group's epoch. */
  predicate CatchesUp(s: Server, room: nat) {
    var line := Line(s, room); line[|line| - 1] == EpochOf(s.manager, room)
  }

  /** The group moves and its new state cannot be exported; or the newest epoch that waits is executed
      and an older one stays last in line, for it was refused or an older one still waits. */
  predicate FallsBehind(ed: Ed25519, s: Server, e: Event, room: nat) {
    || (e.Receive? && RoomId(e.frame) == room && TakesIndex(ed, s.manager, s.store, e.frame, e.faults)
        && Commits(s.manager, e.frame, e.outcome) && !e.outcome.exported)
    || (e.Execute? && e.batch < |s.outstanding|
        && var batch, before := s.outstanding[e.batch], MlsQueue(s.outstanding[..e.batch], room);
           && MlsIn(batch, room) != [] && MlsQueue(s.outstanding[e.batch + 1..], room) == []
           && (if before != [] then before[|before| - 1] != MlsIn(batch, room)[0]
               else !Stores(batch, e.fails) && StoredEpoch(s.store, room) != MlsIn(batch, room)[0]))
  }

  lemma LastAfter(stored: nat, before: seq<nat>, e: nat, after: seq<nat>, stores: bool)
    ensures var line, line' := [stored] + (before + [e] + after), [if stores then e else stored] + (before + after);
            line'[|line'| - 1] == line[|line| - 1]
            <==> !(after == [] && if before != [] then before[|before| - 1] != e else !stores && stored != e)
  {
  }

  lemma ExecuteCatchesUpIff(ed: Ed25519, s: Server, s': Server, k: nat, fails: seq<bool>, room: nat)
    requires k < |s.outstanding| && MlsLast(s.outstanding[k]) && CatchesUp(s, room)
    requires s' == s.(store := ExecutedAll(s.store, s.outstanding[k], fails),
                      outstanding := s.outstanding[..k] + s.outstanding[k + 1..])
    ensures CatchesUp(s', room) <==> !FallsBehind(ed, s, Execute(k, fails), room)
  {
    ExecuteLine(s, s', k, fails, room);
    if MlsIn(s.outstanding[k], room) != [] {
      LastAfter(StoredEpoch(s.store, room), MlsQueue(s.outstanding[..k], room), MlsIn(s.outstanding[k], room)[0],
                MlsQueue(s.outstanding[k + 1..], room), Stores(s.outstanding[k], fails));
    }
  }

  lemma ReceiveCatchesUpIff(ed: Ed25519, s: Server, f: Frame, faults: Faults, outcome: CommitOutcome, room: nat)
    requires CatchesUp(s, room)
    ensures CatchesUp(Received(ed, s, f, faults, outcome), room)
       <==> !(RoomId(f) == room && TakesIndex(ed, s.manager, s.store, f, faults)
              && Commits(s.manager, f, outcome) && !outcome.exported)
  {
    EpochMovesIff(ed, s.manager, s.store, f, faults, outcome);
    ReceiveLine(ed, s, f, faults, outcome, room);
    var m' := Received(ed, s, f, faults, outcome).manager;
    assert room != RoomId(f) ==> Get(m'.groups, room) == Get(s.manager.groups, room);
  }

  /** A step leaves storage able to catch up with the group exactly when it does not fall behind. */
  lemma CatchesUpKeptIff(ed: Ed25519, s: Server, e: Event, room: nat)
    requires Tidy(s) && CatchesUp(s, room)
    ensures CatchesUp(Step(ed, s, e), room) <==> !FallsBehind(ed, s, e, room)
  {
    if e.Execute? && e.batch < |s.outstanding| {
      assert MlsLast(s.outstanding[e.batch]);
      ExecuteCatchesUpIff(ed, s, Step(ed, s, e), e.batch, e.fails, room);
    } else if e.Receive? {
      ReceiveCatchesUpIff(ed, s, e.frame, e.faults, e.outcome, room);
    }
  }

  predicate NeverBehind(ed: Ed25519, s: Server, es: seq<Event>, room: nat)
    decreases |es|
  {
    es != [] ==> !FallsBehind(ed, s, es[0], room) && NeverBehind(ed, Step(ed, s, es[0]), es[1..], room)
  }

  lemma {:induction false} RunCatchesUp(ed: Ed25519, s: Server, es: seq<Event>, room: nat)
    requires Tidy(s) && CatchesUp(s, room) && NeverBehind(ed, s, es, room)
    ensures CatchesUp(Run(ed, s, es), room)
    decreases |es|
  {
    if es != [] {
      CatchesUpKeptIff(ed, s, es[0], room);
      StepKeepsTidy(ed, s, es[0]);
      RunCatchesUp(ed, Step(ed, s, es[0]), es[1..], room);
    }
  }

  /** In every run that starts level and does not fall behind, once no MLS state of the room waits, the
      stored epoch is the group's. */
  lemma StoredIsGroupEpoch(ed: Ed25519, mls: map<nat, MlsGroupState>, es: seq<Event>, room: nat)
    requires StartsLevel(mls, room) && NeverBehind(ed, Start(mls), es, room)
    requires MlsQueue(Run(ed, Start(mls), es).outstanding, room) == []
    ensures var s := Run(ed, Start(mls), es); StoredEpoch(s.store, room) == EpochOf(s.manager, room)
  {
    RunCatchesUp(ed, Start(mls), es, room);
  }

  predicate NoneOvertakes(ed: Ed25519, s: Server, es: seq<Event>, room: nat)
    decreases |es|
  {
    es != [] ==> !Overtakes(s, es[0], room) && NoneOvertakes(ed, Step(ed, s, es[0]), es[1..], room)
  }

  /** Along a run in which no batch overtakes an older one the stored epoch never goes back. */
  lemma {:induction false} StoredNeverGoesBack(ed: Ed25519, s: Server, es: seq<Event>, room: nat)
    requires Tidy(s) && RoomMls(s, room) && Sorted(Line(s, room)) && NoneOvertakes(ed, s, es, room)
    ensures StoredEpoch(s.store, room) <= StoredEpoch(Run(ed, s, es).store, room)
    ensures Sorted(Line(Run(ed, s, es), room))
    decreases |es|
  {
    if es != [] {
      InOrderKeptIff(ed, s, es[0], room);
      StepKeepsTidy(ed, s, es[0]);
      StepKeepsRoom(ed, s, es[0], room);
      StoredNeverGoesBack(ed, Step(ed, s, es[0]), es[1..], room);
    }
  }
}
