/** What a new sequencer does to the order of a log. */
module Restarts {
  import opened Wrappers
  import H = Header
  import opened Frames
  import opened Validator
  import opened Storage
  import S = Sequencer
  import opened RoomManager
  import opened Pipeline
  import opened TotalOrder
  import opened Records
  import opened Scenarios

  // ---------------------------------------------------------------------------------------------
  // A restart that is not caught up

  lemma ExecutedSecond(s: Server, first: Batch, second: Batch, g: Frame)
    requires s.outstanding == [first, second] && Carries(second, 1, 0, g) && LogOf(s, 1) == []
    ensures LogOf(Step(NobodySigns(), s, Execute(1, [])), 1) == [g]
  {
    ExecutedCarrying(s.store, second, [], 1, 0, g, 1);
    assert LogOf(s, 1) + [g] == [g];
  }

  lemma RestartReorders(s: Server, f: Frame, g: Frame)
    requires Ready(s, 0, 0) && s.outstanding == [] && s.store.frames == map[] && s.history == map[]
    requires At(f, H.COMMIT, 0) && At(g, H.PROPOSAL, 1)
    ensures var ed := NobodySigns();
            var s1 := Step(ed, Received(ed, s, f, NO_FAULTS, Leaves([7])), NewSequencer);
            var s2 := Step(ed, Received(ed, s1, g, NO_FAULTS, Refused), Execute(1, []));
            && LogOf(s2, 1) == [S.WithIndex(g, 0)]
            && |AssignedIn(s2, 1)| == 2 && AssignedIn(s2, 1)[0].frame == S.WithIndex(f, 0)
            && NextOf(s2.manager, s2.store, 1) == 1
  {
    var ed := NobodySigns();
    var first := CommitAccepted(s, f, 0, 0, [7]);
    var s1 := Step(ed, Received(ed, s, f, NO_FAULTS, Leaves([7])), NewSequencer);
    assert Ready(s1, 1, 0);
    var second := ProposalAccepted(s1, g, 1, 0);
    ExecutedSecond(Received(ed, s1, g, NO_FAULTS, Refused), first, second, S.WithIndex(g, 0));
  }

  lemma OutOfOrder(log: seq<Frame>, records: seq<Assigned>, f: Frame, g: Frame)
    requires At(f, H.COMMIT, 0) && At(g, H.PROPOSAL, 1)
    requires log == [S.WithIndex(g, 0)] && records != [] && records[0].frame == S.WithIndex(f, 0)
    ensures !Follows(log, records) && !EpochsClimb(log)
  {
    S.WithIndexChangesOnlyContext(f, 0);
    S.WithIndexChangesOnlyContext(g, 0);
  }

  /** A Commit received, a new sequencer, a Proposal received and executed first: both were given index
      0, the log is no prefix of the assigned order, its epochs do not start at 0, and the counter is 1
      where two indices were handed out. */
  lemma RestartBreaksOrderExample()
    ensures var ed := NobodySigns();
            var s1 := Step(ed, Received(ed, FreshRoom(), Sample(H.COMMIT, 0), NO_FAULTS, Leaves([7])), NewSequencer);
            var s2 := Step(ed, Received(ed, s1, Sample(H.PROPOSAL, 1), NO_FAULTS, Refused), Execute(1, []));
            && !Follows(LogOf(s2, 1), AssignedIn(s2, 1)) && !EpochsClimb(LogOf(s2, 1))
            && |AssignedIn(s2, 1)| == 2 && NextOf(s2.manager, s2.store, 1) == 1
  {
    FreshRoomIsReady();
    SampleFields(H.COMMIT, 0);
    SampleFields(H.PROPOSAL, 1);
    var f, g := Sample(H.COMMIT, 0), Sample(H.PROPOSAL, 1);
    RestartReorders(FreshRoom(), f, g);
    var s1 := Step(NobodySigns(), Received(NobodySigns(), FreshRoom(), f, NO_FAULTS, Leaves([7])), NewSequencer);
    var s2 := Step(NobodySigns(), Received(NobodySigns(), s1, g, NO_FAULTS, Refused), Execute(1, []));
    OutOfOrder(LogOf(s2, 1), AssignedIn(s2, 1), f, g);
  }

  // ---------------------------------------------------------------------------------------------
  // Recovery

  predicate IsAt(records: seq<Assigned>, i: nat, f: Frame) {
    i < |records| && records[i].frame == f && records[i].accepted
  }

  predicate Increasing(p: seq<nat>) { forall i, j :: 0 <= i < j < |p| ==> p[i] < p[j] }

  /** The log is the accepted frames of the given records, in the order they were assigned. */
  predicate DrawnAt(log: seq<Frame>, records: seq<Assigned>, p: seq<nat>) {
    |p| == |log| && Increasing(p) && forall i :: 0 <= i < |log| ==> IsAt(records, p[i], log[i])
  }

  ghost predicate Subsequence(log: seq<Frame>, records: seq<Assigned>) {
    exists p: seq<nat> :: DrawnAt(log, records, p)
  }

  /** The record of the room's index `i`: as `p` says below the last restart, and one after the other
      from record `k` on since. */
  function PositionOf(p: seq<nat>, k: nat, i: nat): nat { if i < |p| then p[i] else k + (i - |p|) }

  predicate LogDrawn(log: seq<Frame>, records: seq<Assigned>, p: seq<nat>, k: nat) {
    && |p| <= |log| && k <= |records| && Increasing(p) && (forall i :: 0 <= i < |p| ==> p[i] < k)
    && (forall i :: 0 <= i < |log| ==> IsAt(records, PositionOf(p, k, i), log[i]))
  }

  /** A persist of the room is stale, or of the record of its index. */
  predicate ActionDrawn(a: RoomAction, log: seq<Frame>, records: seq<Assigned>, p: seq<nat>, k: nat, room: nat) {
    a.PersistFrame? && a.roomId == room && a.logIndex >= |log| ==> IsAt(records, PositionOf(p, k, a.logIndex), a.frame)
  }

  predicate BatchDrawn(batch: Batch, log: seq<Frame>, records: seq<Assigned>, p: seq<nat>, k: nat, room: nat) {
    forall a <- batch :: ActionDrawn(a, log, records, p, k, room)
  }

  predicate Drawn(s: Server, room: nat, p: seq<nat>, k: nat) {
    var log, records := LogOf(s, room), AssignedIn(s, room);
    && LogDrawn(log, records, p, k)
    && (if room in s.manager.next then s.manager.next[room] else |log|) == |p| + (|records| - k)
    && (forall batch <- s.outstanding :: BatchDrawn(batch, log, records, p, k, room))
  }

  ghost predicate Recovered(s: Server, room: nat) { exists p, k :: Drawn(s, room, p, k) }

  lemma BatchStaysDrawn(batch: Batch, log: seq<Frame>, log': seq<Frame>, records: seq<Assigned>,
                        records': seq<Assigned>, p: seq<nat>, k: nat, room: nat)
    requires BatchDrawn(batch, log, records, p, k, room) && log <= log' && records <= records'
    ensures BatchDrawn(batch, log', records', p, k, room)
  {
    forall a | a in batch ensures ActionDrawn(a, log', records', p, k, room) {
      assert ActionDrawn(a, log, records, p, k, room);
    }
  }

  lemma {:induction false} ExecutedDrawn(st: Store, batch: Batch, fails: seq<bool>, records: seq<Assigned>,
                                         p: seq<nat>, k: nat, room: nat)
    requires LogDrawn(Log(st, room), records, p, k) && BatchDrawn(batch, Log(st, room), records, p, k, room)
    ensures LogDrawn(Log(ExecutedAll(st, batch, fails), room), records, p, k)
    decreases |batch|
  {
    if batch != [] && !Stops(batch[0]) {
      var st' := if fails != [] && fails[0] then st else Executed(st, batch[0]);
      ExecutedAppends(st, batch[0], room);
      assert ActionDrawn(batch[0], Log(st, room), records, p, k, room);
      BatchStaysDrawn(batch[1..], Log(st, room), Log(st', room), records, records, p, k, room);
      ExecutedDrawn(st', batch[1..], if fails == [] then [] else fails[1..], records, p, k, room);
    }
  }

  lemma LogWithin(log: seq<Frame>, records: seq<Assigned>, p: seq<nat>, k: nat)
    requires LogDrawn(log, records, p, k)
    ensures |log| <= |p| + (|records| - k)
  {
    if |log| > |p| { assert IsAt(records, PositionOf(p, k, |log| - 1), log[|log| - 1]); }
  }

  /** The counter of a room without one reads off a log that cannot grow: nothing fresh is outstanding. */
  lemma ExecuteKeepsDrawn(s: Server, s': Server, k: nat, fails: seq<bool>, room: nat, p: seq<nat>, n: nat)
    requires Drawn(s, room, p, n) && k < |s.outstanding|
    requires s' == s.(store := ExecutedAll(s.store, s.outstanding[k], fails),
                      outstanding := s.outstanding[..k] + s.outstanding[k + 1..])
    ensures Drawn(s', room, p, n)
  {
    var records := AssignedIn(s, room);
    assert BatchDrawn(s.outstanding[k], LogOf(s, room), records, p, n, room);
    ExecutedDrawn(s.store, s.outstanding[k], fails, records, p, n, room);
    ExecutedAllAppends(s.store, s.outstanding[k], fails, room);
    forall batch | batch in s'.outstanding ensures BatchDrawn(batch, LogOf(s', room), records, p, n, room) {
      assert BatchDrawn(batch, LogOf(s, room), records, p, n, room);
      BatchStaysDrawn(batch, LogOf(s, room), LogOf(s', room), records, records, p, n, room);
    }
    LogWithin(LogOf(s', room), records, p, n);
  }

  lemma TookIndexKeepsDrawn(s: Server, s': Server, q: nat, i: nat, a: Assigned, batch: Option<Batch>,
                            room: nat, p: seq<nat>, k: nat)
    requires Drawn(s, room, p, k) && TookIndex(s, s', q, i, a, batch)
    ensures Drawn(s', room, p, k)
  {
    var log, records, records' := LogOf(s, room), AssignedIn(s, room), AssignedIn(s', room);
    forall b | b in s'.outstanding ensures BatchDrawn(b, log, records', p, k, room) {
      if b in s.outstanding {
        assert BatchDrawn(b, log, records, p, k, room);
        BatchStaysDrawn(b, log, log, records, records', p, k, room);
      }
    }
    forall j | 0 <= j < |log| ensures IsAt(records', PositionOf(p, k, j), log[j]) {
      assert IsAt(records, PositionOf(p, k, j), log[j]);
    }
  }

  lemma TookNoneKeepsDrawn(s: Server, s': Server, q: nat, room: nat, p: seq<nat>, k: nat)
    requires Drawn(s, room, p, k) && TookNone(s, s', q)
    ensures Drawn(s', room, p, k)
  {
  }

  /** Nothing outstanding can still be stored. */
  predicate Settled(s: Server) {
    forall batch <- s.outstanding, a <- batch :: a.PersistFrame? ==> a.logIndex < |LogOf(s, a.roomId)|
  }

  /** The log so far becomes the part below the restart. */
  lemma RestartKeepsRecovered(ed: Ed25519, s: Server, room: nat, p: seq<nat>, k: nat)
    requires Drawn(s, room, p, k) && Settled(s)
    ensures Recovered(Step(ed, s, NewSequencer), room)
  {
    var s', log, records := Step(ed, s, NewSequencer), LogOf(s, room), AssignedIn(s, room);
    var p' := seq(|log|, i requires 0 <= i < |log| => PositionOf(p, k, i));
    forall i | 0 <= i < |log| ensures p'[i] < |records| && IsAt(records, PositionOf(p', |records|, i), log[i]) {
      assert IsAt(records, PositionOf(p, k, i), log[i]);
    }
    assert LogDrawn(log, records, p', |records|);
    forall batch | batch in s'.outstanding ensures BatchDrawn(batch, log, records, p', |records|, room) {
      forall a | a in batch ensures ActionDrawn(a, log, records, p', |records|, room) {}
    }
    assert Drawn(s', room, p', |records|);
  }

  lemma StepKeepsRecovered(ed: Ed25519, s: Server, e: Event, room: nat)
    requires Recovered(s, room) && (e.NewSequencer? ==> Settled(s))
    ensures Recovered(Step(ed, s, e), room)
  {
    var p, k :| Drawn(s, room, p, k);
    var s' := Step(ed, s, e);
    if e.Receive? && TakesIndex(ed, s.manager, s.store, e.frame, e.faults) {
      ReceivedWithIndex(ed, s, e.frame, e.faults, e.outcome);
      TookIndexKeepsDrawn(s, s', RoomId(e.frame), NextOf(s.manager, s.store, RoomId(e.frame)),
                          RecordOf(ed, s, e.frame, e.faults, e.outcome),
                          BatchOf(ed, s, e.frame, e.faults, e.outcome), room, p, k);
    } else if e.Receive? {
      ReceivedWithoutIndex(ed, s, e.frame, e.faults, e.outcome);
      TookNoneKeepsDrawn(s, s', RoomId(e.frame), room, p, k);
    } else if e.Execute? && e.batch < |s.outstanding| {
      ExecuteKeepsDrawn(s, s', e.batch, e.fails, room, p, k);
    } else if e.NewSequencer? {
      RestartKeepsRecovered(ed, s, room, p, k);
    } else {
      assert Drawn(s', room, p, k);
    }
  }

  /** Every new sequencer of the run starts with nothing outstanding that can still be stored. */
  predicate RestartsSettled(ed: Ed25519, s: Server, es: seq<Event>)
    decreases |es|
  {
    es != [] ==> (es[0].NewSequencer? ==> Settled(s)) && RestartsSettled(ed, Step(ed, s, es[0]), es[1..])
  }

  lemma {:induction false} RunKeepsRecovered(ed: Ed25519, s: Server, es: seq<Event>, room: nat)
    requires Recovered(s, room) && RestartsSettled(ed, s, es)
    ensures Recovered(Run(ed, s, es), room)
    decreases |es|
  {
    if es != [] {
      StepKeepsRecovered(ed, s, es[0], room);
      RunKeepsRecovered(ed, Step(ed, s, es[0]), es[1..], room);
    }
  }

  lemma DrawnIsSubsequence(log: seq<Frame>, records: seq<Assigned>, p: seq<nat>, k: nat)
    requires LogDrawn(log, records, p, k)
    ensures Subsequence(log, records)
  {
    var q: seq<nat> := seq(|log|, i requires 0 <= i < |log| => PositionOf(p, k, i));
    assert DrawnAt(log, records, q);
  }

  /** In every run whose new sequencers start settled, dropped and rejected frames notwithstanding, the
      log is a subsequence of the accepted frames in the order their indices were handed out. */
  lemma RecoveredLogIsSubsequence(ed: Ed25519, mls: map<nat, MlsGroupState>, es: seq<Event>, room: nat)
    requires RestartsSettled(ed, Start(mls), es)
    ensures var s := Run(ed, Start(mls), es); Subsequence(LogOf(s, room), AssignedIn(s, room))
  {
    assert Drawn(Start(mls), room, [], 0);
    RunKeepsRecovered(ed, Start(mls), es, room);
    var s := Run(ed, Start(mls), es);
    var p, k :| Drawn(s, room, p, k);
    DrawnIsSubsequence(LogOf(s, room), AssignedIn(s, room), p, k);
  }

  /** A new sequencer that starts caught up, as the order requires, starts settled. */
  lemma CaughtUpIsSettled(s: Server)
    requires Ordered(s) && CaughtUp(s)
    ensures Settled(s)
  {
    forall batch, a | batch in s.outstanding && a in batch && a.PersistFrame?
      ensures a.logIndex < |LogOf(s, a.roomId)|
    {
      assert BatchKnown(s.history, batch) && Known(s.history, a);
      assert |LogOf(s, a.roomId)| == |AssignedIn(s, a.roomId)|;
    }
  }
}
