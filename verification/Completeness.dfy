/** When nothing is lost: exactly which steps keep every frame that was given an index either stored
    or still to be stored. */
module Completeness {
  import opened Wrappers
  import opened Frames
  import opened Validator
  import opened Storage
  import opened RoomManager
  import opened Pipeline
  import opened TotalOrder
  import opened Queues

  function FramesIn(records: seq<Assigned>): seq<Frame> {
    seq(|records|, i requires 0 <= i < |records| => records[i].frame)
  }

  /** The frame a batch is to store in a room, if any. */
  function Carried(batch: Batch, room: nat): seq<Frame> {
    if batch != [] && batch[0].PersistFrame? && batch[0].roomId == room then [batch[0].frame] else []
  }

  function Queue(batches: seq<Batch>, room: nat): seq<Frame> {
    Gather(batches, batch => Carried(batch, room))
  }

  /** A batch is that of an accepted frame, or persists nothing. */
  predicate Shaped(batch: Batch) {
    if batch != [] && batch[0].PersistFrame?
    then Carries(batch, batch[0].roomId, batch[0].logIndex, batch[0].frame)
    else forall a <- batch :: !a.PersistFrame?
  }

  predicate AllShaped(s: Server) { forall batch <- s.outstanding :: Shaped(batch) }

  /** Log and outstanding batches, in order, are all the frames that were given an index. */
  predicate RoomComplete(s: Server, room: nat) {
    LogOf(s, room) + Queue(s.outstanding, room) == FramesIn(AssignedIn(s, room))
  }

  ghost predicate Complete(s: Server) { forall room :: RoomComplete(s, room) }

  /** How many frames of a room were given an index and are neither stored nor outstanding. */
  function Owed(s: Server, room: nat): int {
    |AssignedIn(s, room)| - |LogOf(s, room)| - |Queue(s.outstanding, room)|
  }

  ghost predicate Short(s: Server) { exists room :: Owed(s, room) > 0 }

  lemma ShortIsIncomplete(s: Server)
    requires Short(s)
    ensures !Complete(s)
  {
    var room :| Owed(s, room) > 0;
    assert !RoomComplete(s, room);
  }

  lemma QueueOneMore(batches: seq<Batch>, batch: Batch, room: nat)
    ensures Queue(batches + [batch], room) == Queue(batches, room) + Carried(batch, room)
  {
    GatherOneMore(batches, batch, b => Carried(b, room));
  }

  /** The queue around batch `k`. */
  lemma QueueAround(batches: seq<Batch>, k: nat, room: nat)
    requires k < |batches|
    ensures Queue(batches, room)
            == Queue(batches[..k], room) + Carried(batches[k], room) + Queue(batches[k + 1..], room)
    ensures Queue(batches[..k] + batches[k + 1..], room) == Queue(batches[..k], room) + Queue(batches[k + 1..], room)
    ensures Carried(batches[k], room) == [] ==> Queue(batches[..k] + batches[k + 1..], room) == Queue(batches, room)
  {
    GatherAround(batches, k, b => Carried(b, room));
  }

  /** The step drops a frame: a late rejection after its index was taken; or a batch executed while
      an earlier batch of its room is outstanding, or with both its persists refused. */
  predicate Loses(ed: Ed25519, s: Server, e: Event) {
    || (e.Receive? && TakesIndex(ed, s.manager, s.store, e.frame, e.faults)
        && FailsLate(ed, s.store, e.frame, e.outcome))
    || (e.Execute? && e.batch < |s.outstanding|
        && var batch := s.outstanding[e.batch];
           batch != [] && batch[0].PersistFrame?
           && (Queue(s.outstanding[..e.batch], batch[0].roomId) != []
               || (RefusedAt(e.fails, 0) && RefusedAt(e.fails, 1))))
  }

  /** An outstanding frame's index is the length of the log and the queue before it. */
  lemma IndexIsPosition(s: Server, k: nat)
    requires Ordered(s) && AllShaped(s) && Complete(s) && k < |s.outstanding|
    requires s.outstanding[k] != [] && s.outstanding[k][0].PersistFrame?
    ensures var a := s.outstanding[k][0];
            a.logIndex == |LogOf(s, a.roomId)| + |Queue(s.outstanding[..k], a.roomId)|
  {
    var a := s.outstanding[k][0];
    var records := AssignedIn(s, a.roomId);
    assert BatchKnown(s.history, s.outstanding[k]) && Known(s.history, a);
    assert RoomOrdered(s, a.roomId) && RoomComplete(s, a.roomId);
    QueueAround(s.outstanding, k, a.roomId);
    var position := |LogOf(s, a.roomId)| + |Queue(s.outstanding[..k], a.roomId)|;
    assert FramesIn(records)[position] == a.frame;
    assert LogIndex(records[position].frame) == position;
  }

  /** Taking the middle out of the queue and perhaps appending it to the log. */
  lemma MovedOrDropped(log: seq<Frame>, before: seq<Frame>, f: Frame, after: seq<Frame>, all: seq<Frame>, moved: bool)
    requires log + (before + [f] + after) == all && (moved ==> before == [])
    ensures (log + (if moved then [f] else [])) + (before + after) == all <==> moved
  {
    assert |log| + |before| + 1 + |after| == |all|;
    if moved { assert (log + [f]) + (before + after) == log + (before + [f] + after); }
  }

  /** The room's log and queue after batch `k`, which carries a frame, is executed. */
  lemma ExecuteMoves(s: Server, s': Server, k: nat, fails: seq<bool>, room: nat)
    requires AllShaped(s) && k < |s.outstanding|
    requires s.outstanding[k] != [] && s.outstanding[k][0].PersistFrame?
    requires s' == s.(store := ExecutedAll(s.store, s.outstanding[k], fails),
                      outstanding := s.outstanding[..k] + s.outstanding[k + 1..])
    ensures var a := s.outstanding[k][0];
            && LogOf(s', room) == LogOf(s, room)
                 + (if room == a.roomId && a.logIndex == |LogOf(s, room)|
                       && !(RefusedAt(fails, 0) && RefusedAt(fails, 1))
                    then [a.frame] else [])
            && Queue(s'.outstanding, room) == Queue(s.outstanding[..k], room) + Queue(s.outstanding[k + 1..], room)
            && Queue(s.outstanding, room)
               == Queue(s.outstanding[..k], room) + (if room == a.roomId then [a.frame] else [])
                  + Queue(s.outstanding[k + 1..], room)
  {
    var a := s.outstanding[k][0];
    assert Shaped(s.outstanding[k]);
    QueueAround(s.outstanding, k, room);
    ExecutedCarrying(s.store, s.outstanding[k], fails, a.roomId, a.logIndex, a.frame, room);
  }

  lemma ExecuteCompleteAt(s: Server, s': Server, k: nat, fails: seq<bool>, room: nat)
    requires Ordered(s) && AllShaped(s) && Complete(s) && k < |s.outstanding|
    requires s.outstanding[k] != [] && s.outstanding[k][0].PersistFrame?
    requires s' == s.(store := ExecutedAll(s.store, s.outstanding[k], fails),
                      outstanding := s.outstanding[..k] + s.outstanding[k + 1..])
    ensures RoomComplete(s', room) <==>
            (room == s.outstanding[k][0].roomId ==> Queue(s.outstanding[..k], room) == []
                                                    && !(RefusedAt(fails, 0) && RefusedAt(fails, 1)))
    ensures !RoomComplete(s', room) ==> Owed(s', room) > 0
  {
    var a := s.outstanding[k][0];
    assert RoomComplete(s, room);
    ExecuteMoves(s, s', k, fails, room);
    if room == a.roomId {
      IndexIsPosition(s, k);
      MovedOrDropped(LogOf(s, room), Queue(s.outstanding[..k], room), a.frame, Queue(s.outstanding[k + 1..], room),
                     FramesIn(AssignedIn(s, room)),
                     Queue(s.outstanding[..k], room) == [] && !(RefusedAt(fails, 0) && RefusedAt(fails, 1)));
    }
  }

  lemma ExecuteCompleteIff(s: Server, s': Server, k: nat, fails: seq<bool>)
    requires Ordered(s) && AllShaped(s) && Complete(s) && k < |s.outstanding|
    requires s.outstanding[k] != [] && s.outstanding[k][0].PersistFrame?
    requires s' == s.(store := ExecutedAll(s.store, s.outstanding[k], fails),
                      outstanding := s.outstanding[..k] + s.outstanding[k + 1..])
    ensures Complete(s') <==> Queue(s.outstanding[..k], s.outstanding[k][0].roomId) == []
                              && !(RefusedAt(fails, 0) && RefusedAt(fails, 1))
    ensures Complete(s') || Short(s')
  {
    forall room { ExecuteCompleteAt(s, s', k, fails, room); }
    assert Complete(s') ==> RoomComplete(s', s.outstanding[k][0].roomId);
  }

  lemma Appended(log: seq<Frame>, queue: seq<Frame>, records: seq<Assigned>, a: Assigned, added: seq<Frame>)
    requires log + queue == FramesIn(records) && (added == [a.frame] || added == [])
    ensures log + (queue + added) == FramesIn(records + [a]) <==> added == [a.frame]
  {
    assert FramesIn(records + [a]) == FramesIn(records) + [a.frame];
    Associative(log, queue, added);
    assert |log + (queue + added)| == |records| + |added|;
  }

  lemma TookIndexCompleteAt(s: Server, s': Server, room: nat, i: nat, a: Assigned, batch: Option<Batch>, q: nat)
    requires RoomComplete(s, q) && TookIndex(s, s', room, i, a, batch)
    ensures RoomComplete(s', q) <==> (q == room ==> a.accepted)
    ensures !RoomComplete(s', q) ==> Owed(s', q) > 0
  {
    if batch.Some? { QueueOneMore(s.outstanding, batch.value, q); }
    assert s.outstanding + [] == s.outstanding;
    if q == room {
      Appended(LogOf(s, q), Queue(s.outstanding, q), AssignedIn(s, q), a, if batch.Some? then [a.frame] else []);
    }
  }

  lemma TookIndexCompleteIff(s: Server, s': Server, room: nat, i: nat, a: Assigned, batch: Option<Batch>)
    requires Complete(s) && TookIndex(s, s', room, i, a, batch)
    ensures Complete(s') <==> a.accepted
    ensures Complete(s') || Short(s')
  {
    forall q
      ensures RoomComplete(s', q) <==> (q == room ==> a.accepted)
      ensures !RoomComplete(s', q) ==> Owed(s', q) > 0
    {
      assert RoomComplete(s, q);
      TookIndexCompleteAt(s, s', room, i, a, batch, q);
    }
    assert Complete(s') ==> RoomComplete(s', room);
  }

  lemma TookNoneComplete(s: Server, s': Server, room: nat)
    requires Complete(s) && TookNone(s, s', room)
    ensures Complete(s')
  {
    forall q ensures RoomComplete(s', q) {
      assert RoomComplete(s, q);
      if s'.outstanding != s.outstanding {
        var batch := s'.outstanding[|s.outstanding|];
        QueueOneMore(s.outstanding, batch, q);
      }
    }
  }

  lemma IdleExecuteKeepsComplete(s: Server, s': Server, k: nat, fails: seq<bool>)
    requires Complete(s) && k < |s.outstanding|
    requires forall a <- s.outstanding[k] :: !a.PersistFrame?
    requires s' == s.(store := ExecutedAll(s.store, s.outstanding[k], fails),
                      outstanding := s.outstanding[..k] + s.outstanding[k + 1..])
    ensures Complete(s')
  {
    forall room ensures RoomComplete(s', room) {
      assert RoomComplete(s, room);
      QueueAround(s.outstanding, k, room);
      ExecutedWithoutPersist(s.store, s.outstanding[k], fails, room);
    }
  }

  lemma ExecuteStepCompleteIff(ed: Ed25519, s: Server, s': Server, e: Event)
    requires Ordered(s) && AllShaped(s) && Complete(s) && e.Execute? && e.batch < |s.outstanding|
    requires s' == s.(store := ExecutedAll(s.store, s.outstanding[e.batch], e.fails),
                      outstanding := s.outstanding[..e.batch] + s.outstanding[e.batch + 1..])
    ensures Complete(s') <==> !Loses(ed, s, e)
    ensures Complete(s') || Short(s')
  {
    var batch := s.outstanding[e.batch];
    assert Shaped(batch);
    if batch != [] && batch[0].PersistFrame? {
      ExecuteCompleteIff(s, s', e.batch, e.fails);
    } else {
      IdleExecuteKeepsComplete(s, s', e.batch, e.fails);
    }
  }

  /** A step keeps everything that was given an index stored or outstanding,
      in order, exactly when it is not one of those that drop a frame. */
  lemma NothingLostIff(ed: Ed25519, s: Server, e: Event)
    requires Ordered(s) && AllShaped(s) && Complete(s)
    ensures Complete(Step(ed, s, e)) <==> !Loses(ed, s, e)
    ensures Complete(Step(ed, s, e)) || Short(Step(ed, s, e))
  {
    var s' := Step(ed, s, e);
    if e.Receive? && TakesIndex(ed, s.manager, s.store, e.frame, e.faults) {
      ReceivedWithIndex(ed, s, e.frame, e.faults, e.outcome);
      ProcessWithIndex(ed, s.manager, s.store, e.frame, e.faults, e.outcome);
      TookIndexCompleteIff(s, s', RoomId(e.frame), NextOf(s.manager, s.store, RoomId(e.frame)),
                           RecordOf(ed, s, e.frame, e.faults, e.outcome),
                           BatchOf(ed, s, e.frame, e.faults, e.outcome));
    } else if e.Receive? {
      ReceivedWithoutIndex(ed, s, e.frame, e.faults, e.outcome);
      TookNoneComplete(s, s', RoomId(e.frame));
    } else if e.Execute? && e.batch < |s.outstanding| {
      ExecuteStepCompleteIff(ed, s, s', e);
    } else {
      forall room ensures RoomComplete(s', room) { assert RoomComplete(s, room); }
    }
  }

  lemma TookIndexKeepsShape(s: Server, s': Server, room: nat, i: nat, a: Assigned, batch: Option<Batch>)
    requires AllShaped(s) && TookIndex(s, s', room, i, a, batch)
    ensures AllShaped(s')
  {
  }

  lemma StepKeepsShape(ed: Ed25519, s: Server, e: Event)
    requires AllShaped(s)
    ensures AllShaped(Step(ed, s, e))
  {
    if e.Receive? && TakesIndex(ed, s.manager, s.store, e.frame, e.faults) {
      ReceivedWithIndex(ed, s, e.frame, e.faults, e.outcome);
      TookIndexKeepsShape(s, Step(ed, s, e), RoomId(e.frame), NextOf(s.manager, s.store, RoomId(e.frame)),
                          RecordOf(ed, s, e.frame, e.faults, e.outcome),
                          BatchOf(ed, s, e.frame, e.faults, e.outcome));
    } else if e.Receive? {
      ReceivedWithoutIndex(ed, s, e.frame, e.faults, e.outcome);
    }
  }

  // ---------------------------------------------------------------------------------------------
  // What is dropped stays dropped

  lemma ExecuteOwes(s: Server, s': Server, k: nat, fails: seq<bool>, room: nat)
    requires AllShaped(s) && k < |s.outstanding|
    requires s' == s.(store := ExecutedAll(s.store, s.outstanding[k], fails),
                      outstanding := s.outstanding[..k] + s.outstanding[k + 1..])
    ensures Owed(s, room) <= Owed(s', room)
  {
    var batch := s.outstanding[k];
    assert Shaped(batch);
    QueueAround(s.outstanding, k, room);
    if batch != [] && batch[0].PersistFrame? {
      ExecutedCarrying(s.store, batch, fails, batch[0].roomId, batch[0].logIndex, batch[0].frame, room);
    } else {
      ExecutedWithoutPersist(s.store, batch, fails, room);
    }
  }

  lemma TookIndexOwes(s: Server, s': Server, room: nat, i: nat, a: Assigned, batch: Option<Batch>, q: nat)
    requires TookIndex(s, s', room, i, a, batch)
    ensures Owed(s, q) <= Owed(s', q)
  {
    if batch.Some? { QueueOneMore(s.outstanding, batch.value, q); }
    assert s.outstanding + [] == s.outstanding;
  }

  lemma TookNoneOwes(s: Server, s': Server, room: nat, q: nat)
    requires TookNone(s, s', room)
    ensures Owed(s, q) == Owed(s', q)
  {
    if s'.outstanding != s.outstanding {
      var batch := s'.outstanding[|s.outstanding|];
      QueueOneMore(s.outstanding, batch, q);
    }
  }

  lemma StepOwes(ed: Ed25519, s: Server, e: Event, room: nat)
    requires AllShaped(s)
    ensures Owed(s, room) <= Owed(Step(ed, s, e), room)
  {
    var s' := Step(ed, s, e);
    if e.Receive? && TakesIndex(ed, s.manager, s.store, e.frame, e.faults) {
      ReceivedWithIndex(ed, s, e.frame, e.faults, e.outcome);
      TookIndexOwes(s, s', RoomId(e.frame), NextOf(s.manager, s.store, RoomId(e.frame)),
                    RecordOf(ed, s, e.frame, e.faults, e.outcome),
                    BatchOf(ed, s, e.frame, e.faults, e.outcome), room);
    } else if e.Receive? {
      ReceivedWithoutIndex(ed, s, e.frame, e.faults, e.outcome);
      TookNoneOwes(s, s', RoomId(e.frame), room);
    } else if e.Execute? && e.batch < |s.outstanding| {
      ExecuteOwes(s, s', e.batch, e.fails, room);
    }
  }

  /** Along any run, new sequencers included, no room's number of dropped frames ever goes down. */
  lemma {:induction false} RunOwes(ed: Ed25519, s: Server, es: seq<Event>, room: nat)
    requires AllShaped(s)
    ensures Owed(s, room) <= Owed(Run(ed, s, es), room)
    decreases |es|
  {
    if es != [] {
      StepOwes(ed, s, es[0], room);
      StepKeepsShape(ed, s, es[0]);
      RunOwes(ed, Step(ed, s, es[0]), es[1..], room);
    }
  }

  predicate LossFree(ed: Ed25519, s: Server, es: seq<Event>)
    decreases |es|
  {
    es != [] ==> !Loses(ed, s, es[0]) && LossFree(ed, Step(ed, s, es[0]), es[1..])
  }

  /** A run whose new sequencers start caught up ends with everything stored or outstanding exactly when no step of it
      dropped a frame. */
  lemma {:induction false} NothingLostInRunIff(ed: Ed25519, s: Server, es: seq<Event>)
    requires Ordered(s) && AllShaped(s) && Complete(s) && RestartsCaughtUp(ed, s, es)
    ensures Complete(Run(ed, s, es)) <==> LossFree(ed, s, es)
    decreases |es|
  {
    if es != [] {
      var s' := Step(ed, s, es[0]);
      NothingLostIff(ed, s, es[0]);
      StepKeepsShape(ed, s, es[0]);
      if Loses(ed, s, es[0]) {
        var room :| Owed(s', room) > 0;
        RunOwes(ed, s', es[1..], room);
        ShortIsIncomplete(Run(ed, s', es[1..]));
      } else {
        if es[0].NewSequencer? { RestartKeepsOrderedIff(ed, s); } else { StepKeepsOrdered(ed, s, es[0]); }
        NothingLostInRunIff(ed, s', es[1..]);
      }
    }
  }

  /** Once such a run has no batch left, each room's log is every frame that was given an index
      there, in that order, and the counter is its length. */
  lemma DrainedLogIsEverything(ed: Ed25519, mls: map<nat, MlsGroupState>, es: seq<Event>, room: nat)
    requires RestartsCaughtUp(ed, Start(mls), es) && LossFree(ed, Start(mls), es)
    requires Run(ed, Start(mls), es).outstanding == []
    ensures var s := Run(ed, Start(mls), es);
            LogOf(s, room) == FramesIn(AssignedIn(s, room)) && NextOf(s.manager, s.store, room) == |LogOf(s, room)|
  {
    var s := Run(ed, Start(mls), es);
    assert forall q :: RoomComplete(Start(mls), q);
    NothingLostInRunIff(ed, Start(mls), es);
    RunKeepsOrdered(ed, Start(mls), es);
    assert RoomComplete(s, room) && RoomOrdered(s, room);
    NextIsCount(s, room);
  }
}
