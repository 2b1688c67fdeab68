/** What runs of the pipeline keep, whatever order batches execute in and whichever stores or signature
    checks fail, as long as a new sequencer starts with every log caught up. */
module TotalOrder {
  import opened Wrappers
  import opened Bytes
  import opened Frames
  import opened Validator
  import opened Storage
  import opened RoomManager
  import opened Pipeline

  /** The log is a prefix of the frames in the order their indices were handed out, and every frame
      in it was accepted. */
  predicate Follows(log: seq<Frame>, records: seq<Assigned>) {
    |log| <= |records| && forall i :: 0 <= i < |log| ==> log[i] == records[i].frame && records[i].accepted
  }

  predicate Numbered(records: seq<Assigned>, room: nat) {
    forall i :: 0 <= i < |records| ==> RoomId(records[i].frame) == room && LogIndex(records[i].frame) == i
  }

  predicate RoomOrdered(s: Server, room: nat) {
    var records := AssignedIn(s, room);
    && (if room in s.manager.next then s.manager.next[room] else |LogOf(s, room)|) == |records|
    && |records| <= U64_MAX
    && Numbered(records, room)
    && Follows(LogOf(s, room), records)
  }

  /** An outstanding persist is of an accepted frame, at the index it was given. */
  predicate Known(history: History, a: RoomAction) {
    a.PersistFrame? ==>
      && a.roomId in history && a.logIndex < |history[a.roomId]|
      && history[a.roomId][a.logIndex].frame == a.frame && history[a.roomId][a.logIndex].accepted
  }

  predicate BatchKnown(history: History, batch: Batch) {
    forall a <- batch :: Known(history, a)
  }

  ghost predicate Ordered(s: Server) {
    (forall room :: RoomOrdered(s, room)) && forall batch <- s.outstanding :: BatchKnown(s.history, batch)
  }

  ghost predicate StoreFollows(st: Store, history: History) {
    forall room :: Follows(Log(st, room), RecordsIn(history, room))
  }

  lemma ExecutedFollows(st: Store, a: RoomAction, history: History)
    requires StoreFollows(st, history) && Known(history, a)
    ensures StoreFollows(Executed(st, a), history)
  {
    forall room ensures Follows(Log(Executed(st, a), room), RecordsIn(history, room)) {
      ExecutedAppends(st, a, room);
      assert Follows(Log(st, room), RecordsIn(history, room));
    }
  }

  lemma {:induction false} ExecutedAllFollows(st: Store, batch: Batch, fails: seq<bool>, history: History)
    requires StoreFollows(st, history) && BatchKnown(history, batch)
    ensures StoreFollows(ExecutedAll(st, batch, fails), history)
    decreases |batch|
  {
    if batch != [] {
      assert Known(history, batch[0]);
      ExecutedFollows(st, batch[0], history);
      var st' := if fails != [] && fails[0] then st else Executed(st, batch[0]);
      ExecutedAllFollows(st', batch[1..], if fails == [] then [] else fails[1..], history);
    }
  }

  lemma ExecuteKeepsOrdered(s: Server, s': Server, k: nat, fails: seq<bool>)
    requires Ordered(s) && k < |s.outstanding|
    requires s' == s.(store := ExecutedAll(s.store, s.outstanding[k], fails),
                      outstanding := s.outstanding[..k] + s.outstanding[k + 1..])
    ensures Ordered(s')
  {
    forall room ensures Follows(Log(s.store, room), RecordsIn(s.history, room)) {
      assert RoomOrdered(s, room);
    }
    ExecutedAllFollows(s.store, s.outstanding[k], fails, s.history);
    forall room ensures RoomOrdered(s', room) {
      assert RoomOrdered(s, room);
      assert Follows(Log(s'.store, room), RecordsIn(s.history, room));
      ExecutedAllAppends(s.store, s.outstanding[k], fails, room);
    }
  }

  /** The index handed out is always one past the last one: a room met for the first time reads it
      off a log that must still be empty. */
  lemma NextIsCount(s: Server, room: nat)
    requires RoomOrdered(s, room)
    ensures NextOf(s.manager, s.store, room) == |AssignedIn(s, room)|
  {
  }

  lemma TookIndexKeepsOrdered(s: Server, s': Server, room: nat, i: nat, a: Assigned, batch: Option<Batch>)
    requires Ordered(s) && TookIndex(s, s', room, i, a, batch)
    ensures Ordered(s')
  {
    assert RoomOrdered(s, room);
    NextIsCount(s, room);
    forall r ensures RoomOrdered(s', r) { assert RoomOrdered(s, r); }
    forall b | b in s'.outstanding ensures BatchKnown(s'.history, b) {
      if b in s.outstanding {
        forall act | act in b ensures Known(s'.history, act) { assert Known(s.history, act); }
      }
    }
  }

  lemma TookNoneKeepsOrdered(s: Server, s': Server, room: nat)
    requires Ordered(s) && TookNone(s, s', room)
    ensures Ordered(s')
  {
    assert RoomOrdered(s, room);
    NextIsCount(s, room);
    forall r ensures RoomOrdered(s', r) { assert RoomOrdered(s, r); }
  }

  lemma StepKeepsOrdered(ed: Ed25519, s: Server, e: Event)
    requires Ordered(s) && !e.NewSequencer?
    ensures Ordered(Step(ed, s, e))
  {
    var s' := Step(ed, s, e);
    if e.Receive? && TakesIndex(ed, s.manager, s.store, e.frame, e.faults) {
      ReceivedWithIndex(ed, s, e.frame, e.faults, e.outcome);
      TookIndexKeepsOrdered(s, s', RoomId(e.frame), NextOf(s.manager, s.store, RoomId(e.frame)),
                            RecordOf(ed, s, e.frame, e.faults, e.outcome),
                            BatchOf(ed, s, e.frame, e.faults, e.outcome));
    } else if e.Receive? {
      ReceivedWithoutIndex(ed, s, e.frame, e.faults, e.outcome);
      TookNoneKeepsOrdered(s, s', RoomId(e.frame));
    } else if e.Execute? && e.batch < |s.outstanding| {
      ExecuteKeepsOrdered(s, s', e.batch, e.fails);
    } else {
      forall room ensures RoomOrdered(s', room) { assert RoomOrdered(s, room); }
    }
  }

  /** Every frame that was given an index is stored. */
  ghost predicate CaughtUp(s: Server) { forall room :: |LogOf(s, room)| == |AssignedIn(s, room)| }

  /** A new sequencer keeps the order exactly when it starts caught up. */
  lemma RestartKeepsOrderedIff(ed: Ed25519, s: Server)
    requires Ordered(s)
    ensures Ordered(Step(ed, s, NewSequencer)) <==> CaughtUp(s)
  {
    var s' := Step(ed, s, NewSequencer);
    if CaughtUp(s) {
      forall room ensures RoomOrdered(s', room) {
        assert RoomOrdered(s, room) && |LogOf(s, room)| == |AssignedIn(s, room)|;
      }
    } else {
      var room :| |LogOf(s, room)| != |AssignedIn(s, room)|;
      assert !RoomOrdered(s', room);
    }
  }

  /** Every new sequencer of the run starts caught up. */
  ghost predicate RestartsCaughtUp(ed: Ed25519, s: Server, es: seq<Event>)
    decreases |es|
  {
    es != [] ==> (es[0].NewSequencer? ==> CaughtUp(s)) && RestartsCaughtUp(ed, Step(ed, s, es[0]), es[1..])
  }

  lemma {:induction false} RunKeepsOrdered(ed: Ed25519, s: Server, es: seq<Event>)
    requires Ordered(s) && RestartsCaughtUp(ed, s, es)
    ensures Ordered(Run(ed, s, es))
    decreases |es|
  {
    if es != [] {
      if es[0].NewSequencer? { RestartKeepsOrderedIff(ed, s); } else { StepKeepsOrdered(ed, s, es[0]); }
      RunKeepsOrdered(ed, Step(ed, s, es[0]), es[1..]);
    }
  }

  /** Total order in every interleaving. The log is a prefix of the assigned order, holds only
      accepted frames, and never runs past the counter or past a rejected index; every outstanding
      persist lies below the counter. */
  lemma TotalOrderInEveryRun(ed: Ed25519, mls: map<nat, MlsGroupState>, es: seq<Event>, room: nat)
    requires RestartsCaughtUp(ed, Start(mls), es)
    ensures var s := Run(ed, Start(mls), es);
            var records := AssignedIn(s, room);
            && Follows(LogOf(s, room), records)
            && Numbered(records, room)
            && |LogOf(s, room)| <= |records| == NextOf(s.manager, s.store, room) <= U64_MAX
            && (forall k :: 0 <= k < |records| && !records[k].accepted ==> |LogOf(s, room)| <= k)
            && (forall batch <- s.outstanding, a <- batch :: a.PersistFrame? && a.roomId == room
                  ==> a.logIndex < NextOf(s.manager, s.store, room))
  {
    var s := Run(ed, Start(mls), es);
    RunKeepsOrdered(ed, Start(mls), es);
    assert RoomOrdered(s, room);
    NextIsCount(s, room);
    forall batch, a | batch in s.outstanding && a in batch && a.PersistFrame? && a.roomId == room
      ensures a.logIndex < NextOf(s.manager, s.store, room)
    {
      assert BatchKnown(s.history, batch) && Known(s.history, a);
    }
  }
}
