/** Where stored frames come from, in every run, new sequencers included: each is the accepted frame
    of some index handed out in its room. */
module Provenance {
  import opened Wrappers
  import opened Bytes
  import opened Frames
  import opened Validator
  import opened Storage
  import opened RoomManager
  import opened Pipeline

  predicate Accepted(history: History, room: nat, f: Frame) {
    exists a <- RecordsIn(history, room) :: a.frame == f && a.accepted
  }

  predicate LogSourced(history: History, log: seq<Frame>, room: nat) {
    forall f <- log :: Accepted(history, room, f)
  }

  ghost predicate StoreSourced(history: History, st: Store) {
    forall room :: LogSourced(history, Log(st, room), room)
  }

  predicate ActionSourced(history: History, a: RoomAction) {
    a.PersistFrame? ==> Accepted(history, a.roomId, a.frame)
  }

  predicate BatchSourced(history: History, batch: Batch) { forall a <- batch :: ActionSourced(history, a) }

  /** Records carry their room, and an index that leaves room for the next. */
  predicate Bounded(records: seq<Assigned>, room: nat) {
    forall a <- records :: RoomId(a.frame) == room && LogIndex(a.frame) < U64_MAX
  }

  ghost predicate Sourced(s: Server) {
    && StoreSourced(s.history, s.store)
    && (forall batch <- s.outstanding :: BatchSourced(s.history, batch))
    && (forall room :: Bounded(RecordsIn(s.history, room), room))
  }

  lemma ExecutedSourced(history: History, st: Store, a: RoomAction)
    requires StoreSourced(history, st) && ActionSourced(history, a)
    ensures StoreSourced(history, Executed(st, a))
  {
    forall room ensures LogSourced(history, Log(Executed(st, a), room), room) {
      ExecutedAppends(st, a, room);
      assert LogSourced(history, Log(st, room), room);
    }
  }

  lemma {:induction false} ExecutedAllSourced(history: History, st: Store, batch: Batch, fails: seq<bool>)
    requires StoreSourced(history, st) && BatchSourced(history, batch)
    ensures StoreSourced(history, ExecutedAll(st, batch, fails))
    decreases |batch|
  {
    if batch != [] {
      assert ActionSourced(history, batch[0]);
      ExecutedSourced(history, st, batch[0]);
      var st' := if fails != [] && fails[0] then st else Executed(st, batch[0]);
      ExecutedAllSourced(history, st', batch[1..], if fails == [] then [] else fails[1..]);
    }
  }

  /** One more record loses no earlier one. */
  lemma AcceptedStays(history: History, q: nat, a: Assigned, room: nat, f: Frame)
    requires Accepted(history, room, f)
    ensures Accepted(history[q := RecordsIn(history, q) + [a]], room, f)
  {
    var b :| b in RecordsIn(history, room) && b.frame == f && b.accepted;
    assert b in RecordsIn(history[q := RecordsIn(history, q) + [a]], room);
  }

  lemma HistoryGrowsSourced(history: History, st: Store, q: nat, a: Assigned)
    requires StoreSourced(history, st)
    ensures StoreSourced(history[q := RecordsIn(history, q) + [a]], st)
  {
    forall room, f | f in Log(st, room) ensures Accepted(history[q := RecordsIn(history, q) + [a]], room, f) {
      assert LogSourced(history, Log(st, room), room);
      AcceptedStays(history, q, a, room, f);
    }
  }

  lemma BatchStaysSourced(history: History, batch: Batch, q: nat, a: Assigned)
    requires BatchSourced(history, batch)
    ensures BatchSourced(history[q := RecordsIn(history, q) + [a]], batch)
  {
    forall act | act in batch && act.PersistFrame?
      ensures Accepted(history[q := RecordsIn(history, q) + [a]], act.roomId, act.frame)
    {
      assert ActionSourced(history, act);
      AcceptedStays(history, q, a, act.roomId, act.frame);
    }
  }

  lemma TookIndexSourced(s: Server, s': Server, room: nat, i: nat, a: Assigned, batch: Option<Batch>)
    requires Sourced(s) && TookIndex(s, s', room, i, a, batch)
    ensures Sourced(s')
  {
    HistoryGrowsSourced(s.history, s.store, room, a);
    forall b | b in s'.outstanding ensures BatchSourced(s'.history, b) {
      if b in s.outstanding {
        BatchStaysSourced(s.history, b, room, a);
      } else {
        assert a in RecordsIn(s'.history, room);
      }
    }
    forall q ensures Bounded(RecordsIn(s'.history, q), q) { assert Bounded(RecordsIn(s.history, q), q); }
  }

  lemma StepKeepsSourced(ed: Ed25519, s: Server, e: Event)
    requires Sourced(s)
    ensures Sourced(Step(ed, s, e))
  {
    if e.Receive? && TakesIndex(ed, s.manager, s.store, e.frame, e.faults) {
      ReceivedWithIndex(ed, s, e.frame, e.faults, e.outcome);
      TookIndexSourced(s, Step(ed, s, e), RoomId(e.frame), NextOf(s.manager, s.store, RoomId(e.frame)),
                       RecordOf(ed, s, e.frame, e.faults, e.outcome), BatchOf(ed, s, e.frame, e.faults, e.outcome));
    } else if e.Receive? {
      ReceivedWithoutIndex(ed, s, e.frame, e.faults, e.outcome);
    } else if e.Execute? && e.batch < |s.outstanding| {
      ExecutedAllSourced(s.history, s.store, s.outstanding[e.batch], e.fails);
    }
  }

  lemma {:induction false} RunKeepsSourced(ed: Ed25519, s: Server, es: seq<Event>)
    requires Sourced(s)
    ensures Sourced(Run(ed, s, es))
    decreases |es|
  {
    if es != [] {
      StepKeepsSourced(ed, s, es[0]);
      RunKeepsSourced(ed, Step(ed, s, es[0]), es[1..]);
    }
  }

  /** In every run from empty logs each stored frame is one that was given an index in its room and
      accepted, and no log reaches the last 64-bit index. */
  lemma StoredFramesWereAccepted(ed: Ed25519, mls: map<nat, MlsGroupState>, es: seq<Event>, room: nat)
    ensures var s := Run(ed, Start(mls), es);
            && LogSourced(s.history, LogOf(s, room), room)
            && |LogOf(s, room)| <= U64_MAX
  {
    var s := Run(ed, Start(mls), es);
    RunKeepsSourced(ed, Start(mls), es);
    EntriesCarryTheirPlace(ed, mls, es, room);
    assert LogSourced(s.history, LogOf(s, room), room) && Bounded(RecordsIn(s.history, room), room);
    if LogOf(s, room) != [] {
      var last := LogOf(s, room)[|LogOf(s, room)| - 1];
      assert last in LogOf(s, room) && Accepted(s.history, room, last);
    }
  }
}
