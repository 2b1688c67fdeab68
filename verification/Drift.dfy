/** What a gap between the counter and the log does: an index that was handed out but will never be
    stored stops its room's log for as long as the sequencer lives. */
module Drift {
  import opened Wrappers
  import H = Header
  import opened Frames
  import opened Validator
  import opened Storage
  import opened RoomManager
  import opened Pipeline
  import opened Scenarios

  predicate Names(a: RoomAction, room: nat, i: nat) { a.PersistFrame? && a.roomId == room && a.logIndex == i }

  /** The batch reaches a persist at index `i` of the room. */
  predicate Persists(batch: Batch, room: nat, i: nat)
    decreases |batch|
  {
    batch != [] && !Stops(batch[0]) && (Names(batch[0], room, i) || Persists(batch[1..], room, i))
  }

  predicate Waiting(s: Server, room: nat, i: nat) {
    exists batch <- s.outstanding :: Persists(batch, room, i)
  }

  predicate Behind(s: Server, room: nat) {
    room in s.manager.next && |LogOf(s, room)| < s.manager.next[room]
  }

  /** Index `i` was handed out, is not stored, and nothing outstanding will store it. */
  predicate Blocked(s: Server, room: nat, i: nat) {
    room in s.manager.next && |LogOf(s, room)| <= i < s.manager.next[room] && !Waiting(s, room, i)
  }

  lemma {:induction false} PersistsNamed(batch: Batch, room: nat, i: nat)
    requires Persists(batch, room, i)
    ensures exists a <- batch :: Names(a, room, i)
    decreases |batch|
  {
    if Names(batch[0], room, i) {
      assert batch[0] in batch;
    } else {
      PersistsNamed(batch[1..], room, i);
      var a :| a in batch[1..] && Names(a, room, i);
      assert a in batch;
    }
  }

  /** A batch that reaches no persist at `i` takes no log past `i`. */
  lemma {:induction false} ExecutedAllHeld(st: Store, batch: Batch, fails: seq<bool>, room: nat, i: nat)
    requires !Persists(batch, room, i) && |Log(st, room)| <= i
    ensures |Log(ExecutedAll(st, batch, fails), room)| <= i
    decreases |batch|
  {
    if batch != [] && !Stops(batch[0]) {
      ExecutedAppends(st, batch[0], room);
      var st' := if fails != [] && fails[0] then st else Executed(st, batch[0]);
      ExecutedAllHeld(st', batch[1..], if fails == [] then [] else fails[1..], room, i);
    }
  }

  lemma {:induction false} ExecutedAllGrows(st: Store, batch: Batch, room: nat)
    requires Persists(batch, room, |Log(st, room)|)
    ensures |Log(ExecutedAll(st, batch, []), room)| > |Log(st, room)|
    decreases |batch|
  {
    ExecutedAppends(st, batch[0], room);
    ExecutedAllAppends(Executed(st, batch[0]), batch[1..], [], room);
    if Log(Executed(st, batch[0]), room) == Log(st, room) {
      ExecutedAllGrows(Executed(st, batch[0]), batch[1..], room);
    }
  }

  lemma TookIndexKeepsBlocked(s: Server, s': Server, q: nat, j: nat, a: Assigned, batch: Option<Batch>,
                              room: nat, i: nat)
    requires Blocked(s, room, i) && TookIndex(s, s', q, j, a, batch)
    ensures Blocked(s', room, i)
  {
    if batch.Some? && Persists(batch.value, room, i) { PersistsNamed(batch.value, room, i); }
  }

  lemma TookNoneKeepsBlocked(s: Server, s': Server, q: nat, room: nat, i: nat)
    requires Blocked(s, room, i) && TookNone(s, s', q)
    ensures Blocked(s', room, i)
  {
    if s'.outstanding != s.outstanding {
      var batch := s'.outstanding[|s.outstanding|];
      if Persists(batch, room, i) { PersistsNamed(batch, room, i); }
    }
  }

  lemma StepKeepsBlocked(ed: Ed25519, s: Server, e: Event, room: nat, i: nat)
    requires Blocked(s, room, i) && !e.NewSequencer?
    ensures Blocked(Step(ed, s, e), room, i)
  {
    var s' := Step(ed, s, e);
    if e.Receive? && TakesIndex(ed, s.manager, s.store, e.frame, e.faults) {
      ReceivedWithIndex(ed, s, e.frame, e.faults, e.outcome);
      TookIndexKeepsBlocked(s, s', RoomId(e.frame), NextOf(s.manager, s.store, RoomId(e.frame)),
                            RecordOf(ed, s, e.frame, e.faults, e.outcome),
                            BatchOf(ed, s, e.frame, e.faults, e.outcome), room, i);
    } else if e.Receive? {
      ReceivedWithoutIndex(ed, s, e.frame, e.faults, e.outcome);
      TookNoneKeepsBlocked(s, s', RoomId(e.frame), room, i);
    } else if e.Execute? && e.batch < |s.outstanding| {
      assert !Persists(s.outstanding[e.batch], room, i);
      ExecutedAllHeld(s.store, s.outstanding[e.batch], e.fails, room, i);
    }
  }

  /** A dropped frame is never stored, nor anything after it: as long as the sequencer lives, the log
      never passes the index. */
  lemma {:induction false} DroppedFrameNeverStored(ed: Ed25519, s: Server, es: seq<Event>, room: nat, i: nat)
    requires Blocked(s, room, i) && OneSequencer(es)
    ensures Blocked(Run(ed, s, es), room, i)
    ensures |LogOf(Run(ed, s, es), room)| <= i
    decreases |es|
  {
    if es != [] {
      assert !es[0].NewSequencer?;
      StepKeepsBlocked(ed, s, es[0], room, i);
      DroppedFrameNeverStored(ed, Step(ed, s, es[0]), es[1..], room, i);
    }
  }

  /** With no batch outstanding at the log's next index, no run of the same sequencer ever appends
      to the room again; with one, executing it appends. */
  lemma DriftIsPermanentIff(ed: Ed25519, s: Server, room: nat)
    requires Behind(s, room)
    ensures !Waiting(s, room, |LogOf(s, room)|)
       <==> forall es | OneSequencer(es) :: LogOf(Run(ed, s, es), room) == LogOf(s, room)
  {
    if !Waiting(s, room, |LogOf(s, room)|) {
      forall es | OneSequencer(es) ensures LogOf(Run(ed, s, es), room) == LogOf(s, room) {
        DroppedFrameNeverStored(ed, s, es, room, |LogOf(s, room)|);
        AppendOnly(ed, s, es, room);
      }
    } else {
      var batch :| batch in s.outstanding && Persists(batch, room, |LogOf(s, room)|);
      var k :| 0 <= k < |s.outstanding| && s.outstanding[k] == batch;
      ExecutedAllGrows(s.store, batch, room);
      var es := [Execute(k, [])];
      assert Run(ed, s, es) == Step(ed, s, es[0]);
      assert OneSequencer(es) && LogOf(Run(ed, s, es), room) != LogOf(s, room);
    }
  }

  /** A late rejection blocks its room at the index it took, exactly unless the log is past it already or
      a batch of an earlier sequencer is outstanding there. */
  lemma LateRejectionBlocksIff(ed: Ed25519, s: Server, f: Frame, faults: Faults, outcome: CommitOutcome)
    requires TakesIndex(ed, s.manager, s.store, f, faults) && FailsLate(ed, s.store, f, outcome)
    ensures var room, i := RoomId(f), NextOf(s.manager, s.store, RoomId(f));
            Blocked(Received(ed, s, f, faults, outcome), room, i)
            <==> |LogOf(s, room)| <= i && !Waiting(s, room, i)
  {
    ProcessWithIndex(ed, s.manager, s.store, f, faults, outcome);
  }

  /** A room nobody has used, and a first frame for it that fails a late check. */
  lemma LateRejectionStopsFreshRoom(ed: Ed25519, s: Server, f: Frame, faults: Faults, outcome: CommitOutcome,
                                    es: seq<Event>)
    requires s.outstanding == [] && NextOf(s.manager, s.store, RoomId(f)) == |LogOf(s, RoomId(f))| == 0
    requires OneSequencer(es)
    requires TakesIndex(ed, s.manager, s.store, f, faults) && FailsLate(ed, s.store, f, outcome)
    ensures var s' := Received(ed, s, f, faults, outcome);
            && BatchOf(ed, s, f, faults, outcome).None?
            && NextOf(s'.manager, s'.store, RoomId(f)) == 1
            && LogOf(Run(ed, s', es), RoomId(f)) == []
  {
    LateRejectionBlocksIff(ed, s, f, faults, outcome);
    ProcessWithIndex(ed, s.manager, s.store, f, faults, outcome);
    DroppedFrameNeverStored(ed, Received(ed, s, f, faults, outcome), es, RoomId(f), 0);
  }

  /** An unsigned first message in a fresh room: it is rejected, index 0 is gone, and whatever the
      same sequencer does afterwards, the room's log stays empty. */
  lemma RejectedFrameStopsFreshRoom(es: seq<Event>)
    requires OneSequencer(es)
    ensures var ed, s, f, faults := NobodySigns(), FreshRoom(), Sample(H.APP_MESSAGE, 0), NO_FAULTS;
            var s' := Received(ed, s, f, faults, Refused);
            && BatchOf(ed, s, f, faults, Refused).None?
            && NextOf(s.manager, s.store, 1) == 0 && NextOf(s'.manager, s'.store, 1) == 1
            && LogOf(Run(ed, s', es), 1) == []
  {
    FreshRoomIsReady();
    SampleFields(H.APP_MESSAGE, 0);
    MessageRejectedLate(FreshRoom(), Sample(H.APP_MESSAGE, 0), 0, 0);
    LateRejectionStopsFreshRoom(NobodySigns(), FreshRoom(), Sample(H.APP_MESSAGE, 0), NO_FAULTS, Refused, es);
  }

  lemma FirstExportFails(s: Server, f: Frame)
    requires Ready(s, 0, 0) && At(f, H.COMMIT, 0)
    ensures var s' := Received(NobodySigns(), s, f, NO_FAULTS, Unexported([7]));
            && BatchOf(NobodySigns(), s, f, NO_FAULTS, Unexported([7])).None?
            && EpochOf(s'.manager, 1) == 1 && NextOf(s'.manager, s'.store, 1) == 1
  {
    ExportFails(s, f, 0, 0, [7]);
  }

  /** The first frame of a fresh room, a Commit whose new state cannot be exported: it is rejected, the
      group is at epoch 1 and the next index is 1. */
  lemma RejectedCommitMovesEpochExample()
    ensures var s' := Received(NobodySigns(), FreshRoom(), Sample(H.COMMIT, 0), NO_FAULTS, Unexported([7]));
            && BatchOf(NobodySigns(), FreshRoom(), Sample(H.COMMIT, 0), NO_FAULTS, Unexported([7])).None?
            && EpochOf(s'.manager, 1) == 1 && NextOf(s'.manager, s'.store, 1) == 1
  {
    FreshRoomIsReady();
    SampleFields(H.COMMIT, 0);
    FirstExportFails(FreshRoom(), Sample(H.COMMIT, 0));
  }

  /** A new sequencer counts from the log again, so no room is behind under it. */
  lemma NewSequencerCatchesUp(ed: Ed25519, s: Server, room: nat)
    ensures var s' := Step(ed, s, NewSequencer);
            !Behind(s', room) && NextOf(s'.manager, s'.store, room) == |LogOf(s', room)|
  {
  }
}
