/** The server ordering pipeline as a step system. Processing a frame and executing the actions it
    yields take the driver lock separately (crates/lockframe-server/src/lib.rs, `handle_stream`), so
    batches of different streams run in any order, and any store may fail. */
module Pipeline {
  import opened Wrappers
  import opened Bytes
  import opened Frames
  import opened Validator
  import opened Storage
  import S = Sequencer
  import opened RoomManager

  /** History: one index handed out, with what the frame was checked against. */
  datatype Assigned = Assigned(frame: Frame, mls: Option<MlsGroupState>, groupEpoch: nat,
                               accepted: bool, advanced: bool)

  type Batch = seq<RoomAction>

  type History = map<nat, seq<Assigned>>

  /** `outstanding` holds the batches not yet executed; `history` records the indices handed out. */
  datatype Server = Server(manager: Manager, store: Store, outstanding: seq<Batch>,
                           history: History)

  datatype Event =
    | CreateRoom(room: nat, creator: nat, key: seq<byte>)
    | PrepareCommit(room: nat)
    | Receive(frame: Frame, faults: Faults, outcome: CommitOutcome)
    | Execute(batch: nat, fails: seq<bool>)
    | NewSequencer

  /** An empty log in every room; MLS states may have been stored beforehand. */
  function Start(mls: map<nat, MlsGroupState>): Server {
    Server(Manager(map[], map[], map[]), Store(map[], mls), [], map[])
  }

  function RecordsIn(history: History, room: nat): seq<Assigned> {
    if room in history then history[room] else []
  }

  function AssignedIn(s: Server, room: nat): seq<Assigned> { RecordsIn(s.history, room) }

  function LogOf(s: Server, room: nat): seq<Frame> { Log(s.store, room) }

  function Executed(st: Store, a: RoomAction): Store {
    match a
    case PersistFrame(room, i, f) => StoreAt(st, room, i, f).0
    case PersistMlsState(room, state) => st.(mls := st.mls[room := state])
    case Broadcast(_, _) => st
    case Reject(_) => st
  }

  /** A broadcast that cannot be encoded ends the action loop. */
  predicate Stops(a: RoomAction) { a.Broadcast? && Encode(a.frame).Err? }

  /** `execute_actions`: storage failures are logged and the loop goes on. `fails[k]` is a refusal by
      storage of action `k`, leaving it unchanged. */
  function ExecutedAll(st: Store, batch: Batch, fails: seq<bool>): Store
    decreases |batch|
  {
    if batch == [] || Stops(batch[0]) then st
    else
      var st' := if fails != [] && fails[0] then st else Executed(st, batch[0]);
      ExecutedAll(st', batch[1..], if fails == [] then [] else fails[1..])
  }

  /** The action loop, storage refusing what `fails` says. */
  method ExecuteActions(storage: MemoryStorage, batch: Batch, fails: seq<bool>)
    modifies storage
    ensures storage.View() == ExecutedAll(old(storage.View()), batch, fails)
  {
    var left, answers := batch, fails;
    while left != []
      invariant ExecutedAll(storage.View(), left, answers) == ExecutedAll(old(storage.View()), batch, fails)
      decreases |left|
    {
      if Stops(left[0]) { break; }
      var refused := answers != [] && answers[0];
      if !refused {
        match left[0] {
          case PersistFrame(room, i, f) => var _ := storage.StoreFrame(room, i, f);
          case PersistMlsState(room, state) => storage.StoreMlsState(room, state);
          case Broadcast(_, _) =>
          case Reject(_) =>
        }
      }
      left, answers := left[1..], if answers == [] then [] else answers[1..];
    }
  }

  /** The record kept for a frame that takes an index. */
  function RecordOf(ed: Ed25519, s: Server, f: Frame, faults: Faults, outcome: CommitOutcome): Assigned
    requires TakesIndex(ed, s.manager, s.store, f, faults)
  {
    var (m', r) := Process(ed, s.manager, s.store, f, faults, outcome);
    var group := s.manager.groups[RoomId(f)];
    Assigned(S.WithIndex(f, NextOf(s.manager, s.store, RoomId(f))), Get(s.store.mls, RoomId(f)), group.epoch,
             r.Ok?, RoomId(f) in m'.groups && m'.groups[RoomId(f)].epoch != group.epoch)
  }

  function Received(ed: Ed25519, s: Server, f: Frame, faults: Faults, outcome: CommitOutcome): Server {
    var (m', r) := Process(ed, s.manager, s.store, f, faults, outcome);
    Server(m', s.store,
           if r.Ok? then s.outstanding + [r.value] else s.outstanding,
           if TakesIndex(ed, s.manager, s.store, f, faults)
           then s.history[RoomId(f) := AssignedIn(s, RoomId(f)) + [RecordOf(ed, s, f, faults, outcome)]]
           else s.history)
  }

  function Step(ed: Ed25519, s: Server, e: Event): Server {
    match e
    case CreateRoom(room, creator, key) => s.(manager := Created(s.manager, room, creator, key))
    case PrepareCommit(room) =>
      if room in s.manager.groups
      then s.(manager := s.manager.(groups := s.manager.groups[room := s.manager.groups[room].(pending := true)]))
      else s
    case Receive(f, faults, outcome) => Received(ed, s, f, faults, outcome)
    case Execute(k, fails) =>
      if k < |s.outstanding|
      then s.(store := ExecutedAll(s.store, s.outstanding[k], fails),
              outstanding := s.outstanding[..k] + s.outstanding[k + 1..])
      else s
    case NewSequencer => s.(manager := s.manager.(next := map[]))
  }

  function Run(ed: Ed25519, s: Server, es: seq<Event>): Server
    decreases |es|
  {
    if es == [] then s else Run(ed, Step(ed, s, es[0]), es[1..])
  }

  predicate OneSequencer(es: seq<Event>) { forall e <- es :: !e.NewSequencer? }

  // ---------------------------------------------------------------------------------------------
  // What receiving a frame does

  predicate PersistsOnly(batch: Batch, room: nat, i: nat, f: Frame) {
    forall a <- batch :: a.PersistFrame? ==> a == PersistFrame(room, i, f)
  }

  /** The batch of an accepted frame: the same persist twice, a broadcast, and for a Commit the MLS
      state. */
  predicate Carries(batch: Batch, room: nat, i: nat, f: Frame) {
    && |batch| >= 3 && batch[0] == batch[1] == PersistFrame(room, i, f) && batch[2] == Broadcast(room, f)
    && (|batch| == 3 || (|batch| == 4 && batch[3].PersistMlsState?))
  }

  lemma CarriesPersistsOnly(batch: Batch, room: nat, i: nat, f: Frame)
    requires Carries(batch, room, i, f)
    ensures PersistsOnly(batch, room, i, f)
  {
    assert batch == if |batch| == 3 then [batch[0], batch[1], batch[2]] else [batch[0], batch[1], batch[2], batch[3]];
  }

  /** Index `i` of `room` was handed out: one more record; the counter moved past it; and, if the
      frame was accepted, one more batch, which persists that frame at `i` and no other frame. */
  predicate TookIndex(s: Server, s': Server, room: nat, i: nat, a: Assigned, batch: Option<Batch>) {
    && i == NextOf(s.manager, s.store, room) < U64_MAX
    && s'.store == s.store
    && s'.manager.next == s.manager.next[room := i + 1]
    && s'.history == s.history[room := AssignedIn(s, room) + [a]]
    && RoomId(a.frame) == room && LogIndex(a.frame) == i
    && a.accepted == batch.Some?
    && s'.outstanding == s.outstanding + (if batch.Some? then [batch.value] else [])
    && (batch.Some? ==> Carries(batch.value, room, i, a.frame) && PersistsOnly(batch.value, room, i, a.frame))
  }

  /** Nothing was handed out: at most a broadcast is outstanding, and the counter stands. */
  ghost predicate TookNone(s: Server, s': Server, room: nat) {
    && s'.store == s.store && s'.history == s.history
    && s'.manager.groups == s.manager.groups && s'.manager.creators == s.manager.creators
    && (s'.manager.next == s.manager.next
        || s'.manager.next == s.manager.next[room := NextOf(s.manager, s.store, room)])
    && (s'.outstanding == s.outstanding
        || exists f :: s'.outstanding == s.outstanding + [[Broadcast(room, f)]])
  }

  function BatchOf(ed: Ed25519, s: Server, f: Frame, faults: Faults, outcome: CommitOutcome): Option<Batch> {
    match Process(ed, s.manager, s.store, f, faults, outcome).1
    case Ok(batch) => Some(batch)
    case Err(_) => None
  }

  lemma ReceivedWithIndex(ed: Ed25519, s: Server, f: Frame, faults: Faults, outcome: CommitOutcome)
    requires TakesIndex(ed, s.manager, s.store, f, faults)
    ensures var i := NextOf(s.manager, s.store, RoomId(f));
            TookIndex(s, Received(ed, s, f, faults, outcome), RoomId(f), i, RecordOf(ed, s, f, faults, outcome),
                      BatchOf(ed, s, f, faults, outcome))
  {
    var room, i := RoomId(f), NextOf(s.manager, s.store, RoomId(f));
    ProcessWithIndex(ed, s.manager, s.store, f, faults, outcome);
    S.WithIndexChangesOnlyContext(f, i);
    S.WithIndexReadsBack(f, i);
    var batch := BatchOf(ed, s, f, faults, outcome);
    if batch.Some? { CarriesPersistsOnly(batch.value, room, i, S.WithIndex(f, i)); }
  }

  lemma ReceivedWithoutIndex(ed: Ed25519, s: Server, f: Frame, faults: Faults, outcome: CommitOutcome)
    requires !TakesIndex(ed, s.manager, s.store, f, faults)
    ensures TookNone(s, Received(ed, s, f, faults, outcome), RoomId(f))
  {
    NoIndexNoPersist(ed, s.manager, s.store, f, faults, outcome);
  }

  // ---------------------------------------------------------------------------------------------
  // Logs only grow by appending, in every run

  lemma ExecutedAppends(st: Store, a: RoomAction, room: nat)
    ensures var st' := Executed(st, a);
            Log(st', room) == Log(st, room) +
              (if a.PersistFrame? && a.roomId == room && a.logIndex == |Log(st, room)| then [a.frame] else [])
  {
  }

  lemma {:induction false} ExecutedAllAppends(st: Store, batch: Batch, fails: seq<bool>, room: nat)
    ensures Log(st, room) <= Log(ExecutedAll(st, batch, fails), room)
    decreases |batch|
  {
    if batch != [] {
      var st' := if fails != [] && fails[0] then st else Executed(st, batch[0]);
      ExecutedAppends(st, batch[0], room);
      ExecutedAllAppends(st', batch[1..], if fails == [] then [] else fails[1..], room);
    }
  }

  lemma {:induction false} ExecutedWithoutPersist(st: Store, batch: Batch, fails: seq<bool>, q: nat)
    requires forall a <- batch :: !a.PersistFrame?
    ensures Log(ExecutedAll(st, batch, fails), q) == Log(st, q)
    decreases |batch|
  {
    if batch != [] {
      ExecutedAppends(st, batch[0], q);
      var st' := if fails != [] && fails[0] then st else Executed(st, batch[0]);
      ExecutedWithoutPersist(st', batch[1..], if fails == [] then [] else fails[1..], q);
    }
  }

  predicate RefusedAt(fails: seq<bool>, k: nat) { k < |fails| && fails[k] }

  /** Executing the batch of an accepted frame stores it once, if its index is the log's length and
      storage takes at least one of the two persists; other rooms are untouched. */
  lemma ExecutedCarrying(st: Store, batch: Batch, fails: seq<bool>, room: nat, i: nat, f: Frame, q: nat)
    requires Carries(batch, room, i, f)
    ensures Log(ExecutedAll(st, batch, fails), q)
            == Log(st, q) + (if q == room && i == |Log(st, q)| && !(RefusedAt(fails, 0) && RefusedAt(fails, 1))
                             then [f] else [])
  {
    var fails1 := if fails == [] then [] else fails[1..];
    var fails2 := if fails1 == [] then [] else fails1[1..];
    var st1 := if RefusedAt(fails, 0) then st else Executed(st, batch[0]);
    var st2 := if RefusedAt(fails, 1) then st1 else Executed(st1, batch[1]);
    assert ExecutedAll(st, batch, fails) == ExecutedAll(st1, batch[1..], fails1);
    assert batch[1..][1..] == batch[2..];
    assert ExecutedAll(st1, batch[1..], fails1) == ExecutedAll(st2, batch[2..], fails2);
    ExecutedAppends(st, batch[0], q);
    ExecutedAppends(st1, batch[1], q);
    ExecutedWithoutPersist(st2, batch[2..], fails2, q);
  }

  /** From any state, along any run, failures and new sequencers included, a stored entry is never
      changed, moved or dropped. */
  lemma {:induction false} AppendOnly(ed: Ed25519, s: Server, es: seq<Event>, room: nat)
    ensures LogOf(s, room) <= LogOf(Run(ed, s, es), room)
    decreases |es|
  {
    if es != [] {
      if es[0].Execute? && es[0].batch < |s.outstanding| {
        ExecutedAllAppends(s.store, s.outstanding[es[0].batch], es[0].fails, room);
      }
      AppendOnly(ed, Step(ed, s, es[0]), es[1..], room);
    }
  }

  // ---------------------------------------------------------------------------------------------
  // Entries carry their own index and room, in every run

  predicate WellPlaced(a: RoomAction) {
    a.PersistFrame? ==> RoomId(a.frame) == a.roomId && LogIndex(a.frame) == a.logIndex
  }

  predicate PlacedLog(log: seq<Frame>, room: nat) {
    forall i :: 0 <= i < |log| ==> RoomId(log[i]) == room && LogIndex(log[i]) == i
  }

  ghost predicate PlacedStore(st: Store) { forall room :: PlacedLog(Log(st, room), room) }

  predicate PlacedBatch(batch: Batch) { forall a <- batch :: WellPlaced(a) }

  ghost predicate Placed(s: Server) {
    PlacedStore(s.store) && forall batch <- s.outstanding :: PlacedBatch(batch)
  }

  lemma ExecutedPlaced(st: Store, a: RoomAction)
    requires PlacedStore(st) && WellPlaced(a)
    ensures PlacedStore(Executed(st, a))
  {
    forall room ensures PlacedLog(Log(Executed(st, a), room), room) {
      ExecutedAppends(st, a, room);
      assert PlacedLog(Log(st, room), room);
    }
  }

  lemma {:induction false} ExecutedAllPlaced(st: Store, batch: Batch, fails: seq<bool>)
    requires PlacedStore(st) && PlacedBatch(batch)
    ensures PlacedStore(ExecutedAll(st, batch, fails))
    decreases |batch|
  {
    if batch != [] {
      assert WellPlaced(batch[0]);
      ExecutedPlaced(st, batch[0]);
      var st' := if fails != [] && fails[0] then st else Executed(st, batch[0]);
      ExecutedAllPlaced(st', batch[1..], if fails == [] then [] else fails[1..]);
    }
  }

  lemma TookIndexPlaced(s: Server, s': Server, room: nat, i: nat, a: Assigned, batch: Option<Batch>)
    requires Placed(s) && TookIndex(s, s', room, i, a, batch)
    ensures Placed(s')
  {
  }

  lemma StepKeepsPlaced(ed: Ed25519, s: Server, e: Event)
    requires Placed(s)
    ensures Placed(Step(ed, s, e))
  {
    if e.Receive? && TakesIndex(ed, s.manager, s.store, e.frame, e.faults) {
      ReceivedWithIndex(ed, s, e.frame, e.faults, e.outcome);
      TookIndexPlaced(s, Step(ed, s, e), RoomId(e.frame), NextOf(s.manager, s.store, RoomId(e.frame)),
                      RecordOf(ed, s, e.frame, e.faults, e.outcome), BatchOf(ed, s, e.frame, e.faults, e.outcome));
    } else if e.Receive? {
      ReceivedWithoutIndex(ed, s, e.frame, e.faults, e.outcome);
    } else if e.Execute? && e.batch < |s.outstanding| {
      ExecutedAllPlaced(s.store, s.outstanding[e.batch], e.fails);
    }
  }

  lemma {:induction false} RunKeepsPlaced(ed: Ed25519, s: Server, es: seq<Event>)
    requires Placed(s)
    ensures Placed(Run(ed, s, es))
    decreases |es|
  {
    if es != [] {
      StepKeepsPlaced(ed, s, es[0]);
      RunKeepsPlaced(ed, Step(ed, s, es[0]), es[1..]);
    }
  }

  /** In every run from empty logs, new sequencers included, entry `i` of a room's log carries log
      index `i` and that room's id. */
  lemma EntriesCarryTheirPlace(ed: Ed25519, mls: map<nat, MlsGroupState>, es: seq<Event>, room: nat)
    ensures PlacedLog(LogOf(Run(ed, Start(mls), es), room), room)
  {
    RunKeepsPlaced(ed, Start(mls), es);
  }
}
