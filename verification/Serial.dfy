/** Runs in which each batch finishes before the next frame and storage answers: there the cached
    counter is only a cache. */
module Serial {
  import opened Wrappers
  import opened Bytes
  import H = Header
  import opened Frames
  import opened Validator
  import opened Storage
  import S = Sequencer
  import opened RoomManager
  import opened Pipeline
  import opened Scenarios

  datatype Request =
    | Submit(frame: Frame, faults: Faults, outcome: CommitOutcome)
    | Create(room: nat, creator: nat, key: seq<byte>)
    | Prepare(room: nat)

  type Reply = Option<Result<Batch, RoomError>>

  /** A request, with the batch it yields executed before anything else happens. */
  function Serve(ed: Ed25519, m: Manager, st: Store, q: Request): (Manager, Store, Reply) {
    match q
    case Submit(f, faults, outcome) =>
      var (m', r) := Process(ed, m, st, f, faults, outcome);
      (m', if r.Ok? then ExecutedAll(st, r.value, []) else st, Some(r))
    case Create(room, creator, key) => (Created(m, room, creator, key), st, None)
    case Prepare(room) =>
      (if room in m.groups then m.(groups := m.groups[room := m.groups[room].(pending := true)]) else m, st, None)
  }

  /** Every cached counter is the length of its room's log. */
  predicate Agrees(m: Manager, st: Store) {
    forall room <- m.next.Keys :: m.next[room] == |Log(st, room)|
  }

  predicate RejectedLate(ed: Ed25519, m: Manager, st: Store, q: Request) {
    q.Submit? && TakesIndex(ed, m, st, q.frame, q.faults) && FailsLate(ed, st, q.frame, q.outcome)
  }

  lemma StoredOnce(st: Store, batch: Batch, room: nat, i: nat, g: Frame)
    requires Carries(batch, room, i, g) && i == |Log(st, room)|
    ensures var st' := ExecutedAll(st, batch, []);
            && Log(st', room) == Log(st, room) + [g]
            && forall other :: other != room ==> Log(st', other) == Log(st, other)
  {
    forall q ensures Log(ExecutedAll(st, batch, []), q) == Log(st, q) + (if q == room then [g] else []) {
      ExecutedCarrying(st, batch, [], room, i, g, q);
    }
  }

  /** Despite two persists, an accepted frame is stored exactly once: its room's log grows by the
      frame at the log's own length, and no other log changes. */
  lemma AcceptedFrameStoredOnce(ed: Ed25519, m: Manager, st: Store, f: Frame, faults: Faults, outcome: CommitOutcome)
    requires Agrees(m, st) && TakesIndex(ed, m, st, f, faults) && !FailsLate(ed, st, f, outcome)
    ensures var (m', st', r) := Serve(ed, m, st, Submit(f, faults, outcome));
            && r.Some? && r.value.Ok?
            && Log(st', RoomId(f)) == Log(st, RoomId(f)) + [S.WithIndex(f, |Log(st, RoomId(f))|)]
            && (forall other :: other != RoomId(f) ==> Log(st', other) == Log(st, other))
            && m'.next == m.next[RoomId(f) := |Log(st', RoomId(f))|]
  {
    ProcessWithIndex(ed, m, st, f, faults, outcome);
    var r := Process(ed, m, st, f, faults, outcome).1;
    StoredOnce(st, r.value, RoomId(f), NextOf(m, st, RoomId(f)), S.WithIndex(f, NextOf(m, st, RoomId(f))));
  }

  /** A frame that takes no index, a refused read included, changes no log. */
  lemma OtherwiseNothingStored(ed: Ed25519, m: Manager, st: Store, f: Frame, faults: Faults, outcome: CommitOutcome)
    requires !TakesIndex(ed, m, st, f, faults)
    ensures Serve(ed, m, st, Submit(f, faults, outcome)).1 == st
  {
    NoIndexNoPersist(ed, m, st, f, faults, outcome);
    var r := Process(ed, m, st, f, faults, outcome).1;
    if r.Ok? {
      assert r.value[1..] == [];
      assert ExecutedAll(st, r.value, []) == ExecutedAll(st, r.value[1..], []);
    }
  }

  lemma LateRejectionMovesCounterOnly(ed: Ed25519, m: Manager, st: Store, f: Frame, faults: Faults,
                                      outcome: CommitOutcome)
    requires TakesIndex(ed, m, st, f, faults) && FailsLate(ed, st, f, outcome)
    ensures var (m', st', r) := Serve(ed, m, st, Submit(f, faults, outcome));
            && r.Some? && r.value.Err? && st' == st
            && m'.next == m.next[RoomId(f) := NextOf(m, st, RoomId(f)) + 1]
  {
    ProcessWithIndex(ed, m, st, f, faults, outcome);
  }

  /** Serving a request, whatever reads are refused, keeps the cache in agreement with storage exactly
      when it is not rejected after taking its index. */
  lemma AgreementKeptIff(ed: Ed25519, m: Manager, st: Store, q: Request)
    requires Agrees(m, st)
    ensures var (m', st', _) := Serve(ed, m, st, q);
            (Agrees(m', st') <==> !RejectedLate(ed, m, st, q))
  {
    if q.Submit? {
      if !TakesIndex(ed, m, st, q.frame, q.faults) {
        NoIndexNoPersist(ed, m, st, q.frame, q.faults, q.outcome);
        OtherwiseNothingStored(ed, m, st, q.frame, q.faults, q.outcome);
      } else if FailsLate(ed, st, q.frame, q.outcome) {
        LateRejectionMovesCounterOnly(ed, m, st, q.frame, q.faults, q.outcome);
        var m' := Serve(ed, m, st, q).0;
        assert RoomId(q.frame) in m'.next.Keys;
      } else {
        AcceptedFrameStoredOnce(ed, m, st, q.frame, q.faults, q.outcome);
      }
    }
  }

  /** The same rooms and groups; the caches may differ. */
  predicate SameRooms(m: Manager, n: Manager) { m.groups == n.groups && m.creators == n.creators }

  lemma SameNext(m: Manager, n: Manager, st: Store, room: nat)
    requires Agrees(m, st) && Agrees(n, st)
    ensures NextOf(m, st, room) == NextOf(n, st, room) == |Log(st, room)|
  {
  }

  lemma FinishIgnoresCache(ed: Ed25519, m: Manager, n: Manager, f: Frame, mls: Option<MlsGroupState>,
                           actions: seq<S.SequencerAction>, outcome: CommitOutcome)
    requires SameRooms(m, n) && RoomId(f) in m.groups
    ensures var (m', r) := Finish(ed, m, f, mls, actions, outcome);
            var (n', t) := Finish(ed, n, f, mls, actions, outcome);
            SameRooms(m', n') && r == t
  {
  }

  /** The frame reaches the counter of its room, the log's last index cannot be read, and one manager has
      the counter cached and the other not. */
  predicate ShowsCache(ed: Ed25519, m: Manager, n: Manager, st: Store, q: Request) {
    && q.Submit? && Admit(ed, m, st, q.frame, q.faults).Ok? && S.ValidateStructure(q.frame).Ok?
    && Opcode(q.frame) != H.WELCOME && q.faults.latest
    && (RoomId(q.frame) in m.next <==> RoomId(q.frame) !in n.next)
  }

  lemma ProcessIgnoresCache(ed: Ed25519, m: Manager, n: Manager, st: Store, f: Frame, faults: Faults,
                            outcome: CommitOutcome)
    requires SameRooms(m, n) && NextOf(m, st, RoomId(f)) == NextOf(n, st, RoomId(f))
    requires !ShowsCache(ed, m, n, st, Submit(f, faults, outcome))
    ensures var (m', r) := Process(ed, m, st, f, faults, outcome);
            var (n', t) := Process(ed, n, st, f, faults, outcome);
            SameRooms(m', n') && r == t
  {
    var admitted := Admit(ed, m, st, f, faults);
    assert admitted == Admit(ed, n, st, f, faults);
    var (next, sequenced) := S.Sequence(m.next, f, StoredLatest(st, f, faults));
    var (next', sequenced') := S.Sequence(n.next, f, StoredLatest(st, f, faults));
    if admitted.Ok? {
      assert sequenced == sequenced';
      if sequenced.Ok? {
        FinishIgnoresCache(ed, m.(next := next), n.(next := next'), f, admitted.value, sequenced.value, outcome);
      }
    }
  }

  lemma {:induction false} SignatureErrors(ed: Ed25519, actions: seq<S.SequencerAction>, mls: Option<MlsGroupState>)
    ensures CheckSignatures(ed, actions, mls).Err? ==> CheckSignatures(ed, actions, mls).error.MlsValidation?
  {
    if actions != [] { SignatureErrors(ed, actions[1..], mls); }
  }

  lemma FinishNeverReads(ed: Ed25519, m: Manager, f: Frame, mls: Option<MlsGroupState>,
                         actions: seq<S.SequencerAction>, outcome: CommitOutcome)
    requires RoomId(f) in m.groups
    ensures var r := Finish(ed, m, f, mls, actions, outcome).1; r.Err? ==> r.error.MlsValidation?
  {
    SignatureErrors(ed, actions, mls);
  }

  /** The manager without the counter answers with the read error, which the other never does. */
  lemma ProcessShowsCache(ed: Ed25519, m: Manager, n: Manager, st: Store, f: Frame, faults: Faults,
                          outcome: CommitOutcome)
    requires SameRooms(m, n) && ShowsCache(ed, m, n, st, Submit(f, faults, outcome)) && RoomId(f) in m.next
    ensures Process(ed, n, st, f, faults, outcome).1 == Err(Sequencing(S.SequencerError.Storage(Io)))
    ensures Process(ed, m, st, f, faults, outcome).1 != Err(Sequencing(S.SequencerError.Storage(Io)))
  {
    assert Admit(ed, m, st, f, faults) == Admit(ed, n, st, f, faults);
    var (next, sequenced) := S.Sequence(m.next, f, StoredLatest(st, f, faults));
    if sequenced.Ok? {
      FinishNeverReads(ed, m.(next := next), f, Admit(ed, m, st, f, faults).value, sequenced.value, outcome);
    }
  }

  /** One request, served by two managers whose caches both agree with storage: same reply, same store
      and same groups, exactly unless a refused read tells a cached counter from a missing one. */
  lemma CacheIsUnobservableIff(ed: Ed25519, m: Manager, n: Manager, st: Store, q: Request)
    requires SameRooms(m, n) && Agrees(m, st) && Agrees(n, st)
    ensures var (m', st', r) := Serve(ed, m, st, q);
            var (n', tt', t) := Serve(ed, n, st, q);
            && (r == t <==> !ShowsCache(ed, m, n, st, q))
            && (r == t ==> SameRooms(m', n') && st' == tt')
  {
    if q.Submit? {
      SameNext(m, n, st, RoomId(q.frame));
      if !ShowsCache(ed, m, n, st, q) {
        ProcessIgnoresCache(ed, m, n, st, q.frame, q.faults, q.outcome);
      } else if RoomId(q.frame) in m.next {
        ProcessShowsCache(ed, m, n, st, q.frame, q.faults, q.outcome);
      } else {
        assert Admit(ed, n, st, q.frame, q.faults) == Admit(ed, m, st, q.frame, q.faults);
        ProcessShowsCache(ed, n, m, st, q.frame, q.faults, q.outcome);
      }
    }
  }

  lemma RefusedReadShows(s: Server, f: Frame)
    requires Ready(s, 0, 0) && At(f, H.PROPOSAL, 0)
    ensures var m, n := s.manager.(next := map[1 := 0]), s.manager.(next := map[]);
            ShowsCache(NobodySigns(), m, n, s.store, Submit(f, Faults(false, true), Refused))
  {
    assert Admit(NobodySigns(), s.manager, s.store, f, Faults(false, true)) == Ok(Some(FOUNDED));
  }

  /** In a fresh room, with the last index unreadable, a Proposal tells a sequencer that has the room's
      counter at 0 from a new one: the first accepts it, the second answers with the read error. */
  lemma CacheShowsExample()
    ensures var m, n := FreshRoom().manager.(next := map[1 := 0]), FreshRoom().manager.(next := map[]);
            var q := Submit(Sample(H.PROPOSAL, 0), Faults(false, true), Refused);
            && SameRooms(m, n) && Agrees(m, FreshRoom().store) && Agrees(n, FreshRoom().store)
            && Serve(NobodySigns(), m, FreshRoom().store, q).2 != Serve(NobodySigns(), n, FreshRoom().store, q).2
  {
    FreshRoomIsReady();
    SampleFields(H.PROPOSAL, 0);
    RefusedReadShows(FreshRoom(), Sample(H.PROPOSAL, 0));
    CacheIsUnobservableIff(NobodySigns(), FreshRoom().manager.(next := map[1 := 0]),
                           FreshRoom().manager.(next := map[]), FreshRoom().store,
                           Submit(Sample(H.PROPOSAL, 0), Faults(false, true), Refused));
  }

  lemma LatenessIgnoresCache(ed: Ed25519, m: Manager, n: Manager, st: Store, q: Request)
    requires SameRooms(m, n) && Agrees(m, st) && Agrees(n, st) && !ShowsCache(ed, m, n, st, q)
    ensures RejectedLate(ed, m, st, q) <==> RejectedLate(ed, n, st, q)
  {
    if q.Submit? {
      SameNext(m, n, st, RoomId(q.frame));
      assert Admit(ed, m, st, q.frame, q.faults) == Admit(ed, n, st, q.frame, q.faults);
    }
  }

  /** A run of requests. Before request `k` the sequencer is replaced by a new one if `resets[k]`. */
  function ServeAll(ed: Ed25519, m: Manager, st: Store, qs: seq<Request>, resets: seq<bool>)
    : (Manager, Store, seq<Reply>)
    requires |resets| == |qs|
    decreases |qs|
  {
    if qs == [] then (m, st, [])
    else
      var (m1, st1, r) := Serve(ed, if resets[0] then m.(next := map[]) else m, st, qs[0]);
      var (m2, st2, rs) := ServeAll(ed, m1, st1, qs[1..], resets[1..]);
      (m2, st2, [r] + rs)
  }

  predicate NoneRejectedLate(ed: Ed25519, m: Manager, st: Store, qs: seq<Request>)
    decreases |qs|
  {
    qs != [] ==>
      && !RejectedLate(ed, m, st, qs[0])
      && NoneRejectedLate(ed, Serve(ed, m, st, qs[0]).0, Serve(ed, m, st, qs[0]).1, qs[1..])
  }

  /** No request tells the cached sequencer from the rebuilt one. */
  predicate NoneShowsCache(ed: Ed25519, m: Manager, n: Manager, st: Store, qs: seq<Request>, resets: seq<bool>)
    requires |resets| == |qs|
    decreases |qs|
  {
    qs != [] ==>
      var k := if resets[0] then n.(next := map[]) else n;
      var (m1, st1, _) := Serve(ed, m, st, qs[0]);
      !ShowsCache(ed, m, k, st, qs[0]) && NoneShowsCache(ed, m1, Serve(ed, k, st, qs[0]).0, st1, qs[1..], resets[1..])
  }

  /** Along a run in which nothing is rejected after taking its index, the cached sequencer gives the
      replies of one that is rebuilt from storage at any points whatever, down to before every request,
      exactly when no refused read tells them apart; then storage is the same too, and at the end every
      cached counter is its log's length. */
  lemma {:induction false} CachedRefinesRecomputedIff(ed: Ed25519, m: Manager, n: Manager, st: Store,
                                                      qs: seq<Request>, resets: seq<bool>)
    requires |resets| == |qs|
    requires SameRooms(m, n) && Agrees(m, st) && Agrees(n, st)
    requires NoneRejectedLate(ed, m, st, qs)
    ensures var (m', st', rs) := ServeAll(ed, m, st, qs, seq(|qs|, _ => false));
            var (n', tt', ts) := ServeAll(ed, n, st, qs, resets);
            && (rs == ts <==> NoneShowsCache(ed, m, n, st, qs, resets))
            && (rs == ts ==> st' == tt' && SameRooms(m', n') && Agrees(m', st') && Agrees(n', tt'))
    decreases |qs|
  {
    if qs != [] {
      var k := if resets[0] then n.(next := map[]) else n;
      CacheIsUnobservableIff(ed, m, k, st, qs[0]);
      var never := seq(|qs|, _ => false);
      assert never[1..] == seq(|qs| - 1, _ => false);
      var (m1, st1, r) := Serve(ed, m, st, qs[0]);
      var (k1, tt1, t) := Serve(ed, k, st, qs[0]);
      ConsEqual(r, ServeAll(ed, m1, st1, qs[1..], never[1..]).2, t, ServeAll(ed, k1, tt1, qs[1..], resets[1..]).2);
      if !ShowsCache(ed, m, k, st, qs[0]) {
        LatenessIgnoresCache(ed, m, k, st, qs[0]);
        AgreementKeptIff(ed, m, st, qs[0]);
        AgreementKeptIff(ed, k, st, qs[0]);
        CachedRefinesRecomputedIff(ed, m1, k1, st1, qs[1..], resets[1..]);
      }
    }
  }
}
