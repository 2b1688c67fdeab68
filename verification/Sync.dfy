/** Sync requests and the paging loop over them (crates/lockframe-server/src/room_manager.rs,
    `handle_sync_request`; crates/lockframe-proto/src/payloads/session.rs). */
module Sync {
  import opened Wrappers
  import opened Bytes
  import H = Header
  import opened Frames
  import opened Validator
  import opened Storage
  import opened RoomManager

  datatype SyncReply =
    | Response(frames: seq<seq<byte>>, hasMore: bool, serverEpoch: nat)
    | Failed(error: RoomError)
    | Panicked

  /** Stored frames serialised one by one; `None` when one is too large to encode. */
  function EncodeAll(fs: seq<Frame>): Option<seq<seq<byte>>> {
    if fs == [] then Some([])
    else if Encode(fs[0]).Err? then None
    else
      match EncodeAll(fs[1..])
      case None => None
      case Some(rest) => Some([Encode(fs[0]).value] + rest)
  }

  /** What the client makes of the entries. */
  function DecodeAll(entries: seq<seq<byte>>): Result<seq<Frame>, H.ProtocolError> {
    if entries == [] then Ok([])
    else
      match Decode(entries[0])
      case Err(e) => Err(e)
      case Ok(f) =>
        match DecodeAll(entries[1..])
        case Err(e) => Err(e)
        case Ok(fs) => Ok([f] + fs)
  }

  /** Whether a page starting at `from` with `count` frames says there is more; `from - 1` saturates
      at zero. */
  function HasMore(st: Store, room: nat, from: nat, count: nat): bool {
    var lastLoaded := if count > 0 then from + count - 1 else if from == 0 then 0 else from - 1;
    Latest(st, room).Some? && lastLoaded < Latest(st, room).value
  }

  /** The two reads, either of which storage may refuse. */
  datatype SyncFaults = SyncFaults(load: bool, latest: bool)

  const ALL_READ := SyncFaults(false, false)

  function HandleSync(m: Manager, st: Store, room: nat, from: u64, limit: u64, faults: SyncFaults): SyncReply {
    if room !in m.groups then Failed(RoomNotFound(room))
    else if faults.load then Failed(RoomError.Storage(Io))
    else
      match LoadFrames(st, room, from, limit)
      case Missing(e) => Failed(RoomError.Storage(e))
      case SlicePanic => Panicked
      case Frames(fs) =>
        match EncodeAll(fs)
        case None => Panicked
        case Some(entries) =>
          if faults.latest then Failed(RoomError.Storage(Io))
          else Response(entries, HasMore(st, room, from, |fs|), m.groups[room].epoch)
  }

  /** The frames from `from` on, at most `limit` of them. */
  function Slice(log: seq<Frame>, from: nat, limit: nat): seq<Frame> {
    if from >= |log| then [] else if from + limit <= |log| then log[from..from + limit] else log[from..]
  }

  /** Loading is the slice, unless the sum of start and limit wraps inside the log: then, and only
      then, the slice ends before it starts. */
  lemma LoadIsSlice(st: Store, room: nat, from: u64, limit: u64)
    requires room in st.frames && |Log(st, room)| <= U64_MAX
    ensures LoadFrames(st, room, from, limit)
            == if from <= |Log(st, room)| && from + limit > U64_MAX then SlicePanic
               else Loaded.Frames(Slice(Log(st, room), from, limit))
  {
    var log := Log(st, room);
    var sum := (from + limit) % (U64_MAX + 1);
    if from + limit > U64_MAX {
      assert sum == from + limit - (U64_MAX + 1) < from;
    } else if from <= |log| {
      var end := if sum < |log| then sum else |log|;
      assert sum == from + limit;
      assert log[from..end] == Slice(log, from, limit);
    }
  }

  /** `has_more` says whether entries remain after the page on every request but one family: asking
      for no frames from the start of a one-entry log. */
  lemma HasMoreIff(st: Store, room: nat, from: u64, limit: u64)
    ensures var log := Log(st, room);
            var count := |Slice(log, from, limit)|;
            (HasMore(st, room, from, count) == (from + count < |log|) <==> !(limit == 0 && from == 0 && |log| == 1))
  {
    var log := Log(st, room);
    if 0 < from < |log| && limit == 0 {
      assert HasMore(st, room, from, 0);
    }
  }

  lemma {:induction false} EncodeAllDecodes(fs: seq<Frame>)
    requires forall f <- fs :: WireValid(f)
    ensures EncodeAll(fs).Some? && |EncodeAll(fs).value| == |fs|
    ensures DecodeAll(EncodeAll(fs).value) == Ok(fs)
  {
    if fs != [] {
      assert WireValid(fs[0]);
      EncodeAllDecodes(fs[1..]);
      DecodeEncode(fs[0], []);
      assert Encode(fs[0]).value + [] == Encode(fs[0]).value;
      var entries := EncodeAll(fs).value;
      assert entries[1..] == EncodeAll(fs[1..]).value;
      assert [fs[0]] + fs[1..] == fs;
    }
  }

  lemma {:induction false} EncodeAllIff(fs: seq<Frame>)
    ensures EncodeAll(fs).Some? <==> forall f <- fs :: Encode(f).Ok?
  {
    if fs != [] { EncodeAllIff(fs[1..]); }
  }

  /** Every request, by outcome: a panic exactly when the frames are reached and the range wraps inside the
      log or a frame of it cannot be encoded; an error exactly when they are not reached, for the room
      does not exist, was never stored to or cannot be read, or when the last index cannot. */
  lemma SyncByCase(m: Manager, st: Store, room: nat, from: u64, limit: u64, faults: SyncFaults)
    requires |Log(st, room)| <= U64_MAX
    ensures var reply := HandleSync(m, st, room, from, limit, faults);
            var reached := room in m.groups && room in st.frames && !faults.load;
            var wraps := from <= |Log(st, room)| && from + limit > U64_MAX;
            var panics := wraps || exists f <- Slice(Log(st, room), from, limit) :: Encode(f).Err?;
            && (reply.Panicked? <==> reached && panics)
            && (reply.Failed? <==> !reached || (!panics && faults.latest))
            && (reply.Failed? ==>
                  reply.error == if room !in m.groups then RoomNotFound(room)
                                 else if !faults.load && room !in st.frames then RoomError.Storage(NotFound(room, from))
                                 else RoomError.Storage(Io))
  {
    if room in m.groups && room in st.frames && !faults.load {
      LoadIsSlice(st, room, from, limit);
      EncodeAllIff(Slice(Log(st, room), from, limit));
    }
  }

  /** A room that can be synced: it exists, its log is stored, its frames are valid, and entry `i`
      carries index `i`. */
  predicate Servable(m: Manager, st: Store, room: nat) {
    && room in m.groups && room in st.frames
    && |Log(st, room)| <= U64_MAX
    && (forall f <- Log(st, room) :: WireValid(f))
    && (forall i :: 0 <= i < |Log(st, room)| ==> LogIndex(Log(st, room)[i]) == i)
  }

  lemma PageReply(m: Manager, st: Store, room: nat, from: u64, limit: u64)
    requires Servable(m, st, room) && from + limit <= U64_MAX
    ensures var page := Slice(Log(st, room), from, limit);
            EncodeAll(page).Some? && DecodeAll(EncodeAll(page).value) == Ok(page)
            && HandleSync(m, st, room, from, limit, ALL_READ)
               == Response(EncodeAll(page).value, HasMore(st, room, from, |page|), m.groups[room].epoch)
  {
    LoadIsSlice(st, room, from, limit);
    EncodeAllDecodes(Slice(Log(st, room), from, limit));
  }

  lemma LastOfPage(log: seq<Frame>, from: nat, limit: nat)
    requires forall i :: 0 <= i < |log| ==> LogIndex(log[i]) == i
    ensures var page := Slice(log, from, limit);
            && (page != [] ==> LogIndex(page[|page| - 1]) + 1 == from + |page|)
            && (from + |page| < |log| ==> |page| == limit)
  {
  }

  /** One page: the reply decodes to exactly the asked-for slice of the log, and, for a non-zero
      limit, `has_more` is set exactly when entries remain. */
  lemma PageIsSlice(m: Manager, st: Store, room: nat, from: u64, limit: u64)
    requires Servable(m, st, room) && from + limit <= U64_MAX && limit > 0
    ensures var reply := HandleSync(m, st, room, from, limit, ALL_READ);
            var page := Slice(Log(st, room), from, limit);
            && reply.Response? && DecodeAll(reply.frames) == Ok(page)
            && reply.hasMore == (from + |page| < |Log(st, room)|)
            && reply.serverEpoch == m.groups[room].epoch
            && (reply.hasMore ==> |page| == limit)
            && (page != [] ==> LogIndex(page[|page| - 1]) + 1 == from + |page|)
  {
    PageReply(m, st, room, from, limit);
    HasMoreIff(st, room, from, limit);
    LastOfPage(Log(st, room), from, limit);
  }

  /** A store at a wrong index, though refused, makes its room known: from then on a sync of the empty room
      is answered with no frames, where before it was an error. */
  lemma RefusedStoreMakesRoomKnown(m: Manager, st: Store, room: nat, i: nat, f: Frame)
    requires room in m.groups && room !in st.frames && i > 0
    ensures HandleSync(m, st, room, 0, 1, ALL_READ) == Failed(RoomError.Storage(NotFound(room, 0)))
    ensures StoreAt(st, room, i, f).1 == Err(Conflict(0, i))
    ensures HandleSync(m, StoreAt(st, room, i, f).0, room, 0, 1, ALL_READ) == Response([], false, m.groups[room].epoch)
  {
  }

  /** One round trip: the request, and the entries of the reply decoded. */
  method RequestPage(m: Manager, st: Store, room: nat, from: u64, limit: u64)
    returns (page: seq<Frame>, hasMore: bool)
    requires Servable(m, st, room) && from + limit <= U64_MAX && limit > 0
    ensures page == Slice(Log(st, room), from, limit)
    ensures hasMore <==> from + |page| < |Log(st, room)|
    ensures hasMore ==> |page| == limit && LogIndex(page[limit - 1]) + 1 == from + limit
  {
    PageIsSlice(m, st, room, from, limit);
    var reply := HandleSync(m, st, room, from, limit, ALL_READ);
    page, hasMore := DecodeAll(reply.frames).value, reply.hasMore;
  }

  datatype Serving = Serving(manager: Manager, store: Store)

  /** The states that serve successive pages: each servable, the log only growing. */
  predicate Growing(servings: seq<Serving>, room: nat) {
    && servings != []
    && (forall v <- servings :: Servable(v.manager, v.store, room))
    && (forall i, j :: 0 <= i <= j < |servings| ==> Log(servings[i].store, room) <= Log(servings[j].store, room))
  }

  /** `got` is what the log holds from `start` on, so far. */
  predicate Covers(log: seq<Frame>, start: nat, got: seq<Frame>) {
    got == [] || (start + |got| <= |log| && got == log[start..start + |got|])
  }

  lemma CoversPage(log: seq<Frame>, start: nat, got: seq<Frame>, limit: nat)
    requires Covers(log, start, got)
    ensures var page := Slice(log, start + |got|, limit);
            && Covers(log, start, got + page)
            && (start + |got| + |page| >= |log| ==> got + page == if start <= |log| then log[start..] else [])
  {
    var page := Slice(log, start + |got|, limit);
    if start + |got| < |log| {
      assert got + page == log[start..start + |got| + |page|];
    }
  }

  lemma CoversLonger(log: seq<Frame>, longer: seq<Frame>, start: nat, got: seq<Frame>)
    requires Covers(log, start, got) && log <= longer
    ensures Covers(longer, start, got)
  {
    if got != [] {
      assert longer[start..start + |got|] == log[start..start + |got|];
    }
  }

  lemma GrowingAt(servings: seq<Serving>, room: nat, i: nat, j: nat)
    requires Growing(servings, room) && i <= j < |servings|
    ensures Servable(servings[i].manager, servings[i].store, room)
    ensures Log(servings[i].store, room) <= Log(servings[j].store, room)
  {
  }

  /** The whole suffix of a log from `start`. */
  function Suffix(log: seq<Frame>, start: nat): seq<Frame> {
    if start <= |log| then log[start..] else []
  }

  /** One turn of the loop, on a state that serves it: what was got grows by a page, and
      while there is more the last frame's index plus one is where the next page starts. */
  method NextPage(v: Serving, room: nat, start: u64, from: u64, limit: u64, got: seq<Frame>)
    returns (got': seq<Frame>, more: bool)
    requires Servable(v.manager, v.store, room) && limit > 0
    requires from == start + |got| && from + limit <= U64_MAX
    requires Covers(Log(v.store, room), start, got)
    ensures Covers(Log(v.store, room), start, got')
    ensures more ==> |got'| == |got| + limit && start + |got'| < |Log(v.store, room)|
    ensures more ==> LogIndex(got'[|got'| - 1]) + 1 == start + |got'|
    ensures !more ==> got' == Suffix(Log(v.store, room), start)
  {
    var page;
    page, more := RequestPage(v.manager, v.store, room, from, limit);
    CoversPage(Log(v.store, room), start, got, limit);
    got' := got + page;
  }

  /** The loop the protocol prescribes: ask again from the last frame's index plus one for as long
      as there is more. Page `k` is served by state `k`, later ones by the last state. It ends with
      the suffix of the log as it stood at the last page: no gap, no duplicate, nothing missing. */
  method SyncAll(servings: seq<Serving>, room: nat, start: u64, limit: u64)
    returns (got: seq<Frame>, served: nat)
    requires Growing(servings, room) && limit > 0
    requires start + limit <= U64_MAX
    requires |Log(servings[|servings| - 1].store, room)| + limit <= U64_MAX
    ensures served < |servings|
    ensures got == Suffix(Log(servings[served].store, room), start)
  {
    got, served := [], 0;
    var more;
    GrowingAt(servings, room, 0, |servings| - 1);
    got, more := NextPage(servings[0], room, start, start, limit, got);
    while more
      invariant served < |servings|
      invariant Covers(Log(servings[served].store, room), start, got)
      invariant more ==> start + |got| < |Log(servings[served].store, room)|
      invariant more ==> got != [] && LogIndex(got[|got| - 1]) + 1 == start + |got|
      invariant !more ==> got == Suffix(Log(servings[served].store, room), start)
      decreases more, |servings| - served, |Log(servings[served].store, room)| - |got|
    {
      var next := if served + 1 < |servings| then served + 1 else served;
      GrowingAt(servings, room, served, next);
      GrowingAt(servings, room, next, |servings| - 1);
      CoversLonger(Log(servings[served].store, room), Log(servings[next].store, room), start, got);
      served := next;
      var from := LogIndex(got[|got| - 1]) + 1;
      got, more := NextPage(servings[served], room, start, from, limit, got);
    }
  }
}
