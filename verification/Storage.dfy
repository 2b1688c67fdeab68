/** In-memory storage (crates/lockframe-server/src/storage/memory.rs). */
module Storage {
  import opened Wrappers
  import opened Bytes
  import opened Frames
  import opened Validator

  datatype StorageError =
    | NotFound(roomId: nat, logIndex: nat)
    | Conflict(expected: nat, got: nat)
    | Io

  datatype Store = Store(frames: map<nat, seq<Frame>>, mls: map<nat, MlsGroupState>)

  /** A room's log: the stored vector, or empty. */
  function Log(s: Store, room: nat): seq<Frame> {
    if room in s.frames then s.frames[room] else []
  }

  /** A store at the wrong index leaves every log as it was, though it may create an empty one. */
  function StoreAt(s: Store, room: nat, logIndex: nat, f: Frame): (Store, Result<(), StorageError>) {
    var log := Log(s, room);
    if logIndex != |log| then (s.(frames := s.frames[room := log]), Err(Conflict(|log|, logIndex)))
    else (s.(frames := s.frames[room := log + [f]]), Ok(()))
  }

  function Latest(s: Store, room: nat): Option<nat> {
    if Log(s, room) == [] then None else Some(|Log(s, room)| - 1)
  }

  /** What `load_frames` does: a slice, an error, or a slice whose end lies before its start. */
  datatype Loaded = Frames(frames: seq<Frame>) | Missing(error: StorageError) | SlicePanic

  /** `start + limit` wraps at 64 bits, as release arithmetic does. */
  function LoadFrames(s: Store, room: nat, from: u64, limit: u64): Loaded {
    if room !in s.frames then Missing(NotFound(room, from))
    else
      var log := s.frames[room];
      var sum := (from + limit) % (U64_MAX + 1);
      var end := if sum < |log| then sum else |log|;
      if from > |log| then Frames([])
      else if end < from then SlicePanic
      else Frames(log[from..end])
  }

  class MemoryStorage {
    var frames: map<nat, seq<Frame>>
    var mlsStates: map<nat, MlsGroupState>

    function View(): Store
      reads this
    {
      Store(frames, mlsStates)
    }

    constructor ()
      ensures View() == Store(map[], map[])
    {
      frames, mlsStates := map[], map[];
    }

    /** Appends exactly when the index is the log's length; no other room's log is touched. */
    method StoreFrame(room: nat, logIndex: nat, f: Frame) returns (r: Result<(), StorageError>)
      modifies this
      ensures (View(), r) == StoreAt(old(View()), room, logIndex, f)
      ensures Log(View(), room) == old(Log(View(), room)) + (if r.Ok? then [f] else [])
      ensures r == if logIndex == |old(Log(View(), room))| then Ok(())
                   else Err(Conflict(|old(Log(View(), room))|, logIndex))
      ensures forall other :: other != room ==> Log(View(), other) == old(Log(View(), other))
    {
      if room !in frames {
        frames := frames[room := []];
      }
      assert frames == old(frames)[room := old(Log(View(), room))];
      var expected := |frames[room]|;
      if logIndex != expected {
        return Err(Conflict(expected, logIndex));
      }
      frames := frames[room := frames[room] + [f]];
      assert frames == old(frames)[room := old(Log(View(), room)) + [f]];
      return Ok(());
    }

    method LatestLogIndex(room: nat) returns (latest: Option<nat>)
      ensures latest == Latest(View(), room)
    {
      if room in frames && frames[room] != [] {
        return Some(|frames[room]| - 1);
      }
      return None;
    }

    method StoreMlsState(room: nat, state: MlsGroupState)
      modifies this
      ensures View() == old(View()).(mls := old(mlsStates)[room := state])
    {
      mlsStates := mlsStates[room := state];
    }
  }
}
