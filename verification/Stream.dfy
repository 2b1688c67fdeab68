/** The read loop of one stream: 128 header bytes, then the payload the header announces
    (crates/lockframe-server/src/lib.rs, `handle_stream`). */
module Streams {
  import opened Wrappers
  import opened Bytes
  import H = Header
  import opened Frames

  /** What a sender writes for a list of frames. */
  function WireOf(fs: seq<Frame>): seq<byte>
    requires forall f <- fs :: WireValid(f)
  {
    if fs == [] then [] else assert WireValid(fs[0]); Encode(fs[0]).value + WireOf(fs[1..])
  }

  /** The frame at the front of the input; `None` on a short read or a frame that does not decode. */
  function FirstFrame(input: seq<byte>): (r: Option<Frame>)
    ensures r.Some? ==> H.SIZE + |r.value.payload| <= |input|
  {
    if |input| < H.SIZE then None
    else
      var size := H.PayloadSize(H.Parse(input));
      if |input| < H.SIZE + size then None
      else
        match Decode(input[..H.SIZE + size])
        case Err(_) => None
        case Ok(f) => Some(f)
  }

  /** The frames handed to the driver, in order, until reading stops. */
  function FramesOf(input: seq<byte>): seq<Frame> {
    match FirstFrame(input)
    case None => []
    case Some(f) => [f] + FramesOf(input[H.SIZE + |f.payload|..])
  }

  /** One frame is cut off the front, and nothing behind it is touched. */
  lemma FirstFrameOfWire(f: Frame, rest: seq<byte>)
    requires WireValid(f)
    ensures FirstFrame(Encode(f).value + rest) == Some(f)
  {
    var bs := Encode(f).value + rest;
    assert bs == H.ToBytes(f.header) + (f.payload + rest);
    H.ParseToBytes(f.header, f.payload + rest);
    assert bs[..H.SIZE + |f.payload|] == Encode(f).value + [];
    DecodeEncode(f, []);
  }

  lemma FramesOfCons(f: Frame, rest: seq<byte>)
    requires WireValid(f)
    ensures FramesOf(Encode(f).value + rest) == [f] + FramesOf(rest)
  {
    FirstFrameOfWire(f, rest);
    assert (Encode(f).value + rest)[H.SIZE + |f.payload|..] == rest;
  }

  lemma WireOfCons(fs: seq<Frame>, rest: seq<byte>)
    requires fs != [] && forall f <- fs :: WireValid(f)
    ensures WireValid(fs[0]) && WireOf(fs) + rest == Encode(fs[0]).value + (WireOf(fs[1..]) + rest)
  {
    assert WireValid(fs[0]);
    Associative(Encode(fs[0]).value, WireOf(fs[1..]), rest);
  }

  lemma ConsAppend<T>(s: seq<T>, t: seq<T>)
    ensures if s == [] then s + t == t else [s[0]] + (s[1..] + t) == s + t
  {
  }

  /** The loop splits any concatenation of encoded frames back into the same list, then goes on
      with what follows. */
  lemma {:induction false} SplitsBack(fs: seq<Frame>, rest: seq<byte>)
    requires forall f <- fs :: WireValid(f)
    ensures FramesOf(WireOf(fs) + rest) == fs + FramesOf(rest)
  {
    ConsAppend(fs, FramesOf(rest));
    if fs == [] {
      ConsAppend(WireOf(fs), rest);
    } else {
      WireOfCons(fs, rest);
      FramesOfCons(fs[0], WireOf(fs[1..]) + rest);
      SplitsBack(fs[1..], rest);
    }
  }

  /** The bytes of a frame that was read are the bytes it was read from. */
  lemma FirstFrameBytes(input: seq<byte>)
    requires FirstFrame(input).Some?
    ensures var f := FirstFrame(input).value;
            WireValid(f) && Encode(f).value == input[..H.SIZE + |f.payload|]
  {
    var n := H.SIZE + H.PayloadSize(H.Parse(input));
    var chunk := input[..n];
    EncodeDecode(chunk);
    assert H.Parse(chunk) == H.Parse(input);
    assert chunk[..n] == chunk;
  }

  lemma {:induction false} ReadsValidFrames(input: seq<byte>)
    ensures forall f <- FramesOf(input) :: WireValid(f)
    decreases |input|
  {
    if FirstFrame(input).Some? {
      FirstFrameBytes(input);
      ReadsValidFrames(input[H.SIZE + |FirstFrame(input).value.payload|..]);
    }
  }

  /** On any input at all, the frames read are valid and spell a prefix of the input: no byte is
      skipped, reordered or invented. */
  lemma {:induction false} ReadsAPrefix(input: seq<byte>)
    ensures forall f <- FramesOf(input) :: WireValid(f)
    ensures WireOf(FramesOf(input)) <= input
    decreases |input|
  {
    ReadsValidFrames(input);
    if FirstFrame(input).Some? {
      FirstFrameBytes(input);
      var f := FirstFrame(input).value;
      var rest := input[H.SIZE + |f.payload|..];
      ReadsAPrefix(rest);
      assert FramesOf(input)[1..] == FramesOf(rest);
      assert input == Encode(f).value + rest;
    }
  }

  /** One turn of the loop: the header, then as many bytes as it announces. */
  method ReadFrame(input: seq<byte>) returns (r: Option<Frame>)
    ensures r == FirstFrame(input)
  {
    if |input| < H.SIZE { return None; }
    var buf := input[..H.SIZE];
    assert H.Parse(buf) == H.Parse(input);
    var size := H.PayloadSize(H.Parse(buf));
    if size > 0 {
      if |input| < H.SIZE + size { return None; }
      buf := buf + input[H.SIZE..H.SIZE + size];
    }
    assert buf == input[..H.SIZE + size];
    match Decode(buf) {
      case Err(_) => return None;
      case Ok(f) => return Some(f);
    }
  }

  /** The loop itself, over the bytes that arrive before the stream ends. */
  method ReadStream(input: seq<byte>) returns (frames: seq<Frame>)
    ensures frames == FramesOf(input)
  {
    frames := [];
    var left := input;
    while true
      invariant frames + FramesOf(left) == FramesOf(input)
      decreases |left|
    {
      var next := ReadFrame(left);
      if next.None? { break; }
      frames := frames + [next.value];
      left := left[H.SIZE + |next.value.payload|..];
    }
  }
}
