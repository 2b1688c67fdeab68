/** A header with its payload bytes (crates/lockframe-proto/src/frame.rs). */
module Frames {
  import opened Wrappers
  import opened Bytes
  import H = Header

  datatype Frame = Frame(header: H.FrameHeader, payload: seq<byte>)

  function RoomId(f: Frame): nat { H.RoomId(f.header) }
  function SenderId(f: Frame): nat { H.SenderId(f.header) }
  function Epoch(f: Frame): nat { H.Epoch(f.header) }
  function LogIndex(f: Frame): nat { H.LogIndex(f.header) }
  function Opcode(f: Frame): nat { H.Opcode(f.header) }

  /** `Frame::new`: the size field is overwritten with the payload length, cut to 32 bits. */
  function New(header: H.FrameHeader, payload: seq<byte>): Frame {
    Frame(header.(payloadSize := ToBe(|payload|, 4)), payload)
  }

  /** The structural invariant of a frame that may travel. */
  predicate WireValid(f: Frame) {
    && H.Magic(f.header) == H.MAGIC
    && f.header.version == H.VERSION
    && H.PayloadSize(f.header) == |f.payload| <= H.MAX_PAYLOAD_SIZE
  }

  function Encode(f: Frame): Result<seq<byte>, H.ProtocolError> {
    if |f.payload| > H.MAX_PAYLOAD_SIZE then Err(H.PayloadTooLarge(|f.payload|, H.MAX_PAYLOAD_SIZE))
    else Ok(H.ToBytes(f.header) + f.payload)
  }

  function Decode(bs: seq<byte>): Result<Frame, H.ProtocolError> {
    match H.FromBytes(bs)
    case Err(e) => Err(e)
    case Ok(header) =>
      var size := H.PayloadSize(header);
      if |bs| < H.SIZE + size then Err(H.FrameTruncated(size, |bs| - H.SIZE))
      else Ok(Frame(header, bs[H.SIZE..H.SIZE + size]))
  }

  /** A frame survives the wire, with any bytes after it, exactly when it is valid. */
  lemma DecodeEncode(f: Frame, rest: seq<byte>)
    requires Encode(f).Ok?
    ensures Decode(Encode(f).value + rest) == Ok(f) <==> WireValid(f)
  {
    var bs := Encode(f).value + rest;
    assert bs == H.ToBytes(f.header) + (f.payload + rest);
    H.ParseToBytes(f.header, f.payload + rest);
    if WireValid(f) {
      assert bs[H.SIZE..H.SIZE + |f.payload|] == f.payload;
    }
  }

  /** Whatever decodes is valid, and encodes to exactly the bytes that were read. */
  lemma EncodeDecode(bs: seq<byte>)
    requires Decode(bs).Ok?
    ensures WireValid(Decode(bs).value)
    ensures var f := Decode(bs).value; Encode(f) == Ok(bs[..H.SIZE + |f.payload|])
  {
    H.ToBytesParse(bs);
    var f := Decode(bs).value;
    assert bs[..H.SIZE] + f.payload == bs[..H.SIZE + |f.payload|];
  }

  /** Why bytes do not decode: fewer than a header's 128, a wrong magic or version, a payload announced over
      16 MB, or fewer bytes than announced; in that order. */
  lemma DecodeFailsWith(bs: seq<byte>)
    ensures var announced := if |bs| >= 16 then FromBe(bs[12..16]) else 0;
            match Decode(bs)
            case Ok(_) => |bs| >= 128 && FromBe(bs[0..4]) == 0x4C4F_4652 && bs[4] == 1
                          && announced <= 16_777_216 && |bs| >= 128 + announced
            case Err(e) =>
              if |bs| < 128 then e == H.FrameTooShort(128, |bs|)
              else if FromBe(bs[0..4]) != 0x4C4F_4652 then e == H.InvalidMagic
              else if bs[4] != 1 then e == H.UnsupportedVersion(bs[4])
              else if announced > 16_777_216 then e == H.PayloadTooLarge(announced, 16_777_216)
              else |bs| < 128 + announced && e == H.FrameTruncated(announced, |bs| - 128)
  {
  }

  /** A caller's growing buffer (`BufMut`). */
  class Buffer {
    var data: seq<byte>

    constructor ()
      ensures data == []
    {
      data := [];
    }
  }

  /** `Frame::encode`: appends the whole frame, or nothing when the payload is too large. */
  method EncodeInto(f: Frame, dst: Buffer) returns (r: Result<(), H.ProtocolError>)
    modifies dst
    ensures r == if |f.payload| <= 16_777_216 then Ok(()) else Err(H.PayloadTooLarge(|f.payload|, 16_777_216))
    ensures dst.data == old(dst.data) + (if r.Ok? then Encode(f).value else [])
  {
    if |f.payload| > H.MAX_PAYLOAD_SIZE {
      return Err(H.PayloadTooLarge(|f.payload|, H.MAX_PAYLOAD_SIZE));
    }
    dst.data := dst.data + H.ToBytes(f.header);
    dst.data := dst.data + f.payload;
    return Ok(());
  }
}
