/** The fixed 128-byte frame header (crates/lockframe-proto/src/header.rs). */
module Header {
  import opened Wrappers
  import opened Bytes

  const SIZE: nat := 128
  const MAGIC: nat := 0x4C4F_4652
  const VERSION: byte := 1
  const MAX_PAYLOAD_SIZE: nat := 16 * 1024 * 1024

  const PROPOSAL: nat := 0x1001
  const COMMIT: nat := 0x1002
  const WELCOME: nat := 0x1003
  const APP_MESSAGE: nat := 0x2000

  /** Opcodes that `Opcode::from_u16` recognises. */
  predicate KnownOpcode(v: nat) {
    || 0x0001 <= v <= 0x0007
    || v == 0x00FF
    || 0x1000 <= v <= 0x1007
    || 0x2000 <= v <= 0x2006
    || 0x3000 <= v <= 0x3006
    || 0x4000 <= v <= 0x4004
    || 0x5000 <= v <= 0x5003
  }

  datatype ProtocolError =
    | FrameTooShort(expected: nat, actual: nat)
    | InvalidMagic
    | UnsupportedVersion(version: byte)
    | PayloadTooLarge(size: nat, max: nat)
    | FrameTruncated(expectedSize: nat, actualSize: nat)

  /** The fields in wire order, multi-byte ones as their big-endian bytes. */
  datatype HeaderFields = HeaderFields(
    magic: seq<byte>, version: byte, flags: byte, opcode: seq<byte>,
    requestId: seq<byte>, payloadSize: seq<byte>, roomId: seq<byte>, senderId: seq<byte>,
    contextId: seq<byte>, hlcTimestamp: seq<byte>, epoch: seq<byte>, signature: seq<byte>)

  predicate WellSized(h: HeaderFields) {
    && |h.magic| == 4 && |h.opcode| == 2 && |h.requestId| == 4 && |h.payloadSize| == 4
    && |h.roomId| == 16 && |h.senderId| == 8 && |h.contextId| == 8 && |h.hlcTimestamp| == 8
    && |h.epoch| == 8 && |h.signature| == 64
  }

  /** `FrameHeader::new`: magic, version and opcode set, all else zero. */
  function Blank(opcode: nat): HeaderFields {
    HeaderFields(ToBe(MAGIC, 4), VERSION, 0, ToBe(opcode, 2), ToBe(0, 4), ToBe(0, 4), ToBe(0, 16),
                 ToBe(0, 8), ToBe(0, 8), ToBe(0, 8), ToBe(0, 8), seq(64, _ => 0))
  }

  type FrameHeader = h: HeaderFields | WellSized(h) witness Blank(0)

  function Magic(h: FrameHeader): nat { FromBe(h.magic) }
  function Opcode(h: FrameHeader): nat { FromBe(h.opcode) }
  function PayloadSize(h: FrameHeader): nat { FromBe(h.payloadSize) }
  function RoomId(h: FrameHeader): nat { FromBe(h.roomId) }
  function SenderId(h: FrameHeader): nat { FromBe(h.senderId) }
  function LogIndex(h: FrameHeader): nat { FromBe(h.contextId) }
  function Epoch(h: FrameHeader): nat { FromBe(h.epoch) }

  function SetLogIndex(h: FrameHeader, logIndex: nat): FrameHeader {
    h.(contextId := ToBe(logIndex, 8))
  }

  /** Bytes 0 to 63: routing and sequencing. */
  function RoutingBytes(h: FrameHeader): (bs: seq<byte>)
    ensures |bs| == 64
  {
    h.magic + [h.version, h.flags] + h.opcode + h.requestId + h.payloadSize
    + h.roomId + h.senderId + h.contextId + h.hlcTimestamp + h.epoch
  }

  function ToBytes(h: FrameHeader): (bs: seq<byte>)
    ensures |bs| == SIZE
  {
    RoutingBytes(h) + h.signature
  }

  /** The packed layout read off the first 128 bytes. */
  function Parse(bs: seq<byte>): FrameHeader
    requires |bs| >= SIZE
  {
    HeaderFields(bs[0..4], bs[4], bs[5], bs[6..8], bs[8..12], bs[12..16], bs[16..32], bs[32..40],
                 bs[40..48], bs[48..56], bs[56..64], bs[64..128])
  }

  function FromBytes(bs: seq<byte>): Result<FrameHeader, ProtocolError> {
    if |bs| < SIZE then Err(FrameTooShort(SIZE, |bs|))
    else
      var h := Parse(bs);
      if Magic(h) != MAGIC then Err(InvalidMagic)
      else if h.version != VERSION then Err(UnsupportedVersion(h.version))
      else if PayloadSize(h) > MAX_PAYLOAD_SIZE then Err(PayloadTooLarge(PayloadSize(h), MAX_PAYLOAD_SIZE))
      else Ok(h)
  }

  /** Serialised bytes parse back to the header, whatever follows them. */
  lemma ParseToBytes(h: FrameHeader, rest: seq<byte>)
    ensures Parse(ToBytes(h) + rest) == h
  {
    var bs := ToBytes(h) + rest;
    var r := RoutingBytes(h);
    assert bs[..64] == r;
    assert bs[0..4] == r[0..4] == h.magic;
    assert bs[4] == r[4] == h.version && bs[5] == r[5] == h.flags;
    assert bs[6..8] == r[6..8] == h.opcode;
    assert bs[8..12] == r[8..12] == h.requestId;
    assert bs[12..16] == r[12..16] == h.payloadSize;
    assert bs[16..32] == r[16..32] == h.roomId;
    assert bs[32..40] == r[32..40] == h.senderId;
    assert bs[40..48] == r[40..48] == h.contextId;
    assert bs[48..56] == r[48..56] == h.hlcTimestamp;
    assert bs[56..64] == r[56..64] == h.epoch;
    assert bs[64..128] == h.signature;
  }

  /** Every 128-byte pattern is a header, and it serialises to itself. */
  lemma ToBytesParse(bs: seq<byte>)
    requires |bs| >= SIZE
    ensures ToBytes(Parse(bs)) == bs[..SIZE]
  {
    assert RoutingBytes(Parse(bs)) == bs[..64];
    assert bs[..64] + bs[64..128] == bs[..128];
  }

  /** Where each field lies in the 128 bytes. */
  lemma Layout(h: FrameHeader)
    ensures var bs := ToBytes(h);
            && bs[0..4] == h.magic && bs[4] == h.version && bs[5] == h.flags && bs[6..8] == h.opcode
            && bs[8..12] == h.requestId && bs[12..16] == h.payloadSize && bs[16..32] == h.roomId
            && bs[32..40] == h.senderId && bs[40..48] == h.contextId && bs[48..56] == h.hlcTimestamp
            && bs[56..64] == h.epoch && bs[64..128] == h.signature
  {
    ParseToBytes(h, []);
    assert ToBytes(h) + [] == ToBytes(h);
  }

  /** A fresh header is one that `from_bytes` accepts, with the opcode it was made for and every
      routing field zero. */
  lemma BlankParses(opcode: nat, rest: seq<byte>)
    requires opcode < 0x1_0000
    ensures var h := Blank(opcode);
            && FromBytes(ToBytes(h) + rest) == Ok(h) && Opcode(h) == opcode
            && PayloadSize(h) == RoomId(h) == SenderId(h) == LogIndex(h) == Epoch(h) == 0
            && h.flags == 0 && FromBe(h.requestId) == FromBe(h.hlcTimestamp) == 0
            && h.signature == seq(64, _ => 0)
  {
    ParseToBytes(Blank(opcode), rest);
    Widths();
    FromBeToBe(MAGIC, 4);
    assert Pow256(2) == 0x1_0000;
    FromBeToBe(opcode, 2);
    FromBeToBe(0, 4);
    FromBeToBe(0, 8);
    FromBeToBe(0, 16);
  }

  /** What the signature covers: bytes 0-39 and 48-63 of the header. */
  function SigningData(h: FrameHeader): (data: seq<byte>)
    ensures |data| == 56
  {
    ToBytes(h)[..40] + ToBytes(h)[48..64]
  }

  /** The signed bytes are every routing field but the context id: nothing else is left out, and
      nothing else is in. */
  lemma SigningDataCovers(h: FrameHeader)
    ensures SigningData(h) == h.magic + [h.version, h.flags] + h.opcode + h.requestId + h.payloadSize
                              + h.roomId + h.senderId + h.hlcTimestamp + h.epoch
  {
    var r := RoutingBytes(h);
    assert ToBytes(h)[..40] == r[..40];
    assert ToBytes(h)[48..64] == r[48..64];
    assert r[..40] == h.magic + [h.version, h.flags] + h.opcode + h.requestId + h.payloadSize
                      + h.roomId + h.senderId;
    assert r[48..64] == h.hlcTimestamp + h.epoch;
  }

  /** Two headers carry the same signed bytes exactly when they agree off the context id and the
      signature. */
  lemma SameSigningData(g: FrameHeader, h: FrameHeader)
    ensures SigningData(g) == SigningData(h)
       <==> g.(contextId := h.contextId, signature := h.signature) == h
  {
    SigningDataCovers(g);
    SigningDataCovers(h);
    if SigningData(g) == SigningData(h) {
      var g' := g.(contextId := h.contextId, signature := h.signature);
      assert ToBytes(g')[..40] == SigningData(g)[..40] && ToBytes(h)[..40] == SigningData(h)[..40];
      assert ToBytes(g')[48..64] == SigningData(g)[40..] && ToBytes(h)[48..64] == SigningData(h)[40..];
      assert ToBytes(g') == ToBytes(h) by {
        assert ToBytes(g')[40..48] == h.contextId == ToBytes(h)[40..48];
        assert ToBytes(g')[64..] == h.signature == ToBytes(h)[64..];
        assert ToBytes(g') == ToBytes(g')[..40] + ToBytes(g')[40..48] + ToBytes(g')[48..64] + ToBytes(g')[64..];
        assert ToBytes(h) == ToBytes(h)[..40] + ToBytes(h)[40..48] + ToBytes(h)[48..64] + ToBytes(h)[64..];
      }
      ParseToBytes(g', []);
      ParseToBytes(h, []);
    }
  }

  /** `signing_data` as written: two slice copies into a zeroed array. */
  method SigningDataArray(h: FrameHeader) returns (data: array<byte>)
    ensures fresh(data) && data[..] == SigningData(h)
  {
    var bytes := ToBytes(h);
    data := new byte[56](_ => 0);
    forall i | 0 <= i < 40 { data[i] := bytes[i]; }
    forall i | 40 <= i < 56 { data[i] := bytes[i + 8]; }
  }
}
