/** Bytes and big-endian unsigned integers (`to_be_bytes`, `from_be_bytes`). */
module Bytes {

  type byte = b: int | 0 <= b < 256

  const U32_MAX: nat := 0xFFFF_FFFF
  const U64_MAX: nat := 0xFFFF_FFFF_FFFF_FFFF

  type u32 = n: nat | n <= U32_MAX
  type u64 = n: nat | n <= U64_MAX

  function Pow256(n: nat): (p: nat)
    ensures p > 0
  {
    if n == 0 then 1 else 256 * Pow256(n - 1)
  }

  /** The `n` low-order bytes of `v`, most significant first: higher bytes are cut off, as a
      narrowing cast does. */
  function ToBe(v: nat, n: nat): (bs: seq<byte>)
    ensures |bs| == n
  {
    if n == 0 then [] else ToBe(v / 256, n - 1) + [v % 256]
  }

  function FromBe(bs: seq<byte>): nat {
    if bs == [] then 0 else FromBe(bs[..|bs| - 1]) * 256 + bs[|bs| - 1]
  }

  /** An `n`-byte integer that fits comes back from its bytes. */
  lemma {:induction false} FromBeToBe(v: nat, n: nat)
    requires v < Pow256(n)
    ensures FromBe(ToBe(v, n)) == v
  {
    if n > 0 {
      FromBeToBe(v / 256, n - 1);
      assert ToBe(v, n)[..n - 1] == ToBe(v / 256, n - 1);
    }
  }

  /** Bytes come back from the integer they spell. */
  lemma {:induction false} ToBeFromBe(bs: seq<byte>)
    ensures FromBe(bs) < Pow256(|bs|)
    ensures ToBe(FromBe(bs), |bs|) == bs
  {
    if bs != [] {
      var front, last := bs[..|bs| - 1], bs[|bs| - 1];
      ToBeFromBe(front);
      assert FromBe(bs) == FromBe(front) * 256 + last;
      assert FromBe(bs) / 256 == FromBe(front) && FromBe(bs) % 256 == last;
    }
  }

  /** Two integers of the same width with the same bytes are the same integer. */
  lemma ToBeInjective(v: nat, w: nat, n: nat)
    requires v < Pow256(n) && w < Pow256(n)
    requires ToBe(v, n) == ToBe(w, n)
    ensures v == w
  {
    FromBeToBe(v, n);
    FromBeToBe(w, n);
  }

  lemma Widths()
    ensures Pow256(4) == U32_MAX + 1
    ensures Pow256(8) == U64_MAX + 1
  {
    assert Pow256(2) == 0x1_0000;
    assert Pow256(4) == 0x1_0000_0000;
    assert Pow256(6) == 0x1_0000_0000_0000;
  }

  /** Most significant byte first. */
  lemma {:induction false} FirstByteWeighsMost(b: byte, rest: seq<byte>)
    ensures FromBe([b] + rest) == b * Pow256(|rest|) + FromBe(rest)
  {
    if rest == [] {
      assert [b][..0] == [];
      assert FromBe([b]) == FromBe([b][..0]) * 256 + b;
    } else {
      var front, last := rest[..|rest| - 1], rest[|rest| - 1];
      assert ([b] + rest)[..|rest|] == [b] + front;
      FirstByteWeighsMost(b, front);
    }
  }
}
