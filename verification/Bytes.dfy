/** Bytes, the fixed-width integers written as bytes, and the option type. */
module Bytes {

  type byte = b: int | 0 <= b < 256

  const TWO32: int := 0x1_0000_0000
  const TWO64: int := 0x1_0000_0000_0000_0000

  type u16 = n: int | 0 <= n < 0x1_0000
  type u32 = n: int | 0 <= n < TWO32
  type u64 = n: int | 0 <= n < TWO64

  datatype Option<+T> = None | Some(value: T)

  function Pow256(n: nat): (p: nat)
    ensures p > 0
  {
    if n == 0 then 1 else 256 * Pow256(n - 1)
  }

  lemma Pow256Values()
    ensures Pow256(2) == 0x1_0000 && Pow256(3) == 0x100_0000
    ensures Pow256(4) == TWO32 && Pow256(8) == TWO64
  {
    assert Pow256(1) == 256;
    assert Pow256(2) == 256 * Pow256(1);
    assert Pow256(3) == 256 * Pow256(2);
    assert Pow256(4) == 256 * Pow256(3);
    assert Pow256(5) == 256 * Pow256(4);
    assert Pow256(6) == 256 * Pow256(5);
    assert Pow256(7) == 256 * Pow256(6);
    assert Pow256(8) == 256 * Pow256(7);
  }

  /** The low `n` bytes of `v`, least significant first. */
  function LeBytes(v: nat, n: nat): (bs: seq<byte>)
    ensures |bs| == n
  {
    if n == 0 then [] else [v % 256] + LeBytes(v / 256, n - 1)
  }

  function FromLe(bs: seq<byte>): nat {
    if bs == [] then 0
    else
      var low: int := bs[0];
      low + 256 * FromLe(bs[1..])
  }

  lemma {:induction false} FromLeOfLeBytes(v: nat, n: nat)
    requires v < Pow256(n)
    ensures FromLe(LeBytes(v, n)) == v
    decreases n
  {
    if n > 0 {
      FromLeOfLeBytes(v / 256, n - 1);
      assert LeBytes(v, n)[1..] == LeBytes(v / 256, n - 1);
    }
  }

  lemma {:induction false} LeBytesOfFromLe(bs: seq<byte>)
    ensures FromLe(bs) < Pow256(|bs|)
    ensures LeBytes(FromLe(bs), |bs|) == bs
    decreases |bs|
  {
    if bs != [] {
      LeBytesOfFromLe(bs[1..]);
      assert FromLe(bs) / 256 == FromLe(bs[1..]);
      assert bs == [bs[0]] + bs[1..];
    }
  }

  /** `(v as u32).to_le_bytes()`: anything above 32 bits is cut off. */
  function Le32(v: nat): (bs: seq<byte>)
    ensures |bs| == 4
  {
    LeBytes(v % TWO32, 4)
  }

  function Le64(v: u64): (bs: seq<byte>)
    ensures |bs| == 8
  {
    LeBytes(v, 8)
  }

  lemma FromLeOfLe32(v: nat)
    ensures FromLe(Le32(v)) == v % TWO32
  {
    Pow256Values();
    hide LeBytes, FromLe, Pow256;
    FromLeOfLeBytes(v % TWO32, 4);
  }

  lemma FromLeOfLe64(v: u64)
    ensures FromLe(Le64(v)) == v
  {
    Pow256Values();
    hide LeBytes, FromLe, Pow256;
    FromLeOfLeBytes(v, 8);
  }

  lemma Le32OfFromLe(bs: seq<byte>)
    requires |bs| == 4
    ensures FromLe(bs) < TWO32 && Le32(FromLe(bs)) == bs
  {
    Pow256Values();
    LeBytesOfFromLe(bs);
    hide LeBytes, FromLe, Pow256;
  }

  function Reverse(bs: seq<byte>): (r: seq<byte>)
    ensures |r| == |bs|
  {
    seq(|bs|, i requires 0 <= i < |bs| => bs[|bs| - 1 - i])
  }

  /** `to_be_bytes` of a number of `n` bytes. */
  function BeBytes(v: nat, n: nat): (bs: seq<byte>)
    ensures |bs| == n
  {
    Reverse(LeBytes(v, n))
  }

  function FromBe(bs: seq<byte>): nat {
    FromLe(Reverse(bs))
  }

  lemma FromBeOfBeBytes(v: nat, n: nat)
    requires v < Pow256(n)
    ensures FromBe(BeBytes(v, n)) == v
  {
    assert Reverse(Reverse(LeBytes(v, n))) == LeBytes(v, n);
    FromLeOfLeBytes(v, n);
  }
}
