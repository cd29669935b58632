/**
 * Bytes and bit strings: the unsigned integer arithmetic the TOTP engine
 * performs on `u8` and `u64` values, written out over unbounded naturals.
 */
module Bytes {

  type Byte = x: int | 0 <= x < 256

  function Pow2(w: nat): (p: nat)
    ensures p >= 1
  {
    if w == 0 then 1 else 2 * Pow2(w - 1)
  }

  // ---------------------------------------------------------------------
  // Bit strings, most significant bit first
  // ---------------------------------------------------------------------

  /** The low w bits of v, most significant first. */
  function NatToBits(v: nat, w: nat): (b: seq<bool>)
    ensures |b| == w
  {
    if w == 0 then [] else NatToBits(v / 2, w - 1) + [v % 2 == 1]
  }

  function BitsToNat(b: seq<bool>): (v: nat)
    ensures v < Pow2(|b|)
  {
    if b == [] then 0 else 2 * BitsToNat(b[..|b| - 1]) + (if b[|b| - 1] then 1 else 0)
  }

  lemma {:induction false} BitsToNatOfNatToBits(v: nat, w: nat)
    requires v < Pow2(w)
    ensures BitsToNat(NatToBits(v, w)) == v
  {
    if w > 0 {
      BitsToNatOfNatToBits(v / 2, w - 1);
      var b := NatToBits(v, w);
      assert b[..w - 1] == NatToBits(v / 2, w - 1);
    }
  }

  lemma {:induction false} NatToBitsOfBitsToNat(b: seq<bool>)
    ensures NatToBits(BitsToNat(b), |b|) == b
  {
    if b != [] {
      var init := b[..|b| - 1];
      NatToBitsOfBitsToNat(init);
      assert b == init + [b[|b| - 1]];
    }
  }

  // ---------------------------------------------------------------------
  // Byte strings as bit strings
  // ---------------------------------------------------------------------

  function BytesToBits(bs: seq<Byte>): (b: seq<bool>)
    ensures |b| == 8 * |bs|
  {
    if bs == [] then [] else NatToBits(bs[0], 8) + BytesToBits(bs[1..])
  }

  function BitsToBytes(b: seq<bool>): (bs: seq<Byte>)
    requires |b| % 8 == 0
    ensures 8 * |bs| == |b|
  {
    if b == [] then [] else [BitsToNat(b[..8]) as Byte] + BitsToBytes(b[8..])
  }

  lemma {:induction false} BitsToBytesOfBytesToBits(bs: seq<Byte>)
    ensures BitsToBytes(BytesToBits(bs)) == bs
  {
    if bs != [] {
      var b := BytesToBits(bs);
      assert b[..8] == NatToBits(bs[0], 8);
      assert b[8..] == BytesToBits(bs[1..]);
      assert Pow2(8) == 256;
      BitsToNatOfNatToBits(bs[0], 8);
      BitsToBytesOfBytesToBits(bs[1..]);
    }
  }

  // ---------------------------------------------------------------------
  // Big-endian fixed-width integers (`u64::to_be_bytes`)
  // ---------------------------------------------------------------------

  /** The w-byte big-endian representation of v modulo 256^w. */
  function ToBigEndian(v: nat, w: nat): (bs: seq<Byte>)
    ensures |bs| == w
  {
    if w == 0 then [] else ToBigEndian(v / 256, w - 1) + [(v % 256) as Byte]
  }

  function FromBigEndian(bs: seq<Byte>): (v: nat)
  {
    if bs == [] then 0 else 256 * FromBigEndian(bs[..|bs| - 1]) + bs[|bs| - 1]
  }

  function Pow256(w: nat): (p: nat)
    ensures p >= 1
  {
    if w == 0 then 1 else 256 * Pow256(w - 1)
  }

  /** Reading the big-endian bytes back yields the number, when it fits in w bytes. */
  lemma {:induction false} FromToBigEndian(v: nat, w: nat)
    requires v < Pow256(w)
    ensures FromBigEndian(ToBigEndian(v, w)) == v
  {
    if w > 0 {
      FromToBigEndian(v / 256, w - 1);
      var bs := ToBigEndian(v, w);
      assert bs[..w - 1] == ToBigEndian(v / 256, w - 1);
    }
  }

  /** The first byte is the most significant one. */
  lemma {:induction false} BigEndianBound(bs: seq<Byte>)
    ensures FromBigEndian(bs) < Pow256(|bs|)
  {
    if bs != [] {
      BigEndianBound(bs[..|bs| - 1]);
    }
  }
}
