/**
 * UTF-8, as used on both sides of the provisioning URI: Rust's
 * `urlencoding::encode` percent-encodes the UTF-8 bytes of a string, and
 * the browser's `decodeURIComponent` and `URLSearchParams` decode escaped
 * bytes back into characters. The decoder is the strict one: overlong
 * forms, surrogates and values above U+10FFFF are rejected.
 */
module Utf8 {
  import opened Wrappers
  import opened Bytes

  predicate IsContinuation(b: Byte) { 0x80 <= b < 0xC0 }

  /** The UTF-8 bytes of one character. */
  function EncodeChar(c: char): (bs: seq<Byte>)
    ensures 1 <= |bs| <= 4
    ensures |bs| == 1 <==> (c as int) < 0x80
    ensures |bs| == 1 ==> bs[0] == c as int
    ensures forall i :: 1 <= i < |bs| ==> IsContinuation(bs[i])
    ensures |bs| > 1 ==> bs[0] >= 0xC2
  {
    var cp := c as int;
    if cp < 0x80 then [cp]
    else if cp < 0x800 then [0xC0 + cp / 64, 0x80 + cp % 64]
    else if cp < 0x10000 then [0xE0 + cp / 4096, 0x80 + (cp / 64) % 64, 0x80 + cp % 64]
    else [0xF0 + cp / 262144, 0x80 + (cp / 4096) % 64, 0x80 + (cp / 64) % 64, 0x80 + cp % 64]
  }

  function Encode(s: string): (bs: seq<Byte>)
  {
    if s == [] then [] else EncodeChar(s[0]) + Encode(s[1..])
  }

  predicate IsScalar(cp: int) { 0 <= cp < 0xD800 || 0xE000 <= cp < 0x110000 }

  /**
   * The first character of a byte string and how many bytes it takes, or
   * None when the bytes do not start with a well-formed UTF-8 sequence.
   */
  function DecodeFirst(bs: seq<Byte>): (r: Option<(char, nat)>)
    ensures r.Some? ==> 1 <= r.value.1 <= |bs| && r.value.1 <= 4
  {
    if bs == [] then None
    else
      var b0: int := bs[0];
      if b0 < 0x80 then Some((b0 as char, 1))
      else if 0xC2 <= b0 < 0xE0 then
        if |bs| < 2 || !IsContinuation(bs[1]) then None
        else Some((((b0 - 0xC0) * 64 + (bs[1] as int - 0x80)) as char, 2))
      else if 0xE0 <= b0 < 0xF0 then
        if |bs| < 3 || !IsContinuation(bs[1]) || !IsContinuation(bs[2]) then None
        else
          var cp := (b0 - 0xE0) * 4096 + (bs[1] as int - 0x80) * 64 + (bs[2] as int - 0x80);
          if cp < 0x800 || !IsScalar(cp) then None else Some((cp as char, 3))
      else if 0xF0 <= b0 < 0xF5 then
        if |bs| < 4 || !IsContinuation(bs[1]) || !IsContinuation(bs[2]) || !IsContinuation(bs[3]) then None
        else
          var cp := (b0 - 0xF0) * 262144 + (bs[1] as int - 0x80) * 4096 + (bs[2] as int - 0x80) * 64 + (bs[3] as int - 0x80);
          if cp < 0x10000 || !IsScalar(cp) then None else Some((cp as char, 4))
      else None
  }

  lemma DecodeFirstTwo(c: char, more: seq<Byte>)
    requires 0x80 <= c as int < 0x800
    ensures DecodeFirst(EncodeChar(c) + more) == Some((c, 2))
  {
    var cp := c as int;
    var bs := EncodeChar(c) + more;
    assert bs[0] == 0xC0 + cp / 64 && bs[1] == 0x80 + cp % 64;
    assert (bs[0] as int - 0xC0) * 64 + (bs[1] as int - 0x80) == cp;
  }

  lemma DecodeFirstThree(c: char, more: seq<Byte>)
    requires 0x800 <= c as int < 0x10000
    ensures DecodeFirst(EncodeChar(c) + more) == Some((c, 3))
  {
    var cp := c as int;
    var bs := EncodeChar(c) + more;
    var q := cp / 64;
    assert cp == q * 64 + cp % 64;
    assert q == (cp / 4096) * 64 + q % 64;
    assert bs[0] as int - 0xE0 == cp / 4096 && bs[1] as int - 0x80 == q % 64 && bs[2] as int - 0x80 == cp % 64;
    assert (bs[0] as int - 0xE0) * 4096 + (bs[1] as int - 0x80) * 64 + (bs[2] as int - 0x80) == cp;
  }

  lemma DecodeFirstFour(c: char, more: seq<Byte>)
    requires 0x10000 <= c as int
    ensures DecodeFirst(EncodeChar(c) + more) == Some((c, 4))
  {
    var cp := c as int;
    var bs := EncodeChar(c) + more;
    assert bs[0] as int - 0xF0 == cp / 262144;
    assert bs[1] as int - 0x80 == (cp / 4096) % 64 && bs[2] as int - 0x80 == (cp / 64) % 64 && bs[3] as int - 0x80 == cp % 64;
    FourSixBitDigits(cp);
  }

  /** A code point is the sum of its leading part and its three low six-bit digits. */
  lemma FourSixBitDigits(cp: nat)
    ensures (cp / 262144) * 262144 + ((cp / 4096) % 64) * 4096 + ((cp / 64) % 64) * 64 + cp % 64 == cp
  {
    var q1 := cp / 64;
    var q2 := cp / 4096;
    assert cp == q1 * 64 + cp % 64;
    assert q2 == q1 / 64;
    assert q1 == q2 * 64 + q1 % 64;
    assert cp / 262144 == q2 / 64;
    assert q2 == (cp / 262144) * 64 + q2 % 64;
  }

  /** Whatever follows, the decoder reads back exactly the character that was encoded and its byte count. */
  lemma DecodeFirstOfEncodeChar(c: char, more: seq<Byte>)
    ensures DecodeFirst(EncodeChar(c) + more) == Some((c, |EncodeChar(c)|))
  {
    var cp := c as int;
    if cp < 0x80 {
    } else if cp < 0x800 {
      DecodeFirstTwo(c, more);
    } else if cp < 0x10000 {
      DecodeFirstThree(c, more);
    } else {
      DecodeFirstFour(c, more);
    }
  }
}
