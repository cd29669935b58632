/**
 * The RFC 4648 (section 6) Base32 codec the TOTP engine relies on:
 * `base32::encode(Rfc4648 { padding: false }, ..)` and
 * `base32::decode(Rfc4648 { padding: false }, ..)` as called from
 * totp-rs/src/lib.rs.
 *
 * The decoder is the lenient one of the base32 crate: letters are
 * accepted in either case, `=` counts as the value 0 wherever it stands,
 * up to six trailing `=` shorten the output, the output holds
 * (unpadded length * 5) / 8 bytes, and left-over bits are dropped
 * without being checked.
 */
module Base32 {
  import opened Wrappers
  import opened Bytes

  const Alphabet: string := "ABCDEFGHIJKLMNOPQRSTUVWXYZ234567"

  predicate InAlphabet(c: char) { 'A' <= c <= 'Z' || '2' <= c <= '7' }

  /** The character for a 5-bit group. */
  function EncodeDigit(v: nat): (c: char)
    requires v < 32
    ensures InAlphabet(c) && c == Alphabet[v]
  {
    if v < 26 then (('A' as int) + v) as char else (('2' as int) + v - 26) as char
  }

  function ToUpperAscii(c: char): char
  {
    if 'a' <= c <= 'z' then ((c as int) - 32) as char else c
  }

  /** The 5-bit value the decoder assigns to a character, if it accepts it. */
  function DecodeDigit(c: char): (r: Option<nat>)
    ensures r.Some? ==> r.value < 32
  {
    var u := ToUpperAscii(c);
    if 'A' <= u <= 'Z' then Some((u as int) - ('A' as int))
    else if '2' <= u <= '7' then Some((u as int) - ('2' as int) + 26)
    else if u == '=' then Some(0)
    else None
  }

  lemma DecodeEncodeDigit(v: nat)
    requires v < 32
    ensures DecodeDigit(EncodeDigit(v)) == Some(v)
  {
  }

  // ---------------------------------------------------------------------
  // Grouping bit strings into 5-bit values
  // ---------------------------------------------------------------------

  function Groups5(b: seq<bool>): (vs: seq<nat>)
    requires |b| % 5 == 0
    ensures 5 * |vs| == |b|
    ensures forall i :: 0 <= i < |vs| ==> vs[i] < 32
  {
    if b == [] then [] else
      assert Pow2(5) == 32;
      [BitsToNat(b[..5])] + Groups5(b[5..])
  }

  function Ungroup5(vs: seq<nat>): (b: seq<bool>)
    ensures |b| == 5 * |vs|
  {
    if vs == [] then [] else NatToBits(vs[0], 5) + Ungroup5(vs[1..])
  }

  lemma {:induction false} Ungroup5OfGroups5(b: seq<bool>)
    requires |b| % 5 == 0
    ensures Ungroup5(Groups5(b)) == b
  {
    if b != [] {
      NatToBitsOfBitsToNat(b[..5]);
      Ungroup5OfGroups5(b[5..]);
      assert b == b[..5] + b[5..];
    }
  }

  // ---------------------------------------------------------------------
  // Encoding
  // ---------------------------------------------------------------------

  /** Number of zero bits that complete the last 5-bit group. */
  function PadBits(n: nat): (p: nat)
    ensures p < 5 && (n + p) % 5 == 0
  {
    (5 - n % 5) % 5
  }

  /** Unpadded Base32 text of a byte string. */
  function Encode(bs: seq<Byte>): (s: string)
  {
    var bits := BytesToBits(bs);
    var vs := Groups5(bits + seq(PadBits(|bits|), _ => false));
    seq(|vs|, i requires 0 <= i < |vs| => EncodeDigit(vs[i]))
  }

  /** The encoding has ceil(8n/5) characters, all from `A–Z2–7`, so no `=` padding. */
  lemma EncodeShape(bs: seq<Byte>)
    ensures |Encode(bs)| == (8 * |bs| + 4) / 5
    ensures forall i :: 0 <= i < |Encode(bs)| ==> InAlphabet(Encode(bs)[i])
  {
    var n := 8 * |bs|;
    assert 5 * |Encode(bs)| == n + PadBits(n);
  }

  // ---------------------------------------------------------------------
  // Decoding
  // ---------------------------------------------------------------------

  /** The 5-bit values of every character, or None at the first rejected one. */
  function DecodeDigits(s: string): (r: Option<seq<nat>>)
    ensures r.Some? <==> forall i :: 0 <= i < |s| ==> DecodeDigit(s[i]).Some?
    ensures r.Some? ==> |r.value| == |s| && forall i :: 0 <= i < |s| ==> r.value[i] == DecodeDigit(s[i]).value
  {
    if s == [] then Some([])
    else match (DecodeDigit(s[0]), DecodeDigits(s[1..]))
      case (Some(v), Some(vs)) => Some([v] + vs)
      case (None, _) => None
      case (_, None) =>
        assert forall i :: 0 <= i < |s| - 1 ==> s[1..][i] == s[i + 1];
        None
  }

  /** How many of the last six characters are trailing `=` padding. */
  function TrailingPadding(s: string, limit: nat): (k: nat)
    ensures k <= limit && k <= |s|
  {
    if limit == 0 || s == [] || s[|s| - 1] != '=' then 0
    else 1 + TrailingPadding(s[..|s| - 1], limit - 1)
  }

  /** Bytes a decoded text yields: (unpadded length * 5) / 8. */
  function DecodedLength(s: string): (n: nat)
    ensures 8 * n <= 5 * |s|
  {
    (|s| - TrailingPadding(s, 6)) * 5 / 8
  }

  /** `base32::decode`: None when a character is outside the alphabet (after upper-casing) and is not `=`. */
  function Decode(s: string): (r: Option<seq<Byte>>)
    ensures r.Some? <==> forall i :: 0 <= i < |s| ==> DecodeDigit(s[i]).Some?
    ensures r.Some? ==> |r.value| == DecodedLength(s)
  {
    match DecodeDigits(s)
    case None => None
    case Some(vs) =>
      var bits := Ungroup5(vs);
      Some(BitsToBytes(bits[..8 * DecodedLength(s)]))
  }

  lemma NoPaddingInEncoding(s: string)
    requires forall i :: 0 <= i < |s| ==> InAlphabet(s[i])
    ensures TrailingPadding(s, 6) == 0
  {
  }

  lemma {:induction false} DecodeDigitsOfEncode(vs: seq<nat>)
    requires forall i :: 0 <= i < |vs| ==> vs[i] < 32
    ensures DecodeDigits(seq(|vs|, i requires 0 <= i < |vs| => EncodeDigit(vs[i]))) == Some(vs)
  {
    var s := seq(|vs|, i requires 0 <= i < |vs| => EncodeDigit(vs[i]));
    forall i | 0 <= i < |vs| ensures DecodeDigit(s[i]) == Some(vs[i]) {
      DecodeEncodeDigit(vs[i]);
    }
    var r := DecodeDigits(s);
    assert r.Some?;
    assert r.value == vs;
  }

  /** Decoding the encoding of any byte string gives the byte string back. */
  lemma DecodeOfEncode(bs: seq<Byte>)
    ensures Decode(Encode(bs)) == Some(bs)
  {
    var bits := BytesToBits(bs);
    var padded := bits + seq(PadBits(|bits|), _ => false);
    var vs := Groups5(padded);
    var s := Encode(bs);
    DecodeDigitsOfEncode(vs);
    EncodeShape(bs);
    NoPaddingInEncoding(s);
    assert DecodedLength(s) == |bs|;
    Ungroup5OfGroups5(padded);
    assert padded[..8 * |bs|] == bits;
    BitsToBytesOfBytesToBits(bs);
  }

}
