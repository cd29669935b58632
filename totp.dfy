/**
 * The TOTP engine of totp-rs/src/lib.rs: RFC 6238 time steps (X = 30,
 * T0 = 0) over HOTP dynamic truncation (section 5.3 of RFC 4226), the
 * secret generator and the `otpauth://totp/` key URI.
 *
 * HMAC-SHA1 is a library primitive and enters as a function parameter
 * that maps a key and a message to a 20-byte digest; the clock enters as
 * the millisecond count `Date.now()` returned, and the random bytes of a
 * secret as an argument.
 */
module Totp {
  import opened Wrappers
  import opened Bytes
  import opened Strings
  import Base32
  import Url

  /** The time step in seconds. */
  const Step: nat := 30

  /** Number of digits of a token. */
  const Digits: nat := 6

  /** `u64::MAX`, where Rust's float-to-integer `as` cast saturates. */
  const U64Max: nat := 0xFFFF_FFFF_FFFF_FFFF

  /** The error `generate_token` reports for a secret Base32 does not accept. */
  const InvalidSecret: string := "Invalid secret: failed to decode base32"

  type Digest = d: seq<Byte> | |d| == 20 witness seq(20, _ => 0)

  /** HMAC-SHA1 of a message under a key. */
  type HmacSha1 = (seq<Byte>, seq<Byte>) -> Digest

  /** The 20 random bytes `getrandom` fills. */
  type KeyBytes = s: seq<Byte> | |s| == 20 witness seq(20, _ => 0)

  // ---------------------------------------------------------------------
  // Time steps
  // ---------------------------------------------------------------------

  lemma DivideWindow(x: nat, k: nat)
    requires 30000 * k <= x < 30000 * (k + 1)
    ensures x / 30000 == k
  {
  }

  lemma {:induction false} NestedDivision(x: nat)
    ensures x / 1000 / 30 == x / 30000
  {
    var q := x / 1000;
    var c := q / 30;
    assert x == 1000 * q + x % 1000;
    assert q == 30 * c + q % 30;
    assert x == 30000 * c + (1000 * (q % 30) + x % 1000);
    DivideWindow(x, c);
  }

  lemma Pow256Of8()
    ensures Pow256(8) == U64Max + 1
  {
  }

  /**
   * `Date::now() as u64 / 1000 / 30`: the number of whole 30-second steps
   * since the epoch. The counter fits the 8 bytes it is written to.
   */
  function Counter(nowMs: nat): (c: nat)
    ensures c < Pow256(8)
    ensures nowMs <= U64Max ==> c == nowMs / 30000
  {
    var ms := if nowMs <= U64Max then nowMs else U64Max;
    NestedDivision(ms);
    Pow256Of8();
    ms / 1000 / Step
  }

  /** Any two instants of the same 30-second window have the same counter. */
  lemma SameWindowSameCounter(t1: nat, t2: nat)
    requires t1 / 30000 == t2 / 30000
    ensures Counter(t1) == Counter(t2)
  {
    var k := t1 / 30000;
    assert t1 == 30000 * k + t1 % 30000 && t2 == 30000 * k + t2 % 30000;
    if t1 <= U64Max < t2 || t2 <= U64Max < t1 {
      // The window that holds u64::MAX also holds the instant the cast clamps to it.
      DivideWindow(U64Max, k);
    }
  }

  /** `counter.to_be_bytes()`. */
  function CounterBytes(c: nat): (bs: seq<Byte>)
    ensures |bs| == 8
  {
    ToBigEndian(c, 8)
  }

  /** The counter bytes read back as a big-endian number are the counter. */
  lemma CounterBytesRoundTrip(nowMs: nat)
    ensures FromBigEndian(CounterBytes(Counter(nowMs))) == Counter(nowMs)
  {
    FromToBigEndian(Counter(nowMs), 8);
  }

  // ---------------------------------------------------------------------
  // Dynamic truncation
  // ---------------------------------------------------------------------

  /** The low nibble of the last digest byte (`& 0x0F`), so four bytes from it lie inside the digest. */
  function Offset(d: Digest): (o: nat)
    ensures o <= 15 && o + 3 < |d|
  {
    d[19] % 16
  }

  /**
   * The 31-bit number at the offset: the four bytes from there as a
   * big-endian number with the top bit masked off (`& 0x7F`). The shifts
   * and `|` of the source combine disjoint bit ranges, so they are sums here.
   */
  function Truncate(d: Digest): (binary: nat)
    ensures binary < 0x8000_0000
    ensures binary == FromBigEndian([d[Offset(d)] % 128] + d[Offset(d) + 1..Offset(d) + 4])
  {
    var o := Offset(d);
    var b0: int := d[o] % 128;
    var b1: int := d[o + 1];
    var b2: int := d[o + 2];
    var b3: int := d[o + 3];
    assert [d[o] % 128] + d[o + 1..o + 4] == [b0, b1, b2, b3];
    FromBigEndianOfFour(b0, b1, b2, b3);
    b0 * 0x100_0000 + b1 * 0x1_0000 + b2 * 0x100 + b3
  }

  lemma FromBigEndianOfFour(b0: Byte, b1: Byte, b2: Byte, b3: Byte)
    ensures FromBigEndian([b0, b1, b2, b3]) == b0 * 0x100_0000 + b1 * 0x1_0000 + b2 * 0x100 + b3
  {
    assert [b0][..0] == [];
    assert FromBigEndian([b0]) == b0;
    assert [b0, b1][..1] == [b0];
    assert FromBigEndian([b0, b1]) == 256 * b0 + b1;
    assert [b0, b1, b2][..2] == [b0, b1];
    assert FromBigEndian([b0, b1, b2]) == 0x1_0000 * b0 + 256 * b1 + b2;
    assert [b0, b1, b2, b3][..3] == [b0, b1, b2];
  }

  /** `format!("{:06}", binary % 1_000_000)`: six decimal digits spelling the value. */
  function Token(d: Digest): (s: string)
    ensures |s| == Digits && AllDigits(s)
    ensures DecimalValue(s) == Truncate(d) % 1_000_000
  {
    assert Pow10(6) == 1_000_000;
    ZeroPadSpec(Truncate(d) % 1_000_000, Digits);
    ZeroPad(Truncate(d) % 1_000_000, Digits)
  }

  /**
   * `generate_token`: an error exactly when the secret is not Base32, and
   * otherwise a six-digit token. HMAC accepts keys of every length, so the
   * key-length error of the source cannot arise.
   */
  function GenerateToken(hmac: HmacSha1, secret: string, nowMs: nat): (r: Result<string, string>)
    ensures r.Err? <==> Base32.Decode(secret).None?
    ensures r.Err? ==> r.error == InvalidSecret
    ensures r.Ok? ==> |r.value| == Digits && AllDigits(r.value)
  {
    match Base32.Decode(secret)
    case None => Err(InvalidSecret)
    case Some(key) => Ok(Token(hmac(key, CounterBytes(Counter(nowMs)))))
  }

  /** Two calls within one 30-second window give the same result. */
  lemma SameWindowSameToken(hmac: HmacSha1, secret: string, t1: nat, t2: nat)
    requires t1 / 30000 == t2 / 30000
    ensures GenerateToken(hmac, secret, t1) == GenerateToken(hmac, secret, t2)
  {
    SameWindowSameCounter(t1, t2);
  }

  /**
   * For a secret made by `generate_secret`, the HMAC key is the 20 random
   * bytes themselves and the token is the truncation of their MAC of the counter.
   */
  lemma TokenOfGeneratedSecret(hmac: HmacSha1, random: KeyBytes, nowMs: nat)
    ensures GenerateToken(hmac, GenerateSecret(random), nowMs)
         == Ok(Token(hmac(random, CounterBytes(Counter(nowMs)))))
  {
    Base32.DecodeOfEncode(random);
  }

  // ---------------------------------------------------------------------
  // Secrets and key URIs
  // ---------------------------------------------------------------------

  /** `generate_secret`: 32 characters from `A–Z2–7` that decode back to the random bytes. */
  function GenerateSecret(random: KeyBytes): (s: string)
    ensures |s| == 32
    ensures forall i :: 0 <= i < |s| ==> Base32.InAlphabet(s[i])
    ensures Base32.Decode(s) == Some(random)
  {
    Base32.EncodeShape(random);
    Base32.DecodeOfEncode(random);
    Base32.Encode(random)
  }

  const UriPrefix: string := "otpauth://totp/"

  /**
   * `generate_totp_uri(secret, label, issuer)`. The encoded label, which
   * runs from the prefix up to the first `?`, holds no `/ ? # & = +` and no space.
   */
  function TotpUri(secret: string, account: string, issuer: string): (uri: string)
    ensures StartsWith(uri, UriPrefix)
    ensures |uri| > |UriPrefix| + |Url.PercentEncode(account)| && uri[|UriPrefix| + |Url.PercentEncode(account)|] == '?'
    ensures forall i :: |UriPrefix| <= i < |UriPrefix| + |Url.PercentEncode(account)| ==>
              Url.IsEncodedChar(uri[i]) && uri[i] != '/' && uri[i] != '?' && uri[i] != '#' && uri[i] != '&'
  {
    var encoded := Url.PercentEncode(account);
    var rest := encoded + "?secret=" + secret + "&issuer=" + Url.PercentEncode(issuer);
    assert forall i :: 0 <= i < |encoded| ==> rest[i] == encoded[i];
    EncodedAfterPrefix(UriPrefix, encoded, rest);
    UriPrefix + rest
  }

  /** An encoded run at the start of rest stays free of delimiters once a prefix is put in front. */
  lemma EncodedAfterPrefix(prefix: string, encoded: string, rest: string)
    requires |encoded| <= |rest|
    requires forall i :: 0 <= i < |encoded| ==> rest[i] == encoded[i] && Url.IsEncodedChar(encoded[i])
    ensures forall i :: |prefix| <= i < |prefix| + |encoded| ==>
              Url.IsEncodedChar((prefix + rest)[i]) && (prefix + rest)[i] != '/' && (prefix + rest)[i] != '?'
              && (prefix + rest)[i] != '#' && (prefix + rest)[i] != '&'
  {
    var uri := prefix + rest;
    forall i | |prefix| <= i < |prefix| + |encoded|
      ensures uri[i] == encoded[i - |prefix|]
    {
      assert uri[i] == rest[i - |prefix|];
    }
  }
}
