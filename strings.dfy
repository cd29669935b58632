/**
 * Text helpers shared by the model: decimal formatting and JavaScript's
 * `parseInt`, ASCII case folding, `includes`, `startsWith`, `trim`, the
 * first field of a `split`, and the ordinal order used in place of
 * `localeCompare`.
 */
module Strings {
  import opened Wrappers

  // ---------------------------------------------------------------------
  // Decimal digits
  // ---------------------------------------------------------------------

  predicate IsDigit(c: char) { '0' <= c <= '9' }

  predicate AllDigits(s: string) { forall i :: 0 <= i < |s| ==> IsDigit(s[i]) }

  function DigitChar(d: nat): (c: char)
    requires d < 10
    ensures IsDigit(c) && (c as int) - ('0' as int) == d
  {
    (('0' as int) + d) as char
  }

  function DigitValue(c: char): (d: nat)
    requires IsDigit(c)
    ensures d < 10 && DigitChar(d) == c
  {
    (c as int) - ('0' as int)
  }

  /** The number a string of decimal digits denotes (most significant digit first). */
  function DecimalValue(s: string): nat
    requires AllDigits(s)
  {
    if s == [] then 0 else 10 * DecimalValue(s[..|s| - 1]) + DigitValue(s[|s| - 1])
  }

  /** Shortest decimal rendering of n, as `Number.prototype.toString` and Rust's `Display` give it. */
  function NatToDecimal(n: nat): (s: string)
    decreases n
  {
    if n < 10 then [DigitChar(n)] else NatToDecimal(n / 10) + [DigitChar(n % 10)]
  }

  lemma {:induction false} NatToDecimalDigits(n: nat)
    ensures |NatToDecimal(n)| >= 1 && AllDigits(NatToDecimal(n))
    ensures DecimalValue(NatToDecimal(n)) == n
    ensures n > 0 ==> NatToDecimal(n)[0] != '0'
    decreases n
  {
    if n >= 10 {
      NatToDecimalDigits(n / 10);
      var s := NatToDecimal(n);
      assert s[..|s| - 1] == NatToDecimal(n / 10);
    }
  }

  /** NatToDecimal(n) has at most w digits exactly when n < 10^w. */
  function Pow10(w: nat): (p: nat)
    ensures p >= 1
  {
    if w == 0 then 1 else 10 * Pow10(w - 1)
  }

  lemma {:induction false} NatToDecimalLength(n: nat, w: nat)
    requires w >= 1 && n < Pow10(w)
    ensures |NatToDecimal(n)| <= w
    decreases n
  {
    if n >= 10 {
      assert Pow10(1) == 10;
      assert n / 10 < Pow10(w - 1);
      NatToDecimalLength(n / 10, w - 1);
    }
  }

  /** The digits of n, left-padded with zeros to width w: Rust's `format!("{:0w}", n)`. */
  function ZeroPad(n: nat, w: nat): (s: string)
  {
    var d := NatToDecimal(n);
    if |d| >= w then d else seq(w - |d|, _ => '0') + d
  }

  lemma {:induction false} DecimalValueLeadingZeros(k: nat, d: string)
    requires AllDigits(d)
    ensures AllDigits(seq(k, _ => '0') + d)
    ensures DecimalValue(seq(k, _ => '0') + d) == DecimalValue(d)
    decreases |d|
  {
    var z: string := seq(k, _ => '0');
    if d == [] {
      assert z + d == z;
      ZerosValue(k);
    } else {
      var d' := d[..|d| - 1];
      DecimalValueLeadingZeros(k, d');
      assert (z + d)[..|z + d| - 1] == z + d';
    }
  }

  lemma {:induction false} ZerosValue(k: nat)
    ensures AllDigits(seq(k, _ => '0'))
    ensures DecimalValue(seq(k, _ => '0')) == 0
  {
    if k > 0 {
      ZerosValue(k - 1);
      var z: string := seq(k, _ => '0');
      assert z[..k - 1] == seq(k - 1, _ => '0');
    }
  }

  /** Zero padding to width w keeps the value, and gives exactly w digits when n < 10^w. */
  lemma ZeroPadSpec(n: nat, w: nat)
    requires w >= 1 && n < Pow10(w)
    ensures |ZeroPad(n, w)| == w && AllDigits(ZeroPad(n, w))
    ensures DecimalValue(ZeroPad(n, w)) == n
  {
    NatToDecimalDigits(n);
    NatToDecimalLength(n, w);
    var d := NatToDecimal(n);
    if |d| < w {
      DecimalValueLeadingZeros(w - |d|, d);
    }
  }

  /** `Number.prototype.toString()` of an integer. */
  function IntToString(i: int): (s: string)
  {
    if i < 0 then "-" + NatToDecimal(-i) else NatToDecimal(i)
  }

  /** `n < 10^k` for k the number of digits of n. */
  lemma {:induction false} BelowPow10OfLength(n: nat)
    ensures n < Pow10(|NatToDecimal(n)|)
    decreases n
  {
    if n >= 10 {
      BelowPow10OfLength(n / 10);
    }
  }

  lemma {:induction false} Pow10Monotone(a: nat, b: nat)
    requires a <= b
    ensures Pow10(a) <= Pow10(b)
  {
    if a < b {
      Pow10Monotone(a, b - 1);
    }
  }

  /** Different numbers have different decimal renderings. */
  lemma NatToDecimalInjective(m: nat, n: nat)
    requires NatToDecimal(m) == NatToDecimal(n)
    ensures m == n
  {
    NatToDecimalDigits(m);
    NatToDecimalDigits(n);
  }

  // ---------------------------------------------------------------------
  // Defaults
  // ---------------------------------------------------------------------

  /** JavaScript's `x || fallback` for a string that may be missing: a missing and an empty string both fall back. */
  function OrElse(x: Option<string>, fallback: string): (r: string)
    ensures x.Some? && x.value != "" ==> r == x.value
    ensures x.None? || x.value == "" ==> r == fallback
  {
    if x.Some? && x.value != "" then x.value else fallback
  }

  // ---------------------------------------------------------------------
  // parseInt
  // ---------------------------------------------------------------------

  /** The white space and line terminators that `String.prototype.trim` and `parseInt` skip. */
  predicate IsJsSpace(c: char)
  {
    c == ' ' || c == '\t' || c == '\n' || c == '\r' || c == '\U{000B}' || c == '\U{000C}'
    || c == '\U{00A0}' || c == '\U{1680}' || ('\U{2000}' <= c <= '\U{200A}')
    || c == '\U{2028}' || c == '\U{2029}' || c == '\U{202F}' || c == '\U{205F}'
    || c == '\U{3000}' || c == '\U{FEFF}'
  }

  function TrimStart(s: string): (r: string)
    ensures |r| <= |s| && r == s[|s| - |r|..]
    ensures r == [] || !IsJsSpace(r[0])
  {
    if s != [] && IsJsSpace(s[0]) then TrimStart(s[1..]) else s
  }

  function TrimEnd(s: string): (r: string)
    ensures |r| <= |s| && r == s[..|r|]
    ensures r == [] || !IsJsSpace(r[|r| - 1])
  {
    if s != [] && IsJsSpace(s[|s| - 1]) then TrimEnd(s[..|s| - 1]) else s
  }

  /** `String.prototype.trim`. */
  function Trim(s: string): string { TrimEnd(TrimStart(s)) }

  /** Value of a character as a digit in the given radix, if it is one. */
  function RadixDigit(c: char, radix: nat): Option<nat>
  {
    var v := if '0' <= c <= '9' then (c as int) - ('0' as int)
             else if 'a' <= c <= 'z' then (c as int) - ('a' as int) + 10
             else if 'A' <= c <= 'Z' then (c as int) - ('A' as int) + 10
             else 36;
    if v < radix then Some(v) else None
  }

  /** Length of the longest prefix of s made of radix digits. */
  function DigitRun(s: string, radix: nat): (k: nat)
    ensures k <= |s|
    ensures forall i :: 0 <= i < k ==> RadixDigit(s[i], radix).Some?
    ensures k < |s| ==> RadixDigit(s[k], radix).None?
  {
    if s != [] && RadixDigit(s[0], radix).Some? then 1 + DigitRun(s[1..], radix) else 0
  }

  lemma ProductOfNats(a: nat, b: nat)
    ensures a * b >= 0
  {
  }

  /** Value of a run of radix digits. */
  function RunValue(s: string, radix: nat): nat
    requires forall i :: 0 <= i < |s| ==> RadixDigit(s[i], radix).Some?
  {
    if s == [] then 0
    else
      var init := s[..|s| - 1];
      assert forall i :: 0 <= i < |init| ==> init[i] == s[i];
      var high := RunValue(init, radix);
      ProductOfNats(radix, high);
      radix * high + RadixDigit(s[|s| - 1], radix).value
  }

  /** An unsigned number: a `0x`/`0X` prefix switches to base 16, then the longest run of digits counts. */
  function ParseUnsigned(u: string): Option<nat>
  {
    var hex := |u| >= 2 && u[0] == '0' && (u[1] == 'x' || u[1] == 'X');
    var radix := if hex then 16 else 10;
    var body := if hex then u[2..] else u;
    var k := DigitRun(body, radix);
    if k == 0 then None else Some(RunValue(body[..k], radix))
  }

  /** An optional sign in front of an unsigned number; None stands for NaN. */
  function ParseSigned(t: string): Option<int>
  {
    if t != [] && (t[0] == '-' || t[0] == '+') then
      match ParseUnsigned(t[1..])
      case None => None
      case Some(v) => Some(if t[0] == '-' then -(v as int) else v as int)
    else
      match ParseUnsigned(t)
      case None => None
      case Some(v) => Some(v as int)
  }

  /**
   * JavaScript's `parseInt(s)` without a radix: leading white space, an
   * optional sign, then an unsigned number. None stands for NaN (no digit at all).
   */
  function ParseInt(s: string): Option<int>
  {
    ParseSigned(TrimStart(s))
  }

  /** Trimming leaves a string alone that does not start with white space. */
  lemma TrimStartKeeps(s: string)
    requires s != [] && !IsJsSpace(s[0])
    ensures TrimStart(s) == s
  {
  }

  lemma {:induction false} RunValueIsDecimalValue(s: string)
    requires AllDigits(s)
    ensures forall i :: 0 <= i < |s| ==> RadixDigit(s[i], 10).Some?
    ensures RunValue(s, 10) == DecimalValue(s)
  {
    if s != [] {
      RunValueIsDecimalValue(s[..|s| - 1]);
    }
  }

  lemma {:induction false} DigitRunOfDecimal(s: string)
    requires AllDigits(s)
    ensures DigitRun(s, 10) == |s|
    decreases |s|
  {
    if s != [] {
      DigitRunOfDecimal(s[1..]);
    }
  }

  lemma ParseUnsignedOfDecimal(n: nat)
    ensures ParseUnsigned(NatToDecimal(n)) == Some(n)
  {
    var d := NatToDecimal(n);
    NatToDecimalDigits(n);
    DigitRunOfDecimal(d);
    RunValueIsDecimalValue(d);
    assert !(|d| >= 2 && d[0] == '0');
    assert d[..|d|] == d;
  }

  /** `parseInt` of a plain run of decimal digits is its decimal value. */
  lemma ParseIntOfDigits(s: string)
    requires s != [] && AllDigits(s)
    ensures ParseInt(s) == Some(DecimalValue(s))
  {
    DigitRunOfDecimal(s);
    RunValueIsDecimalValue(s);
    assert !(|s| >= 2 && s[0] == '0' && (s[1] == 'x' || s[1] == 'X'));
    assert s[..|s|] == s;
    assert ParseUnsigned(s) == Some(DecimalValue(s));
    ParseIntOfNumeral(s, DecimalValue(s));
  }

  /** The decimal values of "1", "10" and "100", one digit at a time. */
  lemma SmallDecimalValues()
    ensures AllDigits("1") && AllDigits("10") && AllDigits("100")
    ensures DecimalValue("1") == 1 && DecimalValue("10") == 10 && DecimalValue("100") == 100
  {
    var s1, s10, s100 := "1", "10", "100";
    assert DecimalValue(s1) == 1;
    assert s10[..1] == s1;
    assert DecimalValue(s10) == 10;
    assert s100[..2] == s10;
  }

  /** `parseInt` reads the literals "1", "10" and "100" as the numbers they spell. */
  lemma ParseIntOfSmallLiterals()
    ensures ParseInt("1") == Some(1) && ParseInt("10") == Some(10) && ParseInt("100") == Some(100)
  {
    SmallDecimalValues();
    ParseIntOfDigits("1");
    ParseIntOfDigits("10");
    ParseIntOfDigits("100");
  }

  /** `parseInt` of an unsigned numeral. */
  lemma ParseIntOfNumeral(u: string, v: nat)
    requires u != [] && IsDigit(u[0]) && ParseUnsigned(u) == Some(v)
    ensures ParseInt(u) == Some(v)
  {
    TrimStartKeeps(u);
    assert !(u[0] == '-' || u[0] == '+');
  }

  /** `parseInt` of an unsigned numeral after a minus sign. */
  lemma ParseIntOfNegatedNumeral(u: string, v: nat)
    requires ParseUnsigned(u) == Some(v)
    ensures ParseInt("-" + u) == Some(-(v as int))
  {
    var m := "-" + u;
    TrimStartKeeps(m);
    assert m[0] == '-' && m[1..] == u;
  }

  /** `parseInt(String(n))` gives back n for every integer n. */
  lemma ParseIntOfIntToString(i: int)
    ensures ParseInt(IntToString(i)) == Some(i)
  {
    var n: nat := if i < 0 then -i else i;
    NatToDecimalDigits(n);
    ParseUnsignedOfDecimal(n);
    if i < 0 {
      ParseIntOfNegatedNumeral(NatToDecimal(n), n);
    } else {
      ParseIntOfNumeral(NatToDecimal(n), n);
    }
  }

  // ---------------------------------------------------------------------
  // Case folding, substring search, prefixes, splitting
  // ---------------------------------------------------------------------

  function LowerChar(c: char): char
  {
    if 'A' <= c <= 'Z' then ((c as int) + 32) as char else c
  }

  /** `toLowerCase`, restricted to the ASCII letters. */
  function Lower(s: string): (r: string)
    ensures |r| == |s|
    ensures forall i :: 0 <= i < |s| ==> r[i] == LowerChar(s[i])
  {
    seq(|s|, i requires 0 <= i < |s| => LowerChar(s[i]))
  }

  predicate StartsWith(s: string, prefix: string)
  {
    |prefix| <= |s| && s[..|prefix|] == prefix
  }

  /** `String.prototype.includes`: sub occurs somewhere in s (always true of the empty string). */
  predicate Contains(s: string, sub: string)
  {
    exists i :: 0 <= i <= |s| - |sub| && OccursAt(s, sub, i)
  }

  predicate OccursAt(s: string, sub: string, i: int)
  {
    0 <= i <= |s| - |sub| && s[i..i + |sub|] == sub
  }

  /** `s.split(sep)[0]`: everything before the first separator. */
  function FirstField(s: string, sep: char): (r: string)
    ensures StartsWith(s, r)
    ensures sep !in r
    ensures |r| < |s| ==> s[|r|] == sep
  {
    if s == [] then []
    else if s[0] == sep then []
    else [s[0]] + FirstField(s[1..], sep)
  }

  // ---------------------------------------------------------------------
  // Ordinal order on strings
  // ---------------------------------------------------------------------

  /** Code-point lexicographic order, standing for `localeCompare(...) <= 0`. */
  predicate LexLe(a: string, b: string)
  {
    a == [] || (b != [] && (a[0] < b[0] || (a[0] == b[0] && LexLe(a[1..], b[1..]))))
  }

  lemma {:induction false} LexLeTotal(a: string, b: string)
    ensures LexLe(a, b) || LexLe(b, a)
  {
    if a != [] && b != [] && a[0] == b[0] {
      LexLeTotal(a[1..], b[1..]);
    }
  }

  lemma {:induction false} LexLeAntisymmetric(a: string, b: string)
    requires LexLe(a, b) && LexLe(b, a)
    ensures a == b
  {
    if a != [] && b != [] {
      LexLeAntisymmetric(a[1..], b[1..]);
      assert a == [a[0]] + a[1..] && b == [b[0]] + b[1..];
    }
  }

  lemma {:induction false} LexLeTransitive(a: string, b: string, c: string)
    requires LexLe(a, b) && LexLe(b, c)
    ensures LexLe(a, c)
  {
    if a != [] && b != [] && c != [] && a[0] == b[0] == c[0] {
      LexLeTransitive(a[1..], b[1..], c[1..]);
    }
  }

  /** Concatenation is associative; stated once so that large proofs need not rediscover it. */
  lemma ConcatAssociative<T>(a: seq<T>, b: seq<T>, c: seq<T>)
    ensures a + (b + c) == (a + b) + c
  {
  }
}
