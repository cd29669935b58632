/**
 * The parts of URL handling the provisioning-URI round trip goes through:
 * Rust's `urlencoding::encode` (percent-encoding of every UTF-8 byte that
 * is not an unreserved character, section 2.3 of RFC 3986, with upper-case
 * hex digits as section 2.1 recommends), the browser's `decodeURIComponent`,
 * `application/x-www-form-urlencoded` query parsing behind `URLSearchParams`,
 * and dot-segment handling of the URL path parser.
 */
module Url {
  import opened Wrappers
  import opened Bytes
  import opened Strings
  import Utf8

  // ---------------------------------------------------------------------
  // Encoding
  // ---------------------------------------------------------------------

  /** The unreserved characters of section 2.3 of RFC 3986. */
  predicate IsUnreserved(c: char)
  {
    'A' <= c <= 'Z' || 'a' <= c <= 'z' || '0' <= c <= '9' || c == '-' || c == '.' || c == '_' || c == '~'
  }

  function HexDigit(v: nat): (c: char)
    requires v < 16
    ensures HexValue(c) == Some(v)
    ensures '0' <= c <= '9' || 'A' <= c <= 'F'
  {
    if v < 10 then (('0' as int) + v) as char else (('A' as int) + v - 10) as char
  }

  function HexValue(c: char): (r: Option<nat>)
    ensures r.Some? ==> r.value < 16
  {
    if '0' <= c <= '9' then Some((c as int) - ('0' as int))
    else if 'a' <= c <= 'f' then Some((c as int) - ('a' as int) + 10)
    else if 'A' <= c <= 'F' then Some((c as int) - ('A' as int) + 10)
    else None
  }

  /** `%XY` for one byte. */
  function EscapeByte(b: Byte): (s: string)
    ensures |s| == 3 && s[0] == '%'
  {
    ['%', HexDigit(b / 16), HexDigit(b % 16)]
  }

  function EscapeBytes(bs: seq<Byte>): (s: string)
    ensures |s| == 3 * |bs|
  {
    if bs == [] then [] else EscapeByte(bs[0]) + EscapeBytes(bs[1..])
  }

  /** What `urlencoding::encode` writes for one character. */
  function EncodeChar(c: char): (r: string)
    ensures |r| >= 1
  {
    if IsUnreserved(c) then [c] else EscapeBytes(Utf8.EncodeChar(c))
  }

  /** Every character of an encoding is unreserved, `%`, or an upper-case hex digit. */
  predicate IsEncodedChar(c: char)
  {
    IsUnreserved(c) || c == '%'
  }

  /** `urlencoding::encode`: the output never holds a delimiter such as `/ ? & # = +` or a space. */
  function PercentEncode(s: string): (r: string)
    ensures forall i :: 0 <= i < |r| ==> IsEncodedChar(r[i])
    ensures |r| >= |s|
  {
    if s == [] then [] else
      EscapeBytesChars(Utf8.EncodeChar(s[0]));
      EncodeChar(s[0]) + PercentEncode(s[1..])
  }

  predicate IsUpperHex(c: char) { '0' <= c <= '9' || 'A' <= c <= 'F' }

  lemma {:induction false} EscapeBytesChars(bs: seq<Byte>)
    ensures forall i :: 0 <= i < |EscapeBytes(bs)| ==> EscapeBytes(bs)[i] == '%' || IsUpperHex(EscapeBytes(bs)[i])
  {
    if bs != [] {
      EscapeBytesChars(bs[1..]);
    }
  }

  /**
   * The shape both encoders share: characters keep chooses (other than
   * `%`) stand for themselves, every other character becomes the escapes
   * of its UTF-8 bytes.
   */
  function EncodeWith(s: string, keep: char -> bool): (r: string)
    ensures forall i :: 0 <= i < |r| ==> r[i] == '%' || IsUpperHex(r[i]) || keep(r[i])
  {
    if s == [] then [] else
      EscapeBytesChars(Utf8.EncodeChar(s[0]));
      (if keep(s[0]) && s[0] != '%' then [s[0]] else EscapeBytes(Utf8.EncodeChar(s[0]))) + EncodeWith(s[1..], keep)
  }

  lemma {:induction false} PercentEncodeIsEncodeWith(s: string)
    ensures PercentEncode(s) == EncodeWith(s, IsUnreserved)
  {
    if s != [] {
      PercentEncodeIsEncodeWith(s[1..]);
    }
  }

  // ---------------------------------------------------------------------
  // decodeURIComponent
  // ---------------------------------------------------------------------

  /** The byte a well-formed `%XY` escape at the start of s stands for. */
  function EscapeAt(s: string): Option<Byte>
  {
    if |s| >= 3 && s[0] == '%' && HexValue(s[1]).Some? && HexValue(s[2]).Some?
    then Some(16 * HexValue(s[1]).value + HexValue(s[2]).value)
    else None
  }

  /** Bytes of the escapes that start s, one after another, at most max of them. */
  function LeadingEscapes(s: string, max: nat): (bs: seq<Byte>)
    ensures |bs| <= max && 3 * |bs| <= |s|
  {
    if max == 0 then []
    else match EscapeAt(s)
      case None => []
      case Some(b) => [b] + LeadingEscapes(s[3..], max - 1)
  }

  /**
   * `decodeURIComponent`: characters other than `%` stand for themselves;
   * a run of escapes must spell well-formed UTF-8, character by character.
   * None stands for the URIError it throws otherwise.
   */
  function PercentDecode(s: string): Option<string>
    decreases |s|
  {
    if s == [] then Some([])
    else if s[0] != '%' then
      match PercentDecode(s[1..])
      case None => None
      case Some(r) => Some([s[0]] + r)
    else
      match Utf8.DecodeFirst(LeadingEscapes(s, 4))
      case None => None
      case Some((c, k)) =>
        match PercentDecode(s[3 * k..])
        case None => None
        case Some(r) => Some([c] + r)
  }

  lemma {:induction false} LeadingEscapesOfEscapes(bs: seq<Byte>, rest: string, max: nat)
    requires |bs| <= max
    ensures LeadingEscapes(EscapeBytes(bs) + rest, max) == bs + LeadingEscapes(rest, max - |bs|)
  {
    if bs != [] {
      var b, bs' := bs[0], bs[1..];
      var more := EscapeBytes(bs') + rest;
      EscapeBytesCons(bs, rest);
      LeadingEscapesCons(b, more, max);
      LeadingEscapesOfEscapes(bs', rest, max - 1);
      PrependAppend(bs, LeadingEscapes(rest, max - |bs|));
    } else {
      assert EscapeBytes(bs) + rest == rest;
      assert bs + LeadingEscapes(rest, max - |bs|) == LeadingEscapes(rest, max);
    }
  }

  /** The escapes of a non-empty byte string, followed by more text, start with the first byte's escape. */
  lemma EscapeBytesCons(bs: seq<Byte>, rest: string)
    requires bs != []
    ensures EscapeBytes(bs) + rest == EscapeByte(bs[0]) + (EscapeBytes(bs[1..]) + rest)
  {
    ConcatAssociative(EscapeByte(bs[0]), EscapeBytes(bs[1..]), rest);
  }

  /** Splitting off the first byte of a non-empty byte string in front of more bytes. */
  lemma PrependAppend(bs: seq<Byte>, tail: seq<Byte>)
    requires bs != []
    ensures bs + tail == [bs[0]] + (bs[1..] + tail)
  {
    ConcatAssociative([bs[0]], bs[1..], tail);
    assert bs == [bs[0]] + bs[1..];
  }

  /** One escape in front is read as its byte, then the reading goes on after it. */
  lemma LeadingEscapesCons(b: Byte, more: string, max: nat)
    requires max >= 1
    ensures LeadingEscapes(EscapeByte(b) + more, max) == [b] + LeadingEscapes(more, max - 1)
  {
    var s := EscapeByte(b) + more;
    assert s[..3] == EscapeByte(b);
    assert EscapeAt(s) == Some(b);
    assert s[3..] == more;
  }

  /** Decoding undoes any encoding of that shape, whatever characters it keeps. */
  lemma {:induction false} PercentDecodeOfEncodeWith(s: string, keep: char -> bool)
    ensures PercentDecode(EncodeWith(s, keep)) == Some(s)
  {
    if s != [] {
      var c := s[0];
      var t := EncodeWith(s, keep);
      var rest := EncodeWith(s[1..], keep);
      PercentDecodeOfEncodeWith(s[1..], keep);
      if keep(c) && c != '%' {
        assert t[1..] == rest;
      } else {
        var u := Utf8.EncodeChar(c);
        assert t == EscapeBytes(u) + rest;
        LeadingEscapesOfEscapes(u, rest, 4);
        Utf8.DecodeFirstOfEncodeChar(c, LeadingEscapes(rest, 4 - |u|));
        assert t[3 * |u|..] == rest;
      }
      assert s == [c] + s[1..];
    }
  }

  /** `decodeURIComponent(urlencoding::encode(s)) == s` for every string, ASCII or not. */
  lemma PercentDecodeOfEncode(s: string)
    ensures PercentDecode(PercentEncode(s)) == Some(s)
  {
    PercentEncodeIsEncodeWith(s);
    PercentDecodeOfEncodeWith(s, IsUnreserved);
  }

  /** Text made only of unreserved characters decodes to itself. */
  lemma PercentDecodeOfUnreserved(s: string)
    requires forall i :: 0 <= i < |s| ==> IsUnreserved(s[i])
    ensures PercentDecode(s) == Some(s)
    ensures FormDecode(s) == Some(s)
  {
    UnreservedEncodesToItself(s);
    PercentDecodeOfEncode(s);
    assert ReplacePlus(s) == s;
  }

  lemma {:induction false} UnreservedEncodesToItself(s: string)
    requires forall i :: 0 <= i < |s| ==> IsUnreserved(s[i])
    ensures PercentEncode(s) == s
  {
    if s != [] {
      UnreservedEncodesToItself(s[1..]);
      assert s == [s[0]] + s[1..];
    }
  }

  /** An escape spells `%2e` (in either case) exactly for the byte of `.`. */
  lemma EscapedDot(b: Byte)
    ensures Lower(EscapeByte(b)) == "%2e" <==> b == 0x2E
  {
    var e := EscapeByte(b);
    if Lower(e) == "%2e" {
      assert LowerChar(e[1]) == '2' && LowerChar(e[2]) == 'e';
      assert e[1] == '2' && e[2] == 'E';
      assert HexValue(e[1]) == Some(2) && HexValue(e[2]) == Some(14);
    }
  }

  /** An encoding never starts with `%2E` (in either case): `.` is unreserved and never escaped. */
  lemma NoLeadingEscapedDot(s: string)
    requires |PercentEncode(s)| >= 3
    ensures Lower(PercentEncode(s)[..3]) != "%2e"
  {
    var t := PercentEncode(s);
    if IsUnreserved(s[0]) {
      assert t[0] == s[0] && Lower(t[..3])[0] == LowerChar(s[0]) != '%';
    } else {
      var u := Utf8.EncodeChar(s[0]);
      assert u[0] != 0x2E by {
        if |u| == 1 { assert u[0] == s[0] as int; }
      }
      assert t[..3] == EscapeByte(u[0]);
      EscapedDot(u[0]);
    }
  }

  /** The encoding of a label other than `.` and `..` is never a dot segment of a URL path. */
  lemma EncodedNotDotSegment(labelText: string)
    requires labelText != "." && labelText != ".."
    ensures !IsSingleDot(PercentEncode(labelText)) && !IsDoubleDot(PercentEncode(labelText))
  {
    var t := PercentEncode(labelText);
    if labelText == [] {
      assert t == [] && Lower(t) == [];
    } else {
      var c := labelText[0];
      var rest := PercentEncode(labelText[1..]);
      assert t == EncodeChar(c) + rest;
      assert Lower(t)[0] == LowerChar(t[0]);
      if t[0] == '.' {
        assert IsUnreserved(c) && c == '.' && t[1..] == rest;
        assert Lower(t)[1..] == Lower(rest);
        assert labelText == [c] + labelText[1..];
        DottedTailNotDotSegment(labelText[1..]);
      } else if |t| >= 3 {
        NoLeadingEscapedDot(labelText);
        assert Lower(t)[..3] == Lower(t[..3]);
      }
      NotDotSegment(t);
    }
  }

  /**
   * A segment is no dot segment when it does not start with `.` followed by
   * nothing, `.` or an escaped dot, and does not start with an escaped dot either.
   */
  lemma NotDotSegment(seg: string)
    requires |seg| >= 1
    requires Lower(seg)[0] == '.' ==> Lower(seg)[1..] !in {"", ".", "%2e"}
    requires Lower(seg)[0] != '.' ==> |seg| < 3 || Lower(seg)[..3] != "%2e"
    ensures !IsSingleDot(seg) && !IsDoubleDot(seg)
  {
    var l := Lower(seg);
    if l[0] == '.' {
      assert l == [l[0]] + l[1..];
      assert l != "." && l != ".." && l != ".%2e";
      assert l[0] != '%';
    } else {
      assert l != "." && l != ".." && l != ".%2e";
      if |l| >= 3 {
        assert l[..3] != "%2e";
      }
    }
  }

  /**
   * After a leading `.`, the encoding of the rest of a label other than
   * `.` and `..` is neither empty nor `.` nor an escaped dot.
   */
  lemma DottedTailNotDotSegment(tail: string)
    requires tail != [] && tail != "."
    ensures Lower(PercentEncode(tail)) !in {"", ".", "%2e"}
  {
    var r := PercentEncode(tail);
    assert r == EncodeChar(tail[0]) + PercentEncode(tail[1..]);
    if |r| == 1 {
      assert tail == [tail[0]];
      assert LowerChar(tail[0]) != '.' by {
        assert tail[0] != '.';
      }
      assert Lower(r)[0] == LowerChar(r[0]);
    }
    if |r| == 3 {
      NoLeadingEscapedDot(tail);
      assert r[..3] == r;
    }
  }

  // ---------------------------------------------------------------------
  // Splitting
  // ---------------------------------------------------------------------

  /** `s.split(sep)`. */
  function Split(s: string, sep: char): (parts: seq<string>)
    ensures |parts| >= 1
    decreases |s|
  {
    var first := FirstField(s, sep);
    if |first| == |s| then [s] else [first] + Split(s[|first| + 1..], sep)
  }

  function Join(parts: seq<string>, sep: char): string
  {
    if parts == [] then [] else if |parts| == 1 then parts[0] else parts[0] + [sep] + Join(parts[1..], sep)
  }

  lemma SplitWithoutSeparator(s: string, sep: char)
    requires sep !in s
    ensures Split(s, sep) == [s]
  {
    assert forall i :: 0 <= i < |s| ==> s[i] != sep;
  }

  /** Everything before the first character that satisfies stop. */
  function TakeUntil(s: string, stop: char -> bool): (r: string)
    ensures StartsWith(s, r)
    ensures forall i :: 0 <= i < |r| ==> !stop(r[i])
    ensures |r| < |s| ==> stop(s[|r|])
  {
    if s == [] || stop(s[0]) then [] else [s[0]] + TakeUntil(s[1..], stop)
  }

  // ---------------------------------------------------------------------
  // Query strings (application/x-www-form-urlencoded)
  // ---------------------------------------------------------------------

  /** The name/value pairs of a query in order, as `URLSearchParams` holds them. */
  type Params = seq<(string, string)>

  /** `searchParams.get(name)`: the value of the first pair with that name, None for null. */
  function Get(ps: Params, name: string): (r: Option<string>)
    ensures r.Some? <==> exists i :: 0 <= i < |ps| && ps[i].0 == name
  {
    if ps == [] then None
    else if ps[0].0 == name then Some(ps[0].1)
    else
      assert forall i :: 0 < i < |ps| ==> ps[i] == ps[1..][i - 1];
      Get(ps[1..], name)
  }

  /** `searchParams.has(name)`. */
  predicate Has(ps: Params, name: string)
  {
    Get(ps, name).Some?
  }

  function ReplacePlus(s: string): (r: string)
    ensures |r| == |s|
  {
    seq(|s|, i requires 0 <= i < |s| => if s[i] == '+' then ' ' else s[i])
  }

  /** Decoding of one name or value: `+` is a space, then escapes are decoded. */
  function FormDecode(s: string): Option<string>
  {
    PercentDecode(ReplacePlus(s))
  }

  /** One `name=value` piece; a piece without `=` has the empty value. */
  function ParsePair(piece: string): Option<(string, string)>
  {
    var name := FirstField(piece, '=');
    var value := if |name| < |piece| then piece[|name| + 1..] else "";
    match (FormDecode(name), FormDecode(value))
    case (Some(n), Some(v)) => Some((n, v))
    case _ => None
  }

  function ParsePieces(pieces: seq<string>): Option<Params>
  {
    if pieces == [] then Some([])
    else
      var rest := ParsePieces(pieces[1..]);
      if pieces[0] == [] then rest
      else match (ParsePair(pieces[0]), rest)
        case (Some(p), Some(ps)) => Some([p] + ps)
        case _ => None
  }

  lemma ParsePiecesCons(piece: string, rest: seq<string>)
    requires piece != [] && ParsePair(piece).Some? && ParsePieces(rest).Some?
    ensures ParsePieces([piece] + rest) == Some([ParsePair(piece).value] + ParsePieces(rest).value)
  {
    assert ([piece] + rest)[1..] == rest;
  }

  /** The pairs of a query string (without its `?`). */
  function ParseQuery(q: string): Option<Params>
  {
    ParsePieces(Split(q, '&'))
  }

  lemma {:induction false} FirstFieldOfSeparated(a: string, sep: char, b: string)
    requires sep !in a
    ensures FirstField(a + [sep] + b, sep) == a
  {
    if a != [] {
      FirstFieldOfSeparated(a[1..], sep, b);
      assert (a + [sep] + b)[1..] == a[1..] + [sep] + b;
    }
  }

  /** Splitting a join of separator-free parts gives the parts back. */
  lemma {:induction false} SplitJoin(parts: seq<string>, sep: char)
    requires |parts| >= 1
    requires forall i :: 0 <= i < |parts| ==> sep !in parts[i]
    ensures Split(Join(parts, sep), sep) == parts
  {
    if |parts| == 1 {
      SplitWithoutSeparator(parts[0], sep);
    } else {
      var rest := Join(parts[1..], sep);
      var s := Join(parts, sep);
      assert s == parts[0] + [sep] + rest;
      FirstFieldOfSeparated(parts[0], sep, rest);
      assert s[|parts[0]| + 1..] == rest;
      SplitJoin(parts[1..], sep);
    }
  }

  /** Characters the form serializer writes as they are: ASCII letters and digits and `* - . _`. */
  predicate IsFormSafe(c: char)
  {
    'A' <= c <= 'Z' || 'a' <= c <= 'z' || '0' <= c <= '9' || c == '*' || c == '-' || c == '.' || c == '_'
  }

  predicate KeptByForm(c: char) { c == ' ' || IsFormSafe(c) }

  function SpaceToPlus(s: string): (r: string)
    ensures |r| == |s|
  {
    seq(|s|, i requires 0 <= i < |s| => if s[i] == ' ' then '+' else s[i])
  }

  /**
   * The `application/x-www-form-urlencoded` serializer behind
   * `URLSearchParams.toString()` for one name or value: a space becomes
   * `+`, the safe characters stay, every other byte is escaped.
   */
  function FormEncode(s: string): (r: string)
    ensures forall i :: 0 <= i < |r| ==> r[i] != '&' && r[i] != '=' && r[i] != '#'
  {
    SpaceToPlus(EncodeWith(s, KeptByForm))
  }

  /** Form decoding undoes form encoding. */
  lemma FormDecodeOfEncode(s: string)
    ensures FormDecode(FormEncode(s)) == Some(s)
  {
    var t := EncodeWith(s, KeptByForm);
    assert ReplacePlus(SpaceToPlus(t)) == t;
    PercentDecodeOfEncodeWith(s, KeptByForm);
  }

  function SerializePair(p: (string, string)): (r: string)
    ensures '&' !in r && '=' in r
  {
    var r := FormEncode(p.0) + "=" + FormEncode(p.1);
    assert r[|FormEncode(p.0)|] == '=';
    r
  }

  function SerializedPieces(ps: Params): (r: seq<string>)
    ensures |r| == |ps|
    ensures forall i :: 0 <= i < |ps| ==> r[i] == SerializePair(ps[i])
  {
    if ps == [] then [] else [SerializePair(ps[0])] + SerializedPieces(ps[1..])
  }

  /** `URLSearchParams.toString()`: the serialized pairs joined by `&`. */
  function Serialize(ps: Params): string
  {
    Join(SerializedPieces(ps), '&')
  }

  lemma ParsePairOfSerialized(p: (string, string))
    ensures ParsePair(SerializePair(p)) == Some(p)
  {
    var (n, v) := p;
    assert SerializePair(p) == FormEncode(n) + ['='] + FormEncode(v);
    FirstFieldOfSeparated(FormEncode(n), '=', FormEncode(v));
    FormDecodeOfEncode(n);
    FormDecodeOfEncode(v);
  }

  lemma {:induction false} ParsePiecesOfSerialized(ps: Params)
    ensures ParsePieces(SerializedPieces(ps)) == Some(ps)
  {
    if ps != [] {
      var head := SerializePair(ps[0]);
      var rest := SerializedPieces(ps[1..]);
      assert SerializedPieces(ps) == [head] + rest;
      assert head != [];
      ParsePairOfSerialized(ps[0]);
      ParsePiecesOfSerialized(ps[1..]);
      ParsePiecesCons(head, rest);
      assert ps == [ps[0]] + ps[1..];
    }
  }

  /** Parsing a serialized parameter list gives back every pair, in order. */
  lemma ParseQueryOfSerialize(ps: Params)
    ensures ParseQuery(Serialize(ps)) == Some(ps)
  {
    if ps == [] {
      assert Split("", '&') == [""];
    } else {
      SplitJoin(SerializedPieces(ps), '&');
    }
    ParsePiecesOfSerialized(ps);
  }

  /** The characters `encodeURIComponent` leaves alone: ASCII letters and digits and `- _ . ! ~ * ' ( )`. */
  predicate IsUriComponentSafe(c: char)
  {
    'A' <= c <= 'Z' || 'a' <= c <= 'z' || '0' <= c <= '9'
    || c == '-' || c == '_' || c == '.' || c == '!' || c == '~' || c == '*' || c == '\'' || c == '(' || c == ')'
  }

  /** `encodeURIComponent`: no `&`, `=` or `+` survives, so the result is one form field. */
  function EncodeUriComponent(s: string): (r: string)
    ensures forall i :: 0 <= i < |r| ==> r[i] != '&' && r[i] != '=' && r[i] != '+'
  {
    EncodeWith(s, IsUriComponentSafe)
  }

  /** A form parser reads back what `encodeURIComponent` wrote. */
  lemma FormDecodeOfUriComponent(s: string)
    ensures FormDecode(EncodeUriComponent(s)) == Some(s)
  {
    var t := EncodeUriComponent(s);
    assert ReplacePlus(t) == t;
    PercentDecodeOfEncodeWith(s, IsUriComponentSafe);
  }

  // ---------------------------------------------------------------------
  // Paths
  // ---------------------------------------------------------------------

  predicate IsSingleDot(seg: string)
  {
    seg == "." || Lower(seg) == "%2e"
  }

  predicate IsDoubleDot(seg: string)
  {
    var l := Lower(seg);
    l == ".." || l == ".%2e" || l == "%2e." || l == "%2e%2e"
  }

  /**
   * The path list the URL parser builds from the segments after the host:
   * `.` segments vanish, `..` drops the segment before it, and either one in
   * last place leaves an empty last segment.
   */
  function NormalizeSegments(done: seq<string>, todo: seq<string>): seq<string>
    decreases |todo|
  {
    if todo == [] then done
    else
      var seg := todo[0];
      var last := |todo| == 1;
      if IsDoubleDot(seg) then
        var shortened := if done == [] then [] else done[..|done| - 1];
        NormalizeSegments(if last then shortened + [""] else shortened, todo[1..])
      else if IsSingleDot(seg) then
        NormalizeSegments(if last then done + [""] else done, todo[1..])
      else
        NormalizeSegments(done + [seg], todo[1..])
  }

  /** `url.pathname.substring(1)` for the path text that follows the host and its `/`. */
  function PathAfterSlash(pathText: string): string
  {
    Join(NormalizeSegments([], Split(pathText, '/')), '/')
  }

  /** A single segment that is not a dot segment comes through unchanged. */
  lemma PathOfPlainSegment(seg: string)
    requires '/' !in seg && !IsSingleDot(seg) && !IsDoubleDot(seg)
    ensures PathAfterSlash(seg) == seg
  {
    SplitWithoutSeparator(seg, '/');
    assert NormalizeSegments([], [seg]) == NormalizeSegments([seg], []) == [seg];
  }
}
