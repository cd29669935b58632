/**
 * The QR-code upload of components/totp/form/qr-code-uploader.tsx: the
 * text decoded from an image is read as an `otpauth://totp/` key URI and
 * split into secret, issuer and label; on paste, the first clipboard item
 * that is an image with a file is the one decoded.
 *
 * The image decoder is a parameter (its outcome); the URL parser is
 * modelled for the shape of URI the uploader accepts: the path up to `?`
 * or `#`, the query up to `#`.
 */
module QrUploader {
  import opened Wrappers
  import opened Strings
  import opened Url
  import Totp

  /** What the uploader does with an image: hand the three fields to the form, or alert. */
  datatype Scan =
    | Decoded(secret: string, issuer: string, account: string)
    | NotTotp     // "Decoded content is not a valid TOTP URI"
    | Unreadable  // the decoder or the URL parsing threw: "Failed to decode QR code"

  /** The path text of the URI: everything after the prefix up to the query or the fragment. */
  function PathText(afterPrefix: string): (path: string)
    ensures '?' !in path && '#' !in path
  {
    TakeUntil(afterPrefix, c => c == '?' || c == '#')
  }

  /** The query text of the URI, without its `?`: empty when there is none. */
  function QueryText(afterPrefix: string): (query: string)
    ensures '#' !in query
  {
    var path := PathText(afterPrefix);
    if |path| < |afterPrefix| && afterPrefix[|path|] == '?' then TakeUntil(afterPrefix[|path| + 1..], c => c == '#') else ""
  }

  /**
   * The `onload` handler for text the decoder produced: a key URI gives
   * its `secret` and `issuer` parameters (`''` when absent or empty) and
   * the percent-decoded path after its `/`.
   */
  function ParseTotpUri(text: string): (scan: Scan)
    ensures scan.NotTotp? <==> !StartsWith(text, Totp.UriPrefix)
  {
    if !StartsWith(text, Totp.UriPrefix) then NotTotp
    else
      var afterPrefix := text[|Totp.UriPrefix|..];
      match (ParseQuery(QueryText(afterPrefix)), PercentDecode(PathAfterSlash(PathText(afterPrefix))))
      case (Some(ps), Some(account)) => Decoded(OrElse(Get(ps, "secret"), ""), OrElse(Get(ps, "issuer"), ""), account)
      case _ => Unreadable
  }

  /** The whole `onload` handler: a decoder failure is caught and alerted. */
  function HandleImage(decoded: Result<string, string>): (scan: Scan)
    ensures decoded.Err? ==> scan == Unreadable
    ensures decoded.Ok? ==> scan == ParseTotpUri(decoded.value)
  {
    match decoded
    case Err(_) => Unreadable
    case Ok(text) => ParseTotpUri(text)
  }

  // ---------------------------------------------------------------------
  // Round trip with generate_totp_uri
  // ---------------------------------------------------------------------

  lemma {:induction false} TakeUntilPrefix(a: string, b: string, stop: char -> bool)
    requires forall i :: 0 <= i < |a| ==> !stop(a[i])
    requires b != [] && stop(b[0])
    ensures TakeUntil(a + b, stop) == a
    decreases |a|
  {
    if a == [] {
      assert (a + b)[0] == b[0];
    } else {
      assert (a + b)[1..] == a[1..] + b;
      TakeUntilPrefix(a[1..], b, stop);
    }
  }

  lemma {:induction false} TakeUntilWhole(a: string, stop: char -> bool)
    requires forall i :: 0 <= i < |a| ==> !stop(a[i])
    ensures TakeUntil(a, stop) == a
    decreases |a|
  {
    if a != [] {
      TakeUntilWhole(a[1..], stop);
    }
  }

  /** A `name=value` piece whose name and value need no form decoding beyond escapes. */
  lemma ParsePlainPair(name: string, value: string)
    requires name == "secret" || name == "issuer"
    requires '+' !in value
    requires PercentDecode(value).Some?
    ensures ParsePair(name + "=" + value) == Some((name, PercentDecode(value).value))
  {
    SeparatedPair(name, value);
    assert forall i :: 0 <= i < |name| ==> IsUnreserved(name[i]);
    PercentDecodeOfUnreserved(name);
    WithoutPlus(value);
  }

  lemma SeparatedPair(name: string, value: string)
    requires '=' !in name
    ensures var piece := name + "=" + value;
            FirstField(piece, '=') == name && |name| < |piece| && piece[|name| + 1..] == value
  {
    var piece := name + "=" + value;
    assert piece == name + ['='] + value;
    FirstFieldOfSeparated(name, '=', value);
  }

  lemma WithoutPlus(value: string)
    requires '+' !in value
    ensures FormDecode(value) == PercentDecode(value)
  {
    assert ReplacePlus(value) == value;
  }

  /** Two non-empty `&`-free pieces joined by `&` parse as the two pairs they spell. */
  lemma ParseTwoPieces(a: string, b: string)
    requires a != [] && b != [] && '&' !in a && '&' !in b
    requires ParsePair(a).Some? && ParsePair(b).Some?
    ensures ParseQuery(Join([a, b], '&')) == Some([ParsePair(a).value, ParsePair(b).value])
  {
    SplitJoin([a, b], '&');
    ParsePiecesCons(b, []);
    assert [b] + [] == [b];
    ParsePiecesCons(a, [b]);
    assert [a] + [b] == [a, b];
    var pa, pb := ParsePair(a).value, ParsePair(b).value;
    assert [pa] + ([pb] + []) == [pa, pb];
  }

  /** The query template of a key URI is its two fields joined by `&`. */
  lemma QueryFields(x: string, y: string)
    ensures "secret=" + x + "&issuer=" + y == Join(["secret" + "=" + x, "issuer" + "=" + y], '&')
  {
    var a := "secret" + "=" + x;
    var b := "issuer" + "=" + y;
    assert ["secret" + "=" + x, "issuer" + "=" + y][1..] == [b];
    assert Join([a, b], '&') == a + ['&'] + b;
  }

  /** The query of a key URI reads back as its two parameters. */
  lemma ParseUriQuery(secret: string, issuer: string)
    requires forall i :: 0 <= i < |secret| ==> IsUnreserved(secret[i])
    ensures ParseQuery("secret=" + secret + "&issuer=" + PercentEncode(issuer)) == Some([("secret", secret), ("issuer", issuer)])
  {
    var encoded := PercentEncode(issuer);
    PercentDecodeOfUnreserved(secret);
    PercentDecodeOfEncode(issuer);
    assert '+' !in secret && '&' !in secret;
    assert '+' !in encoded && '&' !in encoded;
    ParseQueryOfFields(secret, encoded, issuer);
  }

  lemma ParseQueryOfFields(secret: string, encoded: string, issuer: string)
    requires '+' !in secret && '&' !in secret && PercentDecode(secret) == Some(secret)
    requires '+' !in encoded && '&' !in encoded && PercentDecode(encoded) == Some(issuer)
    ensures ParseQuery("secret=" + secret + "&issuer=" + encoded) == Some([("secret", secret), ("issuer", issuer)])
  {
    var a := "secret" + "=" + secret;
    var b := "issuer" + "=" + encoded;
    ParsePlainPair("secret", secret);
    ParsePlainPair("issuer", encoded);
    assert '&' !in a && '&' !in b;
    QueryFields(secret, encoded);
    ParseTwoPieces(a, b);
  }

  /**
   * Reading the URI `generate_totp_uri(secret, label, issuer)` gives back
   * the secret, the issuer and the label, for a secret of unreserved
   * characters (Base32 among them) and any label but `.` and `..`, which
   * URL path normalisation rewrites.
   */
  lemma ParseOfTotpUri(secret: string, account: string, issuer: string)
    requires forall i :: 0 <= i < |secret| ==> IsUnreserved(secret[i])
    requires account != "." && account != ".."
    ensures ParseTotpUri(Totp.TotpUri(secret, account, issuer)) == Decoded(secret, issuer, account)
  {
    var encoded := PercentEncode(account);
    var uri := Totp.TotpUri(secret, account, issuer);
    UriParts(secret, account, issuer);
    ParseUriQuery(secret, issuer);
    EncodedNotDotSegment(account);
    PathOfPlainSegment(encoded);
    PercentDecodeOfEncode(account);
    var ps := [("secret", secret), ("issuer", issuer)];
    assert Get(ps, "secret") == Some(secret);
    assert Get(ps, "issuer") == Some(issuer);
    ParseTotpUriOfParts(uri, ps, account);
  }

  /** A key URI whose query and path read as ps and account scans as their secret, issuer and label. */
  lemma ParseTotpUriOfParts(text: string, ps: Params, account: string)
    requires StartsWith(text, Totp.UriPrefix)
    requires ParseQuery(QueryText(text[|Totp.UriPrefix|..])) == Some(ps)
    requires PercentDecode(PathAfterSlash(PathText(text[|Totp.UriPrefix|..]))) == Some(account)
    ensures ParseTotpUri(text) == Decoded(OrElse(Get(ps, "secret"), ""), OrElse(Get(ps, "issuer"), ""), account)
  {
  }

  /** The path text of a generated URI is the encoded label, and its query text is the two parameters. */
  lemma UriParts(secret: string, account: string, issuer: string)
    requires forall i :: 0 <= i < |secret| ==> IsUnreserved(secret[i])
    ensures var afterPrefix := Totp.TotpUri(secret, account, issuer)[|Totp.UriPrefix|..];
            && PathText(afterPrefix) == PercentEncode(account)
            && QueryText(afterPrefix) == "secret=" + secret + "&issuer=" + PercentEncode(issuer)
  {
    var encoded := PercentEncode(account);
    var query := "secret=" + secret + "&issuer=" + PercentEncode(issuer);
    UriShape(secret, account, issuer);
    assert '?' !in encoded && '#' !in encoded;
    QueryHasNoHash(secret, PercentEncode(issuer));
    SplitAtQuery(encoded, query);
  }

  /** A generated URI is the prefix, the encoded label, `?` and the query. */
  lemma UriShape(secret: string, account: string, issuer: string)
    ensures Totp.TotpUri(secret, account, issuer)[|Totp.UriPrefix|..]
         == PercentEncode(account) + ("?" + ("secret=" + secret + "&issuer=" + PercentEncode(issuer)))
  {
    var e, f := PercentEncode(account), PercentEncode(issuer);
    var rest := e + "?secret=" + secret + "&issuer=" + f;
    assert Totp.TotpUri(secret, account, issuer) == Totp.UriPrefix + rest;
    DropPrefix(Totp.UriPrefix, rest);
    Reassociate(e, secret, f);
  }

  lemma DropPrefix(prefix: string, rest: string)
    ensures (prefix + rest)[|prefix|..] == rest
  {
  }

  lemma Reassociate(e: string, x: string, y: string)
    ensures e + "?secret=" + x + "&issuer=" + y == e + ("?" + ("secret=" + x + "&issuer=" + y))
  {
    assert "?secret=" == "?" + "secret=";
  }

  /** Text of the form `path?query` splits at its `?` when neither part holds a `?` or a `#` where it matters. */
  lemma SplitAtQuery(path: string, query: string)
    requires '?' !in path && '#' !in path && '#' !in query
    ensures PathText(path + ("?" + query)) == path && QueryText(path + ("?" + query)) == query
  {
    var text := path + ("?" + query);
    TakeUntilPrefix(path, "?" + query, c => c == '?' || c == '#');
    assert text[|path|] == '?';
    assert text[|path| + 1..] == query;
    TakeUntilWhole(query, c => c == '#');
  }

  lemma QueryHasNoHash(secret: string, encoded: string)
    requires forall i :: 0 <= i < |secret| ==> IsUnreserved(secret[i])
    requires forall i :: 0 <= i < |encoded| ==> IsEncodedChar(encoded[i])
    ensures '#' !in "secret=" + secret + "&issuer=" + encoded
  {
    assert '#' !in secret && '#' !in encoded;
  }

  /** A key URI without a query gives an empty secret and issuer. */
  lemma MissingParametersAreEmpty(path: string)
    requires '?' !in path && '#' !in path
    requires PercentDecode(PathAfterSlash(path)).Some?
    ensures ParseTotpUri(Totp.UriPrefix + path) == Decoded("", "", PercentDecode(PathAfterSlash(path)).value)
  {
    var text := Totp.UriPrefix + path;
    assert text[|Totp.UriPrefix|..] == path;
    TakeUntilWhole(path, c => c == '?' || c == '#');
    assert QueryText(path) == "";
    assert Split("", '&') == [""];
  }

  // ---------------------------------------------------------------------
  // Paste
  // ---------------------------------------------------------------------

  /** A clipboard item: its MIME type and the file `getAsFile` yields, if any. */
  datatype ClipboardItem<F> = ClipboardItem(kind: string, file: Option<F>)

  predicate IsImageFile<F>(item: ClipboardItem<F>)
  {
    Contains(item.kind, "image") && item.file.Some?
  }

  /**
   * `handlePaste`: the index of the item whose file is decoded, the first
   * one that is an image and yields a file; None when there is none.
   */
  method FirstImage<F>(items: seq<ClipboardItem<F>>) returns (chosen: Option<nat>)
    ensures chosen.Some? ==> chosen.value < |items| && IsImageFile(items[chosen.value])
    ensures chosen.Some? ==> forall k :: 0 <= k < chosen.value ==> !IsImageFile(items[k])
    ensures chosen.None? ==> forall k :: 0 <= k < |items| ==> !IsImageFile(items[k])
  {
    chosen := None;
    var i := 0;
    while i < |items|
      invariant 0 <= i <= |items|
      invariant forall k :: 0 <= k < i ==> !IsImageFile(items[k])
    {
      var item := items[i];
      if Contains(item.kind, "image") {
        var file := item.file;
        if file.Some? {
          chosen := Some(i);
          break;
        }
      }
      i := i + 1;
    }
  }
}
