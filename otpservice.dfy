/**
 * The browser-side OTP services, src/lib/features/otp/otp.service.ts and
 * lib/services/otp.service.ts: enrollment with its defaults, the QR code
 * for a key URI, and the wrapping of QR decoding failures. Both files
 * compute `generateToken` and `getTimeRemaining` as the catalog does
 * (`Catalog.GenerateToken`, `Countdown.ExpiresIn`).
 *
 * The QR raster is a function parameter, and so are the random ids and
 * the random bytes of a generated secret.
 */
module OtpServices {
  import opened Wrappers
  import opened Strings
  import opened ServiceTypes
  import Base32
  import Totp
  import Url
  import QrUploader

  /** The options of `enrollTOTP`; each may be missing. */
  datatype EnrollmentOptions = EnrollmentOptions(secret: Option<string>, issuer: Option<string>, account: Option<string>)

  /**
   * `enrollTOTP`. `random` stands for the bytes `generate_secret` draws,
   * `labelId` and `entryId` for the two separate `generateId()` calls (one
   * for the default label, one for the result's id), `render` for
   * `generate_qr_code_base64` and `nowMs` for `new Date()`.
   */
  function EnrollTotp(
    options: EnrollmentOptions, random: Totp.KeyBytes, labelId: string, entryId: string,
    render: string -> string, nowMs: int): (r: Enrollment)
    ensures options.secret.Some? && options.secret.value != "" ==> r.secret == options.secret.value
    ensures options.secret.None? || options.secret.value == "" ==> Base32.Decode(r.secret) == Some(random)
    ensures options.issuer.None? || options.issuer.value == "" ==> r.issuer == "TOTP Store"
    ensures options.issuer.Some? && options.issuer.value != "" ==> r.issuer == options.issuer.value
    ensures options.account.None? || options.account.value == "" ==> r.account == "Account " + labelId
    ensures options.account.Some? && options.account.value != "" ==> r.account == options.account.value
    ensures r.qrCodeUrl == Totp.TotpUri(r.secret, r.account, r.issuer)
    ensures r.qrCodeDataUrl == render(r.qrCodeUrl)
    ensures r.id == entryId && r.createdAt == nowMs
  {
    var secret := OrElse(options.secret, Totp.GenerateSecret(random));
    var issuer := OrElse(options.issuer, "TOTP Store");
    var account := OrElse(options.account, "Account " + labelId);
    var uri := Totp.TotpUri(secret, account, issuer);
    Enrollment(entryId, secret, issuer, account, uri, render(uri), nowMs)
  }

  lemma AlphabetIsUnreserved(s: string)
    requires forall i :: 0 <= i < |s| ==> Base32.InAlphabet(s[i])
    ensures forall i :: 0 <= i < |s| ==> Url.IsUnreserved(s[i])
  {
  }

  /**
   * The URI of an enrollment with a generated secret reads back, through
   * the uploader's parser, as the same secret, issuer and label, whenever
   * the label is not `.` or `..` (the default label never is).
   */
  lemma EnrollmentUriScansBack(
    options: EnrollmentOptions, random: Totp.KeyBytes, labelId: string, entryId: string,
    render: string -> string, nowMs: int)
    requires options.secret.None? || options.secret.value == ""
    requires options.account.Some? && options.account.value != "" ==> options.account.value != "." && options.account.value != ".."
    ensures var r := EnrollTotp(options, random, labelId, entryId, render, nowMs);
            QrUploader.ParseTotpUri(r.qrCodeUrl) == QrUploader.Decoded(r.secret, r.issuer, r.account)
  {
    EnrollmentIsReadable(options, random, labelId, entryId, render, nowMs);
    ReadableScansBack(EnrollTotp(options, random, labelId, entryId, render, nowMs));
  }

  /** An enrollment whose key URI the uploader's parser can read back. */
  ghost predicate Readable(r: Enrollment)
  {
    && (forall i :: 0 <= i < |r.secret| ==> Url.IsUnreserved(r.secret[i]))
    && r.account != "." && r.account != ".."
    && r.qrCodeUrl == Totp.TotpUri(r.secret, r.account, r.issuer)
  }

  /** An enrollment with a generated secret and a label other than `.` or `..` is readable. */
  lemma EnrollmentIsReadable(
    options: EnrollmentOptions, random: Totp.KeyBytes, labelId: string, entryId: string,
    render: string -> string, nowMs: int)
    requires options.secret.None? || options.secret.value == ""
    requires options.account.Some? && options.account.value != "" ==> options.account.value != "." && options.account.value != ".."
    ensures Readable(EnrollTotp(options, random, labelId, entryId, render, nowMs))
  {
    EnrollmentSecretIsUnreserved(options, random, labelId, entryId, render, nowMs);
    EnrollmentAccountIsNoDotSegment(options, random, labelId, entryId, render, nowMs);
  }

  /** A generated secret is made of unreserved URI characters. */
  lemma EnrollmentSecretIsUnreserved(
    options: EnrollmentOptions, random: Totp.KeyBytes, labelId: string, entryId: string,
    render: string -> string, nowMs: int)
    requires options.secret.None? || options.secret.value == ""
    ensures var secret := EnrollTotp(options, random, labelId, entryId, render, nowMs).secret;
            forall i :: 0 <= i < |secret| ==> Url.IsUnreserved(secret[i])
  {
    AlphabetIsUnreserved(Totp.GenerateSecret(random));
  }

  /** The enrolled label is never `.` or `..` unless the caller gave one of those. */
  lemma EnrollmentAccountIsNoDotSegment(
    options: EnrollmentOptions, random: Totp.KeyBytes, labelId: string, entryId: string,
    render: string -> string, nowMs: int)
    requires options.account.Some? && options.account.value != "" ==> options.account.value != "." && options.account.value != ".."
    ensures var account := EnrollTotp(options, random, labelId, entryId, render, nowMs).account;
            account != "." && account != ".."
  {
    if options.account.None? || options.account.value == "" {
      assert ("Account " + labelId)[0] == 'A';
    }
  }

  /** The key URI of a readable enrollment parses back to its secret, issuer and label. */
  lemma ReadableScansBack(r: Enrollment)
    requires Readable(r)
    ensures QrUploader.ParseTotpUri(r.qrCodeUrl) == QrUploader.Decoded(r.secret, r.issuer, r.account)
  {
    QrUploader.ParseOfTotpUri(r.secret, r.account, r.issuer);
  }

  /** `generateQrCode`: the picture of the key URI; label and issuer default to `''` only when they are left out. */
  function GenerateQrCode(secret: string, account: Option<string>, issuer: Option<string>, render: string -> string): string
  {
    render(Totp.TotpUri(secret, account.GetOr(""), issuer.GetOr("")))
  }

  /**
   * With label and issuer left out, `generateQrCode` draws the key URI
   * that reads back with the secret and with both fields empty.
   */
  lemma DefaultQrCodeScansBack(secret: string, render: string -> string)
    requires forall i :: 0 <= i < |secret| ==> Url.IsUnreserved(secret[i])
    ensures GenerateQrCode(secret, None, None, render) == render(Totp.TotpUri(secret, "", ""))
    ensures QrUploader.ParseTotpUri(Totp.TotpUri(secret, "", "")) == QrUploader.Decoded(secret, "", "")
  {
    QrUploader.ParseOfTotpUri(secret, "", "");
  }

  const DecodeFailurePrefix := "Failed to decode QR code: "

  /** `decodeQRCodeFromBase64`: the decoder's text, or its error rethrown behind a fixed prefix. */
  function DecodeQrCode(decoded: Result<string, string>): (r: Result<string, string>)
    ensures r.Ok? <==> decoded.Ok?
    ensures r.Ok? ==> r.value == decoded.value
    ensures r.Err? ==> StartsWith(r.error, DecodeFailurePrefix) && r.error[|DecodeFailurePrefix|..] == decoded.error
  {
    match decoded
    case Ok(text) => Ok(text)
    case Err(e) =>
      assert (DecodeFailurePrefix + e)[..|DecodeFailurePrefix|] == DecodeFailurePrefix;
      assert (DecodeFailurePrefix + e)[|DecodeFailurePrefix|..] == e;
      Err(DecodeFailurePrefix + e)
  }
}
