/**
 * The `Totp` entity of lib/entities/totp.ts: the record the application
 * builds from a stored row. The row's metadata is JSON that may be null
 * and may lack any of its fields.
 */
module TotpEntity {
  import opened Wrappers
  import opened Strings

  /** The JSON `metadata` column; each field may be missing. */
  datatype Metadata = Metadata(
    issuer: Option<string>,
    account: Option<string>,
    kind: Option<string>,
    challengeKey: Option<string>)

  /** A stored row; `createdAt` is the instant `created_at` denotes, in milliseconds. */
  datatype Row = Row(id: string, secret: string, metadata: Option<Metadata>, createdAt: int)

  datatype Totp = Totp(
    id: string,
    issuer: string,
    account: string,
    secret: string,
    kind: string,
    challengeKey: Option<string>,
    createdAt: int)

  /**
   * The `Totp` constructor: id and secret verbatim; issuer and label empty
   * unless the metadata gives a non-empty one; type `'public'` unless the
   * metadata gives a non-empty one; the challenge key only when there is metadata.
   */
  function FromRow(row: Row): (t: Totp)
    ensures t.id == row.id && t.secret == row.secret && t.createdAt == row.createdAt
    ensures t.issuer != "" <==> row.metadata.Some? && row.metadata.value.issuer.Some? && row.metadata.value.issuer.value != ""
    ensures t.issuer != "" ==> t.issuer == row.metadata.value.issuer.value
    ensures t.account != "" <==> row.metadata.Some? && row.metadata.value.account.Some? && row.metadata.value.account.value != ""
    ensures t.account != "" ==> t.account == row.metadata.value.account.value
    ensures row.metadata.Some? && row.metadata.value.kind.Some? && row.metadata.value.kind.value != "" ==>
              t.kind == row.metadata.value.kind.value
    ensures !(row.metadata.Some? && row.metadata.value.kind.Some? && row.metadata.value.kind.value != "") ==>
              t.kind == "public"
    ensures row.metadata.None? ==> t.kind == "public" && t.challengeKey.None?
    ensures row.metadata.Some? ==> t.challengeKey == row.metadata.value.challengeKey
  {
    match row.metadata
    case None => Totp(row.id, "", "", row.secret, "public", None, row.createdAt)
    case Some(m) =>
      Totp(
        row.id,
        OrElse(m.issuer, ""),
        OrElse(m.account, ""),
        row.secret,
        OrElse(m.kind, "public"),
        m.challengeKey,
        row.createdAt)
  }
}
