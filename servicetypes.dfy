/**
 * The shapes the list and create calls exchange (lib/services/types.d.ts),
 * and JavaScript numbers as the query strings carry them.
 */
module ServiceTypes {
  import opened Wrappers
  import opened Strings
  import TotpEntity

  /** A JavaScript number that holds an integer, or NaN (None). */
  type Number = Option<int>

  /** `Number.prototype.toString()`. */
  function NumberToString(n: Number): (s: string)
    ensures s != ""
  {
    match n
    case None => "NaN"
    case Some(i) => NatToDecimalDigits(if i < 0 then -i else i); IntToString(i)
  }

  /** `parseInt` reads back what `toString` wrote, NaN included. */
  lemma ParseIntOfNumberToString(n: Number)
    ensures ParseInt(NumberToString(n)) == n
  {
    match n
    case None =>
      var nan := "NaN";
      TrimStartKeeps(nan);
      assert DigitRun(nan, 10) == 0;
    case Some(i) => ParseIntOfIntToString(i);
  }

  datatype SortColumn = SortColumn(field: string, order: string)

  /** `Pagination`; a missing `sort` is the empty list. */
  datatype Pagination = Pagination(page: Number, size: Number, sort: seq<SortColumn>)

  /** `Record<keyof CreateTotpPayload, string>`; its entries come in the order issuer, label, secret. */
  datatype Filter = Filter(issuer: string, account: string, secret: string)

  /** `CreateTotpPayload`. */
  datatype CreatePayload = CreatePayload(issuer: string, account: string, secret: Option<string>)

  /** `ListTOTPResponse`. */
  datatype ListResponse = ListResponse(entries: seq<TotpEntity.Totp>, total: int)

  /** `ApiResponse<T>`. */
  datatype ApiResponse<T> = ApiResponse(success: bool, data: Option<T>, error: Option<string>)

  /** What a call can throw: an `AxiosError` (with the HTTP status, when there was a response) or anything else. */
  datatype Thrown = AxiosError(status: Option<int>, message: string) | Other(description: string)

  /** `EnrollmentResult` (src/lib/features/otp/types.d.ts); `createdAt` in milliseconds. */
  datatype Enrollment = Enrollment(
    id: string,
    secret: string,
    issuer: string,
    account: string,
    qrCodeUrl: string,
    qrCodeDataUrl: string,
    createdAt: int)

  /** The JSON a route handler answers with, and its HTTP status. */
  datatype Reply<T> = Reply(status: int, success: bool, data: Option<T>, error: Option<string>, message: Option<string>)

  /** The `ids` field of a PATCH body: missing (or another falsy value), not an array, or an array of ids. */
  datatype IdsField = Absent | NotArray | Ids(ids: seq<string>)

  /** `!ids || !Array.isArray(ids) || ids.length === 0` fails. */
  predicate ValidIds(field: IdsField)
  {
    field.Ids? && |field.ids| > 0
  }
}
