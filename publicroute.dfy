/**
 * The SvelteKit handlers of src/routes/api/public/totp/+server.ts: GET
 * parses and validates the query `listEntries` sends, POST lets an
 * enrollment through only after the Turnstile check, and PATCH validates
 * the id list before marking entries as used.
 *
 * The Turnstile post, the storage service and the JSON body are calls
 * whose outcome is a parameter; each handler returns the reply together
 * with the calls it made, so that "not called" can be stated.
 */
module PublicTotpRoute {
  import opened Wrappers
  import opened Strings
  import opened Url
  import opened ServiceTypes
  import Catalog
  import TotpEntity
  import TotpManager
  import FeaturesApi

  // ---------------------------------------------------------------------
  // GET
  // ---------------------------------------------------------------------

  /** The arguments GET hands to `listTOTPEntries`. */
  datatype ListRequest = ListRequest(page: Number, limit: Number, options: Catalog.ListOptions)

  /** `url.searchParams.get('search') || undefined`. */
  function SearchOf(param: Option<string>): (search: Option<string>)
    ensures search.Some? <==> param.Some? && param.value != ""
    ensures search.Some? ==> search == param
  {
    if param.Some? && param.value != "" then param else None
  }

  /** `sortBy` is kept only when it names one of the three sortable fields. */
  function SortFieldOf(param: Option<string>): (field: Option<Catalog.SortField>)
    ensures field == Some(Catalog.ByIssuer) <==> param == Some("issuer")
    ensures field == Some(Catalog.ByAccount) <==> param == Some("label")
    ensures field == Some(Catalog.ByCreatedAt) <==> param == Some("createdAt")
  {
    if param == Some("issuer") then Some(Catalog.ByIssuer)
    else if param == Some("label") then Some(Catalog.ByAccount)
    else if param == Some("createdAt") then Some(Catalog.ByCreatedAt)
    else None
  }

  /** `sortOrder` is kept only when it is exactly `asc` or `desc`. */
  function SortOrderOf(param: Option<string>): (order: Option<Catalog.SortOrder>)
    ensures order == Some(Catalog.Asc) <==> param == Some("asc")
    ensures order == Some(Catalog.Desc) <==> param == Some("desc")
  {
    if param == Some("asc") then Some(Catalog.Asc)
    else if param == Some("desc") then Some(Catalog.Desc)
    else None
  }

  lemma DefaultNumbers()
    ensures ParseInt("1") == Some(1) && ParseInt("10") == Some(10)
  {
    ParseIntOfSmallLiterals();
  }

  /** The parameter handling of GET: page and limit default to 1 and 10 before `parseInt`. */
  function ParseListRequest(ps: Params): (r: ListRequest)
    ensures Get(ps, "page").None? ==> r.page == Some(1)
    ensures Get(ps, "limit").None? ==> r.limit == Some(10)
    ensures r.options.search.Some? ==> r.options.search.value != ""
  {
    DefaultNumbers();
    var page := ParseInt(OrElse(Get(ps, "page"), "1"));
    var limit := ParseInt(OrElse(Get(ps, "limit"), "10"));
    ListRequest(page, limit, Catalog.ListOptions(SearchOf(Get(ps, "search")), SortFieldOf(Get(ps, "sortBy")), SortOrderOf(Get(ps, "sortOrder"))))
  }

  /**
   * The query `listEntries` builds, serialized and parsed back, gives GET
   * the same page, limit and search; `sortBy` and `sortOrder` arrive when
   * they lie in the allowed sets and are dropped otherwise.
   */
  lemma ListRequestRoundTrip(page: Number, limit: Number, search: Option<string>, sortBy: Option<string>, sortOrder: Option<string>)
    ensures var ps := FeaturesApi.ListEntriesParams(page, limit, search, sortBy, sortOrder);
            ParseQuery(Serialize(ps)).Some?
            && ParseListRequest(ParseQuery(Serialize(ps)).value)
               == ListRequest(page, limit, Catalog.ListOptions(SearchOf(search), SortFieldOf(sortBy), SortOrderOf(sortOrder)))
  {
    var ps := FeaturesApi.ListEntriesParams(page, limit, search, sortBy, sortOrder);
    ParseQueryOfSerialize(ps);
    FeaturesApi.GetListEntriesParams(page, limit, search, sortBy, sortOrder);
    ParseListRequestOf(ps, page, limit, search, sortBy, sortOrder);
  }

  /** GET reads back what the parameters carry under each name. */
  lemma ParseListRequestOf(ps: Params, page: Number, limit: Number, search: Option<string>, sortBy: Option<string>, sortOrder: Option<string>)
    requires Get(ps, "page") == Some(NumberToString(page)) && Get(ps, "limit") == Some(NumberToString(limit))
    requires Get(ps, "search") == (if search.Some? && search.value != "" then search else None)
    requires Get(ps, "sortBy") == (if sortBy.Some? && sortBy.value != "" then sortBy else None)
    requires Get(ps, "sortOrder") == (if sortOrder.Some? && sortOrder.value != "" then sortOrder else None)
    ensures ParseListRequest(ps) == ListRequest(page, limit, Catalog.ListOptions(SearchOf(search), SortFieldOf(sortBy), SortOrderOf(sortOrder)))
  {
    ParseIntOfNumberToString(page);
    ParseIntOfNumberToString(limit);
  }

  /** The GET handler: the service's answer, or 500 when it throws. */
  function ListHandler(ps: Params, service: ListRequest -> Result<ListResponse, Thrown>): (reply: Reply<ListResponse>)
    ensures reply.success <==> service(ParseListRequest(ps)).Ok?
    ensures reply.success ==> reply.status == 200 && reply.data == Some(service(ParseListRequest(ps)).value) && reply.error.None?
    ensures !reply.success ==> reply.status == 500 && reply.error == Some("Failed to list TOTP entries") && reply.data.None?
  {
    match service(ParseListRequest(ps))
    case Ok(result) => Reply(200, true, Some(result), None, None)
    case Err(_) => Reply(500, false, None, Some("Failed to list TOTP entries"), None)
  }

  // ---------------------------------------------------------------------
  // POST
  // ---------------------------------------------------------------------

  /**
   * This route's `validateTurnstileToken`: the `success` field of the
   * answer must be the boolean true (None stands for a missing or
   * non-boolean field); a throw gives false.
   */
  function ValidateTurnstileToken(answer: Result<Option<bool>, Thrown>): (ok: bool)
    ensures ok <==> answer == Ok(Some(true))
    ensures answer.Ok? && answer.value.Some? ==> ok == TotpManager.ValidateTurnstileToken(Ok(answer.value.value))
  {
    answer.Ok? && answer.value == Some(true)
  }

  /** What POST hands to `addTotp`: the enrollment with its type forced. */
  datatype AddRequest = AddRequest(enrollment: Enrollment, kind: string)

  /** The reply of POST with the form body it posted to `siteverify` and the entry it asked to add. */
  datatype PostTrace = PostTrace(verifyBody: Option<string>, added: Option<AddRequest>, reply: Reply<TotpEntity.Totp>)

  /** The verification succeeds for this token. */
  predicate Verified(secretKey: string, token: string, ip: string, verify: string -> Result<Option<bool>, Thrown>)
  {
    ValidateTurnstileToken(verify(TotpManager.VerifyBody(secretKey, token, ip)))
  }

  /**
   * The POST handler. `body` is None when the request body is not JSON;
   * `token` is the `x-turnstile-token` header and `ip` the client address.
   * It fails closed: nothing is verified without a token, and nothing is
   * added without a verified one.
   */
  function PostHandler(
    body: Option<Enrollment>, token: Option<string>, ip: string, secretKey: string,
    verify: string -> Result<Option<bool>, Thrown>,
    add: AddRequest -> Result<TotpEntity.Totp, Thrown>): (t: PostTrace)
    ensures t.verifyBody.Some? <==> body.Some? && token.Some? && token.value != ""
    ensures t.verifyBody.Some? ==> t.verifyBody == Some(TotpManager.VerifyBody(secretKey, token.value, ip))
    ensures t.added.Some? <==> t.verifyBody.Some? && Verified(secretKey, token.value, ip, verify)
    ensures t.added.Some? ==> t.added == Some(AddRequest(body.value, "public"))
    ensures body.None? ==> t.reply == Reply(500, false, None, Some("Failed to add TOTP entry"), None)
    ensures body.Some? && t.verifyBody.None? ==> t.reply == Reply(400, false, None, Some("Turnstile token is required"), None)
    ensures t.verifyBody.Some? && t.added.None? ==> t.reply == Reply(403, false, None, Some("Invalid Turnstile token"), None)
    ensures t.reply.success <==> t.added.Some? && add(t.added.value).Ok?
    ensures t.reply.success ==> t.reply == Reply(200, true, Some(add(t.added.value).value), None, None)
    ensures t.added.Some? && !t.reply.success ==> t.reply == Reply(500, false, None, Some("Failed to add TOTP entry"), None)
  {
    if body.None? then
      PostTrace(None, None, Reply(500, false, None, Some("Failed to add TOTP entry"), None))
    else if token.None? || token.value == "" then
      PostTrace(None, None, Reply(400, false, None, Some("Turnstile token is required"), None))
    else
      var sent := TotpManager.VerifyBody(secretKey, token.value, ip);
      if !ValidateTurnstileToken(verify(sent)) then
        PostTrace(Some(sent), None, Reply(403, false, None, Some("Invalid Turnstile token"), None))
      else
        var request := AddRequest(body.value, "public");
        match add(request)
        case Ok(entry) => PostTrace(Some(sent), Some(request), Reply(200, true, Some(entry), None, None))
        case Err(_) => PostTrace(Some(sent), Some(request), Reply(500, false, None, Some("Failed to add TOTP entry"), None))
  }

  /**
   * The form body POST sends to `siteverify` carries exactly the secret
   * key, the token and the client address, whatever characters they hold.
   */
  lemma PostVerifiesWithToken(
    body: Option<Enrollment>, token: Option<string>, ip: string, secretKey: string,
    verify: string -> Result<Option<bool>, Thrown>,
    add: AddRequest -> Result<TotpEntity.Totp, Thrown>)
    requires body.Some? && token.Some? && token.value != ""
    ensures var t := PostHandler(body, token, ip, secretKey, verify, add);
            ParseQuery(t.verifyBody.value) == Some([("secret", secretKey), ("response", token.value), ("remoteip", ip)])
  {
    TotpManager.VerifyBodyParses(secretKey, token.value, ip);
  }

  // ---------------------------------------------------------------------
  // PATCH
  // ---------------------------------------------------------------------

  /** The success message of PATCH for `count` ids. */
  function UpdatedMessage(count: nat): string
  {
    "Successfully updated used_at field for " + NatToDecimal(count) + " entries"
  }

  /** The message tells the count apart: different counts give different messages. */
  lemma UpdatedMessageInjective(m: nat, n: nat)
    requires UpdatedMessage(m) == UpdatedMessage(n)
    ensures m == n
  {
    var prefix := "Successfully updated used_at field for ";
    var suffix := " entries";
    var a := NatToDecimal(m);
    var b := NatToDecimal(n);
    assert |a| == |b| by {
      assert |UpdatedMessage(m)| == |prefix| + |a| + |suffix|;
      assert |UpdatedMessage(n)| == |prefix| + |b| + |suffix|;
    }
    assert a == UpdatedMessage(m)[|prefix|..|prefix| + |a|];
    assert b == UpdatedMessage(n)[|prefix|..|prefix| + |b|];
    NatToDecimalInjective(m, n);
  }

  /** The reply of PATCH with the ids it asked to mark. */
  datatype PatchTrace = PatchTrace(updated: Option<seq<string>>, reply: Reply<()>)

  /**
   * The PATCH handler. `body` is None when the request body is not JSON;
   * `update` is `totpService.updateUsedAt`.
   */
  function PatchHandler(body: Option<IdsField>, update: seq<string> -> Result<bool, Thrown>): (t: PatchTrace)
    ensures t.updated.Some? <==> body.Some? && ValidIds(body.value)
    ensures t.updated.Some? ==> t.updated == Some(body.value.ids)
    ensures body.Some? && !ValidIds(body.value) ==> t.reply == Reply(400, false, None, Some("Missing or invalid IDs array"), None)
    ensures t.reply.success <==> t.updated.Some? && update(t.updated.value) == Ok(true)
    ensures t.reply.success ==> t.reply == Reply(200, true, None, None, Some(UpdatedMessage(|t.updated.value|)))
    ensures !t.reply.success && (body.None? || t.updated.Some?) ==>
              t.reply == Reply(500, false, None, Some("Failed to update used_at field"), None)
  {
    if body.None? then
      PatchTrace(None, Reply(500, false, None, Some("Failed to update used_at field"), None))
    else if !ValidIds(body.value) then
      PatchTrace(None, Reply(400, false, None, Some("Missing or invalid IDs array"), None))
    else
      var ids := body.value.ids;
      if update(ids) == Ok(true) then
        PatchTrace(Some(ids), Reply(200, true, None, None, Some(UpdatedMessage(|ids|))))
      else
        PatchTrace(Some(ids), Reply(500, false, None, Some("Failed to update used_at field"), None))
  }
}
