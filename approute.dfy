/**
 * The live handlers of the Next.js route app/api/totp/route.ts: GET lists
 * through `TotpManager.listTotp`, POST reads the Turnstile token and the
 * client address from the headers and maps what `createTotp` throws to a
 * status, and PATCH validates the id list before `markTotp`.
 *
 * The manager and the Supabase repository are calls whose outcome is a
 * parameter; each handler returns its reply with the calls it made.
 */
module AppTotpRoute {
  import opened Wrappers
  import opened Strings
  import opened Url
  import opened ServiceTypes
  import TotpEntity
  import TotpManager
  import TotpSupabase
  import PublicTotpRoute

  /** What a handler's `catch` receives: an `Error` with its message, or any other thrown value. */
  datatype Failure = Error(message: string) | NotAnError

  // ---------------------------------------------------------------------
  // Request headers
  // ---------------------------------------------------------------------

  /** The `x-turnstile-token` header, `''` when it is absent. */
  function TokenOf(header: Option<string>): (token: string)
    ensures header.Some? ==> token == header.value
    ensures header.None? ==> token == ""
  {
    OrElse(header, "")
  }

  /**
   * The client address: the first comma-separated entry of
   * `x-forwarded-for`, trimmed, or `127.0.0.1` when the header is absent or empty.
   */
  function ClientIp(forwardedFor: Option<string>): (ip: string)
    ensures forwardedFor.None? || forwardedFor.value == "" ==> ip == "127.0.0.1"
    ensures forwardedFor.Some? && forwardedFor.value != "" ==>
              ',' !in ip
              && (ip == [] || (!IsJsSpace(ip[0]) && !IsJsSpace(ip[|ip| - 1])))
  {
    if forwardedFor.Some? && forwardedFor.value != "" then
      var first := FirstField(forwardedFor.value, ',');
      var ip := Trim(first);
      assert ',' !in ip by {
        var start := TrimStart(first);
        assert forall k :: 0 <= k < |ip| ==> ip[k] == start[k] == first[|first| - |start| + k];
      }
      ip
    else "127.0.0.1"
  }

  /** The first field of a list that starts with `first` and a comma is `first`. */
  lemma {:induction false} FirstFieldOfList(first: string, rest: string)
    requires ',' !in first
    ensures FirstField(first + [','] + rest, ',') == first
    decreases |first|
  {
    if first == [] {
      assert (first + [','] + rest)[0] == ',';
    } else {
      assert (first + [','] + rest)[1..] == first[1..] + [','] + rest;
      FirstFieldOfList(first[1..], rest);
    }
  }

  /**
   * A proxy list whose first entry is a bare address, with optional spaces
   * after the comma, yields that address.
   */
  lemma ClientIpOfList(first: string, rest: string)
    requires first != [] && ',' !in first
    requires !IsJsSpace(first[0]) && !IsJsSpace(first[|first| - 1])
    ensures ClientIp(Some(first + [','] + rest)) == first
  {
    FirstFieldOfList(first, rest);
    assert TrimStart(first) == first;
    assert TrimEnd(first) == first;
  }

  /** A header with a single entry yields that entry trimmed. */
  lemma {:induction false} ClientIpOfSingle(entry: string)
    requires entry != [] && ',' !in entry
    ensures ClientIp(Some(entry)) == Trim(entry)
  {
    FirstFieldWhole(entry);
  }

  lemma {:induction false} FirstFieldWhole(s: string)
    requires ',' !in s
    ensures FirstField(s, ',') == s
    decreases |s|
  {
    if s != [] {
      FirstFieldWhole(s[1..]);
    }
  }

  // ---------------------------------------------------------------------
  // GET
  // ---------------------------------------------------------------------

  /** The GET handler: the manager's list for the parsed query, or 500 when anything throws. */
  function ListHandler(ps: Params, list: TotpManager.ListQuery -> Result<ListResponse, Failure>): (reply: Reply<ListResponse>)
    ensures reply.success <==> list(TotpManager.ListQueryOf(ps)).Ok?
    ensures reply.success ==> reply == Reply(200, true, Some(list(TotpManager.ListQueryOf(ps)).value), None, None)
    ensures !reply.success ==> reply == Reply(500, false, None, Some("Failed to list TOTP entries"), None)
  {
    match list(TotpManager.ListQueryOf(ps))
    case Ok(result) => Reply(200, true, Some(result), None, None)
    case Err(_) => Reply(500, false, None, Some("Failed to list TOTP entries"), None)
  }

  // ---------------------------------------------------------------------
  // POST
  // ---------------------------------------------------------------------

  /** The message the manager's duplicate check would throw. */
  const DuplicateMessage := "A TOTP entry with this secret already exists"

  /** The `catch` of POST: 409 for the duplicate message only, 500 for everything else. */
  function FailureReply(failure: Failure): (reply: Reply<TotpEntity.Totp>)
    ensures reply.status == 409 <==> failure == Error(DuplicateMessage)
    ensures reply.status == 409 ==> reply.error == Some("This TOTP secret already exists in the database")
    ensures reply.status != 409 ==> reply == Reply(500, false, None, Some("Failed to add TOTP entry"), None)
    ensures !reply.success && reply.data.None?
  {
    if failure.Error? && failure.message == DuplicateMessage then
      Reply(409, false, None, Some("This TOTP secret already exists in the database"), None)
    else
      Reply(500, false, None, Some("Failed to add TOTP entry"), None)
  }

  /** The reply of POST with the token and address it verified and the payload it asked to store. */
  datatype PostTrace = PostTrace(verified: Option<(string, string)>, created: Option<CreatePayload>, reply: Reply<TotpEntity.Totp>)

  /** What follows the manager's gate: the payload it delegates is handed to `create`, a rejection is caught. */
  function AfterGate(
    token: string, ip: string, decision: TotpManager.Decision,
    create: CreatePayload -> Result<TotpEntity.Totp, Failure>): PostTrace
  {
    match decision
    case Reject(message) => PostTrace(Some((token, ip)), None, FailureReply(Error(message)))
    case Delegate(payload) =>
      match create(payload)
      case Ok(entry) => PostTrace(Some((token, ip)), Some(payload), Reply(200, true, Some(entry), None, None))
      case Err(failure) => PostTrace(Some((token, ip)), Some(payload), FailureReply(failure))
  }

  /**
   * The POST handler as the route runs it, on `createTotp` as written:
   * the token and address are sent to the verifier, but its verdict never
   * stops the payload from reaching `create`. `body` is None when the
   * request body is not JSON; `verify` answers for a token and an address;
   * `create` is the repository's `create`.
   */
  function PostHandler(
    body: Option<CreatePayload>, tokenHeader: Option<string>, forwardedFor: Option<string>,
    verify: (string, string) -> bool,
    create: CreatePayload -> Result<TotpEntity.Totp, Failure>): (t: PostTrace)
    ensures t.verified.Some? <==> body.Some?
    ensures t.verified.Some? ==> t.verified == Some((TokenOf(tokenHeader), ClientIp(forwardedFor)))
    ensures t.created == body
    ensures t.reply.success <==> body.Some? && create(body.value).Ok?
    ensures t.reply.success ==> t.reply == Reply(200, true, Some(create(body.value).value), None, None)
    ensures body.Some? && !t.reply.success ==> t.reply == FailureReply(create(body.value).error)
    ensures body.None? ==> t.reply == Reply(500, false, None, Some("Failed to add TOTP entry"), None)
  {
    if body.None? then
      PostTrace(None, None, FailureReply(NotAnError))
    else
      var token := TokenOf(tokenHeader);
      var ip := ClientIp(forwardedFor);
      AfterGate(token, ip, TotpManager.CreateTotpAsWritten(body.value, verify(token, ip)), create)
  }

  /**
   * A token the verifier rejects is still stored, and the route answers 200
   * with the new entry.
   */
  lemma PostHandlerIgnoresVerdict(
    payload: CreatePayload, tokenHeader: Option<string>, forwardedFor: Option<string>,
    verify: (string, string) -> bool,
    create: CreatePayload -> Result<TotpEntity.Totp, Failure>, entry: TotpEntity.Totp)
    requires !verify(TokenOf(tokenHeader), ClientIp(forwardedFor))
    requires create(payload) == Ok(entry)
    ensures var t := PostHandler(Some(payload), tokenHeader, forwardedFor, verify, create);
            t.created == Some(payload) && t.reply == Reply(200, true, Some(entry), None, None)
  {
    TotpManager.CreateTotpAsWrittenIgnoresVerdict(payload);
  }

  /**
   * The POST handler with `createTotp` awaiting its verdict: the payload
   * is stored only when the verifier accepts the token and address.
   */
  function PostHandlerCorrected(
    body: Option<CreatePayload>, tokenHeader: Option<string>, forwardedFor: Option<string>,
    verify: (string, string) -> bool,
    create: CreatePayload -> Result<TotpEntity.Totp, Failure>): (t: PostTrace)
    ensures t.verified.Some? <==> body.Some?
    ensures t.verified.Some? ==> t.verified == Some((TokenOf(tokenHeader), ClientIp(forwardedFor)))
    ensures t.created.Some? <==> body.Some? && verify(TokenOf(tokenHeader), ClientIp(forwardedFor))
    ensures t.created.Some? ==> t.created == body
    ensures t.reply.success <==> t.created.Some? && create(t.created.value).Ok?
    ensures t.reply.success ==> t.reply == Reply(200, true, Some(create(t.created.value).value), None, None)
    ensures t.created.Some? && !t.reply.success ==> t.reply == FailureReply(create(t.created.value).error)
    ensures t.created.None? ==> t.reply == Reply(500, false, None, Some("Failed to add TOTP entry"), None)
  {
    if body.None? then
      PostTrace(None, None, FailureReply(NotAnError))
    else
      var token := TokenOf(tokenHeader);
      var ip := ClientIp(forwardedFor);
      AfterGate(token, ip, TotpManager.CreateTotp(body.value, verify(token, ip)), create)
  }

  /**
   * With the Supabase repository the conflict reply never occurs: every
   * insert error is rethrown with one generic message.
   */
  lemma SupabaseCreateNeverConflicts(answer: Result<TotpEntity.Row, string>)
    requires answer.Err?
    ensures FailureReply(Error(TotpSupabase.CreateResult(answer).error)).status == 500
  {
    assert TotpSupabase.CreateResult(answer).error == "Failed to create TOTP entry";
    assert "Failed to create TOTP entry" != DuplicateMessage by {
      assert "Failed to create TOTP entry"[0] != DuplicateMessage[0];
    }
  }

  // ---------------------------------------------------------------------
  // PATCH
  // ---------------------------------------------------------------------

  /** The reply of PATCH with the ids it handed to `markTotp`. */
  datatype PatchTrace = PatchTrace(marked: Option<seq<string>>, reply: Reply<()>)

  /**
   * The PATCH handler. `body` is None when the request body is not JSON;
   * `mark` is `markTotp`, which either settles or throws.
   */
  function PatchHandler(body: Option<IdsField>, mark: seq<string> -> Result<(), Failure>): (t: PatchTrace)
    ensures t.marked.Some? <==> body.Some? && ValidIds(body.value)
    ensures t.marked.Some? ==> t.marked == Some(body.value.ids)
    ensures body.Some? && !ValidIds(body.value) ==> t.reply == Reply(400, false, None, Some("Missing or invalid IDs array"), None)
    ensures t.reply.success <==> t.marked.Some? && mark(t.marked.value).Ok?
    ensures t.reply.success ==> t.reply == Reply(200, true, None, None, Some(PublicTotpRoute.UpdatedMessage(|t.marked.value|)))
    ensures !t.reply.success && (body.None? || t.marked.Some?) ==>
              t.reply == Reply(500, false, None, Some("Failed to update used_at field"), None)
  {
    if body.None? then
      PatchTrace(None, Reply(500, false, None, Some("Failed to update used_at field"), None))
    else if !ValidIds(body.value) then
      PatchTrace(None, Reply(400, false, None, Some("Missing or invalid IDs array"), None))
    else
      var ids := body.value.ids;
      match mark(ids)
      case Ok(_) => PatchTrace(Some(ids), Reply(200, true, None, None, Some(PublicTotpRoute.UpdatedMessage(|ids|))))
      case Err(_) => PatchTrace(Some(ids), Reply(500, false, None, Some("Failed to update used_at field"), None))
  }
}
