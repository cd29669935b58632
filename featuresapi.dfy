/**
 * The SvelteKit client functions of src/lib/features/otp/api.ts: the query
 * string `listEntries` sends, the result selection of `addEntry`,
 * `listEntries` and `deleteEntry`, and the toast `reportError` shows.
 * Every error here goes to that module's own `reportError`.
 */
module FeaturesApi {
  import opened Wrappers
  import opened Strings
  import opened Url
  import opened ServiceTypes
  import TotpEntity
  import PublicTotpApi

  // ---------------------------------------------------------------------
  // listEntries: the query string
  // ---------------------------------------------------------------------

  /** The default parameters of `listEntries`: page 1 and limit 10 when the caller leaves them out. */
  function PageArgument(page: Option<Number>): (n: Number)
    ensures page.None? ==> n == Some(1)
    ensures page.Some? ==> n == page.value
  {
    if page.Some? then page.value else Some(1)
  }

  function LimitArgument(limit: Option<Number>): (n: Number)
    ensures limit.None? ==> n == Some(10)
    ensures limit.Some? ==> n == limit.value
  {
    if limit.Some? then limit.value else Some(10)
  }

  /** A pair appended only when its value is truthy, a non-empty string. */
  function Optional(name: string, value: Option<string>): (ps: Params)
    ensures ps != [] <==> value.Some? && value.value != ""
    ensures ps != [] ==> ps == [(name, value.value)]
  {
    if value.Some? && value.value != "" then [(name, value.value)] else []
  }

  /** The pairs `listEntries` appends, in order. */
  function ListEntriesParams(page: Number, limit: Number, search: Option<string>, sortBy: Option<string>, sortOrder: Option<string>): Params
  {
    [("page", NumberToString(page)), ("limit", NumberToString(limit))]
    + Optional("search", search) + Optional("sortBy", sortBy) + Optional("sortOrder", sortOrder)
  }

  /** The query-building part of `listEntries`. */
  method BuildListEntriesParams(page: Number, limit: Number, search: Option<string>, sortBy: Option<string>, sortOrder: Option<string>)
    returns (params: Params)
    ensures params == ListEntriesParams(page, limit, search, sortBy, sortOrder)
  {
    var pageText := NumberToString(page);
    var limitText := NumberToString(limit);
    params := [];
    params := params + [("page", pageText)];
    params := params + [("limit", limitText)];
    ghost var head := params;
    assert head == [("page", NumberToString(page)), ("limit", NumberToString(limit))];
    if search.Some? && search.value != "" {
      params := params + [("search", search.value)];
    }
    assert params == head + Optional("search", search);
    ghost var withSearch := params;
    if sortBy.Some? && sortBy.value != "" {
      params := params + [("sortBy", sortBy.value)];
    }
    assert params == withSearch + Optional("sortBy", sortBy);
    ghost var withSortBy := params;
    if sortOrder.Some? && sortOrder.value != "" {
      params := params + [("sortOrder", sortOrder.value)];
    }
    assert params == withSortBy + Optional("sortOrder", sortOrder);
    assert params == head + Optional("search", search) + Optional("sortBy", sortBy) + Optional("sortOrder", sortOrder);
  }

  /** Where each name is found in the pairs `listEntries` builds. */
  lemma GetListEntriesParams(page: Number, limit: Number, search: Option<string>, sortBy: Option<string>, sortOrder: Option<string>)
    ensures var ps := ListEntriesParams(page, limit, search, sortBy, sortOrder);
            && Get(ps, "page") == Some(NumberToString(page))
            && Get(ps, "limit") == Some(NumberToString(limit))
            && Get(ps, "search") == (if search.Some? && search.value != "" then search else None)
            && Get(ps, "sortBy") == (if sortBy.Some? && sortBy.value != "" then sortBy else None)
            && Get(ps, "sortOrder") == (if sortOrder.Some? && sortOrder.value != "" then sortOrder else None)
  {
    var pageName, limitName, searchName, sortByName, sortOrderName := "page", "limit", "search", "sortBy", "sortOrder";
    GetListEntriesName(page, limit, search, sortBy, sortOrder, pageName);
    GetListEntriesName(page, limit, search, sortBy, sortOrder, limitName);
    GetListEntriesName(page, limit, search, sortBy, sortOrder, searchName);
    GetListEntriesName(page, limit, search, sortBy, sortOrder, sortByName);
    GetListEntriesName(page, limit, search, sortBy, sortOrder, sortOrderName);
  }

  /** Any name is found in the first of the pairs that carries it. */
  lemma GetListEntriesName(page: Number, limit: Number, search: Option<string>, sortBy: Option<string>, sortOrder: Option<string>, name: string)
    ensures Get(ListEntriesParams(page, limit, search, sortBy, sortOrder), name)
         == if name == "page" then Some(NumberToString(page))
            else if name == "limit" then Some(NumberToString(limit))
            else if name == "search" && search.Some? && search.value != "" then search
            else if name == "sortBy" && sortBy.Some? && sortBy.value != "" then sortBy
            else if name == "sortOrder" && sortOrder.Some? && sortOrder.value != "" then sortOrder
            else None
  {
    var head: Params := [("page", NumberToString(page)), ("limit", NumberToString(limit))];
    var a := Optional("search", search);
    var b := Optional("sortBy", sortBy);
    var c := Optional("sortOrder", sortOrder);
    assert head[1..] == [("limit", NumberToString(limit))] && head[1..][1..] == [];
    PublicTotpApi.GetAppend(head, a, name);
    PublicTotpApi.GetAppend(head + a, b, name);
    PublicTotpApi.GetAppend((head + a) + b, c, name);
    GetOptional("search", search, name);
    GetOptional("sortBy", sortBy, name);
    GetOptional("sortOrder", sortOrder, name);
  }

  lemma GetOptional(key: string, value: Option<string>, name: string)
    ensures Get(Optional(key, value), name) == if name == key && value.Some? && value.value != "" then value else None
  {
    var ps := Optional(key, value);
    if ps != [] {
      assert ps[1..] == [];
    }
  }

  // ---------------------------------------------------------------------
  // Outcomes and the toast
  // ---------------------------------------------------------------------

  /** `reportError`: the toast's text for an error. */
  function ToastMessage(e: Thrown): (msg: string)
    ensures msg == PublicTotpApi.ReportMessage(e)
  {
    match e
    case AxiosError(status, message) => if status == Some(409) then "TOTP entry already exists" else message
    case Other(text) => text
  }

  /** The toast for an error string in a response, or for what a call threw. */
  function ResponseToast<T>(call: Result<ApiResponse<T>, Thrown>): (toast: Option<string>)
    ensures call.Err? ==> toast == Some(ToastMessage(call.error))
    ensures call.Ok? ==> (toast.Some? <==> OrElse(call.value.error, "") != "")
    ensures call.Ok? && toast.Some? ==> toast == call.value.error
  {
    match call
    case Err(e) => Some(ToastMessage(e))
    case Ok(resp) => if OrElse(resp.error, "") != "" then resp.error else None
  }

  /**
   * `addEntry`: the entity when the response reports success and carries
   * data, otherwise null, with a fixed toast for an error in the response.
   */
  function AddEntryOutcome(call: Result<ApiResponse<TotpEntity.Totp>, Thrown>): (o: PublicTotpApi.Outcome<Option<TotpEntity.Totp>>)
    ensures o.result.Some? <==> call.Ok? && call.value.success && call.value.data.Some?
    ensures o.result.Some? ==> o.result == call.value.data && o.reported.None?
    ensures call.Err? ==> o.reported == Some(PublicTotpApi.Toast(ToastMessage(call.error)))
    ensures call.Ok? && o.result.None? ==>
              o.reported == if OrElse(call.value.error, "") != "" then Some(PublicTotpApi.Toast("Failed to save TOTP entry")) else None
  {
    match call
    case Err(e) => PublicTotpApi.Outcome(None, Some(PublicTotpApi.Toast(ToastMessage(e))))
    case Ok(r) =>
      if r.success && r.data.Some? then PublicTotpApi.Outcome(r.data, None)
      else if OrElse(r.error, "") != "" then PublicTotpApi.Outcome(None, Some(PublicTotpApi.Toast("Failed to save TOTP entry")))
      else PublicTotpApi.Outcome(None, None)
  }

  /** `listEntries`: the data on success, an empty list with total 0 on any failure; only a throw is toasted. */
  function ListEntriesOutcome(call: Result<ApiResponse<ListResponse>, Thrown>): (o: PublicTotpApi.Outcome<ListResponse>)
    ensures call.Ok? && call.value.success && call.value.data.Some? ==> o.result == call.value.data.value
    ensures !(call.Ok? && call.value.success && call.value.data.Some?) ==> o.result == ListResponse([], 0)
    ensures o.reported.Some? <==> call.Err?
    ensures call.Err? ==> o.reported == Some(PublicTotpApi.Toast(ToastMessage(call.error)))
  {
    match call
    case Ok(resp) => PublicTotpApi.Outcome(if resp.success && resp.data.Some? then resp.data.value else ListResponse([], 0), None)
    case Err(e) => PublicTotpApi.Outcome(ListResponse([], 0), Some(PublicTotpApi.Toast(ToastMessage(e))))
  }

  /**
   * `syncEntry`: the data when the response reports success and carries
   * it, otherwise null, toasting the response's own error or what was thrown.
   */
  function SyncEntryOutcome<T>(call: Result<ApiResponse<T>, Thrown>): (o: PublicTotpApi.Outcome<Option<T>>)
    ensures o.result.Some? <==> call.Ok? && call.value.success && call.value.data.Some?
    ensures o.result.Some? ==> o.result == call.value.data && o.reported.None?
    ensures o.result.None? ==> (o.reported.Some? <==> ResponseToast(call).Some?)
    ensures o.result.None? && o.reported.Some? ==> o.reported.value == PublicTotpApi.Toast(ResponseToast(call).value)
  {
    if call.Ok? && call.value.success && call.value.data.Some? then PublicTotpApi.Outcome(call.value.data, None)
    else match ResponseToast(call)
      case None => PublicTotpApi.Outcome(None, None)
      case Some(text) => PublicTotpApi.Outcome(None, Some(PublicTotpApi.Toast(text)))
  }

  /**
   * `deleteEntry`, and `updateUsedAt` whose body is the same: true exactly
   * when the response reports success; a failure's error is toasted.
   */
  function SuccessOutcome<T>(call: Result<ApiResponse<T>, Thrown>): (o: PublicTotpApi.Outcome<bool>)
    ensures o.result <==> call.Ok? && call.value.success
    ensures o.result ==> o.reported.None?
    ensures !o.result ==> (o.reported.Some? <==> ResponseToast(call).Some?)
    ensures !o.result && o.reported.Some? ==> o.reported.value == PublicTotpApi.Toast(ResponseToast(call).value)
  {
    if call.Ok? && call.value.success then PublicTotpApi.Outcome(true, None)
    else match ResponseToast(call)
      case None => PublicTotpApi.Outcome(false, None)
      case Some(text) => PublicTotpApi.Outcome(false, Some(PublicTotpApi.Toast(text)))
  }
}
