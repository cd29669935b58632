/**
 * The browser-side client of lib/services/public-totp.api.ts, class
 * `APIPublicTotp`: the query string `list` sends, the header and result
 * selection of `create`, and the message `reportError` chooses. The HTTP
 * calls themselves are outcomes handed in: the response the server sent,
 * or what the call threw.
 */
module PublicTotpApi {
  import opened Wrappers
  import opened Strings
  import opened Url
  import opened ServiceTypes
  import TotpEntity

  // ---------------------------------------------------------------------
  // list: the query string
  // ---------------------------------------------------------------------

  function SortFieldKey(i: nat): string { "sort[" + NatToDecimal(i) + "][field]" }

  function SortOrderKey(i: nat): string { "sort[" + NatToDecimal(i) + "][order]" }

  /** The two pairs of the i-th sort column. */
  function SortPairs(i: nat, c: SortColumn): Params
  {
    [(SortFieldKey(i), c.field), (SortOrderKey(i), c.order)]
  }

  /** The pairs of all sort columns, numbered from 0 in array order. */
  function SortParams(cols: seq<SortColumn>): (ps: Params)
    ensures |ps| == 2 * |cols|
  {
    if cols == [] then [] else SortParams(cols[..|cols| - 1]) + SortPairs(|cols| - 1, cols[|cols| - 1])
  }

  /** `Object.entries(filter)`. */
  function FilterEntries(f: Filter): Params
  {
    [("issuer", f.issuer), ("label", f.account), ("secret", f.secret)]
  }

  /** The filter entries whose key and value are both non-empty, in order. */
  function NonEmptyEntries(es: Params): (ps: Params)
    ensures forall i :: 0 <= i < |ps| ==> ps[i].0 != "" && ps[i].1 != ""
  {
    if es == [] then []
    else
      var init := NonEmptyEntries(es[..|es| - 1]);
      var (k, v) := es[|es| - 1];
      if |k| > 0 && |v| > 0 then init + [(k, v)] else init
  }

  /** The page and size, and the search text when there is a non-empty one. */
  function HeadParams(p: Pagination, search: Option<string>): Params
  {
    [("page", NumberToString(p.page)), ("size", NumberToString(p.size))]
    + (if search.Some? && search.value != "" then [("q", search.value)] else [])
  }

  /** The pairs `list` appends to its `URLSearchParams`, in order. */
  function ListParams(f: Filter, p: Pagination, search: Option<string>): Params
  {
    HeadParams(p, search) + SortParams(p.sort) + NonEmptyEntries(FilterEntries(f))
  }

  /** The `forEach` over the sort columns of `list`. */
  method AppendSortParams(head: Params, cols: seq<SortColumn>) returns (ps: Params)
    ensures ps == head + SortParams(cols)
  {
    ps := head;
    var i := 0;
    while i < |cols|
      invariant 0 <= i <= |cols|
      invariant ps == head + SortParams(cols[..i])
    {
      assert cols[..i + 1][..i] == cols[..i] && cols[..i + 1][i] == cols[i];
      ps := ps + [(SortFieldKey(i), cols[i].field)];
      ps := ps + [(SortOrderKey(i), cols[i].order)];
      i := i + 1;
    }
    assert cols[..i] == cols;
  }

  /** The `for ... of Object.entries(filter)` loop of `list`. */
  method AppendNonEmptyEntries(head: Params, entries: Params) returns (ps: Params)
    ensures ps == head + NonEmptyEntries(entries)
  {
    ps := head;
    var j := 0;
    while j < |entries|
      invariant 0 <= j <= |entries|
      invariant ps == head + NonEmptyEntries(entries[..j])
    {
      assert entries[..j + 1][..j] == entries[..j] && entries[..j + 1][j] == entries[j];
      var key := entries[j].0;
      var value := entries[j].1;
      if |key| > 0 && |value| > 0 {
        ps := ps + [(key, value)];
      }
      j := j + 1;
    }
    assert entries[..j] == entries;
  }

  /** The query-building part of `list`. */
  method BuildListParams(f: Filter, p: Pagination, search: Option<string>) returns (ps: Params)
    ensures ps == ListParams(f, p, search)
  {
    ps := [("page", NumberToString(p.page))];
    ps := ps + [("size", NumberToString(p.size))];
    if search.Some? && search.value != "" {
      ps := ps + [("q", search.value)];
    }
    assert ps == HeadParams(p, search);
    if |p.sort| > 0 {
      ps := AppendSortParams(ps, p.sort);
    }
    ps := AppendNonEmptyEntries(ps, FilterEntries(f));
  }

  // ---------------------------------------------------------------------
  // What the names in the list query look like
  // ---------------------------------------------------------------------

  lemma SortKeyShape(i: nat)
    ensures StartsWith(SortFieldKey(i), "so") && StartsWith(SortOrderKey(i), "so")
    ensures |SortFieldKey(i)| == |SortOrderKey(i)| == 13 + |NatToDecimal(i)|
    ensures SortFieldKey(i)[|SortFieldKey(i)| - 2] == 'd' && SortOrderKey(i)[|SortOrderKey(i)| - 2] == 'r'
  {
  }

  /** The sort keys of different columns, and the two keys of one column, are all different. */
  lemma SortKeysDistinct(i: nat, j: nat)
    ensures SortFieldKey(i) != SortOrderKey(j)
    ensures SortFieldKey(i) == SortFieldKey(j) ==> i == j
    ensures SortOrderKey(i) == SortOrderKey(j) ==> i == j
  {
    SortKeyShape(i);
    SortKeyShape(j);
    var di := NatToDecimal(i);
    var dj := NatToDecimal(j);
    if SortFieldKey(i) == SortFieldKey(j) {
      assert SortFieldKey(i)[5..5 + |di|] == di;
      assert SortFieldKey(j)[5..5 + |dj|] == dj;
      NatToDecimalInjective(i, j);
    }
    if SortOrderKey(i) == SortOrderKey(j) {
      assert SortOrderKey(i)[5..5 + |di|] == di;
      assert SortOrderKey(j)[5..5 + |dj|] == dj;
      NatToDecimalInjective(i, j);
    }
  }

  /** Looking a name up in two lists one after the other. */
  lemma {:induction false} GetAppend(a: Params, b: Params, name: string)
    ensures Get(a + b, name) == if Get(a, name).Some? then Get(a, name) else Get(b, name)
  {
    if a != [] {
      GetAppend(a[1..], b, name);
      assert (a + b)[1..] == a[1..] + b;
    } else {
      assert a + b == b;
    }
  }

  /** Column j's keys find column j's field and order; keys of later columns find nothing. */
  lemma {:induction false} GetSortParams(cols: seq<SortColumn>, j: nat)
    ensures Get(SortParams(cols), SortFieldKey(j)) == if j < |cols| then Some(cols[j].field) else None
    ensures Get(SortParams(cols), SortOrderKey(j)) == if j < |cols| then Some(cols[j].order) else None
  {
    if cols != [] {
      var n := |cols| - 1;
      var init := cols[..n];
      GetSortParams(init, j);
      GetAppend(SortParams(init), SortPairs(n, cols[n]), SortFieldKey(j));
      GetAppend(SortParams(init), SortPairs(n, cols[n]), SortOrderKey(j));
      SortKeysDistinct(j, n);
      SortKeysDistinct(n, j);
    }
  }

  /** A name whose second character is not `o` is not a sort key, so the sort pairs do not hold it. */
  lemma {:induction false} GetSortParamsOther(cols: seq<SortColumn>, name: string)
    requires |name| < 2 || name[1] != 'o'
    ensures Get(SortParams(cols), name) == None
  {
    if cols != [] {
      var n := |cols| - 1;
      GetSortParamsOther(cols[..n], name);
      GetAppend(SortParams(cols[..n]), SortPairs(n, cols[n]), name);
      SortKeyShape(n);
    }
  }

  /** The head pairs hold the page, the size and a non-empty search, and nothing else. */
  lemma GetHeadParams(p: Pagination, search: Option<string>, name: string)
    ensures Get(HeadParams(p, search), name)
         == if name == "page" then Some(NumberToString(p.page))
            else if name == "size" then Some(NumberToString(p.size))
            else if name == "q" && search.Some? && search.value != "" then search
            else None
  {
    var two := [("page", NumberToString(p.page)), ("size", NumberToString(p.size))];
    var q := if search.Some? && search.value != "" then [("q", search.value)] else [];
    GetAppend(two, q, name);
    assert two[1..] == [("size", NumberToString(p.size))] && two[1..][1..] == [];
    assert q != [] ==> q[1..] == [];
  }

  /** A filter key is found with its value exactly when the value is non-empty; no other name is found. */
  lemma GetFilterEntries(f: Filter)
    ensures Get(NonEmptyEntries(FilterEntries(f)), "issuer") == if f.issuer != "" then Some(f.issuer) else None
    ensures Get(NonEmptyEntries(FilterEntries(f)), "label") == if f.account != "" then Some(f.account) else None
    ensures Get(NonEmptyEntries(FilterEntries(f)), "secret") == if f.secret != "" then Some(f.secret) else None
    ensures forall name :: name != "issuer" && name != "label" && name != "secret" ==>
              Get(NonEmptyEntries(FilterEntries(f)), name) == None
  {
    GetFilterEntry(f, "issuer");
    GetFilterEntry(f, "label");
    GetFilterEntry(f, "secret");
    forall name | name != "issuer" && name != "label" && name != "secret"
      ensures Get(NonEmptyEntries(FilterEntries(f)), name) == None
    {
      GetFilterEntry(f, name);
    }
  }

  /** The entry list for one key: the pair when the value is non-empty, nothing otherwise. */
  function Present(key: string, value: string): Params
  {
    if value != "" then [(key, value)] else []
  }

  /** Dropping the empty filter values keeps the others in order. */
  lemma NonEmptyFilterEntries(f: Filter)
    ensures NonEmptyEntries(FilterEntries(f)) == Present("issuer", f.issuer) + Present("label", f.account) + Present("secret", f.secret)
  {
    var a, b, c := ("issuer", f.issuer), ("label", f.account), ("secret", f.secret);
    NonEmptyEntriesSnoc([], "issuer", f.issuer);
    assert [] + [a] == [a];
    NonEmptyEntriesSnoc([a], "label", f.account);
    assert [a] + [b] == [a, b];
    NonEmptyEntriesSnoc([a, b], "secret", f.secret);
    assert [a, b] + [c] == FilterEntries(f);
  }

  /** Adding one entry with a non-empty key adds it to the non-empty entries exactly when its value is non-empty. */
  lemma NonEmptyEntriesSnoc(es: Params, key: string, value: string)
    requires key != ""
    ensures NonEmptyEntries(es + [(key, value)]) == NonEmptyEntries(es) + Present(key, value)
  {
    assert (es + [(key, value)])[..|es|] == es;
  }

  /** Looking one name up among the non-empty filter entries. */
  lemma GetFilterEntry(f: Filter, name: string)
    ensures Get(NonEmptyEntries(FilterEntries(f)), name) == (if name == "issuer" && f.issuer != "" then Some(f.issuer)
                                                           else if name == "label" && f.account != "" then Some(f.account)
                                                           else if name == "secret" && f.secret != "" then Some(f.secret)
                                                           else None)
  {
    var e0, e1, e2 := Present("issuer", f.issuer), Present("label", f.account), Present("secret", f.secret);
    NonEmptyFilterEntries(f);
    GetAppend(e0, e1, name);
    GetAppend(e0 + e1, e2, name);
  }

  // ---------------------------------------------------------------------
  // create, list and reportError outcomes
  // ---------------------------------------------------------------------

  /** `reportError`: the message shown for an error. */
  function ReportMessage(e: Thrown): (msg: string)
    ensures e.AxiosError? && e.status == Some(409) ==> msg == "TOTP entry already exists"
    ensures e.AxiosError? && e.status != Some(409) ==> msg == e.message
    ensures e.Other? ==> msg == e.description
  {
    match e
    case AxiosError(status, message) => if status == Some(409) then "TOTP entry already exists" else message
    case Other(description) => description
  }

  /** The headers `create` sends: the Turnstile token only when there is a non-empty one. */
  function CreateHeaders(token: Option<string>): (hs: Params)
    ensures |hs| <= 1
    ensures hs != [] <==> token.Some? && token.value != ""
    ensures hs != [] ==> hs[0] == ("x-turnstile-token", token.value)
  {
    if token.Some? && token.value != "" then [("x-turnstile-token", token.value)] else []
  }

  /**
   * Where an error goes: the class's own `reportError`, which works out a
   * message (its toast call is commented out), or the global `reportError`
   * of the browser, which receives the error itself.
   */
  datatype Report = Toast(message: string) | Global(error: Thrown)

  /** What a client call returns, and what it reports, if anything. */
  datatype Outcome<T> = Outcome(result: T, reported: Option<Report>)

  /**
   * `create`: the entity when the response reports success and carries
   * data, otherwise null; an error in the response is reported with a
   * fixed message, a thrown error with the message `reportError` chooses.
   */
  function CreateOutcome(call: Result<ApiResponse<TotpEntity.Totp>, Thrown>): (o: Outcome<Option<TotpEntity.Totp>>)
    ensures o.result.Some? <==> call.Ok? && call.value.success && call.value.data.Some?
    ensures o.result.Some? ==> o.result == call.value.data && o.reported.None?
    ensures call.Err? ==> o.reported == Some(Toast(ReportMessage(call.error)))
    ensures call.Err? && call.error.AxiosError? && call.error.status == Some(409) ==> o.reported == Some(Toast("TOTP entry already exists"))
    ensures call.Ok? && o.result.None? ==>
              o.reported == if OrElse(call.value.error, "") != "" then Some(Toast("Failed to save TOTP entry")) else None
  {
    match call
    case Err(e) => Outcome(None, Some(Toast(ReportMessage(e))))
    case Ok(r) =>
      if r.success && r.data.Some? then Outcome(r.data, None)
      else if OrElse(r.error, "") != "" then Outcome(None, Some(Toast(ReportMessage(Other("Failed to save TOTP entry")))))
      else Outcome(None, None)
  }

  /**
   * `list`: the response's data on success; on any failure an empty list
   * with total 0. A thrown error goes to the global `reportError`; an error
   * in the response is only logged.
   */
  function ListOutcome(call: Result<ApiResponse<ListResponse>, Thrown>): (o: Outcome<ListResponse>)
    ensures call.Ok? && call.value.success && call.value.data.Some? ==> o.result == call.value.data.value
    ensures !(call.Ok? && call.value.success && call.value.data.Some?) ==> o.result == ListResponse([], 0)
    ensures o.reported.Some? <==> call.Err?
    ensures call.Err? ==> o.reported == Some(Global(call.error))
  {
    match call
    case Ok(resp) => Outcome(if resp.success && resp.data.Some? then resp.data.value else ListResponse([], 0), None)
    case Err(e) => Outcome(ListResponse([], 0), Some(Global(e)))
  }

  /** What the global `reportError` receives for a response error string or a thrown error. */
  function GlobalReport<T>(call: Result<ApiResponse<T>, Thrown>): (r: Option<Report>)
    ensures call.Err? ==> r == Some(Global(call.error))
    ensures call.Ok? ==> (r.Some? <==> OrElse(call.value.error, "") != "")
    ensures r.Some? ==> r.value.Global?
  {
    match call
    case Err(e) => Some(Global(e))
    case Ok(resp) => if OrElse(resp.error, "") != "" then Some(Global(Other(resp.error.value))) else None
  }

  /** `get`: the token on success with data, otherwise null. */
  function GetOutcome(call: Result<ApiResponse<string>, Thrown>): (o: Outcome<Option<string>>)
    ensures o.result.Some? <==> call.Ok? && call.value.success && call.value.data.Some?
    ensures o.result.Some? ==> o.result == call.value.data && o.reported.None?
    ensures o.result.None? ==> o.reported == GlobalReport(call)
  {
    match call
    case Ok(resp) => if resp.success && resp.data.Some? then Outcome(resp.data, None) else Outcome(None, GlobalReport(call))
    case Err(_) => Outcome(None, GlobalReport(call))
  }

  /** `delete`: true exactly when the response reports success. */
  function DeleteOutcome(call: Result<ApiResponse<()>, Thrown>): (o: Outcome<bool>)
    ensures o.result <==> call.Ok? && call.value.success
    ensures o.result ==> o.reported.None?
    ensures !o.result ==> o.reported == GlobalReport(call)
  {
    match call
    case Ok(resp) => if resp.success then Outcome(true, None) else Outcome(false, GlobalReport(call))
    case Err(_) => Outcome(false, GlobalReport(call))
  }

  /** `mark`: nothing is returned; an error in the response is reported even when it also reports success. */
  function MarkOutcome(call: Result<ApiResponse<()>, Thrown>): (o: Outcome<()>)
    ensures o.reported.Some? <==> call.Err? || OrElse(call.value.error, "") != ""
    ensures o.reported == GlobalReport(call)
  {
    Outcome((), GlobalReport(call))
  }
}
