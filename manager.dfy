/**
 * `TotpManager` of lib/server/totp/totp.manager.ts: it reads the list
 * query of the Next.js route into a filter, a pagination and a search
 * text, checks Turnstile tokens with Cloudflare's `siteverify` endpoint,
 * and hands creation to the repository.
 */
module TotpManager {
  import opened Wrappers
  import opened Strings
  import opened Url
  import opened ServiceTypes
  import PublicTotpApi

  /** What `listTotp` passes to `repository.list`. */
  datatype ListQuery = ListQuery(filter: Filter, pagination: Pagination, search: string)

  /** The sort used when the query names no usable column. */
  const DefaultSort: seq<SortColumn> := [SortColumn("used_at", "desc")]

  // ---------------------------------------------------------------------
  // Reading the sort columns
  // ---------------------------------------------------------------------

  /** The length of the longest name in a query. */
  function MaxNameLength(ps: Params): (m: nat)
    ensures forall i :: 0 <= i < |ps| ==> |ps[i].0| <= m
  {
    if ps == [] then 0
    else
      var rest := MaxNameLength(ps[1..]);
      assert forall i :: 1 <= i < |ps| ==> ps[i] == ps[1..][i - 1];
      if |ps[0].0| > rest then |ps[0].0| else rest
  }

  /**
   * The sort keys of a column whose number has more digits than the longest
   * name are longer than every name, so the scan of `listTotp` stops by then.
   */
  lemma SortKeyBound(ps: Params, index: nat)
    requires Has(ps, PublicTotpApi.SortFieldKey(index))
    ensures index < Pow10(MaxNameLength(ps))
  {
    var key := PublicTotpApi.SortFieldKey(index);
    var i :| 0 <= i < |ps| && ps[i].0 == key;
    var digits := |NatToDecimal(index)|;
    assert digits <= MaxNameLength(ps);
    BelowPow10OfLength(index);
    Pow10Monotone(digits, MaxNameLength(ps));
  }

  /**
   * The columns the `while` of `listTotp` has collected once it has looked
   * at every column from `index` on, having collected `acc` before: it runs
   * while `sort[index][field]` is present, keeps the columns whose field is
   * non-empty, and gives a missing or empty order `asc`.
   */
  function CollectSortColumns(ps: Params, index: nat, acc: seq<SortColumn>): (cols: seq<SortColumn>)
    decreases Pow10(MaxNameLength(ps)) - index
  {
    if !Has(ps, PublicTotpApi.SortFieldKey(index)) then acc
    else
      SortKeyBound(ps, index);
      var field := Get(ps, PublicTotpApi.SortFieldKey(index)).value;
      var order := OrElse(Get(ps, PublicTotpApi.SortOrderKey(index)), "asc");
      CollectSortColumns(ps, index + 1, if field != "" then acc + [SortColumn(field, order)] else acc)
  }

  /** The sort columns a query names. */
  function SortColumnsOf(ps: Params): seq<SortColumn>
  {
    CollectSortColumns(ps, 0, [])
  }

  /** `listTotp`'s reading of a query, as a function. */
  function ListQueryOf(ps: Params): ListQuery
  {
    var cols := SortColumnsOf(ps);
    ListQuery(
      Filter(OrElse(Get(ps, "issuer"), ""), OrElse(Get(ps, "label"), ""), OrElse(Get(ps, "secret"), "")),
      Pagination(ParseInt(OrElse(Get(ps, "page"), "1")), ParseInt(OrElse(Get(ps, "size"), "100")),
                 if cols == [] then DefaultSort else cols),
      OrElse(Get(ps, "q"), ""))
  }

  /** `listTotp` up to the repository call: the query it passes on. */
  method ListTotp(ps: Params) returns (q: ListQuery)
    ensures q == ListQueryOf(ps)
  {
    var page := ParseInt(OrElse(Get(ps, "page"), "1"));
    var size := ParseInt(OrElse(Get(ps, "size"), "100"));
    var search := OrElse(Get(ps, "q"), "");
    var sortColumns := ReadSortColumns(ps);
    if |sortColumns| == 0 {
      sortColumns := DefaultSort;
    }
    var payload := Filter(OrElse(Get(ps, "issuer"), ""), OrElse(Get(ps, "label"), ""), OrElse(Get(ps, "secret"), ""));
    q := ListQuery(payload, Pagination(page, size, sortColumns), search);
  }

  /** The `while` loop of `listTotp` that reads `sort[i][field]` and `sort[i][order]`. */
  method ReadSortColumns(ps: Params) returns (sortColumns: seq<SortColumn>)
    ensures sortColumns == SortColumnsOf(ps)
  {
    sortColumns := [];
    var index := 0;
    while Has(ps, PublicTotpApi.SortFieldKey(index))
      invariant SortColumnsOf(ps) == CollectSortColumns(ps, index, sortColumns)
      decreases Pow10(MaxNameLength(ps)) - index
    {
      SortKeyBound(ps, index);
      var field := Get(ps, PublicTotpApi.SortFieldKey(index)).value;
      var order := OrElse(Get(ps, PublicTotpApi.SortOrderKey(index)), "asc");
      if field != "" {
        sortColumns := sortColumns + [SortColumn(field, order)];
      }
      index := index + 1;
    }
  }

  // ---------------------------------------------------------------------
  // Properties of the list query
  // ---------------------------------------------------------------------

  predicate Usable(cols: seq<SortColumn>)
  {
    forall k :: 0 <= k < |cols| ==> cols[k].field != "" && cols[k].order != ""
  }

  /** The loop only ever adds columns with a field and an order. */
  lemma {:induction false} CollectUsable(ps: Params, index: nat, acc: seq<SortColumn>)
    requires Usable(acc)
    ensures Usable(CollectSortColumns(ps, index, acc))
    decreases Pow10(MaxNameLength(ps)) - index
  {
    if Has(ps, PublicTotpApi.SortFieldKey(index)) {
      SortKeyBound(ps, index);
      var field := Get(ps, PublicTotpApi.SortFieldKey(index)).value;
      var order := OrElse(Get(ps, PublicTotpApi.SortOrderKey(index)), "asc");
      CollectUsable(ps, index + 1, if field != "" then acc + [SortColumn(field, order)] else acc);
    }
  }

  /** The repository always gets at least one sort column, each with a field and an order. */
  lemma ListQuerySortUsable(ps: Params)
    ensures |ListQueryOf(ps).pagination.sort| >= 1 && Usable(ListQueryOf(ps).pagination.sort)
  {
    var cols := SortColumnsOf(ps);
    CollectUsable(ps, 0, []);
    DefaultSortUsable();
    var sort := if cols == [] then DefaultSort else cols;
    assert Usable(sort);
    assert ListQueryOf(ps).pagination.sort == sort;
  }

  lemma DefaultSortUsable()
    ensures |DefaultSort| == 1 && Usable(DefaultSort)
  {
    var col := DefaultSort[0];
    assert col.field == "used_at" && col.order == "desc";
  }

  /** The fallback texts of page and size read as 1 and 100. */
  lemma DefaultNumbers()
    ensures ParseInt("1") == Some(1) && ParseInt("100") == Some(100)
  {
    ParseIntOfSmallLiterals();
  }

  /** A query without parameters reads as page 1 of 100, no search, no filter, newest use first. */
  lemma EmptyQueryDefaults()
    ensures ListQueryOf([]) == ListQuery(Filter("", "", ""), Pagination(Some(1), Some(100), DefaultSort), "")
  {
    var none: Params := [];
    assert SortColumnsOf(none) == [];
    DefaultNumbers();
  }

  /** Columns listed one after another with usable fields and orders are read back in order. */
  lemma {:induction false} CollectListed(ps: Params, cols: seq<SortColumn>, index: nat)
    requires index <= |cols|
    requires forall k :: 0 <= k < |cols| ==> cols[k].field != "" && cols[k].order != ""
    requires forall j: nat :: Get(ps, PublicTotpApi.SortFieldKey(j)) == if j < |cols| then Some(cols[j].field) else None
    requires forall j: nat :: Get(ps, PublicTotpApi.SortOrderKey(j)) == if j < |cols| then Some(cols[j].order) else None
    ensures CollectSortColumns(ps, index, cols[..index]) == cols
    decreases |cols| - index
  {
    if index < |cols| {
      assert cols[..index] + [SortColumn(cols[index].field, cols[index].order)] == cols[..index + 1];
      CollectListed(ps, cols, index + 1);
    } else {
      assert !Has(ps, PublicTotpApi.SortFieldKey(index));
      assert cols[..index] == cols;
    }
  }

  /** A name is looked up first among the head pairs, then the sort pairs, then the filter pairs. */
  lemma GetListParamsParts(f: Filter, p: Pagination, search: Option<string>, name: string)
    ensures var head := PublicTotpApi.HeadParams(p, search);
            var sorts := PublicTotpApi.SortParams(p.sort);
            Get(PublicTotpApi.ListParams(f, p, search), name)
            == if Get(head, name).Some? then Get(head, name)
               else if Get(sorts, name).Some? then Get(sorts, name)
               else Get(PublicTotpApi.NonEmptyEntries(PublicTotpApi.FilterEntries(f)), name)
  {
    var head := PublicTotpApi.HeadParams(p, search);
    var sorts := PublicTotpApi.SortParams(p.sort);
    PublicTotpApi.GetAppend(head, sorts, name);
    PublicTotpApi.GetAppend(head + sorts, PublicTotpApi.NonEmptyEntries(PublicTotpApi.FilterEntries(f)), name);
  }

  /** Column j's keys find column j's field and order among all the pairs, and nothing past the last column. */
  lemma GetListParamsSort(f: Filter, p: Pagination, search: Option<string>, j: nat)
    ensures Get(PublicTotpApi.ListParams(f, p, search), PublicTotpApi.SortFieldKey(j)) == if j < |p.sort| then Some(p.sort[j].field) else None
    ensures Get(PublicTotpApi.ListParams(f, p, search), PublicTotpApi.SortOrderKey(j)) == if j < |p.sort| then Some(p.sort[j].order) else None
  {
    var fieldKey := PublicTotpApi.SortFieldKey(j);
    var orderKey := PublicTotpApi.SortOrderKey(j);
    PublicTotpApi.SortKeyShape(j);
    assert fieldKey[1] == 'o' && orderKey[1] == 'o';
    PublicTotpApi.GetHeadParams(p, search, fieldKey);
    PublicTotpApi.GetHeadParams(p, search, orderKey);
    PublicTotpApi.GetSortParams(p.sort, j);
    PublicTotpApi.GetFilterEntries(f);
    GetListParamsParts(f, p, search, fieldKey);
    GetListParamsParts(f, p, search, orderKey);
  }

  /** The page, size, search and filter names find what the client put in. */
  lemma GetListParamsNamed(f: Filter, p: Pagination, search: Option<string>)
    ensures var ps := PublicTotpApi.ListParams(f, p, search);
            && Get(ps, "page") == Some(NumberToString(p.page))
            && Get(ps, "size") == Some(NumberToString(p.size))
            && Get(ps, "q") == (if search.Some? && search.value != "" then search else None)
            && Get(ps, "issuer") == (if f.issuer != "" then Some(f.issuer) else None)
            && Get(ps, "label") == (if f.account != "" then Some(f.account) else None)
            && Get(ps, "secret") == (if f.secret != "" then Some(f.secret) else None)
  {
    GetListParamsHeadNames(f, p, search);
    GetListParamsFilterNames(f, p, search);
  }

  /** A name that is not a sort key is found among the head pairs first, then among the filter pairs. */
  lemma GetListParamsName(f: Filter, p: Pagination, search: Option<string>, name: string)
    requires name == "page" || name == "size" || name == "q" || name == "issuer" || name == "label" || name == "secret"
    ensures var head := PublicTotpApi.HeadParams(p, search);
            Get(PublicTotpApi.ListParams(f, p, search), name)
            == if Get(head, name).Some? then Get(head, name)
               else Get(PublicTotpApi.NonEmptyEntries(PublicTotpApi.FilterEntries(f)), name)
  {
    GetListParamsParts(f, p, search, name);
    PublicTotpApi.GetSortParamsOther(p.sort, name);
  }

  lemma GetListParamsHeadNames(f: Filter, p: Pagination, search: Option<string>)
    ensures var ps := PublicTotpApi.ListParams(f, p, search);
            && Get(ps, "page") == Some(NumberToString(p.page))
            && Get(ps, "size") == Some(NumberToString(p.size))
            && Get(ps, "q") == (if search.Some? && search.value != "" then search else None)
  {
    var page, size, q := "page", "size", "q";
    PublicTotpApi.GetFilterEntries(f);
    GetListParamsName(f, p, search, page);
    GetListParamsName(f, p, search, size);
    GetListParamsName(f, p, search, q);
    PublicTotpApi.GetHeadParams(p, search, page);
    PublicTotpApi.GetHeadParams(p, search, size);
    PublicTotpApi.GetHeadParams(p, search, q);
  }

  lemma GetListParamsFilterNames(f: Filter, p: Pagination, search: Option<string>)
    ensures var ps := PublicTotpApi.ListParams(f, p, search);
            && Get(ps, "issuer") == (if f.issuer != "" then Some(f.issuer) else None)
            && Get(ps, "label") == (if f.account != "" then Some(f.account) else None)
            && Get(ps, "secret") == (if f.secret != "" then Some(f.secret) else None)
  {
    var issuerName, labelName, secretName := "issuer", "label", "secret";
    PublicTotpApi.GetFilterEntries(f);
    GetListParamsName(f, p, search, issuerName);
    GetListParamsName(f, p, search, labelName);
    GetListParamsName(f, p, search, secretName);
    PublicTotpApi.GetHeadParams(p, search, issuerName);
    PublicTotpApi.GetHeadParams(p, search, labelName);
    PublicTotpApi.GetHeadParams(p, search, secretName);
  }

  /**
   * The list query survives the trip from the client to the server: the
   * pairs `APIPublicTotp.list` builds, serialized and parsed again, read as
   * the filter, page, size, search and sort columns the client was given,
   * as long as it sends at least one column and every column has a field
   * and an order.
   */
  lemma ListQueryRoundTrip(f: Filter, p: Pagination, search: Option<string>)
    requires |p.sort| >= 1
    requires forall k :: 0 <= k < |p.sort| ==> p.sort[k].field != "" && p.sort[k].order != ""
    ensures var ps := PublicTotpApi.ListParams(f, p, search);
            ParseQuery(Serialize(ps)).Some?
            && ListQueryOf(ParseQuery(Serialize(ps)).value) == ListQuery(f, p, OrElse(search, ""))
  {
    var ps := PublicTotpApi.ListParams(f, p, search);
    ParseQueryOfSerialize(ps);
    ListParamsSortRead(f, p, search);
    ListParamsNamedRead(f, p, search);
    ListQueryOfParts(ps, f, p, OrElse(search, ""));
  }

  /** The sort keys the client writes read back as its sort columns. */
  lemma ListParamsSortRead(f: Filter, p: Pagination, search: Option<string>)
    requires forall k :: 0 <= k < |p.sort| ==> p.sort[k].field != "" && p.sort[k].order != ""
    ensures SortColumnsOf(PublicTotpApi.ListParams(f, p, search)) == p.sort
  {
    var ps := PublicTotpApi.ListParams(f, p, search);
    forall j: nat
      ensures Get(ps, PublicTotpApi.SortFieldKey(j)) == if j < |p.sort| then Some(p.sort[j].field) else None
      ensures Get(ps, PublicTotpApi.SortOrderKey(j)) == if j < |p.sort| then Some(p.sort[j].order) else None
    {
      GetListParamsSort(f, p, search, j);
    }
    CollectListed(ps, p.sort, 0);
    assert p.sort[..0] == [];
  }

  /** The named parameters the client writes read back, after the defaults and `parseInt`, as its values. */
  lemma ListParamsNamedRead(f: Filter, p: Pagination, search: Option<string>)
    ensures var ps := PublicTotpApi.ListParams(f, p, search);
            && ParseInt(OrElse(Get(ps, "page"), "1")) == p.page
            && ParseInt(OrElse(Get(ps, "size"), "100")) == p.size
            && OrElse(Get(ps, "q"), "") == OrElse(search, "")
            && OrElse(Get(ps, "issuer"), "") == f.issuer
            && OrElse(Get(ps, "label"), "") == f.account
            && OrElse(Get(ps, "secret"), "") == f.secret
  {
    GetListParamsNamed(f, p, search);
    ParseIntOfNumberToString(p.page);
    ParseIntOfNumberToString(p.size);
  }

  /** `ListQueryOf` assembles the query from what the named parameters and the sort keys read as. */
  lemma ListQueryOfParts(ps: Params, f: Filter, p: Pagination, search: string)
    requires |p.sort| >= 1 && SortColumnsOf(ps) == p.sort
    requires ParseInt(OrElse(Get(ps, "page"), "1")) == p.page
    requires ParseInt(OrElse(Get(ps, "size"), "100")) == p.size
    requires OrElse(Get(ps, "q"), "") == search
    requires OrElse(Get(ps, "issuer"), "") == f.issuer
    requires OrElse(Get(ps, "label"), "") == f.account
    requires OrElse(Get(ps, "secret"), "") == f.secret
    ensures ListQueryOf(ps) == ListQuery(f, p, search)
  {
  }

  // ---------------------------------------------------------------------
  // Turnstile verification and creation
  // ---------------------------------------------------------------------

  /** The form body `validateTurnstileToken` posts to `siteverify`. */
  function VerifyBody(secretKey: string, token: string, ip: string): string
  {
    BodyTemplate(EncodeUriComponent(secretKey), EncodeUriComponent(token), EncodeUriComponent(ip))
  }

  /** The template string of the body, filled with the encoded values. */
  function BodyTemplate(secretText: string, tokenText: string, ipText: string): string
  {
    "secret=" + secretText + "&response=" + tokenText + "&remoteip=" + ipText
  }

  /** One `name=value` field of the body, with a plain name, parses back to the name and the value. */
  lemma ParseUriComponentField(name: string, value: string)
    requires forall i :: 0 <= i < |name| ==> IsUnreserved(name[i])
    ensures ParsePair(UriField(name, value)) == Some((name, value))
  {
    var piece := name + "=" + EncodeUriComponent(value);
    assert '=' !in name;
    assert piece == name + ['='] + EncodeUriComponent(value);
    FirstFieldOfSeparated(name, '=', EncodeUriComponent(value));
    assert piece[|name| + 1..] == EncodeUriComponent(value);
    PercentDecodeOfUnreserved(name);
    FormDecodeOfUriComponent(value);
  }

  /** One `name=value` field of a form body. */
  function UriField(name: string, value: string): (r: string)
    ensures r != [] && ('&' in r ==> '&' in name)
  {
    assert (name + "=" + EncodeUriComponent(value))[|name|] == '=';
    name + "=" + EncodeUriComponent(value)
  }

  /** The template is three `name=value` fields joined by `&`. */
  lemma BodyTemplateFields(x: string, y: string, z: string)
    ensures BodyTemplate(x, y, z) == Join(["secret=" + x, "response=" + y, "remoteip=" + z], '&')
  {
    var a := "secret=" + x;
    var b := "response=" + y;
    var c := "remoteip=" + z;
    assert [b, c][1..] == [c] && [a, b, c][1..] == [b, c];
    assert Join([b, c], '&') == b + ['&'] + c;
    assert Join([a, b, c], '&') == a + ['&'] + (b + ['&'] + c);
    assert "&response=" == ['&'] + "response=" && "&remoteip=" == ['&'] + "remoteip=";
    assert BodyTemplate(x, y, z) == a + ['&'] + b + ['&'] + c;
  }

  /** The body is the three fields joined by `&`. */
  lemma VerifyBodyFields(secretKey: string, token: string, ip: string)
    ensures VerifyBody(secretKey, token, ip)
         == Join([UriField("secret", secretKey), UriField("response", token), UriField("remoteip", ip)], '&')
  {
    BodyTemplateFields(EncodeUriComponent(secretKey), EncodeUriComponent(token), EncodeUriComponent(ip));
    assert "secret" + "=" == "secret=" && "response" + "=" == "response=" && "remoteip" + "=" == "remoteip=";
  }

  /** Three non-empty `&`-free pieces joined by `&` parse as the three pairs they spell. */
  lemma ParseThreePieces(a: string, b: string, c: string)
    requires a != [] && b != [] && c != []
    requires '&' !in a && '&' !in b && '&' !in c
    requires ParsePair(a).Some? && ParsePair(b).Some? && ParsePair(c).Some?
    ensures ParseQuery(Join([a, b, c], '&')) == Some([ParsePair(a).value, ParsePair(b).value, ParsePair(c).value])
  {
    SplitJoin([a, b, c], '&');
    ParsePiecesCons(c, []);
    assert [c] + [] == [c];
    ParsePiecesCons(b, [c]);
    ParsePiecesCons(a, [b, c]);
    assert [a] + ([b] + [c]) == [a, b, c];
    var pa, pb, pc := ParsePair(a).value, ParsePair(b).value, ParsePair(c).value;
    assert [pa] + ([pb] + ([pc] + [])) == [pa, pb, pc];
  }

  /** Cloudflare's form parser reads exactly the three fields back from the body, whatever they hold. */
  lemma VerifyBodyParses(secretKey: string, token: string, ip: string)
    ensures ParseQuery(VerifyBody(secretKey, token, ip)) == Some([("secret", secretKey), ("response", token), ("remoteip", ip)])
  {
    ParseUriComponentField("secret", secretKey);
    ParseUriComponentField("response", token);
    ParseUriComponentField("remoteip", ip);
    VerifyBodyFields(secretKey, token, ip);
    ParseThreePieces(UriField("secret", secretKey), UriField("response", token), UriField("remoteip", ip));
  }

  /**
   * `validateTurnstileToken` given how the post went: the `success` field of
   * Cloudflare's answer, or false when the post threw.
   */
  function ValidateTurnstileToken(call: Result<bool, Thrown>): (ok: bool)
    ensures ok <==> call == Ok(true)
  {
    match call
    case Ok(success) => success
    case Err(_) => false
  }

  /** What `createTotp` does: hand the payload to the repository, or throw. */
  datatype Decision = Delegate(payload: CreatePayload) | Reject(message: string)

  /** A JavaScript value in a boolean test: a boolean, or the promise of one. */
  datatype JsValue = Bool(b: bool) | PromiseOf(settled: bool)

  /** JavaScript truthiness: every object, a pending promise among them, is true. */
  predicate Truthy(v: JsValue)
  {
    match v
    case Bool(b) => b
    case PromiseOf(_) => true
  }

  /**
   * `createTotp` as written: it tests the promise `validateTurnstileToken`
   * returns without awaiting it, and a promise is always truthy.
   */
  function CreateTotpAsWritten(payload: CreatePayload, verdict: bool): (d: Decision)
    ensures Truthy(PromiseOf(verdict)) ==> d == Delegate(payload)
  {
    if !Truthy(PromiseOf(verdict)) then Reject("Invalid Turnstile token") else Delegate(payload)
  }

  /** A token Cloudflare rejects still reaches the repository. */
  lemma CreateTotpAsWrittenIgnoresVerdict(payload: CreatePayload)
    ensures CreateTotpAsWritten(payload, false) == Delegate(payload)
  {
  }

  /** `createTotp` with the verdict awaited: the payload reaches the repository exactly when the token passed. */
  function CreateTotp(payload: CreatePayload, verdict: bool): (d: Decision)
    ensures d.Delegate? <==> verdict
    ensures d.Delegate? ==> d.payload == payload
    ensures d.Reject? ==> d.message == "Invalid Turnstile token"
  {
    var passed := Bool(verdict);
    if !Truthy(passed) then Reject("Invalid Turnstile token") else Delegate(payload)
  }
}
