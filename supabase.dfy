/**
 * `TotpSupabase` of lib/server/totp/totp.supabase.ts: the repository over
 * the Supabase `totp` table. The query builder becomes the list of
 * clauses it accumulates, in the order it adds them; what the database
 * answers (the rows, the count, an error) and the signed-in user are
 * handed in.
 */
module TotpSupabase {
  import opened Wrappers
  import opened Strings
  import opened ServiceTypes
  import opened TotpEntity
  import Base32
  import Catalog
  import TotpManager
  import Url

  /** One call on the query builder. */
  datatype Clause =
    | Eq(column: string, value: string)
    | ILike(column: string, pattern: string)
    | Or(filters: string)
    | Range(from: Number, to: Number)
    | Order(column: string, ascending: bool)

  // ---------------------------------------------------------------------
  // list: the clauses
  // ---------------------------------------------------------------------

  /** `eq('owner_id', ownerId)` when there is a signed-in user. */
  function OwnerClauses(owner: Option<string>): seq<Clause>
  {
    if owner.Some? && owner.value != "" then [Eq("owner_id", owner.value)] else []
  }

  /** The `ilike` filters on issuer and label, each only when non-empty; the secret filter is not used. */
  function FilterClauses(f: Filter): (cs: seq<Clause>)
    ensures |cs| == (if f.issuer != "" then 1 else 0) + (if f.account != "" then 1 else 0)
    ensures forall i :: 0 <= i < |cs| ==> cs[i].ILike?
  {
    (if f.issuer != "" then [ILike("metadata->>issuer", "%" + f.issuer + "%")] else [])
    + (if f.account != "" then [ILike("metadata->>label", "%" + f.account + "%")] else [])
  }

  /** One `or` matching the search in the issuer or the label, when the search is non-empty. */
  function SearchClauses(search: Option<string>): seq<Clause>
  {
    if search.Some? && search.value != "" then
      [Or("metadata->>issuer.ilike.%" + search.value + "%,metadata->>label.ilike.%" + search.value + "%")]
    else []
  }

  /** JavaScript arithmetic on numbers that may be NaN. */
  function Times(a: Number, b: Number): Number
  {
    if a.Some? && b.Some? then Some(a.value * b.value) else None
  }

  function Plus(a: Number, b: Number): Number
  {
    if a.Some? && b.Some? then Some(a.value + b.value) else None
  }

  function Minus(a: Number, b: int): Number
  {
    if a.Some? then Some(a.value - b) else None
  }

  /** `range(from, to)` with `from = (page - 1) * size` and `to = from + size - 1`. */
  function RangeClause(p: Pagination): (c: Clause)
    ensures c.Range?
    ensures p.page.Some? && p.size.Some? ==>
              c.from == Some((p.page.value - 1) * p.size.value) && c.to == Some(c.from.value + p.size.value - 1)
    ensures p.page.None? || p.size.None? ==> c.from.None? && c.to.None?
  {
    var from := Times(Minus(p.page, 1), p.size);
    Range(from, Minus(Plus(from, p.size), 1))
  }

  /**
   * The column a sort field orders by: issuer and label are read from the
   * metadata, `createdAt` is `created_at`, and everything else is `used_at`.
   */
  function ColumnOf(field: string): (column: string)
    ensures column == "metadata->>issuer" <==> field == "issuer"
    ensures column == "metadata->>label" <==> field == "label"
    ensures column == "created_at" <==> field == "createdAt"
    ensures column == "used_at" <==> field != "issuer" && field != "label" && field != "createdAt"
  {
    match field
    case "issuer" => "metadata->>issuer"
    case "label" => "metadata->>label"
    case "createdAt" => "created_at"
    case _ => "used_at"
  }

  /** `order(field, { ascending: order === 'asc' })` with a missing order read as `asc`. */
  function OrderClause(c: SortColumn): (o: Clause)
    ensures o.Order? && o.column == ColumnOf(c.field)
    ensures o.ascending <==> c.order == "asc" || c.order == ""
  {
    Order(ColumnOf(c.field), OrElse(Some(c.order), "asc") == "asc")
  }

  /** The order clauses of the sort columns, in array order. */
  function OrderClauses(cols: seq<SortColumn>): (cs: seq<Clause>)
    ensures |cs| == |cols|
  {
    if cols == [] then [] else OrderClauses(cols[..|cols| - 1]) + [OrderClause(cols[|cols| - 1])]
  }

  /** The clauses `list` adds before its order clauses. */
  function FilterAndRangeClauses(owner: Option<string>, f: Filter, p: Pagination, search: Option<string>): seq<Clause>
  {
    OwnerClauses(owner) + FilterClauses(f) + SearchClauses(search) + [RangeClause(p)]
  }

  /** The clauses `list` adds to its query, in the order it adds them. */
  function ListClauses(owner: Option<string>, f: Filter, p: Pagination, search: Option<string>): seq<Clause>
  {
    FilterAndRangeClauses(owner, f, p, search) + OrderClauses(p.sort)
  }

  /** The `forEach` over the sort columns of `list`. */
  method AppendOrderClauses(head: seq<Clause>, cols: seq<SortColumn>) returns (query: seq<Clause>)
    ensures query == head + OrderClauses(cols)
  {
    query := head;
    var i := 0;
    while i < |cols|
      invariant 0 <= i <= |cols|
      invariant query == head + OrderClauses(cols[..i])
    {
      assert cols[..i + 1][..i] == cols[..i] && cols[..i + 1][i] == cols[i];
      var order := if cols[i].order != "" then cols[i].order else "asc";
      var field := ColumnOf(cols[i].field);
      query := query + [Order(field, order == "asc")];
      i := i + 1;
    }
    assert cols[..i] == cols;
  }

  /** The query-building part of `list`. */
  method BuildListQuery(owner: Option<string>, f: Filter, p: Pagination, search: Option<string>) returns (query: seq<Clause>)
    ensures query == ListClauses(owner, f, p, search)
  {
    query := [];
    if owner.Some? && owner.value != "" {
      query := query + [Eq("owner_id", owner.value)];
    }
    assert query == OwnerClauses(owner);
    if f.issuer != "" {
      query := query + [ILike("metadata->>issuer", "%" + f.issuer + "%")];
    }
    if f.account != "" {
      query := query + [ILike("metadata->>label", "%" + f.account + "%")];
    }
    assert query == OwnerClauses(owner) + FilterClauses(f);
    if search.Some? && search.value != "" {
      query := query + [Or("metadata->>issuer.ilike.%" + search.value + "%,metadata->>label.ilike.%" + search.value + "%")];
    }
    assert query == OwnerClauses(owner) + FilterClauses(f) + SearchClauses(search);
    var from := Times(Minus(p.page, 1), p.size);
    var to := Minus(Plus(from, p.size), 1);
    assert Range(from, to) == RangeClause(p);
    query := query + [Range(from, to)];
    assert query == FilterAndRangeClauses(owner, f, p, search);
    if |p.sort| > 0 {
      query := AppendOrderClauses(query, p.sort);
    } else {
      assert query + OrderClauses(p.sort) == query;
    }
  }

  // ---------------------------------------------------------------------
  // Properties of the clauses
  // ---------------------------------------------------------------------

  /** The i-th order clause is that of the i-th sort column. */
  lemma {:induction false} OrderClausesInOrder(cols: seq<SortColumn>)
    ensures forall i :: 0 <= i < |cols| ==> OrderClauses(cols)[i] == OrderClause(cols[i])
  {
    if cols != [] {
      OrderClausesInOrder(cols[..|cols| - 1]);
    }
  }

  /**
   * The clauses end with the range and then one order clause per sort
   * column; the filter on the secret never reaches the query.
   */
  lemma ListClausesShape(owner: Option<string>, f: Filter, p: Pagination, search: Option<string>, otherSecret: string)
    ensures var cs := ListClauses(owner, f, p, search);
            var r := |cs| - |p.sort| - 1;
            0 <= r && cs[r] == RangeClause(p)
            && (forall i :: 0 <= i < |p.sort| ==> cs[r + 1 + i] == OrderClause(p.sort[i]))
            && (forall i :: 0 <= i < r ==> !cs[i].Range? && !cs[i].Order?)
    ensures ListClauses(owner, f, p, search) == ListClauses(owner, f.(secret := otherSecret), p, search)
  {
    var h := FilterAndRangeClauses(owner, f, p, search);
    var os := OrderClauses(p.sort);
    var cs := ListClauses(owner, f, p, search);
    FilterAndRangeShape(owner, f, p, search);
    OrderClausesInOrder(p.sort);
    var r := |h| - 1;
    forall i | 0 <= i < |p.sort|
      ensures cs[r + 1 + i] == OrderClause(p.sort[i])
    {
      assert cs[r + 1 + i] == os[i];
    }
    forall i | 0 <= i < r
      ensures !cs[i].Range? && !cs[i].Order?
    {
      assert cs[i] == h[i];
    }
    assert cs[r] == h[r];
    assert FilterClauses(f) == FilterClauses(f.(secret := otherSecret));
  }

  /** The clauses before the order clauses end with the range, and none before it is a range or an order. */
  lemma FilterAndRangeShape(owner: Option<string>, f: Filter, p: Pagination, search: Option<string>)
    ensures var h := FilterAndRangeClauses(owner, f, p, search);
            && |h| >= 1 && h[|h| - 1] == RangeClause(p)
            && forall i :: 0 <= i < |h| - 1 ==> !h[i].Range? && !h[i].Order?
  {
    var o := OwnerClauses(owner);
    var fc := FilterClauses(f);
    var sc := SearchClauses(search);
    var pre := o + fc + sc;
    assert FilterAndRangeClauses(owner, f, p, search) == pre + [RangeClause(p)];
    forall i | 0 <= i < |pre|
      ensures !pre[i].Range? && !pre[i].Order?
    {
      if i < |o| {
        assert pre[i] == o[i];
      } else if i < |o| + |fc| {
        assert pre[i] == fc[i - |o|];
      } else {
        assert pre[i] == sc[i - |o| - |fc|];
      }
    }
  }

  /**
   * Whatever query the manager reads, the database orders the rows: the
   * manager always passes at least one sort column, so the last clause is
   * an order clause.
   */
  lemma ManagerQueryIsOrdered(owner: Option<string>, ps: Url.Params)
    ensures var q := TotpManager.ListQueryOf(ps);
            var cs := ListClauses(owner, q.filter, q.pagination, Some(q.search));
            |cs| >= 2 && cs[|cs| - 1].Order?
  {
    ListQuerySortNonEmpty(ps);
    SortedQueryEndsWithOrder(owner, TotpManager.ListQueryOf(ps));
  }

  /** `SortedClausesEndWithOrder` for the parts of a whole list query. */
  lemma SortedQueryEndsWithOrder(owner: Option<string>, q: TotpManager.ListQuery)
    requires |q.pagination.sort| >= 1
    ensures var cs := ListClauses(owner, q.filter, q.pagination, Some(q.search));
            |cs| >= 2 && cs[|cs| - 1].Order?
  {
    SortedClausesEndWithOrder(owner, q.filter, q.pagination, Some(q.search));
  }

  /** The manager's list query always carries at least one sort column. */
  lemma ListQuerySortNonEmpty(ps: Url.Params)
    ensures |TotpManager.ListQueryOf(ps).pagination.sort| >= 1
  {
    TotpManager.ListQuerySortUsable(ps);
  }

  /** With at least one sort column the clauses end with an order clause. */
  lemma SortedClausesEndWithOrder(owner: Option<string>, f: Filter, p: Pagination, search: Option<string>)
    requires |p.sort| >= 1
    ensures var cs := ListClauses(owner, f, p, search);
            |cs| >= 2 && cs[|cs| - 1].Order?
  {
    ListClausesShape(owner, f, p, search, "");
    var cs := ListClauses(owner, f, p, search);
    var last := |p.sort| - 1;
    assert cs[|cs| - |p.sort| + last] == OrderClause(p.sort[last]);
  }

  /** The rows at positions `from` to `to`, both included, that PostgREST returns for `range(from, to)`. */
  function RangeRows<T>(rows: seq<T>, from: nat, to: int): (r: seq<T>)
    ensures forall k :: 0 <= k < |r| ==> from + k <= to && from + k < |rows| && r[k] == rows[from + k]
  {
    if from >= |rows| || to < from then [] else rows[from..Catalog.Min(to + 1, |rows|)]
  }

  /**
   * For page >= 1 and size >= 1 the inclusive range is exactly `size`
   * positions wide and selects the rows the in-memory service's
   * `slice((page - 1) * size, (page - 1) * size + size)` selects.
   */
  lemma RangeIsPageSlice<T>(rows: seq<T>, page: int, size: int)
    requires page >= 1 && size >= 1
    ensures var c := RangeClause(Pagination(Some(page), Some(size), []));
            && c.to.value - c.from.value + 1 == size
            && c.from.value >= 0
            && RangeRows(rows, c.from.value, c.to.value) == Catalog.JsSlice(rows, c.from.value, c.from.value + size)
  {
    var from := (page - 1) * size;
    ProductOfNats(page - 1, size);
    var c := RangeClause(Pagination(Some(page), Some(size), []));
    assert c.from == Some(from) && c.to == Some(from + size - 1);
    RangeRowsIsSlice(rows, from, size);
  }

  /** An inclusive range of `size` rows from `from` is the half-open slice of the same rows. */
  lemma RangeRowsIsSlice<T>(rows: seq<T>, from: nat, size: nat)
    requires size >= 1
    ensures RangeRows(rows, from, from + size - 1) == Catalog.JsSlice(rows, from, from + size)
  {
    if from < |rows| {
      assert RangeRows(rows, from, from + size - 1) == rows[from..Catalog.Min(from + size, |rows|)];
    }
  }

  /** `count || 0`: the count, or 0 when the database gave none. */
  function TotalOf(count: Option<int>): (total: int)
    ensures count.Some? ==> total == count.value
    ensures count.None? ==> total == 0
  {
    match count
    case Some(n) => if n != 0 then n else 0
    case None => 0
  }

  /** `list` given what the query returned: every row as an entity, and the total; an error is rethrown generically. */
  function ListResult(answer: Result<(seq<Row>, Option<int>), string>): (r: Result<ListResponse, string>)
    ensures r.Err? <==> answer.Err?
    ensures r.Err? ==> r.error == "Failed to list TOTP entries"
    ensures r.Ok? ==> |r.value.entries| == |answer.value.0|
                      && (forall i :: 0 <= i < |answer.value.0| ==> r.value.entries[i] == FromRow(answer.value.0[i]))
                      && r.value.total == TotalOf(answer.value.1)
  {
    match answer
    case Err(_) => Err("Failed to list TOTP entries")
    case Ok((rows, count)) => Ok(ListResponse(seq(|rows|, i requires 0 <= i < |rows| => FromRow(rows[i])), TotalOf(count)))
  }

  // ---------------------------------------------------------------------
  // create, delete, generateSecret
  // ---------------------------------------------------------------------

  /** The object `create` inserts. */
  datatype Insert = Insert(secret: string, metadata: Metadata, owner: Option<string>)

  /** The insert for a payload: the payload's secret unless it is empty, then the generated one; type `public`. */
  function InsertOf(payload: CreatePayload, generated: string, owner: Option<string>): (ins: Insert)
    ensures payload.secret.Some? && payload.secret.value != "" ==> ins.secret == payload.secret.value
    ensures payload.secret.None? || payload.secret.value == "" ==> ins.secret == generated
    ensures ins.metadata == Metadata(Some(payload.issuer), Some(payload.account), Some("public"), None)
    ensures ins.owner == owner
  {
    Insert(OrElse(payload.secret, generated), Metadata(Some(payload.issuer), Some(payload.account), Some("public"), None), owner)
  }

  /** `create` given the insert's answer: the stored row as an entity, or the one error every failure becomes. */
  function CreateResult(answer: Result<Row, string>): (r: Result<Totp, string>)
    ensures r.Ok? <==> answer.Ok?
    ensures r.Ok? ==> r.value == FromRow(answer.value)
    ensures r.Err? ==> r.error == "Failed to create TOTP entry"
  {
    match answer
    case Ok(row) => Ok(FromRow(row))
    case Err(_) => Err("Failed to create TOTP entry")
  }

  /**
   * The row the database stores for an insert, read back through `create`,
   * is an entity of type `public` with the chosen secret and the payload's
   * issuer and label.
   */
  lemma CreatedEntity(payload: CreatePayload, generated: string, owner: Option<string>, id: string, createdAt: int)
    ensures var ins := InsertOf(payload, generated, owner);
            var r := CreateResult(Ok(Row(id, ins.secret, Some(ins.metadata), createdAt)));
            && r.Ok?
            && r.value == Totp(id, payload.issuer, payload.account, ins.secret, "public", None, createdAt)
  {
  }

  /** The filters of `delete`: the id, and the owner when there is a signed-in user. */
  function DeleteClauses(id: string, owner: Option<string>): (cs: seq<Clause>)
    ensures |cs| >= 1 && cs[0] == Eq("id", id)
    ensures |cs| == 2 <==> owner.Some? && owner.value != ""
  {
    [Eq("id", id)] + OwnerClauses(owner)
  }

  /** `delete`: true exactly when the database reported no error. */
  function DeleteResult(error: Option<string>): (deleted: bool)
    ensures deleted <==> error.None?
  {
    error.None?
  }

  /** `Math.floor(r * n)` for a `Math.random()` value `r`: an index below `n`. */
  function RandomIndex(r: real, n: nat): (i: nat)
    requires 0.0 <= r < 1.0 && n > 0
    ensures i < n
    ensures i as real <= r * n as real < i as real + 1.0
  {
    assert r * n as real < n as real;
    (r * n as real).Floor
  }

  /**
   * `generateSecret`: 16 characters, each picked from the Base32 alphabet by
   * `Math.floor(Math.random() * 32)`. The 16 values `Math.random()` returns are the argument.
   */
  method GenerateSecret(random: seq<real>) returns (result: string)
    requires |random| == 16
    requires forall i :: 0 <= i < 16 ==> 0.0 <= random[i] < 1.0
    ensures |result| == 16
    ensures forall i :: 0 <= i < 16 ==> result[i] == Base32.Alphabet[RandomIndex(random[i], 32)]
    ensures forall i :: 0 <= i < 16 ==> Base32.InAlphabet(result[i])
    ensures Base32.Decode(result).Some?
  {
    var chars := Base32.Alphabet;
    result := "";
    for i := 0 to 16
      invariant |result| == i
      invariant forall k :: 0 <= k < i ==> result[k] == chars[RandomIndex(random[k], 32)]
      invariant forall k :: 0 <= k < i ==> Base32.InAlphabet(result[k])
    {
      var index := RandomIndex(random[i], |chars|);
      Base32.DecodeEncodeDigit(index);
      result := result + [chars[index]];
    }
    forall k | 0 <= k < 16
      ensures Base32.DecodeDigit(result[k]).Some?
    {
      Base32.DecodeEncodeDigit(RandomIndex(random[k], 32));
    }
  }
}
