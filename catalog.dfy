/**
 * The in-memory entry catalog of src/lib/server/totp-storage.service.ts:
 * class `TotpService` over a `Map` from ids to entries. A JavaScript `Map`
 * iterates in insertion order, so the model keeps that order beside the
 * map; re-setting an existing key keeps its place.
 *
 * The random id (`Math.random().toString(36).substring(2, 15)`) and the
 * creation time are arguments; `createdAt` is kept as the millisecond time
 * the ISO string encodes, which is what `new Date(createdAt).getTime()`
 * gives back. `localeCompare` is modelled by ordinal (code point) order.
 */
module Catalog {
  import opened Wrappers
  import opened Strings
  import Totp
  import Countdown

  datatype EntryType = Public | Challenge

  datatype Entry = Entry(
    id: string,
    secret: string,
    issuer: string,
    account: string,
    kind: EntryType,
    challengeKey: string,
    createdAt: int)

  /** `TOTPOptions`: every field may be missing. */
  datatype Options = Options(
    issuer: Option<string>,
    account: Option<string>,
    kind: Option<EntryType>,
    challengeKey: Option<string>)

  const DefaultIssuer: string := "TOTP Store"

  /** The entry `addTOTPEntry` stores. */
  function NewEntry(id: string, secret: string, opts: Options, nowMs: int): (e: Entry)
    ensures e.id == id && e.secret == secret && e.createdAt == nowMs
    ensures OrElse(opts.issuer, "") == "" ==> e.issuer == DefaultIssuer
    ensures OrElse(opts.issuer, "") != "" ==> e.issuer == opts.issuer.value
    ensures OrElse(opts.account, "") == "" ==> e.account == "Account " + id
    ensures OrElse(opts.account, "") != "" ==> e.account == opts.account.value
    ensures e.kind == (if opts.kind.Some? then opts.kind.value else Public)
    ensures e.challengeKey == OrElse(opts.challengeKey, "")
    ensures e.issuer != "" && e.account != ""
  {
    Entry(id, secret,
      OrElse(opts.issuer, DefaultIssuer),
      OrElse(opts.account, "Account " + id),
      if opts.kind.Some? then opts.kind.value else Public,
      OrElse(opts.challengeKey, ""),
      nowMs)
  }

  // ---------------------------------------------------------------------
  // Insertion order
  // ---------------------------------------------------------------------

  predicate Distinct(s: seq<string>)
  {
    forall i, j :: 0 <= i < j < |s| ==> s[i] != s[j]
  }

  /** The entries of a map in the given key order. */
  function ValuesOf(keys: map<string, Entry>, order: seq<string>): (es: seq<Entry>)
    requires forall i :: 0 <= i < |order| ==> order[i] in keys
    ensures |es| == |order|
    ensures forall i :: 0 <= i < |order| ==> es[i] == keys[order[i]]
  {
    if order == [] then [] else [keys[order[0]]] + ValuesOf(keys, order[1..])
  }

  /** The order lists exactly the keys, once each, and every entry sits under its own id. */
  ghost predicate Consistent(keys: map<string, Entry>, order: seq<string>)
  {
    (forall id :: id in keys <==> id in order)
    && Distinct(order)
    && (forall id :: id in keys ==> keys[id].id == id)
  }

  /**
   * Storing an entry under its id keeps the map and the order consistent;
   * a new id goes last, and its entry is appended to the values.
   */
  lemma PutKeepsConsistent(keys: map<string, Entry>, order: seq<string>, e: Entry)
    requires Consistent(keys, order)
    ensures var keys2 := keys[e.id := e];
            Consistent(keys2, if e.id in keys then order else order + [e.id])
            && (e.id in keys ==> |keys2| == |keys|)
            && (e.id !in keys ==> |keys2| == |keys| + 1)
    ensures e.id !in keys ==>
              (forall i :: 0 <= i < |order| ==> order[i] in keys)
              && (forall i :: 0 <= i < |order + [e.id]| ==> (order + [e.id])[i] in keys[e.id := e])
              && ValuesOf(keys[e.id := e], order + [e.id]) == ValuesOf(keys, order) + [e]
  {
    if e.id in keys {
      PutPresentKeepsConsistent(keys, order, e);
    } else {
      forall i | 0 <= i < |order| ensures order[i] in keys && order[i] != e.id {
        assert order[i] in order;
      }
      PutAbsentKeepsConsistent(keys, order, e);
      ValuesOfAppend(keys, keys[e.id := e], order, e.id);
    }
  }

  lemma PutPresentKeepsConsistent(keys: map<string, Entry>, order: seq<string>, e: Entry)
    requires Consistent(keys, order) && e.id in keys
    ensures Consistent(keys[e.id := e], order)
  {
  }

  lemma PutAbsentKeepsConsistent(keys: map<string, Entry>, order: seq<string>, e: Entry)
    requires Consistent(keys, order) && e.id !in keys
    ensures Consistent(keys[e.id := e], order + [e.id])
  {
    var keys2 := keys[e.id := e];
    var order2 := order + [e.id];
    AppendKeepsDistinct(order, e.id);
    forall id ensures id in keys2 <==> id in order2 {
      assert id in order2 <==> id in order || id == e.id;
    }
  }

  lemma AppendKeepsDistinct(s: seq<string>, x: string)
    requires Distinct(s) && x !in s
    ensures Distinct(s + [x])
  {
    var s2 := s + [x];
    forall i, j | 0 <= i < j < |s2| ensures s2[i] != s2[j] {
      assert s2[i] == s[i];
      if j < |s| {
        assert s2[j] == s[j];
      }
    }
  }

  /** Appending a key to the order appends its entry, when the earlier keys keep their entries. */
  lemma ValuesOfAppend(keys: map<string, Entry>, keys2: map<string, Entry>, order: seq<string>, id: string)
    requires forall i :: 0 <= i < |order| ==> order[i] in keys && order[i] in keys2 && keys2[order[i]] == keys[order[i]]
    requires id in keys2
    ensures forall i :: 0 <= i < |order + [id]| ==> (order + [id])[i] in keys2
    ensures ValuesOf(keys2, order + [id]) == ValuesOf(keys, order) + [keys2[id]]
  {
    var longer := order + [id];
    assert forall i :: 0 <= i < |longer| ==> longer[i] in keys2 by {
      forall i | 0 <= i < |longer| ensures longer[i] in keys2 {
        if i < |order| {
          assert longer[i] == order[i];
        }
      }
    }
    var a := ValuesOf(keys2, longer);
    var b := ValuesOf(keys, order) + [keys2[id]];
    forall i | 0 <= i < |a| ensures a[i] == b[i] {
      if i < |order| {
        assert longer[i] == order[i];
      }
    }
  }

  /** The key order with one key taken out. */
  function Without(s: seq<string>, x: string): (r: seq<string>)
    ensures forall y :: y in r <==> y in s && y != x
    ensures Distinct(s) ==> Distinct(r)
  {
    if s == [] then []
    else if s[0] == x then Without(s[1..], x)
    else
      var rest := Without(s[1..], x);
      assert forall y :: y in rest ==> y in s[1..];
      assert Distinct(s) ==> s[0] !in s[1..] && Distinct(s[1..]);
      [s[0]] + rest
  }

  lemma {:induction false} DistinctCardinality(s: seq<string>)
    requires Distinct(s)
    ensures |set x | x in s| == |s|
  {
    if s != [] {
      DistinctCardinality(s[1..]);
      assert (set x | x in s) == (set x | x in s[1..]) + {s[0]};
      assert s[0] !in s[1..];
    }
  }

  // ---------------------------------------------------------------------
  // Listing: search, sort, pagination
  // ---------------------------------------------------------------------

  datatype SortField = ByIssuer | ByAccount | ByCreatedAt
  datatype SortOrder = Asc | Desc

  /** `ListOptions`. */
  datatype ListOptions = ListOptions(search: Option<string>, sortBy: Option<SortField>, sortOrder: Option<SortOrder>)

  /** The search test: issuer or label contains the text, ignoring case. */
  predicate Matches(e: Entry, search: string)
  {
    Contains(Lower(e.issuer), Lower(search)) || Contains(Lower(e.account), Lower(search))
  }

  /** `entries.filter(...)`: the matching entries, in their original order. */
  function FilterMatching(es: seq<Entry>, search: string): (r: seq<Entry>)
    ensures |r| <= |es|
    ensures forall e :: multiset(r)[e] == (if Matches(e, search) then multiset(es)[e] else 0)
  {
    if es == [] then []
    else
      var rest := FilterMatching(es[1..], search);
      assert es == [es[0]] + es[1..];
      if Matches(es[0], search) then [es[0]] + rest else rest
  }

  /** The list the search leaves: everything when the search text is missing or empty. */
  function Searched(es: seq<Entry>, search: Option<string>): seq<Entry>
  {
    if search.Some? && search.value != "" then FilterMatching(es, search.value) else es
  }

  /** `a.localeCompare(b)` read as its sign, with ordinal order. */
  function TextCompare(a: string, b: string): (c: int)
    ensures c == 0 <==> a == b
    ensures -1 <= c <= 1
  {
    if a == b then 0 else if LexLe(a, b) then -1 else 1
  }

  /** The comparator handed to `entries.sort`. */
  function Compare(a: Entry, b: Entry, opts: ListOptions): int
  {
    match opts.sortBy
    case None => b.createdAt - a.createdAt
    case Some(field) =>
      var c := match field
        case ByIssuer => TextCompare(a.issuer, b.issuer)
        case ByAccount => TextCompare(a.account, b.account)
        case ByCreatedAt => a.createdAt - b.createdAt;
      if opts.sortOrder == Some(Desc) then -c else c
  }

  /** a may stand before b in the sorted list. */
  predicate Precedes(a: Entry, b: Entry, opts: ListOptions)
  {
    Compare(a, b, opts) <= 0
  }

  lemma TextCompareAntisymmetric(a: string, b: string)
    ensures TextCompare(a, b) == -TextCompare(b, a)
  {
    if a != b {
      LexLeTotal(a, b);
      if LexLe(a, b) && LexLe(b, a) {
        LexLeAntisymmetric(a, b);
      }
    }
  }

  lemma TextCompareTransitive(a: string, b: string, c: string)
    requires TextCompare(a, b) <= 0 && TextCompare(b, c) <= 0
    ensures TextCompare(a, c) <= 0
  {
    if a != b && b != c {
      LexLeTransitive(a, b, c);
    }
  }

  /** Swapping the arguments flips the comparator's sign. */
  lemma CompareAntisymmetric(a: Entry, b: Entry, opts: ListOptions)
    ensures Compare(a, b, opts) < 0 <==> Compare(b, a, opts) > 0
    ensures Compare(a, b, opts) == 0 <==> Compare(b, a, opts) == 0
  {
    TextCompareAntisymmetric(a.issuer, b.issuer);
    TextCompareAntisymmetric(a.account, b.account);
  }

  /** The comparator is consistent, as `Array.prototype.sort` needs it to be. */
  lemma PrecedesTransitive(a: Entry, b: Entry, c: Entry, opts: ListOptions)
    requires Precedes(a, b, opts) && Precedes(b, c, opts)
    ensures Precedes(a, c, opts)
  {
    match opts.sortBy
    case None =>
    case Some(field) =>
      var desc := opts.sortOrder == Some(Desc);
      match field
      case ByIssuer =>
        TextCompareAntisymmetric(a.issuer, b.issuer);
        TextCompareAntisymmetric(b.issuer, c.issuer);
        TextCompareAntisymmetric(a.issuer, c.issuer);
        if desc {
          TextCompareTransitive(c.issuer, b.issuer, a.issuer);
        } else {
          TextCompareTransitive(a.issuer, b.issuer, c.issuer);
        }
      case ByAccount =>
        TextCompareAntisymmetric(a.account, b.account);
        TextCompareAntisymmetric(b.account, c.account);
        TextCompareAntisymmetric(a.account, c.account);
        if desc {
          TextCompareTransitive(c.account, b.account, a.account);
        } else {
          TextCompareTransitive(a.account, b.account, c.account);
        }
      case ByCreatedAt =>
  }

  predicate Sorted(s: seq<Entry>, opts: ListOptions)
  {
    forall i, j :: 0 <= i < j < |s| ==> Precedes(s[i], s[j], opts)
  }

  /** Entries the comparator ranks equal to e, in the order they appear. */
  function TiedWith(s: seq<Entry>, e: Entry, opts: ListOptions): seq<Entry>
  {
    if s == [] then []
    else (if Compare(s[0], e, opts) == 0 then [s[0]] else []) + TiedWith(s[1..], e, opts)
  }

  /** Insertion of x into a sorted list, after every entry that does not rank above it. */
  function Insert(x: Entry, s: seq<Entry>, opts: ListOptions): (r: seq<Entry>)
    ensures multiset(r) == multiset(s) + multiset{x}
  {
    if s == [] then [x]
    else if Precedes(s[0], x, opts) then
      assert s == [s[0]] + s[1..];
      [s[0]] + Insert(x, s[1..], opts)
    else [x] + s
  }

  /**
   * A stable sort under the comparator: the list `entries.sort(cmp)`
   * produces (stable since ECMAScript 2019).
   */
  function Sort(es: seq<Entry>, opts: ListOptions): (r: seq<Entry>)
    ensures multiset(r) == multiset(es)
  {
    if es == [] then []
    else
      assert es == es[..|es| - 1] + [es[|es| - 1]];
      Insert(es[|es| - 1], Sort(es[..|es| - 1], opts), opts)
  }

  lemma {:induction false} InsertSorted(x: Entry, s: seq<Entry>, opts: ListOptions)
    requires Sorted(s, opts)
    ensures Sorted(Insert(x, s, opts), opts)
  {
    if s != [] {
      var r := Insert(x, s, opts);
      if Precedes(s[0], x, opts) {
        var tail := Insert(x, s[1..], opts);
        InsertSorted(x, s[1..], opts);
        forall k | 0 <= k < |tail| ensures Precedes(s[0], tail[k], opts) {
          assert tail[k] in multiset(tail);
          if tail[k] != x {
            assert tail[k] in multiset(s[1..]);
            var j :| 0 <= j < |s[1..]| && s[1..][j] == tail[k];
            assert s[j + 1] == tail[k];
          }
        }
      } else {
        CompareAntisymmetric(s[0], x, opts);
        forall k | 0 <= k < |s| ensures Precedes(x, s[k], opts) {
          if k > 0 {
            PrecedesTransitive(x, s[0], s[k], opts);
          }
        }
      }
    }
  }

  /** The sorted list is ordered by the comparator. */
  lemma {:induction false} SortSorted(es: seq<Entry>, opts: ListOptions)
    ensures Sorted(Sort(es, opts), opts)
  {
    if es != [] {
      SortSorted(es[..|es| - 1], opts);
      InsertSorted(es[|es| - 1], Sort(es[..|es| - 1], opts), opts);
    }
  }

  lemma {:induction false} TiedWithAppend(a: seq<Entry>, b: seq<Entry>, e: Entry, opts: ListOptions)
    ensures TiedWith(a + b, e, opts) == TiedWith(a, e, opts) + TiedWith(b, e, opts)
  {
    if a != [] {
      TiedWithAppend(a[1..], b, e, opts);
      assert (a + b)[1..] == a[1..] + b;
    } else {
      assert a + b == b;
    }
  }

  lemma {:induction false} NoneTied(s: seq<Entry>, e: Entry, opts: ListOptions)
    requires forall k :: 0 <= k < |s| ==> Compare(s[k], e, opts) != 0
    ensures TiedWith(s, e, opts) == []
  {
    if s != [] {
      NoneTied(s[1..], e, opts);
    }
  }

  /** Inserting x adds it after every entry already tied with it. */
  lemma {:induction false} InsertTied(x: Entry, s: seq<Entry>, e: Entry, opts: ListOptions)
    requires Sorted(s, opts)
    ensures TiedWith(Insert(x, s, opts), e, opts)
         == TiedWith(s, e, opts) + (if Compare(x, e, opts) == 0 then [x] else [])
  {
    if s == [] {
      TiedWithSingleton(x, e, opts);
    } else if Precedes(s[0], x, opts) {
      SortedTail(s, opts);
      InsertTied(x, s[1..], e, opts);
      InsertTiedPastHead(x, s, e, opts);
    } else {
      InsertTiedBeforeHead(x, s, e, opts);
    }
  }

  /** Insertion past the head: the head's tie status comes first, then the tail's. */
  lemma InsertTiedPastHead(x: Entry, s: seq<Entry>, e: Entry, opts: ListOptions)
    requires s != [] && Precedes(s[0], x, opts)
    requires TiedWith(Insert(x, s[1..], opts), e, opts)
          == TiedWith(s[1..], e, opts) + (if Compare(x, e, opts) == 0 then [x] else [])
    ensures TiedWith(Insert(x, s, opts), e, opts)
         == TiedWith(s, e, opts) + (if Compare(x, e, opts) == 0 then [x] else [])
  {
    var tail := Insert(x, s[1..], opts);
    var r := Insert(x, s, opts);
    var headTied := if Compare(s[0], e, opts) == 0 then [s[0]] else [];
    var xTied := if Compare(x, e, opts) == 0 then [x] else [];
    assert r == [s[0]] + tail;
    assert r[0] == s[0] && r[1..] == tail;
    assert TiedWith(r, e, opts) == headTied + TiedWith(tail, e, opts);
    assert TiedWith(s, e, opts) == headTied + TiedWith(s[1..], e, opts);
    ConcatAssociative(headTied, TiedWith(s[1..], e, opts), xTied);
  }

  /** Insertion in front of the head: x comes first, and if it is tied with e nothing after it is. */
  lemma InsertTiedBeforeHead(x: Entry, s: seq<Entry>, e: Entry, opts: ListOptions)
    requires Sorted(s, opts) && s != [] && !Precedes(s[0], x, opts)
    ensures TiedWith(Insert(x, s, opts), e, opts)
         == TiedWith(s, e, opts) + (if Compare(x, e, opts) == 0 then [x] else [])
  {
    assert Insert(x, s, opts) == [x] + s;
    TiedWithAppend([x], s, e, opts);
    TiedWithSingleton(x, e, opts);
    if Compare(x, e, opts) == 0 {
      NoneTiedAbove(x, s, e, opts);
    }
  }

  lemma SortedTail(s: seq<Entry>, opts: ListOptions)
    requires Sorted(s, opts) && s != []
    ensures Sorted(s[1..], opts)
  {
    forall i, j | 0 <= i < j < |s| - 1 ensures Precedes(s[1..][i], s[1..][j], opts) {
      assert s[1..][i] == s[i + 1] && s[1..][j] == s[j + 1];
    }
  }

  /** Everything in a sorted list whose head ranks strictly above x is untied with anything x is tied with. */
  lemma NoneTiedAbove(x: Entry, s: seq<Entry>, e: Entry, opts: ListOptions)
    requires Sorted(s, opts) && s != [] && !Precedes(s[0], x, opts) && Compare(x, e, opts) == 0
    ensures TiedWith(s, e, opts) == []
  {
    CompareAntisymmetric(s[0], x, opts);
    forall k | 0 <= k < |s| ensures Compare(s[k], e, opts) != 0 {
      if Compare(s[k], e, opts) == 0 {
        CompareAntisymmetric(s[k], e, opts);
        CompareAntisymmetric(x, e, opts);
        if k > 0 {
          PrecedesTransitive(s[0], s[k], e, opts);
        }
        PrecedesTransitive(s[0], e, x, opts);
      }
    }
    NoneTied(s, e, opts);
  }

  /** Stability: entries the comparator ranks equal keep their relative order. */
  lemma {:induction false} SortStable(es: seq<Entry>, e: Entry, opts: ListOptions)
    ensures TiedWith(Sort(es, opts), e, opts) == TiedWith(es, e, opts)
  {
    if es != [] {
      var init := es[..|es| - 1];
      var x := es[|es| - 1];
      assert es == init + [x];
      var sorted := Sort(init, opts);
      assert Sort(es, opts) == Insert(x, sorted, opts);
      SortStable(init, e, opts);
      SortSorted(init, opts);
      InsertTied(x, sorted, e, opts);
      TiedWithAppend(init, [x], e, opts);
      TiedWithSingleton(x, e, opts);
    }
  }

  lemma TiedWithSingleton(x: Entry, e: Entry, opts: ListOptions)
    ensures TiedWith([x], e, opts) == if Compare(x, e, opts) == 0 then [x] else []
  {
    assert [x][1..] == [];
  }

  /** Without `sortBy` the order is newest first. */
  lemma DefaultOrderNewestFirst(es: seq<Entry>, search: Option<string>)
    ensures forall i, j :: 0 <= i < j < |Sort(es, ListOptions(search, None, None))| ==>
      Sort(es, ListOptions(search, None, None))[i].createdAt >= Sort(es, ListOptions(search, None, None))[j].createdAt
  {
    SortSorted(es, ListOptions(search, None, None));
  }

  /** `Array.prototype.slice(start, end)`: negative positions count from the end. */
  function JsSlice<T>(xs: seq<T>, start: int, end: int): (r: seq<T>)
    ensures 0 <= start <= end ==> r == xs[Min(start, |xs|)..Min(end, |xs|)]
  {
    var s := if start < 0 then Max(|xs| + start, 0) else Min(start, |xs|);
    var e := if end < 0 then Max(|xs| + end, 0) else Min(end, |xs|);
    if s < e then xs[s..e] else []
  }

  function Min(a: int, b: int): int { if a <= b then a else b }
  function Max(a: int, b: int): int { if a >= b then a else b }

  /**
   * The page of a list: `slice(startIndex, startIndex + limit)` with
   * `startIndex = (page - 1) * limit`. A number that is NaN (None) makes
   * both positions 0, so the page is empty.
   */
  function Paginate(xs: seq<Entry>, page: Option<int>, limit: Option<int>): seq<Entry>
  {
    if page.Some? && limit.Some? then
      var start := (page.value - 1) * limit.value;
      JsSlice(xs, start, start + limit.value)
    else []
  }

  /**
   * A numeric argument with a default value: None when the caller leaves it
   * out or passes `undefined`, `Some(n)` for the number n it passes (NaN is `Some(None)`).
   */
  function ArgumentOr(arg: Option<Option<int>>, default: int): (n: Option<int>)
    ensures arg.None? ==> n == Some(default)
    ensures arg.Some? ==> n == arg.value
  {
    if arg.Some? then arg.value else Some(default)
  }

  /** Without page and limit a listing is the first 100 entries of the sorted list. */
  lemma DefaultPageIsFirstHundred(xs: seq<Entry>)
    ensures Paginate(xs, ArgumentOr(None, 1), ArgumentOr(None, 100)) == xs[..Min(100, |xs|)]
  {
    PageWindow(xs, 1, 100);
  }

  /**
   * For page >= 1 and limit >= 0 the page is the window of positions
   * [(page-1)*limit, (page-1)*limit + limit) of the list: limit entries,
   * or what is left of the list, and none once the window starts past the end.
   */
  lemma PageWindow(xs: seq<Entry>, page: int, limit: int)
    requires page >= 1 && limit >= 0
    ensures var start := (page - 1) * limit;
      var r := Paginate(xs, Some(page), Some(limit));
      |r| == Min(limit, Max(0, |xs| - start))
      && (start >= |xs| ==> r == [])
      && (forall k :: 0 <= k < |r| ==> r[k] == xs[start + k])
  {
    var start := (page - 1) * limit;
    ProductOfNats(page - 1, limit);
  }

  // ---------------------------------------------------------------------
  // The service
  // ---------------------------------------------------------------------

  class TotpService {
    /** `totpKeys`. */
    var keys: map<string, Entry>
    /** The order in which `totpKeys` yields its keys. */
    var order: seq<string>

    ghost predicate Valid()
      reads this
    {
      Consistent(keys, order)
    }

    /** `Array.from(this.totpKeys.values())`. */
    function Values(): (es: seq<Entry>)
      reads this
      requires Valid()
      ensures |es| == |keys|
    {
      DistinctCardinality(order);
      assert keys.Keys == set x | x in order;
      ValuesOf(keys, order)
    }

    constructor()
      ensures Valid() && keys == map[] && order == []
    {
      keys := map[];
      order := [];
    }

    /**
     * `addTOTPEntry`: stores the entry under the id and returns the id. A
     * new id goes last in the iteration order; an id already present is
     * overwritten in place. Secrets are not checked for duplicates.
     */
    method AddEntry(id: string, secret: string, opts: Options, nowMs: int) returns (r: string)
      requires Valid()
      modifies this
      ensures Valid() && r == id
      ensures keys == old(keys)[id := NewEntry(id, secret, opts, nowMs)]
      ensures order == if id in old(keys) then old(order) else old(order) + [id]
      ensures id !in old(keys) ==> |keys| == |old(keys)| + 1 && Values() == old(Values()) + [keys[id]]
      ensures id in old(keys) ==> |keys| == |old(keys)|
    {
      var e := NewEntry(id, secret, opts, nowMs);
      PutKeepsConsistent(keys, order, e);
      keys := keys[id := e];
      if id !in order {
        order := order + [id];
      }
      r := id;
    }

    /** `getTOTPEntry`. */
    method GetEntry(id: string) returns (r: Option<Entry>)
      requires Valid()
      ensures r.Some? <==> id in keys
      ensures r.Some? ==> r.value == keys[id] && r.value.id == id
    {
      if id in keys {
        r := Some(keys[id]);
      } else {
        r := None;
      }
    }

    /** `deleteTOTPEntry`: true exactly when the id was present; every other entry stays, in order. */
    method DeleteEntry(id: string) returns (removed: bool)
      requires Valid()
      modifies this
      ensures Valid()
      ensures removed == (id in old(keys))
      ensures keys == old(keys) - {id} && id !in keys
      ensures order == Without(old(order), id)
    {
      removed := id in keys;
      keys := keys - {id};
      order := Without(order, id);
    }

    /** `getSize`: the number of stored entries, which is also how many a full listing holds. */
    method GetSize() returns (n: nat)
      requires Valid()
      ensures n == |keys| && n == |Values()|
    {
      n := |keys|;
    }

    /**
     * `listTOTPEntries`: search, then sort, then paginate, with page 1 and
     * limit 100 when they are left out. `total` counts
     * the entries the search keeps and does not depend on the page.
     * Listing leaves the catalog as it was.
     */
    method ListEntries(page: Option<Option<int>>, limit: Option<Option<int>>, opts: ListOptions) returns (entries: seq<Entry>, total: nat)
      requires Valid()
      ensures total == |Searched(Values(), opts.search)|
      ensures entries == Paginate(Sort(Searched(Values(), opts.search), opts), ArgumentOr(page, 1), ArgumentOr(limit, 100))
    {
      entries := Values();
      total := |entries|;
      if opts.search.Some? && opts.search.value != "" {
        entries := FilterMatching(entries, opts.search.value);
        total := |entries|;
      }
      entries := Sort(entries, opts);
      entries := Paginate(entries, ArgumentOr(page, 1), ArgumentOr(limit, 100));
    }
  }

  /** The result of `generateToken`. */
  datatype TokenInfo = TokenInfo(token: string, expiresIn: nat)

  /**
   * `TotpService.generateToken`: the engine's token with the countdown, or
   * the engine's error, which the binding throws. The clock is read twice:
   * `tokenMs` inside `generate_token`, `countdownMs` for `expiresIn`.
   */
  function GenerateToken(hmac: Totp.HmacSha1, secret: string, tokenMs: nat, countdownMs: nat): (r: Result<TokenInfo, string>)
    ensures r.Ok? <==> Totp.GenerateToken(hmac, secret, tokenMs).Ok?
    ensures r.Ok? ==> r.value.token == Totp.GenerateToken(hmac, secret, tokenMs).value
    ensures r.Ok? ==> r.value.expiresIn == Countdown.ExpiresIn(countdownMs) && 1 <= r.value.expiresIn <= 30
    ensures r.Err? ==> r.error == Totp.GenerateToken(hmac, secret, tokenMs).error
  {
    match Totp.GenerateToken(hmac, secret, tokenMs)
    case Err(msg) => Err(msg)
    case Ok(token) => Ok(TokenInfo(token, Countdown.ExpiresIn(countdownMs)))
  }

  /**
   * When both clock readings fall in the same 30-second window, the
   * countdown ends exactly where the token's time step ends, and the token
   * is the one of the countdown's instant.
   */
  lemma GenerateTokenCountdownEndsStep(hmac: Totp.HmacSha1, secret: string, tokenMs: nat, countdownMs: nat)
    requires tokenMs / 30000 == countdownMs / 30000 && countdownMs <= Totp.U64Max
    requires GenerateToken(hmac, secret, tokenMs, countdownMs).Ok?
    ensures var info := GenerateToken(hmac, secret, tokenMs, countdownMs).value;
            (countdownMs / 1000 + info.expiresIn) / 30 == Totp.Counter(tokenMs) + 1
            && info.token == Totp.GenerateToken(hmac, secret, countdownMs).value
  {
    Countdown.ExpiresInEndsWindow(countdownMs);
    Totp.SameWindowSameCounter(tokenMs, countdownMs);
    Totp.SameWindowSameToken(hmac, secret, tokenMs, countdownMs);
  }

  /**
   * Across a window edge the two readings disagree: a token of the window
   * that ends at 30 s, read at 29.999 s, is reported with a full 30 seconds
   * left, measured from the next window.
   */
  lemma GenerateTokenAcrossEdge(hmac: Totp.HmacSha1, secret: string)
    requires Totp.GenerateToken(hmac, secret, 29999).Ok?
    ensures var info := GenerateToken(hmac, secret, 29999, 30000).value;
            info.expiresIn == 30 && Totp.Counter(29999) == 0 && (30000 / 1000 + info.expiresIn) / 30 == 2
  {
    assert Totp.Counter(29999) == 0;
  }
}
