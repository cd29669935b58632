/**
 * The list state of the React hook `useGetTotp` in
 * components/totp/hooks/get-totp.ts: the entries shown, their total, and
 * the filter, page and search they were fetched with. `onFetch` replaces
 * the state with the answer of `APIPublicTotp.list`, `addTotp` puts a new
 * entry in front.
 *
 * React's `setTotps` replaces the whole state object, so the hook is a
 * class with one field that its methods reassign.
 */
module TotpListHook {
  import opened Wrappers
  import opened ServiceTypes
  import TotpEntity
  import PublicTotpApi

  /** The `TotpList` state object. */
  datatype ListState = ListState(
    totps: seq<TotpEntity.Totp>,
    total: int,
    filter: Filter,
    page: Pagination,
    search: string,
    loading: bool)

  /** The state the hook starts in: page 1 of size 5 (no sort columns), nothing filtered or searched, nothing loaded. */
  const Initial := ListState([], 0, Filter("", "", ""), Pagination(Some(1), Some(5), []), "", false)

  /**
   * The state `onFetch` leaves behind. `response` is what awaiting
   * `totpApi.list` gives: its answer, or what it threw.
   */
  function AfterFetch(st: ListState, filter: Filter, page: Pagination, search: string, response: Result<ListResponse, Thrown>): (next: ListState)
    ensures st.loading ==> next == st
    ensures !st.loading ==> !next.loading
    ensures !st.loading && response.Ok? ==>
              next.totps == response.value.entries && next.total == response.value.total
              && next.filter == filter && next.page == page && next.search == search
    ensures response.Err? ==> next == st
  {
    if st.loading then st
    else match response
      case Ok(answer) => ListState(answer.entries, answer.total, filter, page, search, false)
      case Err(_) => st
  }

  /** `addTotp`: the entry goes in front and the total grows by one. */
  function AfterAdd(st: ListState, entry: TotpEntity.Totp): (next: ListState)
    ensures next.totps == [entry] + st.totps && next.total == st.total + 1
    ensures next.filter == st.filter && next.page == st.page && next.search == st.search && next.loading == st.loading
  {
    st.(totps := [entry] + st.totps, total := st.total + 1)
  }

  /** Fetching again with the same arguments and the same answer changes nothing more. */
  lemma FetchIdempotent(st: ListState, filter: Filter, page: Pagination, search: string, response: Result<ListResponse, Thrown>)
    ensures var once := AfterFetch(st, filter, page, search, response);
            AfterFetch(once, filter, page, search, response) == once
  {
  }

  /**
   * `APIPublicTotp.list` never throws: it answers an empty list for any
   * failure. So a failed request does not keep the old entries; it
   * clears them, and records the filter, page and search asked for.
   */
  lemma FailedListClears(st: ListState, filter: Filter, page: Pagination, search: string, call: Result<ApiResponse<ListResponse>, Thrown>)
    requires !st.loading
    requires !(call.Ok? && call.value.success && call.value.data.Some?)
    ensures var next := AfterFetch(st, filter, page, search, Ok(PublicTotpApi.ListOutcome(call).result));
            next == ListState([], 0, filter, page, search, false)
  {
  }

  /** An addition keeps the gap between the entries shown and the total. */
  lemma AddKeepsGap(st: ListState, entry: TotpEntity.Totp)
    ensures var next := AfterAdd(st, entry);
            |next.totps| - next.total == |st.totps| - st.total
  {
  }

  /** The hook: the state React holds, replaced by each `setTotps`. */
  class ListHook {
    var list: ListState

    constructor ()
      ensures list == Initial
    {
      list := Initial;
    }

    /**
     * `onFetch`: nothing while a fetch is under way; otherwise mark the
     * state loading, take the answer into a copy, and store the copy with
     * `loading` false.
     */
    method OnFetch(filter: Filter, page: Pagination, search: string, response: Result<ListResponse, Thrown>)
      modifies this
      ensures list == AfterFetch(old(list), filter, page, search, response)
    {
      if list.loading {
        return;
      }
      var snapshot := list.(loading := true);
      list := snapshot;
      if response.Ok? {
        snapshot := snapshot.(filter := filter);
        snapshot := snapshot.(page := page);
        snapshot := snapshot.(search := search);
        snapshot := snapshot.(totps := response.value.entries);
        snapshot := snapshot.(total := response.value.total);
      }
      list := snapshot.(loading := false);
    }

    /** `addTotp`. */
    method AddTotp(entry: TotpEntity.Totp)
      modifies this
      ensures list == AfterAdd(old(list), entry)
    {
      list := list.(totps := [entry] + list.totps, total := list.total + 1);
    }
  }
}
