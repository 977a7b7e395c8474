/**
 * The query cursor: pages through the rows of one database query, fetching
 * batches of `fetchSize` rows on demand and handing them to a page store.
 * A batch ends the query when it brings fewer rows than asked for or no
 * paging state to resume from.
 */
module Cursor {
  import opened Options
  import opened Pages
  import opened RowSource
  import PageStore

  const DEFAULT_PAGE_SIZE: nat := 25
  const DEFAULT_FETCH_SIZE: nat := 1000

  /** A whole number of pages leaves no remainder. */
  lemma ModOfMultiple(k: nat, p: nat)
    requires p >= 1
    ensures (k * p) % p == 0
  {
    var d, m := (k * p) / p, (k * p) % p;
    assert k * p == d * p + m;
    if d < k {
      assert (d + 1) * p == d * p + p;
      MulMonotone(d + 1, k, p);
      assert false;
    } else if d > k {
      assert false;
    }
  }

  /** A multiple of the page size is n times the page size, for any number n of batches. */
  lemma BatchesAreWholePages(n: nat, fetchSize: nat, p: nat)
    requires p >= 1 && fetchSize % p == 0
    ensures n * fetchSize == (n * (fetchSize / p)) * p
  {
    var q := fetchSize / p;
    assert fetchSize == q * p;
    assert n * (q * p) == (n * q) * p;
  }

  /** The requested fetch size rounded up to a multiple of the page size. */
  function AdjustedFetchSize(fetchSize: nat, pageSize: nat): (adjusted: nat)
    requires pageSize >= 1
    ensures adjusted % pageSize == 0
    ensures fetchSize <= adjusted < fetchSize + pageSize
    ensures fetchSize % pageSize == 0 ==> adjusted == fetchSize
  {
    var remainder := fetchSize % pageSize;
    var q := fetchSize / pageSize;
    assert fetchSize == q * pageSize + remainder;
    ModOfMultiple(q, pageSize);
    ModOfMultiple(q + 1, pageSize);
    assert (q + 1) * pageSize == q * pageSize + pageSize;
    if remainder == 0 then fetchSize else fetchSize + pageSize - remainder
  }

  /** No multiple of the page size at or above the requested fetch size is below the adjusted one. */
  lemma AdjustedFetchSizeIsLeast(fetchSize: nat, pageSize: nat, m: nat)
    requires pageSize >= 1 && m % pageSize == 0 && m >= fetchSize
    ensures m >= AdjustedFetchSize(fetchSize, pageSize)
  {
    var q, r := fetchSize / pageSize, fetchSize % pageSize;
    assert fetchSize == q * pageSize + r;
    var n := m / pageSize;
    assert m == n * pageSize;
    if r != 0 {
      if n <= q {
        MulMonotone(n, q, pageSize);
        assert false;
      }
      MulMonotone(q + 1, n, pageSize);
    }
  }

  /** JavaScript truthiness of a paging state: present and not the empty string. */
  predicate Truthy(pageState: Option<string>) {
    pageState.Some? && pageState.value != ""
  }

  /** A reply after which the query is over: fewer rows than asked for, or nothing to resume from. */
  predicate Exhausting<R>(reply: FetchResult<R>, fetchSize: nat) {
    |reply.rows| < fetchSize || !Truthy(reply.pageState)
  }

  /** The rows of the first n replies of the stream, in order. */
  function AllRows<R>(script: seq<FetchResult<R>>, n: nat): seq<R> {
    if n == 0 then [] else AllRows(script, n - 1) + ReplyAt(script, n - 1).rows
  }

  /** None of the first n replies ends the query. */
  predicate Continuing<R>(script: seq<FetchResult<R>>, n: nat, fetchSize: nat) {
    n == 0 || (Continuing(script, n - 1, fetchSize) && !Exhausting(ReplyAt(script, n - 1), fetchSize))
  }

  /** The rows of reply i and the replies after it, up to and including the first one that ends the query. */
  function DeliveredFrom<R>(script: seq<FetchResult<R>>, i: nat, fetchSize: nat): seq<R>
    decreases |script| + 1 - i
  {
    var reply := ReplyAt(script, i);
    if Exhausting(reply, fetchSize) then reply.rows else reply.rows + DeliveredFrom(script, i + 1, fetchSize)
  }

  /** Every row the query yields when paged with batches of `fetchSize`. */
  function Delivered<R>(script: seq<FetchResult<R>>, fetchSize: nat): seq<R> {
    DeliveredFrom(script, 0, fetchSize)
  }

  /** The paging state the i-th request resumes from: none for the first, the previous reply's afterwards. */
  function ResumeAt<R>(script: seq<FetchResult<R>>, i: nat): Option<string> {
    if i == 0 then None else ReplyAt(script, i - 1).pageState
  }

  /** Every request so far resumed from the previous reply's paging state and asked for `fetchSize` rows. */
  ghost predicate Requested<R>(sent: seq<Request>, script: seq<FetchResult<R>>, fetchSize: nat)
    decreases |sent|
  {
    sent == [] ||
    (Requested(sent[..|sent| - 1], script, fetchSize) && sent[|sent| - 1] == Request(ResumeAt(script, |sent| - 1), fetchSize))
  }

  /** The database never answers with more rows than the fetch size asks for. */
  ghost predicate HonorsFetchSize<R>(script: seq<FetchResult<R>>, fetchSize: nat) {
    forall i :: 0 <= i < |script| ==> |script[i].rows| <= fetchSize
  }

  /** Request i resumed from the paging state of reply i - 1, with the fixed fetch size. */
  lemma {:induction false} RequestAt<R>(sent: seq<Request>, script: seq<FetchResult<R>>, fetchSize: nat, i: nat)
    requires Requested(sent, script, fetchSize) && i < |sent|
    ensures sent[i] == Request(ResumeAt(script, i), fetchSize)
    decreases |sent|
  {
    if i < |sent| - 1 {
      RequestAt(sent[..|sent| - 1], script, fetchSize, i);
    }
  }

  /** When none of the first n replies ended the query, no reply before n did. */
  lemma {:induction false} ContinuingAt<R>(script: seq<FetchResult<R>>, n: nat, fetchSize: nat, k: nat)
    requires Continuing(script, n, fetchSize) && k < n
    ensures !Exhausting(ReplyAt(script, k), fetchSize)
    decreases n
  {
    if k < n - 1 {
      ContinuingAt(script, n - 1, fetchSize, k);
    }
  }

  /** The query ends at its first ending reply: a run of continuing replies never reaches past one. */
  lemma ContinuingStopsAt<R>(script: seq<FetchResult<R>>, n: nat, fetchSize: nat, m: nat)
    requires Continuing(script, n, fetchSize) && Exhausting(ReplyAt(script, m), fetchSize)
    ensures n <= m
  {
    if n > m {
      ContinuingAt(script, n, fetchSize, m);
    }
  }

  /** After n replies none of which ended the query, the query yields those rows and then the rest from reply n on. */
  lemma {:induction false} DeliveredSplit<R>(script: seq<FetchResult<R>>, n: nat, fetchSize: nat)
    requires Continuing(script, n, fetchSize)
    ensures Delivered(script, fetchSize) == AllRows(script, n) + DeliveredFrom(script, n, fetchSize)
    decreases n
  {
    if n > 0 {
      DeliveredSplit(script, n - 1, fetchSize);
      var before, rows := AllRows(script, n - 1), ReplyAt(script, n - 1).rows;
      assert before + (rows + DeliveredFrom(script, n, fetchSize)) == (before + rows) + DeliveredFrom(script, n, fetchSize);
    }
  }

  /** When reply n - 1 is the first to end the query, the first n replies hold every row it yields. */
  lemma DeliveredWhenEnded<R>(script: seq<FetchResult<R>>, n: nat, fetchSize: nat)
    requires n > 0 && Continuing(script, n - 1, fetchSize) && Exhausting(ReplyAt(script, n - 1), fetchSize)
    ensures Delivered(script, fetchSize) == AllRows(script, n)
  {
    DeliveredSplit(script, n - 1, fetchSize);
  }

  /** Replies that neither end the query nor exceed the fetch size hold exactly `fetchSize` rows each. */
  lemma {:induction false} AllRowsLength<R>(script: seq<FetchResult<R>>, n: nat, fetchSize: nat)
    requires Continuing(script, n, fetchSize) && HonorsFetchSize(script, fetchSize)
    ensures |AllRows(script, n)| == n * fetchSize
    decreases n
  {
    if n > 0 {
      AllRowsLength(script, n - 1, fetchSize);
      assert n - 1 < |script|;
      assert (n - 1) * fetchSize + fetchSize == n * fetchSize;
    }
  }

  /**
   * The cursor's state after the requests `sent`: the stored rows are
   * those of the replies so far, the paging state is the last one
   * received, and the query is over exactly when the last reply ended it.
   * The fetch size is a whole number of pages.
   */
  ghost predicate Consistent<R>(script: seq<FetchResult<R>>, sent: seq<Request>, queryPageState: Option<string>,
                                isQueryStarted: bool, isQueryExhausted: bool, stored: seq<R>, fetchSize: nat, pageSize: nat)
  {
    && pageSize >= 1
    && fetchSize >= pageSize
    && fetchSize % pageSize == 0
    && (isQueryStarted <==> |sent| > 0)
    && Requested(sent, script, fetchSize)
    && queryPageState == ResumeAt(script, |sent|)
    && (isQueryExhausted <==> |sent| > 0 && Exhausting(ReplyAt(script, |sent| - 1), fetchSize))
    && Continuing(script, if isQueryExhausted then |sent| - 1 else |sent|, fetchSize)
    && stored == AllRows(script, |sent|)
  }

  /** Before any request, with a fetch size of whole pages, the cursor is consistent. */
  lemma ConsistentAtStart<R>(script: seq<FetchResult<R>>, fetchSize: nat, pageSize: nat)
    requires pageSize >= 1 && fetchSize >= 1 && fetchSize % pageSize == 0
    ensures Consistent(script, [], None, false, false, [], fetchSize, pageSize)
  {
  }

  /**
   * One more request, resuming from the last paging state, and its reply
   * keep the cursor consistent; the query is then over exactly when that
   * reply ended it.
   */
  lemma ConsistentAfterFetch<R>(script: seq<FetchResult<R>>, sent: seq<Request>, queryPageState: Option<string>,
                                isQueryStarted: bool, stored: seq<R>, fetchSize: nat, pageSize: nat, reply: FetchResult<R>)
    requires Consistent(script, sent, queryPageState, isQueryStarted, false, stored, fetchSize, pageSize)
    requires reply == ReplyAt(script, |sent|)
    ensures var request := Request(if isQueryStarted then queryPageState else None, fetchSize);
      Consistent(script, sent + [request], reply.pageState, true, Exhausting(reply, fetchSize),
                 stored + reply.rows, fetchSize, pageSize)
  {
    var request := Request(if isQueryStarted then queryPageState else None, fetchSize);
    assert (sent + [request])[..|sent|] == sent;
  }

  class CassandraPaginator<R> {
    const client: Source<R>
    const paginator: PageStore.Paginator<R>
    var queryPageState: Option<string>
    var isQueryStarted: bool
    var isQueryExhausted: bool
    const fetchSize: nat
    var currentPageNumber: nat

    /**
     * The state follows the replies received so far: the page store holds
     * their rows, the paging state is the last one received, and the query
     * is over exactly when the last reply ended it.
     */
    ghost predicate Valid()
      reads this`queryPageState, this`isQueryStarted, this`isQueryExhausted, client, paginator
    {
      && client.Valid()
      && paginator.Valid()
      && Consistent(client.script, client.sent, queryPageState, isQueryStarted, isQueryExhausted,
                    paginator.Contents(), fetchSize, paginator.pageSize)
    }

    /** Every row the query yields. */
    ghost function Rows(): seq<R> {
      Delivered(client.script, fetchSize)
    }

    /** The stored rows are a prefix of the query's rows, and all of them once the query is over. */
    lemma StoredRows()
      requires Valid()
      ensures paginator.Contents() <= Rows()
      ensures isQueryExhausted ==> paginator.Contents() == Rows()
    {
      if isQueryExhausted {
        DeliveredWhenEnded(client.script, client.served, fetchSize);
      } else {
        DeliveredSplit(client.script, client.served, fetchSize);
      }
    }

    /**
     * A stored page is final: it is the same page of all the query's rows,
     * provided the database never sends more rows than asked for.
     */
    lemma StoredPageIsFinal(k: nat)
      requires Valid() && HonorsFetchSize(client.script, fetchSize)
      requires k < paginator.totalPages
      ensures k < |Chunks(Rows(), paginator.pageSize)|
      ensures paginator.Pages[k] == Chunks(Rows(), paginator.pageSize)[k]
    {
      var p := paginator.pageSize;
      var stored := paginator.Contents();
      paginator.PagesAreChunks();
      StoredRows();
      if !isQueryExhausted {
        var n := client.served;
        AllRowsLength(client.script, n, fetchSize);
        BatchesAreWholePages(n, fetchSize, p);
        PagesOfWholeLength(|stored|, n * (fetchSize / p), p, k);
      }
      SharedPage(stored, Rows(), p, k);
    }

    /**
     * Once the wanted page is stored or the query is over, the page is
     * stored exactly when the query has it.
     */
    lemma StoredPageLookup(pageNumber: int)
      requires Valid()
      requires pageNumber <= paginator.totalPages || isQueryExhausted
      ensures 1 <= pageNumber <= paginator.totalPages <==> 1 <= pageNumber <= PageCount(|Rows()|, paginator.pageSize)
      ensures 1 <= pageNumber <= paginator.totalPages && HonorsFetchSize(client.script, fetchSize) ==>
        && pageNumber <= |Chunks(Rows(), paginator.pageSize)|
        && paginator.Pages[pageNumber - 1] == Chunks(Rows(), paginator.pageSize)[pageNumber - 1]
    {
      paginator.PagesAreChunks();
      StoredRows();
      PageCountMonotone(|paginator.Contents()|, |Rows()|, paginator.pageSize);
      if 1 <= pageNumber <= paginator.totalPages && HonorsFetchSize(client.script, fetchSize) {
        StoredPageIsFinal(pageNumber - 1);
      }
    }

    constructor (client: Source<R>, pageSizeOption: Option<nat>, fetchSizeOption: Option<nat>)
      requires client.Valid() && client.served == 0
      ensures Valid()
      ensures this.client == client && fresh(paginator)
      ensures paginator.pageSize == OrDefault(pageSizeOption, DEFAULT_PAGE_SIZE)
      ensures fetchSize == AdjustedFetchSize(OrDefault(fetchSizeOption, DEFAULT_FETCH_SIZE), paginator.pageSize)
      ensures paginator.Contents() == [] && paginator.totalPages == 0
      ensures queryPageState == None && !isQueryStarted && !isQueryExhausted && currentPageNumber == 0
    {
      this.client := client;
      var pageSize := OrDefault(pageSizeOption, DEFAULT_PAGE_SIZE);
      paginator := new PageStore.Paginator([], Some(pageSize));
      fetchSize := AdjustedFetchSize(OrDefault(fetchSizeOption, DEFAULT_FETCH_SIZE), pageSize);
      queryPageState := None;
      isQueryStarted := false;
      isQueryExhausted := false;
      currentPageNumber := 0;
      new;
      ConsistentAtStart(client.script, fetchSize, pageSize);
    }

    /**
     * Asks for the next batch, resuming from the last paging state, and
     * stores its rows; does nothing once the query is over.
     */
    method FetchNextBatch()
      requires Valid()
      modifies this, client, paginator
      ensures Valid()
      ensures old(isQueryExhausted) ==> unchanged(this, client, paginator)
      ensures !old(isQueryExhausted) ==>
        && client.served == old(client.served) + 1
        && paginator.Contents() == old(paginator.Contents()) + ReplyAt(client.script, old(client.served)).rows
      ensures !isQueryExhausted ==> paginator.totalPages >= old(paginator.totalPages) + 1
      ensures currentPageNumber == old(currentPageNumber)
    {
      if isQueryExhausted {
        return;
      }
      paginator.PagesAreChunks();
      ghost var sent, started, resumeFrom := client.sent, isQueryStarted, queryPageState;
      var result: FetchResult<R>;
      if !isQueryStarted {
        result := client.Execute(Request(None, fetchSize));
        isQueryStarted := true;
      } else {
        result := client.Execute(Request(queryPageState, fetchSize));
      }
      ConsistentAfterFetch(client.script, sent, resumeFrom, started, paginator.Contents(), fetchSize, paginator.pageSize, result);
      queryPageState := result.pageState;
      paginator.AddItems(result.rows);

      if |result.rows| < fetchSize || !Truthy(queryPageState) {
        isQueryExhausted := true;
      } else {
        PageCountGrows(|old(paginator.Contents())|, |result.rows|, paginator.pageSize);
      }
    }

    /**
     * Page `pageNumber`, fetching batches until it is stored or the query is
     * over; None when the query has fewer pages.
     */
    method GetPage(pageNumber: int) returns (page: Option<seq<R>>)
      requires Valid()
      modifies this, client, paginator
      ensures Valid()
      ensures page.Some? <==> 1 <= pageNumber <= PageCount(|Rows()|, paginator.pageSize)
      ensures page.Some? ==>
        && pageNumber <= paginator.totalPages
        && page.value == paginator.Pages[pageNumber - 1]
        && currentPageNumber == pageNumber
      ensures page.Some? && HonorsFetchSize(client.script, fetchSize) ==>
        && pageNumber <= |Chunks(Rows(), paginator.pageSize)|
        && page.value == Chunks(Rows(), paginator.pageSize)[pageNumber - 1]
      ensures page.None? ==> currentPageNumber == old(currentPageNumber)
      ensures page.None? && pageNumber >= 1 ==> isQueryExhausted && paginator.totalPages < pageNumber
      ensures old(paginator.totalPages) >= pageNumber ==> client.served == old(client.served)
      ensures client.served > old(client.served) ==>
        PageCount(|AllRows(client.script, client.served - 1)|, paginator.pageSize) < pageNumber
      ensures old(isQueryExhausted) ==> isQueryExhausted && client.served == old(client.served)
    {
      ghost var startServed, startPages, startExhausted := client.served, paginator.totalPages, isQueryExhausted;
      while paginator.totalPages < pageNumber && !isQueryExhausted
        invariant Valid()
        invariant currentPageNumber == old(currentPageNumber)
        invariant startPages >= pageNumber ==> client.served == startServed
        invariant startExhausted ==> isQueryExhausted && client.served == startServed
        invariant client.served > startServed ==>
          PageCount(|AllRows(client.script, client.served - 1)|, paginator.pageSize) < pageNumber
        decreases if isQueryExhausted then 0 else 1, pageNumber - paginator.totalPages
      {
        paginator.PagesAreChunks();
        FetchNextBatch();
      }

      StoredPageLookup(pageNumber);
      page := paginator.GetPage(pageNumber);
      if page.Some? {
        currentPageNumber := pageNumber;
      }
    }

    /**
     * The page after the current one; past the last page, None, and the
     * current page number is set back to the last page.
     */
    method GetNextPage() returns (page: Option<seq<R>>)
      requires Valid()
      modifies this, client, paginator
      ensures Valid()
      ensures page.Some? <==> old(currentPageNumber) + 1 <= PageCount(|Rows()|, paginator.pageSize)
      ensures page.Some? ==>
        && currentPageNumber == old(currentPageNumber) + 1 <= paginator.totalPages
        && page.value == paginator.Pages[currentPageNumber - 1]
      ensures page.Some? && HonorsFetchSize(client.script, fetchSize) ==>
        && currentPageNumber <= |Chunks(Rows(), paginator.pageSize)|
        && page.value == Chunks(Rows(), paginator.pageSize)[currentPageNumber - 1]
      ensures page.None? ==> isQueryExhausted && currentPageNumber == paginator.totalPages == PageCount(|Rows()|, paginator.pageSize)
      ensures old(paginator.totalPages) > old(currentPageNumber) ==> client.served == old(client.served)
      ensures client.served > old(client.served) ==>
        PageCount(|AllRows(client.script, client.served - 1)|, paginator.pageSize) <= old(currentPageNumber)
      ensures old(isQueryExhausted) ==> isQueryExhausted && client.served == old(client.served)
    {
      currentPageNumber := currentPageNumber + 1;
      page := GetPage(currentPageNumber);
      if page.None? {
        var total := GetTotalPages();
        currentPageNumber := total.GetOr(0);
        return None;
      }
    }

    /** The current page number, None before the first batch was asked for. */
    method GetCurrentPageNumber() returns (current: Option<nat>)
      requires Valid()
      ensures current.Some? <==> client.served > 0
      ensures current.Some? ==> current.value == currentPageNumber
    {
      current := if isQueryStarted then Some(currentPageNumber) else None;
    }

    /** The number of pages, known only once the query is over. */
    method GetTotalPages() returns (total: Option<nat>)
      requires Valid()
      ensures total.Some? <==> isQueryExhausted
      ensures total.Some? ==> total.value == paginator.totalPages == PageCount(|Rows()|, paginator.pageSize)
    {
      if isQueryExhausted {
        var pages := paginator.GetTotalPages();
        StoredRows();
        total := Some(pages);
      } else {
        total := None;
      }
    }
  }
}
