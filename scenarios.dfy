/**
 * Calls on the page store and the query cursor with concrete inputs, and
 * the outcomes the models guarantee for them.
 */
module Scenarios {
  import opened Options
  import opened Pages
  import opened RowSource
  import PageStore
  import Cursor

  /** 104 items in pages of 10: 11 pages, the first holding items 1..10. */
  method HundredAndFourItems() returns (total: nat, first: Option<seq<int>>, beyond: Option<seq<int>>)
    ensures total == 11
    ensures first == Some(seq(10, i => i + 1))
    ensures beyond == None
  {
    var values := seq(104, i => i + 1);
    var store := new PageStore.Paginator(values, Some(10));
    total := store.GetTotalPages();
    first := store.GetPage(1);
    beyond := store.GetPage(12);
    ChunkAt(values, 10, 0);
    assert values[0..10] == seq(10, i => i + 1);
  }

  /** Adding items tops up the last page before opening new ones: 50, 50 and 30 items make 6 pages, the last of 5. */
  method BatchesTopUpTheLastPage() returns (total: nat, last: Option<seq<int>>)
    ensures total == 6
    ensures last.Some? && |last.value| == 5
  {
    var store := new PageStore.Paginator([], Some(25));
    store.AddItems(seq(50, i => i));
    store.AddItems(seq(50, i => 50 + i));
    store.AddItems(seq(30, i => 100 + i));
    total := store.GetTotalPages();
    assert PageCount(130, 25) == 6;
    last := store.GetPage(6);
  }

  /** One reply of 45 rows with fetch size 50 and page size 25: pages of 25 and 20 rows, 2 pages in all. */
  method ShortFirstBatch() returns (first: Option<seq<int>>, second: Option<seq<int>>, total: Option<nat>)
    ensures first.Some? && |first.value| == 25
    ensures second.Some? && |second.value| == 20
    ensures total == Some(2)
  {
    var rows := seq(45, i => i);
    var client := new Source([FetchResult(rows, None)]);
    var cursor := new Cursor.CassandraPaginator(client, Some(25), Some(50));
    assert cursor.fetchSize == 50;
    assert cursor.Rows() == rows;
    first := cursor.GetPage(1);
    second := cursor.GetPage(2);
    total := cursor.GetTotalPages();
    ChunkAt(rows, 25, 0);
    ChunkAt(rows, 25, 1);
  }

  /** A query with no rows has no page 1 and 0 pages. */
  method EmptyResult() returns (first: Option<seq<int>>, total: Option<nat>)
    ensures first == None
    ensures total == Some(0)
  {
    var client := new Source([]);
    var cursor := new Cursor.CassandraPaginator(client, Some(25), Some(50));
    assert cursor.Rows() == [];
    first := cursor.GetPage(1);
    total := cursor.GetTotalPages();
  }

  /** Jumping straight to the last page, then asking for the next one: None, and the current page stays the last. */
  method NextAfterLastPage() returns (second: Option<seq<int>>, next: Option<seq<int>>, current: Option<nat>)
    ensures second.Some? && |second.value| == 25
    ensures next == None
    ensures current == Some(2)
  {
    var rows := seq(50, i => i);
    var client := new Source([FetchResult(rows, None)]);
    var cursor := new Cursor.CassandraPaginator(client, Some(25), Some(50));
    assert cursor.Rows() == rows;
    second := cursor.GetPage(2);
    next := cursor.GetNextPage();
    current := cursor.GetCurrentPageNumber();
    ChunkAt(rows, 25, 1);
  }

  /** Consecutive next-page calls on one reply of 50 rows: pages 1 and 2, rows 0..24 then 25..49. */
  method SequentialNextPages() returns (first: Option<seq<int>>, second: Option<seq<int>>, current: Option<nat>)
    ensures first == Some(seq(25, i => i))
    ensures second == Some(seq(25, i => 25 + i))
    ensures current == Some(2)
  {
    var rows := seq(50, i => i);
    var client := new Source([FetchResult(rows, None)]);
    var cursor := new Cursor.CassandraPaginator(client, Some(25), Some(50));
    assert cursor.Rows() == rows;
    first := cursor.GetNextPage();
    second := cursor.GetNextPage();
    current := cursor.GetCurrentPageNumber();
    ChunkAt(rows, 25, 0);
    ChunkAt(rows, 25, 1);
    assert rows[0..25] == seq(25, i => i);
    assert rows[25..50] == seq(25, i => 25 + i);
  }

  /** Three replies of 50 rows, the first two with a paging state to resume from. */
  function ThreeBatches(): seq<FetchResult<int>> {
    [FetchResult(seq(50, i => i), Some("more")),
     FetchResult(seq(50, i => 50 + i), Some("more")),
     FetchResult(seq(50, i => 100 + i), None)]
  }

  /** With fetch size 50, the query on ThreeBatches ends at the third reply and yields 150 rows. */
  lemma ThreeBatchesEndAtThird()
    ensures !Cursor.Exhausting(ThreeBatches()[0], 50) && !Cursor.Exhausting(ThreeBatches()[1], 50)
    ensures Cursor.Exhausting(ThreeBatches()[2], 50)
    ensures Cursor.HonorsFetchSize(ThreeBatches(), 50)
    ensures |Cursor.Delivered(ThreeBatches(), 50)| == 150
    ensures |Cursor.AllRows(ThreeBatches(), 2)| == 100 && |Cursor.AllRows(ThreeBatches(), 3)| == 150
  {
    var script := ThreeBatches();
    assert Cursor.DeliveredFrom(script, 2, 50) == script[2].rows;
    assert Cursor.DeliveredFrom(script, 1, 50) == script[1].rows + script[2].rows;
  }

  /** A consistent cursor on ThreeBatches with at least 6 pages stored is done, after three requests, the later two resuming. */
  lemma ThreeBatchesFetchedThrice(sent: seq<Request>, queryPageState: Option<string>, isQueryStarted: bool,
                                  isQueryExhausted: bool, stored: seq<int>)
    requires Cursor.Consistent(ThreeBatches(), sent, queryPageState, isQueryStarted, isQueryExhausted, stored, 50, 25)
    requires PageCount(|stored|, 25) >= 6
    ensures isQueryExhausted
    ensures sent == [Request(None, 50), Request(Some("more"), 50), Request(Some("more"), 50)]
  {
    var script := ThreeBatches();
    ThreeBatchesEndAtThird();
    Cursor.ContinuingStopsAt(script, if isQueryExhausted then |sent| - 1 else |sent|, 50, 2);
    PageCountIsCeiling(|stored|, 25);
    assert |sent| == 3;
    Cursor.RequestAt(sent, script, 50, 0);
    Cursor.RequestAt(sent, script, 50, 1);
    Cursor.RequestAt(sent, script, 50, 2);
  }

  /** The query on ThreeBatches: page 6 is full and there are 6 pages in all. */
  method ThreeFullBatches() returns (sixth: Option<seq<int>>, total: Option<nat>)
    ensures sixth.Some? && |sixth.value| == 25
    ensures total == Some(6)
  {
    var client := new Source(ThreeBatches());
    var cursor := new Cursor.CassandraPaginator(client, Some(25), Some(50));
    ThreeBatchesEndAtThird();
    assert PageCount(150, 25) == 6;
    sixth := cursor.GetPage(6);
    ChunkAt(cursor.Rows(), 25, 5);
    cursor.paginator.PagesAreChunks();
    ThreeBatchesFetchedThrice(client.sent, cursor.queryPageState, cursor.isQueryStarted, cursor.isQueryExhausted,
                              cursor.paginator.Contents());
    total := cursor.GetTotalPages();
  }
}
