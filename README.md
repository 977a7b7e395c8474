# CassandraPaginator in Dafny

This project models the two classes at the core of the CassandraPaginator
library and proves properties of them:

- **`Paginator<T>`** (module `PageStore`): a page store. Items arrive in
  batches of any length. It tops up the last page and then opens new pages
  of `pageSize` items. Page `n` is stored in a key-value cache under the key
  for `n`. It answers `getPage(n)` and `getTotalPages()`.
- **`CassandraPaginator`** (module `Cursor`): a cursor over one database
  query. It fetches batches of `fetchSize` rows on demand, resuming each
  batch from the paging state of the previous reply. It hands the rows to a
  page store and serves `getPage`, `getNextPage`, `getCurrentPageNumber`
  and `getTotalPages`. The query is over once a reply brings fewer rows than
  the fetch size, or no paging state. The fetch size is the requested one
  rounded up to a multiple of the page size.

Supporting modules:

- `Options` models `x || default` on a number (0 and absent both fall back).
- `Pages` holds the reference specification of paging:
  - `Chunks(s, p)` cuts `s` into full pages of `p` items and a last page of the rest;
  - `Flatten` concatenates pages;
  - `PageCount(l, p)` is the ceiling of `l / p`.
- `RowSource` stands in for the database client. A `Source` answers the
  i-th `execute` call with the i-th reply of a fixed stream, and with no
  rows and no paging state once the stream is used up. It logs every
  request (as a ghost field) so that contracts can speak about what the
  cursor asked for.
- `Scenarios` calls the classes with concrete inputs, mirroring the
  repository's unit tests, and proves the outcomes.

The cache is a `map` from page number to page. The key `page_<n>` is
injective in `n`, so the map is keyed by `n` itself. The page store keeps a
ghost `Pages` sequence, and `Valid()` ties the cache to it: the cache holds
exactly pages 1..`totalPages`, every page but the last is full, and the last
holds 1 to `pageSize` items.

The cursor's `Valid()` ties its state to the replies received so far:
- the stored rows are the rows of those replies;
- `queryPageState` is the last paging state received;
- every request resumed from the previous reply's paging state with the adjusted fetch size;
- the query is marked exhausted exactly when the last reply ended it.

`Rows()` is everything the query yields when paged this way.

The paging state is an optional string. JavaScript truthiness makes an
empty string count as "no paging state" (`Truthy`).

## Model

| member | source | states |
|---|---|---|
| Options.OrDefault | src/CassandraPaginator.ts:52 | an absent or zero option falls back to the default; a non-zero option is kept; a default of at least 1 yields at least 1 |
| Pages.PageCountIsCeiling | src/Paginator.ts:68-75 | the page count is the least n with n * pageSize >= the item count, and is 0 only for no items |
| Pages.ChunksSpec | src/Paginator.ts:42-76 | the reference paging is well formed (full pages, a last page of 1..pageSize items), concatenates back to the items, and has ceil(items / pageSize) pages |
| Pages.ChunksUnique | src/Paginator.ts:42-76 | a well-formed paging is the reference paging of its items: the pages are determined by the items alone |
| Pages.ChunkAt | test/unit/Paginator.spec.ts:39-47 | page k + 1 of the reference paging is the slice from k * pageSize to min((k + 1) * pageSize, length) |
| Pages.PageCountGrows | src/CassandraPaginator.ts:65-66 | adding at least a page's worth of items opens at least one more page, so fetching a full batch makes progress |
| Pages.PageCountMonotone | src/CassandraPaginator.ts:65-69 | more items never occupy fewer pages |
| Pages.SharedPage | src/CassandraPaginator.ts:65-69 | a complete page of a prefix of the rows is the same page of all the rows |
| PageStore.PageMapAt | src/Paginator.ts:48-88 | the cache of a paging holds exactly the keys 1..number of pages, key n holding page n |
| PageStore.StoreTopUp | src/Paginator.ts:63-64 | topping up the last page without overfilling it keeps the store well formed and appends the items to the contents |
| PageStore.StoreNewPage | src/Paginator.ts:73-74 | writing a new page after a full last page keeps the store well formed and appends the page to the contents |
| PageStore.StoredPrefix | src/Paginator.ts:42-76 | adding items never changes a page before the old last page |
| PageStore.Paginator.PagesAreChunks | src/Paginator.ts:42-76 | in any valid state the stored pages are the reference paging of all items added, and totalPages is ceil(items / pageSize) |
| PageStore.Paginator.constructor | src/Paginator.ts:28-35 | page size is the option or 10; the pages are the reference paging of the initial values |
| PageStore.Paginator.FillLastPage | src/Paginator.ts:43-65 | as many items as fit go onto the last page (opening page 1 if there is none); the rest is returned as a suffix of the input; no earlier page changes; at most one page is opened; items remain only when the last page is full |
| PageStore.Paginator.AddItems | src/Paginator.ts:42-76 | the contents grow by exactly the new items, the pages are the reference paging of the new contents, totalPages never falls, pages before the old last one keep their content, and an empty batch changes nothing |
| PageStore.Paginator.GetPage | src/Paginator.ts:84-89 | a page is returned exactly for 1 <= n <= totalPages; it is page n, holds 1..pageSize items (pageSize unless it is the last) and is the slice of the contents starting at (n - 1) * pageSize |
| PageStore.Paginator.GetTotalPages | src/Paginator.ts:96-98 | the page count is ceil(items added / pageSize) |
| RowSource.Source.constructor | test/unit/CassandraPaginator.spec.ts:27-31 | a client that has answered nothing yet |
| RowSource.Source.Execute | src/CassandraPaginator.ts:128-133 | answers with the next reply of the stream and logs the request |
| Cursor.AdjustedFetchSize | src/CassandraPaginator.ts:152-159 | the result is a multiple of the page size, at least the requested size and less than it plus one page, and the request itself when it already is a multiple |
| Cursor.AdjustedFetchSizeIsLeast | src/CassandraPaginator.ts:152-159 | no multiple of the page size at or above the requested size is smaller than the adjusted size: it rounds up to the next multiple |
| Cursor.RequestAt | src/CassandraPaginator.ts:127-135 | in a consistent run, request i resumes from the paging state of reply i - 1 (none for the first) and asks for the adjusted fetch size |
| Cursor.ContinuingStopsAt | src/CassandraPaginator.ts:138-140 | no request is sent after the first reply that ends the query |
| Cursor.DeliveredSplit | src/CassandraPaginator.ts:135-140 | after n replies none of which ended the query, the rows yielded are theirs followed by those still to come |
| Cursor.DeliveredWhenEnded | src/CassandraPaginator.ts:138-140 | once a reply ends the query, the replies so far hold every row the query yields |
| Cursor.AllRowsLength | src/CassandraPaginator.ts:138 | replies that neither end the query nor exceed the fetch size hold exactly fetchSize rows each |
| Cursor.ConsistentAtStart | src/CassandraPaginator.ts:25-29 | the initial state (no paging state, not started, not exhausted, no rows) is consistent with no request sent |
| Cursor.ConsistentAfterFetch | src/CassandraPaginator.ts:123-141 | one more request, resuming from the last paging state, and its reply keep the state consistent; the query is then over exactly when that reply ended it |
| Cursor.CassandraPaginator.StoredRows | src/CassandraPaginator.ts:135-140 | the stored rows are a prefix of the query's rows, and all of them once the query is over |
| Cursor.CassandraPaginator.StoredPageIsFinal | src/CassandraPaginator.ts:152-159 | because each batch is a whole number of pages, a stored page is never changed by later batches: it is already the page of all the query's rows |
| Cursor.CassandraPaginator.StoredPageLookup | src/CassandraPaginator.ts:65-69 | once the page is stored or the query is over, the page store has page n exactly when the query's rows have n pages or more |
| Cursor.CassandraPaginator.constructor | src/CassandraPaginator.ts:41-56 | page size is the option or 25; the fetch size is the option or 1000, rounded up to a multiple of the page size; nothing is stored or started |
| Cursor.CassandraPaginator.FetchNextBatch | src/CassandraPaginator.ts:123-141 | once exhausted it does nothing; otherwise it sends exactly one request and stores exactly that reply's rows; if the query goes on, at least one page was added |
| Cursor.CassandraPaginator.GetPage | src/CassandraPaginator.ts:64-75 | a page comes back exactly when 1 <= n <= the query's page count; it is stored page n and the current page becomes n; otherwise the current page is kept, and for n >= 1 the query is over; no request is sent when page n was already stored, and every request sent was needed |
| Cursor.CassandraPaginator.GetNextPage | src/CassandraPaginator.ts:82-96 | the page after the current one comes back exactly when the query has it, and becomes current; otherwise the query is over and the current page is set back to the last page; no request is sent when that page was already stored or the query was already over, and every request sent was needed to reach it |
| Cursor.CassandraPaginator.GetCurrentPageNumber | src/CassandraPaginator.ts:103-105 | none before the first request, the current page number afterwards |
| Cursor.CassandraPaginator.GetTotalPages | src/CassandraPaginator.ts:112-115 | known exactly when the query is over, and then the page count of all the query's rows |
| Scenarios.HundredAndFourItems | test/unit/Paginator.spec.ts:18-30 | 104 items in pages of 10 make 11 pages, page 1 holding items 1..10 |
| Scenarios.BatchesTopUpTheLastPage | src/Paginator.ts:42-76 | batches of 50, 50 and 30 items in pages of 25 make 6 pages, the last of 5 |
| Scenarios.ShortFirstBatch | test/unit/CassandraPaginator.spec.ts:42-59 | one reply of 45 rows gives pages of 25 and 20 rows, 2 pages in all |
| Scenarios.EmptyResult | test/unit/CassandraPaginator.spec.ts:74-84 | a query without rows has no page 1 and 0 pages |
| Scenarios.ThreeBatchesEndAtThird | test/unit/CassandraPaginator.spec.ts:86-96 | with three replies of 50 rows, the first two with a paging state, the query ends at the third and yields 150 rows |
| Scenarios.ThreeBatchesFetchedThrice | test/unit/CassandraPaginator.spec.ts:86-115 | a consistent cursor on those replies that stores 6 pages is done and sent three requests, the later two resuming |
| Scenarios.ThreeFullBatches | test/unit/CassandraPaginator.spec.ts:86-115 | on those replies, page 6 is full and there are 6 pages in all |
| Scenarios.SequentialNextPages | test/unit/CassandraPaginator.spec.ts:150-175 | two next-page calls on 50 rows give rows 0..24, then 25..49, and the current page is 2 |
| Scenarios.NextAfterLastPage | test/unit/CassandraPaginator.spec.ts:207-228 | after jumping to the last page, the next page is none and the current page stays 2 |

## Left out

- Page and fetch sizes are natural numbers. Negative, fractional and NaN options are not modelled. A page size of 0 given explicitly falls back to the default, as with `||`.
- The cache is a map that never forgets. The cache manager's TTL expiry, eviction, and the branch of `addItems` that finds the last page missing from the cache are not modelled. `Valid()` states that every page 1..totalPages is present.
- `CacheManager` and `ICacheManager` are not part of this model. The page store owns its map, so a cache shared with other code is not modelled.
- Paging states are strings; the driver's `Buffer` form is not modelled.
- The query text, its parameters and every query option other than the fetch size are not modelled.
- A paging state the caller passes in the constructor's query options is not modelled: the first request always sends no paging state, and only the paging states of later requests (taken from the previous reply) are modelled.
- Client errors and rejected promises are not modelled: `execute` always answers.
- `async`/`await` is modelled as sequential calls. Interleaved calls on one cursor are not modelled.
- The replies do not depend on the paging state sent. The stream is fixed, and the model proves the cursor sends the right paging state (`Cursor.RequestAt`) rather than what the server does with it.
- Cursor.CassandraPaginator.constructor: requires a client that has answered no request yet, so that the request log starts with this cursor's query.
- Cursor.CassandraPaginator.GetPage: the page equals page n of all the query's rows only when the database never sends more rows than the fetch size (`HonorsFetchSize`). Without that, the page is still stored page n and the iff on existence still holds.
- Cursor.CassandraPaginator.GetNextPage: the same `HonorsFetchSize` condition applies to the page content.
- PageStore.Paginator.FillLastPage: this is the top-up phase of `addItems` (lines 43-65) as a method of its own; `AddItems` calls it and then runs the page-opening loop.
- `getCurrentPageNumber` returns 0, not null, after a started query that found no page. The comment at src/CassandraPaginator.ts:101 says null until a page was fetched, but the code returns the number as soon as a request was sent. The model follows the code.
