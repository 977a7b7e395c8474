/**
 * The page store: items arrive in batches of any length and are cut into
 * 1-based pages of `pageSize` items, held in a key-value cache under the
 * page number. The cache is a map; the key `page_<n>` is injective in n, so
 * it is keyed by n itself.
 */
module PageStore {
  import opened Options
  import opened Pages

  const DEFAULT_PAGE_SIZE: nat := 10

  /** The cache a paging is stored as: page i + 1 under key i + 1, and nothing else. */
  ghost function PageMap<T>(pages: seq<seq<T>>): map<nat, seq<T>>
    decreases |pages|
  {
    if pages == [] then map[] else PageMap(pages[..|pages| - 1])[|pages| := pages[|pages| - 1]]
  }

  /** PageMap(pages) has exactly the keys 1..|pages|, and key k holds page k. */
  lemma {:induction false} PageMapAt<T>(pages: seq<seq<T>>, k: nat)
    ensures k in PageMap(pages) <==> 1 <= k <= |pages|
    ensures 1 <= k <= |pages| ==> PageMap(pages)[k] == pages[k - 1]
    decreases |pages|
  {
    if pages != [] {
      PageMapAt(pages[..|pages| - 1], k);
    }
  }

  /** `cache` holds exactly pages 1..|pages|, and they form a well-formed paging of size `p`. */
  ghost predicate Stored<T>(cache: map<nat, seq<T>>, pages: seq<seq<T>>, p: nat) {
    && p >= 1
    && WellFormed(pages, p)
    && cache == PageMap(pages)
  }

  lemma SplitAt<T>(s: seq<T>, n: nat)
    requires n <= |s|
    ensures s == s[..n] + s[n..]
  {
  }

  lemma ConcatAssociative<T>(a: seq<T>, b: seq<T>, c: seq<T>)
    ensures a + (b + c) == (a + b) + c
  {
  }

  /** Writing a new page after a full last page keeps the store well-formed; earlier keys keep their pages. */
  lemma StoreNewPage<T>(cache: map<nat, seq<T>>, pages: seq<seq<T>>, p: nat, page: seq<T>)
    requires Stored(cache, pages, p)
    requires pages == [] || |pages[|pages| - 1]| == p
    requires 1 <= |page| <= p
    ensures Stored(cache[|pages| + 1 := page], pages + [page], p)
    ensures Flatten(pages + [page]) == Flatten(pages) + page
  {
    FlattenSnoc(pages, page);
    assert (pages + [page])[..|pages|] == pages;
  }

  /** Topping up the last page without overfilling it keeps the store well-formed; earlier keys keep their pages. */
  lemma StoreTopUp<T>(cache: map<nat, seq<T>>, pages: seq<seq<T>>, p: nat, items: seq<T>)
    requires Stored(cache, pages, p)
    requires pages != [] && items != []
    requires |pages[|pages| - 1]| + |items| <= p
    ensures |pages| in cache && cache[|pages|] == pages[|pages| - 1]
    ensures var pages' := pages[..|pages| - 1] + [pages[|pages| - 1] + items];
      && Stored(cache[|pages| := pages[|pages| - 1] + items], pages', p)
      && Flatten(pages') == Flatten(pages) + items
  {
    var init, last := pages[..|pages| - 1], pages[|pages| - 1];
    FlattenSnoc(init, last + items);
    assert pages == init + [last];
    assert (init + [last + items])[..|init|] == init;
    assert PageMap(init)[|pages| := last][|pages| := last + items] == PageMap(init)[|pages| := last + items];
  }

  /** One turn of the page-opening loop of AddItems keeps its invariants. */
  lemma OpenPageStep<T>(cache: map<nat, seq<T>>, pages: seq<seq<T>>, p: nat, remaining: seq<T>, take: nat, all: seq<T>)
    requires Stored(cache, pages, p)
    requires Flatten(pages) + remaining == all
    requires remaining != [] && pages != [] && |pages[|pages| - 1]| == p
    requires take == Min(p, |remaining|)
    ensures var page := remaining[..take];
      && Stored(cache[|pages| + 1 := page], pages + [page], p)
      && Flatten(pages + [page]) + remaining[take..] == all
      && (remaining[take..] != [] ==> |page| == p)
  {
    var page := remaining[..take];
    StoreNewPage(cache, pages, p, page);
    SplitAt(remaining, take);
    ConcatAssociative(Flatten(pages), page, remaining[take..]);
  }

  /** Top-up phase of AddItems, no page yet: the first `cut` items open page 1. */
  lemma FirstPageStep<T>(cache: map<nat, seq<T>>, p: nat, items: seq<T>, cut: nat)
    requires Stored(cache, [], p)
    requires cut == Min(p, |items|) && cut > 0
    ensures 1 !in cache
    ensures Stored(cache[1 := [] + items[..cut]], [items[..cut]], p)
    ensures Flatten([items[..cut]]) + items[cut..] == items
    ensures items[cut..] != [] ==> |items[..cut]| == p
  {
    StoreNewPage(cache, [], p, items[..cut]);
    assert [] + items[..cut] == items[..cut];
    SplitAt(items, cut);
  }

  /** Top-up phase of AddItems: the first `cut` items fill up the last page; earlier pages stay. */
  lemma TopUpStep<T>(cache: map<nat, seq<T>>, pages: seq<seq<T>>, p: nat, items: seq<T>, cut: nat)
    requires Stored(cache, pages, p) && pages != []
    requires cut == Min(p - |pages[|pages| - 1]|, |items|) && cut > 0
    ensures |pages| in cache && cache[|pages|] == pages[|pages| - 1]
    ensures var pages' := pages[..|pages| - 1] + [pages[|pages| - 1] + items[..cut]];
      && Stored(cache[|pages| := pages[|pages| - 1] + items[..cut]], pages', p)
      && Flatten(pages') + items[cut..] == Flatten(pages) + items
      && (items[cut..] != [] ==> |pages'[|pages'| - 1]| == p)
  {
    StoreTopUp(cache, pages, p, items[..cut]);
    SplitAt(items, cut);
    ConcatAssociative(Flatten(pages), items[..cut], items[cut..]);
  }

  /** Top-up phase of AddItems with a full last page: nothing is topped up. */
  lemma FullLastPageStep<T>(cache: map<nat, seq<T>>, pages: seq<seq<T>>, p: nat, items: seq<T>, cut: int)
    requires Stored(cache, pages, p) && items != []
    requires cut == Min(p - (if pages == [] then 0 else |pages[|pages| - 1]|), |items|) && cut <= 0
    ensures cut == 0 && pages != [] && |pages[|pages| - 1]| == p
    ensures Flatten(pages) + items[cut..] == Flatten(pages) + items
  {
  }

  /** Two stores whose pages agree up to the old last page agree on the keys before it. */
  lemma StoredPrefix<T>(cache0: map<nat, seq<T>>, pages0: seq<seq<T>>, cache: map<nat, seq<T>>, pages: seq<seq<T>>, p: nat, kept: nat)
    requires Stored(cache0, pages0, p) && Stored(cache, pages, p)
    requires kept <= |pages| && kept <= |pages0| <= kept + 1 && pages[..kept] == pages0[..kept]
    ensures forall k :: k in cache0 && k < |pages0| ==> k in cache && cache[k] == cache0[k]
  {
    forall k | k in cache0 && k < |pages0|
      ensures k in cache && cache[k] == cache0[k]
    {
      PageMapAt(pages0, k);
      PageMapAt(pages, k);
      assert pages[..kept][k - 1] == pages0[..kept][k - 1];
    }
  }

  class Paginator<T> {
    /** The injected cache, as a plain map from page number to page items. */
    var cache: map<nat, seq<T>>
    const pageSize: nat
    var totalPages: nat
    /** Abstract view: the pages in order, page n at index n - 1. */
    ghost var Pages: seq<seq<T>>

    /** The cache holds exactly pages 1..totalPages, and they form a well-formed paging. */
    ghost predicate Valid()
      reads this
    {
      && totalPages == |Pages|
      && Stored(cache, Pages, pageSize)
    }

    /** All items ever added, in order. */
    ghost function Contents(): seq<T>
      reads this
    {
      Flatten(Pages)
    }

    /** The cache lookup `get('page_' + key)`: null when the key is absent. */
    function CachedPage(key: nat): Option<seq<T>>
      reads this
    {
      if key in cache then Some(cache[key]) else None
    }

    /** The pages are the reference paging of the contents, and there are ceil(|contents| / pageSize) of them. */
    lemma PagesAreChunks()
      requires Valid()
      ensures Pages == Chunks(Contents(), pageSize)
      ensures totalPages == PageCount(|Contents()|, pageSize)
    {
      ChunksUnique(Pages, pageSize);
      ChunksSpec(Contents(), pageSize);
    }

    constructor (values: seq<T>, pageSizeOption: Option<nat>)
      ensures Valid()
      ensures pageSize == OrDefault(pageSizeOption, DEFAULT_PAGE_SIZE)
      ensures Contents() == values
      ensures Pages == Chunks(values, pageSize)
      ensures totalPages == PageCount(|values|, pageSize)
    {
      pageSize := OrDefault(pageSizeOption, DEFAULT_PAGE_SIZE);
      cache := map[];
      totalPages := 0;
      Pages := [];
      new;
      AddItems(values);
    }

    /**
     * The first phase of adding items: as many of `newItems` as fit go onto
     * the last page (opening page 1 when there is none); the rest is returned.
     */
    method FillLastPage(newItems: seq<T>) returns (remainingItems: seq<T>)
      requires Valid() && newItems != []
      modifies this
      ensures Valid()
      ensures Contents() + remainingItems == old(Contents()) + newItems
      ensures |remainingItems| <= |newItems|
      ensures remainingItems == newItems[|newItems| - |remainingItems|..]
      ensures remainingItems != [] ==> Pages != [] && |Pages[|Pages| - 1]| == pageSize
      ensures old(totalPages) <= totalPages <= old(totalPages) + 1
      ensures old(|Pages|) > 0 ==> Pages[..|Pages| - 1] == old(Pages)[..old(|Pages|) - 1]
    {
      var spaceAvailableInLastPage: int := pageSize;
      if totalPages > 0 {
        var lastPageItems := CachedPage(totalPages);
        if lastPageItems.Some? {
          spaceAvailableInLastPage := spaceAvailableInLastPage - |lastPageItems.value|;
        }
      }

      var cut := Min(spaceAvailableInLastPage, |newItems|);
      if cut <= 0 {
        FullLastPageStep(cache, Pages, pageSize, newItems, cut);
      }
      var itemsToAddDirectly := newItems[..cut];
      remainingItems := newItems[cut..];

      if |itemsToAddDirectly| > 0 {
        if totalPages == 0 {
          totalPages := 1;
        }
        var lastPageItems := CachedPage(totalPages).GetOr([]);
        if Pages == [] {
          FirstPageStep(cache, pageSize, newItems, cut);
          Pages := [itemsToAddDirectly];
        } else {
          TopUpStep(cache, Pages, pageSize, newItems, cut);
          Pages := Pages[..|Pages| - 1] + [Pages[|Pages| - 1] + itemsToAddDirectly];
        }
        cache := cache[totalPages := lastPageItems + itemsToAddDirectly];
      }
    }

    /**
     * Tops up the last page, then opens new full pages for the rest. Only
     * the old last page and pages after it are written.
     */
    method AddItems(newItems: seq<T>)
      requires Valid()
      modifies this
      ensures Valid()
      ensures Contents() == old(Contents()) + newItems
      ensures Pages == Chunks(Contents(), pageSize)
      ensures totalPages == PageCount(|Contents()|, pageSize)
      ensures old(totalPages) <= totalPages
      ensures forall k :: k in old(cache) && k < old(totalPages) ==> k in cache && cache[k] == old(cache)[k]
      ensures newItems == [] ==> cache == old(cache) && totalPages == old(totalPages)
    {
      if |newItems| == 0 {
        PagesAreChunks();
        return;
      }
      ghost var all := Contents() + newItems;
      ghost var oldPages := Pages;
      ghost var kept: nat := if Pages == [] then 0 else |Pages| - 1;

      var remainingItems := FillLastPage(newItems);

      while |remainingItems| > 0
        invariant Valid()
        invariant Flatten(Pages) + remainingItems == all
        invariant remainingItems != [] ==> Pages != [] && |Pages[|Pages| - 1]| == pageSize
        invariant old(totalPages) <= totalPages
        invariant kept <= |Pages| && Pages[..kept] == oldPages[..kept]
        decreases |remainingItems|
      {
        var take := Min(pageSize, |remainingItems|);
        var nextPageItems := remainingItems[..take];
        OpenPageStep(cache, Pages, pageSize, remainingItems, take, all);
        remainingItems := remainingItems[take..];
        totalPages := totalPages + 1;
        cache := cache[totalPages := nextPageItems];
        Pages := Pages + [nextPageItems];
      }
      PagesAreChunks();
      StoredPrefix(old(cache), oldPages, cache, Pages, pageSize, kept);
    }

    /** Page `pageNumber`, or None when it is outside 1..totalPages. */
    method GetPage(pageNumber: int) returns (page: Option<seq<T>>)
      requires Valid()
      ensures page.Some? <==> 1 <= pageNumber <= totalPages
      ensures page.Some? ==> page.value == Pages[pageNumber - 1]
      ensures page.Some? ==> 1 <= |page.value| <= pageSize
      ensures page.Some? && pageNumber < totalPages ==> |page.value| == pageSize
      ensures page.Some? ==>
        && (pageNumber - 1) * pageSize < |Contents()|
        && page.value == Contents()[(pageNumber - 1) * pageSize .. Min(pageNumber * pageSize, |Contents()|)]
    {
      if pageNumber < 1 || pageNumber > totalPages {
        return None;
      }
      PageMapAt(Pages, pageNumber);
      page := CachedPage(pageNumber);
      PagesAreChunks();
      ChunkAt(Contents(), pageSize, pageNumber - 1);
      assert (pageNumber - 1) * pageSize + pageSize == pageNumber * pageSize;
    }

    /** The number of pages, ceil(|contents| / pageSize). */
    method GetTotalPages() returns (total: nat)
      requires Valid()
      ensures total == |Pages|
      ensures total == PageCount(|Contents()|, pageSize)
    {
      PagesAreChunks();
      return totalPages;
    }
  }
}
