/**
 * The pure specification of paging: how a sequence of items is cut into
 * 1-based pages of a fixed size, every page full except possibly the last.
 */
module Pages {

  function Min(a: int, b: int): int {
    if a <= b then a else b
  }

  /** The number of pages of size `p` that `l` items occupy: ceil(l / p), see PageCountIsCeiling. */
  function PageCount(l: nat, p: nat): nat
    requires p >= 1
    decreases l
  {
    if l == 0 then 0 else if l <= p then 1 else 1 + PageCount(l - p, p)
  }

  /** PageCount(l, p) is the least n with n * p >= l: the ceiling of l / p. */
  lemma {:induction false} PageCountIsCeiling(l: nat, p: nat)
    requires p >= 1
    ensures PageCount(l, p) * p >= l
    ensures l > 0 ==> (PageCount(l, p) - 1) * p < l
    ensures l == 0 <==> PageCount(l, p) == 0
    decreases l
  {
    if l > p {
      PageCountIsCeiling(l - p, p);
      var n := PageCount(l - p, p);
      assert (n + 1) * p == n * p + p;
      assert n * p == (n - 1) * p + p;
    }
  }

  /** The items of all pages, in page order. */
  function Flatten<T>(pages: seq<seq<T>>): seq<T> {
    if pages == [] then [] else Flatten(pages[..|pages| - 1]) + pages[|pages| - 1]
  }

  /** Every page but the last holds exactly `p` items; the last holds 1 to `p`. */
  ghost predicate WellFormed<T>(pages: seq<seq<T>>, p: nat) {
    && (forall i :: 0 <= i < |pages| - 1 ==> |pages[i]| == p)
    && (|pages| > 0 ==> 1 <= |pages[|pages| - 1]| <= p)
  }

  /** The reference paging of `s`: full pages of `p` items, then the rest. */
  function Chunks<T>(s: seq<T>, p: nat): seq<seq<T>>
    requires p >= 1
    decreases |s|
  {
    if s == [] then []
    else if |s| <= p then [s]
    else [s[..p]] + Chunks(s[p..], p)
  }

  lemma FlattenSnoc<T>(pages: seq<seq<T>>, page: seq<T>)
    ensures Flatten(pages + [page]) == Flatten(pages) + page
  {
    assert (pages + [page])[..|pages|] == pages;
  }

  lemma {:induction false} FlattenCons<T>(page: seq<T>, pages: seq<seq<T>>)
    ensures Flatten([page] + pages) == page + Flatten(pages)
    decreases |pages|
  {
    if pages == [] {
      assert [page] + pages == [] + [page];
      FlattenSnoc([], page);
    } else {
      var init := pages[..|pages| - 1];
      var last := pages[|pages| - 1];
      assert [page] + pages == ([page] + init) + [last];
      assert pages == init + [last];
      FlattenSnoc([page] + init, last);
      FlattenCons(page, init);
      FlattenSnoc(init, last);
    }
  }

  /** Chunks is a well-formed paging of `s`, with ceil(|s| / p) pages. */
  lemma {:induction false} ChunksSpec<T>(s: seq<T>, p: nat)
    requires p >= 1
    ensures WellFormed(Chunks(s, p), p)
    ensures Flatten(Chunks(s, p)) == s
    ensures |Chunks(s, p)| == PageCount(|s|, p)
    decreases |s|
  {
    if s != [] && |s| <= p {
      FlattenSnoc([], s);
    } else if |s| > p {
      var rest := Chunks(s[p..], p);
      ChunksSpec(s[p..], p);
      FlattenCons(s[..p], rest);
      assert s[..p] + s[p..] == s;
    }
  }

  lemma FlattenNonEmpty<T>(pages: seq<seq<T>>, p: nat)
    requires WellFormed(pages, p) && pages != []
    ensures |Flatten(pages)| >= 1
  {
  }

  /** A well-formed paging is the reference paging of its items: pages are determined by the items. */
  lemma {:induction false} ChunksUnique<T>(pages: seq<seq<T>>, p: nat)
    requires p >= 1 && WellFormed(pages, p)
    ensures Chunks(Flatten(pages), p) == pages
    decreases |pages|
  {
    if pages != [] {
      var rest := pages[1..];
      assert pages == [pages[0]] + rest;
      FlattenCons(pages[0], rest);
      if rest == [] {
        assert Flatten(pages) == pages[0];
      } else {
        assert WellFormed(rest, p);
        FlattenNonEmpty(rest, p);
        ChunksUnique(rest, p);
        var s := Flatten(pages);
        assert s[..p] == pages[0];
        assert s[p..] == Flatten(rest);
      }
    }
  }

  lemma SliceOfSuffix<T>(s: seq<T>, p: nat, lo: nat, hi: nat)
    requires p <= |s| && lo <= hi <= |s| - p
    ensures s[p..][lo..hi] == s[p + lo .. p + hi]
  {
    assert forall i :: 0 <= i < hi - lo ==> s[p..][lo..hi][i] == s[p + lo + i];
  }

  /** Page k+1 of the reference paging is the slice s[k*p .. min((k+1)*p, |s|)]. */
  lemma {:induction false} ChunkAt<T>(s: seq<T>, p: nat, k: nat)
    requires p >= 1 && k < |Chunks(s, p)|
    ensures k * p < |s|
    ensures Chunks(s, p)[k] == s[k * p .. Min(k * p + p, |s|)]
    decreases k
  {
    if k > 0 {
      assert |s| > p;
      var t := s[p..];
      ChunkAt(t, p, k - 1);
      var lo := (k - 1) * p;
      assert lo + p == k * p;
      var hi := Min(lo + p, |t|);
      assert p + hi == Min(k * p + p, |s|);
      assert Chunks(s, p)[k] == Chunks(t, p)[k - 1];
      SliceOfSuffix(s, p, lo, hi);
    }
  }

  /** One batch of at least `p` more items opens at least one new page. */
  lemma {:induction false} PageCountGrows(l: nat, m: nat, p: nat)
    requires p >= 1 && m >= p
    ensures PageCount(l + m, p) >= PageCount(l, p) + 1
    decreases l
  {
    if l > p {
      PageCountGrows(l - p, m, p);
    }
  }

  /** More items never occupy fewer pages. */
  lemma {:induction false} PageCountMonotone(l: nat, m: nat, p: nat)
    requires p >= 1 && l <= m
    ensures PageCount(l, p) <= PageCount(m, p)
    decreases l
  {
    if l > p {
      PageCountMonotone(l - p, m - p, p);
    }
  }

  lemma MulMonotone(a: nat, b: nat, p: nat)
    requires a <= b
    ensures a * p <= b * p
  {
    assert b * p == a * p + (b - a) * p;
  }

  /** m whole pages of items occupy exactly m pages. */
  lemma {:induction false} PageCountOfWhole(m: nat, p: nat)
    requires p >= 1
    ensures PageCount(m * p, p) == m
    decreases m
  {
    if m > 1 {
      assert m * p == (m - 1) * p + p;
      MulMonotone(1, m - 1, p);
      PageCountOfWhole(m - 1, p);
    }
  }

  /** When the length is a whole number of pages, every page of the reference paging is full. */
  lemma PagesOfWholeLength(l: nat, m: nat, p: nat, k: nat)
    requires p >= 1 && l == m * p && k < PageCount(l, p)
    ensures (k + 1) * p <= l
  {
    PageCountOfWhole(m, p);
    MulMonotone(k + 1, m, p);
  }

  /** A complete page of a prefix is the same page of the whole sequence; so is every page when the prefix is the whole. */
  lemma {:induction false} SharedPage<T>(s: seq<T>, t: seq<T>, p: nat, k: nat)
    requires p >= 1 && s <= t && k < |Chunks(s, p)|
    requires (k + 1) * p <= |s| || s == t
    ensures k < |Chunks(t, p)|
    ensures Chunks(s, p)[k] == Chunks(t, p)[k]
    decreases k
  {
    if s != t {
      assert |s| < |t|;
      if k == 0 {
        assert s[..p] == t[..p];
      } else {
        assert (k + 1) * p == k * p + p;
        assert s[p..] <= t[p..];
        SharedPage(s[p..], t[p..], p, k - 1);
      }
    }
  }
}
