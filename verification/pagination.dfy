/**
 * Pagination of the filtered catalogue (frontend/src/pages/ProductPage.jsx):
 * twelve products per page, the guarded page change, the five-wide window
 * of page-number buttons with its first/last jump buttons, and the page
 * state that every filter or product-list change resets to page 1.
 */
module Pagination {
  import opened JsOps
  import opened Catalogue

  const ItemsPerPage: nat := 12

  /** Width of the window of numbered page buttons. */
  const MaxPagesToShow: int := 5

  /** `Math.ceil(n / 12)`: the fewest pages that hold `n` items. */
  function TotalPages(n: nat): (t: nat)
    ensures t * ItemsPerPage >= n
    ensures t > 0 ==> (t - 1) * ItemsPerPage < n
    ensures n == 0 <==> t == 0
  {
    var q := CeilDiv(n, ItemsPerPage);
    assert q >= 0 by {
      assert (q - 1) * ItemsPerPage < n;
    }
    q
  }

  /** Index of the first item on a page. */
  function StartIndex(currentPage: int): int {
    (currentPage - 1) * ItemsPerPage
  }

  /** `items.slice(startIndex, startIndex + 12)`. */
  function PageSlice<T>(items: seq<T>, currentPage: int): (r: seq<T>)
    ensures |r| <= ItemsPerPage
    ensures 1 <= currentPage ==>
      var start := StartIndex(currentPage);
      r == items[Min(start, |items|)..Min(start + ItemsPerPage, |items|)]
    ensures 1 <= currentPage <= TotalPages(|items|) ==> |r| > 0
    ensures currentPage > TotalPages(|items|) ==> r == []
  {
    var start := StartIndex(currentPage);
    Slice(items, start, start + ItemsPerPage)
  }

  /** Pages 1 to `k` laid end to end. */
  function Pages<T>(items: seq<T>, k: nat): seq<T>
    decreases k
  {
    if k == 0 then [] else Pages(items, k - 1) + PageSlice(items, k)
  }

  /** The first `k` pages are the first `12 k` items (or all of them). */
  lemma {:induction false} PagesArePrefix<T>(items: seq<T>, k: nat)
    ensures Pages(items, k) == items[..Min(k * ItemsPerPage, |items|)]
    decreases k
  {
    if k > 0 {
      PagesArePrefix(items, k - 1);
      var start := (k - 1) * ItemsPerPage;
      assert StartIndex(k) == start && k * ItemsPerPage == start + ItemsPerPage;
      var a := Min(start, |items|);
      var b := Min(start + ItemsPerPage, |items|);
      assert PageSlice(items, k) == items[a..b];
      PrefixThenSlice(items, a, b);
    }
  }

  lemma PrefixThenSlice<T>(items: seq<T>, a: nat, b: nat)
    requires a <= b <= |items|
    ensures items[..a] + items[a..b] == items[..b]
  {
  }

  /** Concatenating pages 1 to TotalPages reproduces the list exactly. */
  lemma PagesReassemble<T>(items: seq<T>)
    ensures Pages(items, TotalPages(|items|)) == items
  {
    PagesArePrefix(items, TotalPages(|items|));
    assert items[..|items|] == items;
  }

  /** Item `i` sits on page `i / 12 + 1`, at position `i % 12`. */
  lemma ItemOnItsPage<T>(items: seq<T>, i: nat)
    requires i < |items|
    ensures 1 <= i / ItemsPerPage + 1 <= TotalPages(|items|)
    ensures i % ItemsPerPage < |PageSlice(items, i / ItemsPerPage + 1)|
    ensures PageSlice(items, i / ItemsPerPage + 1)[i % ItemsPerPage] == items[i]
  {
    var p := i / ItemsPerPage + 1;
    assert StartIndex(p) == i - i % ItemsPerPage;
  }

  /** The "Showing a-b of n" caption. */
  function ShowingRange(currentPage: int, n: nat): (int, int) {
    var start := StartIndex(currentPage);
    (start + 1, Min(start + ItemsPerPage, n))
  }

  /** The caption counts exactly the items on the page. */
  lemma ShowingRangeMatchesPage<T>(items: seq<T>, currentPage: int)
    requires 1 <= currentPage <= TotalPages(|items|)
    ensures ShowingRange(currentPage, |items|).1 - ShowingRange(currentPage, |items|).0 + 1
         == |PageSlice(items, currentPage)|
  {
  }

  /** `handlePageChange`: move only to a page that exists. */
  function HandlePageChange(currentPage: int, totalPages: int, page: int): (r: int)
    ensures 0 < page <= totalPages ==> r == page
    ensures !(0 < page <= totalPages) ==> r == currentPage
  {
    if page > 0 && page <= totalPages then page else currentPage
  }

  /** The current page is always a page that exists, or page 1 of an empty list. */
  predicate ValidPage(currentPage: int, totalPages: int) {
    1 <= currentPage <= Max(1, totalPages)
  }

  lemma HandlePageChangeKeepsValid(currentPage: int, totalPages: int, page: int)
    requires ValidPage(currentPage, totalPages)
    ensures ValidPage(HandlePageChange(currentPage, totalPages, page), totalPages)
  {
  }

  /** The arrow buttons stop at the first and the last page. */
  lemma ArrowsClamp(totalPages: int)
    requires totalPages >= 1
    ensures HandlePageChange(1, totalPages, 1 - 1) == 1
    ensures HandlePageChange(totalPages, totalPages, totalPages + 1) == totalPages
  {
  }

  /** `[lo, lo + 1, ..., hi]`, empty when `hi < lo`. */
  function Range(lo: int, hi: int): (r: seq<int>)
    ensures |r| == Max(0, hi - lo + 1)
    ensures forall k :: 0 <= k < |r| ==> r[k] == lo + k
  {
    seq(Max(0, hi - lo + 1), k requires 0 <= k < Max(0, hi - lo + 1) => lo + k)
  }

  /** First and last page of the window of numbered buttons. */
  function WindowBounds(currentPage: int, totalPages: int): (int, int) {
    var start0 := Max(1, currentPage - MaxPagesToShow / 2);
    var end0 := Min(totalPages, currentPage + MaxPagesToShow / 2);
    var start1 := if end0 - start0 + 1 < MaxPagesToShow then Max(1, end0 - MaxPagesToShow + 1) else start0;
    var end1 := if end0 - start1 + 1 < MaxPagesToShow then Min(totalPages, start1 + MaxPagesToShow - 1) else end0;
    (start1, end1)
  }

  /** The numbered page buttons. */
  function PageWindow(currentPage: int, totalPages: int): seq<int> {
    var (lo, hi) := WindowBounds(currentPage, totalPages);
    Range(lo, hi)
  }

  /**
   * For a page that exists the window is a run of consecutive pages inside
   * [1, totalPages], holds the current page and has min(5, totalPages) entries.
   */
  lemma PageWindowShape(currentPage: int, totalPages: int)
    requires 1 <= currentPage <= totalPages
    ensures var w := PageWindow(currentPage, totalPages);
      && |w| == Min(MaxPagesToShow, totalPages)
      && (forall k :: 0 <= k < |w| ==> w[k] == w[0] + k)
      && w[0] >= 1 && w[|w| - 1] <= totalPages
      && currentPage in w
  {
    var w := PageWindow(currentPage, totalPages);
    var (lo, hi) := WindowBounds(currentPage, totalPages);
    assert w[currentPage - lo] == currentPage;
  }

  /** With no pages there are no numbered buttons. */
  lemma PageWindowEmpty(currentPage: int)
    requires currentPage == 1
    ensures PageWindow(currentPage, 0) == []
  {
  }

  /**
   * All buttons of the bar: page 1 when the window starts later, the window,
   * and the last page when the window ends earlier.
   */
  function PageButtons(currentPage: int, totalPages: int): seq<int> {
    var (lo, hi) := WindowBounds(currentPage, totalPages);
    (if lo > 1 then [1] else []) + PageWindow(currentPage, totalPages) + (if hi < totalPages then [totalPages] else [])
  }

  /** The first and last pages are always reachable in one click, and every button is a real page. */
  lemma PageButtonsReachEnds(currentPage: int, totalPages: int)
    requires 1 <= currentPage <= totalPages
    ensures 1 in PageButtons(currentPage, totalPages)
    ensures totalPages in PageButtons(currentPage, totalPages)
    ensures forall b :: b in PageButtons(currentPage, totalPages) ==> 1 <= b <= totalPages
  {
    PageWindowShape(currentPage, totalPages);
    var w := PageWindow(currentPage, totalPages);
    var (lo, hi) := WindowBounds(currentPage, totalPages);
    assert w[0] == lo && w[|w| - 1] == hi;
    if lo <= 1 {
      assert w[0] == 1;
    }
    if hi >= totalPages {
      assert w[|w| - 1] == totalPages;
    }
  }

  // ---------------------------------------------------------------------
  // Page state
  // ---------------------------------------------------------------------

  /** The state the shop page keeps about its catalogue. */
  datatype ShopState = ShopState(
    products: seq<Product>,
    filters: Filters,
    filtered: seq<Product>,
    currentPage: int)

  /** The filtered list is up to date and the current page exists. */
  ghost predicate Consistent(s: ShopState) {
    && s.filtered == ApplyFilters(s.products, s.filters, MaxPrice(s.products))
    && ValidPage(s.currentPage, TotalPages(|s.filtered|))
  }

  /** The filter effect: recompute the filtered list and go back to page 1. */
  function Recompute(products: seq<Product>, filters: Filters): (r: ShopState)
    ensures r.currentPage == 1
    ensures r.products == products && r.filters == filters
    ensures Consistent(r)
  {
    ShopState(products, filters, ApplyFilters(products, filters, MaxPrice(products)), 1)
  }

  const InitialShop: ShopState := ShopState([], NoFilters, [], 1)

  /** Any change to the filters resets the page to 1 and keeps the list up to date. */
  function SetFilters(s: ShopState, filters: Filters): (r: ShopState)
    ensures r.currentPage == 1 && Consistent(r)
    ensures r.products == s.products && r.filters == filters
  {
    Recompute(s.products, filters)
  }

  /** Loading a new product list resets the page to 1 and keeps the filters. */
  function SetProducts(s: ShopState, products: seq<Product>): (r: ShopState)
    ensures r.currentPage == 1 && Consistent(r)
    ensures r.products == products && r.filters == s.filters
  {
    Recompute(products, s.filters)
  }

  /** A page click keeps the list and moves only to an existing page. */
  function ChangePage(s: ShopState, page: int): (r: ShopState)
    requires Consistent(s)
    ensures Consistent(r)
    ensures r == s.(currentPage := r.currentPage)
    ensures 1 <= page <= TotalPages(|s.filtered|) ==> r.currentPage == page
    ensures !(1 <= page <= TotalPages(|s.filtered|)) ==> r == s
  {
    var total := TotalPages(|s.filtered|);
    HandlePageChangeKeepsValid(s.currentPage, total, page);
    s.(currentPage := HandlePageChange(s.currentPage, total, page))
  }

  /** The products on screen. */
  function Visible(s: ShopState): seq<Product> {
    PageSlice(s.filtered, s.currentPage)
  }

  /** Every item on a page comes from the list. */
  lemma PageSliceFromList<T>(items: seq<T>, currentPage: int, x: T)
    requires x in PageSlice(items, currentPage)
    ensures x in items
  {
    var start := StartIndex(currentPage);
    var b := ClampIndex(start, |items|);
    var e := ClampIndex(start + ItemsPerPage, |items|);
    assert PageSlice(items, currentPage) == Slice(items, start, start + ItemsPerPage);
    if b < e {
      assert x in items[b..e];
    }
  }

  /** What is on screen always passes the filters and is never more than a page. */
  lemma VisibleProductsPass(s: ShopState)
    requires Consistent(s)
    ensures |Visible(s)| <= ItemsPerPage
    ensures forall p :: p in Visible(s) ==> p in s.products && Passes(p, s.filters, MaxPrice(s.products))
  {
    ApplyFiltersKeepsExactlyPassing(s.products, s.filters, MaxPrice(s.products));
    forall p | p in Visible(s) ensures p in s.filtered {
      PageSliceFromList(s.filtered, s.currentPage, p);
    }
  }

  /** Twenty-five products and no filters: three pages, the first holding items 1 to 12. */
  lemma TwentyFiveProductsScenario(products: seq<Product>)
    requires |products| == 25
    ensures TotalPages(|ApplyFilters(products, NoFilters, MaxPrice(products))|) == 3
    ensures Visible(Recompute(products, NoFilters)) == products[..12]
    ensures HandlePageChange(3, 3, 4) == 3 && HandlePageChange(1, 3, 0) == 1
  {
    NoFiltersKeepsAll(products, MaxPrice(products));
  }
}
