/**
 * The product catalogue of the shop page (frontend/src/pages/ProductPage.jsx):
 * load-time normalisation of the server's product list, the AND-combined
 * filter, the slider's rounded maximum price, the derived category list and
 * the sidebar's rating and category handlers.
 */
module Catalogue {
  import opened Wrappers
  import opened JsOps
  import opened AsciiText
  import opened SeqFilter
  import StringOrder

  /** A product as `GET /product/list` returns it; optional fields may be missing. */
  datatype ServerProduct = ServerProduct(
    id: int,
    name: string,
    price: int,
    categoryName: Option<string>,
    image: Option<string>,
    unit: Option<string>)

  /** A product after load-time normalisation. Prices are whole rupiah. */
  datatype Product = Product(
    id: int,
    name: string,
    price: int,
    categoryName: string,
    image: string,
    simulatedRating: int,
    unit: string)

  /** The slider's ceiling when there are no products. */
  const DefaultMaxPrice: int := 10_000_000

  /** The slider's ceiling is rounded up to a multiple of this step. */
  const PriceStep: int := 100_000

  /** The category given to a product that has none. */
  const OtherCategory: string := "OTHER"

  const DefaultUnit: string := "Unit"

  // ---------------------------------------------------------------------
  // Load-time normalisation
  // ---------------------------------------------------------------------

  /** `Math.max(1, (id % 5) + 1 - 1)` with JavaScript's truncating `%`. */
  function SimulatedRating(id: int): (r: int)
    ensures 1 <= r <= 4
    ensures id >= 0 ==> r == Max(1, id % 5)
    ensures id % 5 == 0 ==> r == 1
    ensures id <= 0 ==> r == 1
  {
    Max(1, JsRem(id, 5) + 1 - 1)
  }

  /** Only products with a truthy image survive loading. */
  function HasImage(p: ServerProduct): bool {
    StrTruthy(p.image)
  }

  function Normalise(p: ServerProduct): (r: Product)
    requires HasImage(p)
  {
    Product(
      p.id, p.name, p.price,
      if StrTruthy(p.categoryName) then ToUpper(p.categoryName.value) else OtherCategory,
      p.image.value,
      SimulatedRating(p.id),
      StrOr(p.unit, DefaultUnit))
  }

  /** What every loaded product satisfies. */
  ghost predicate WellFormed(p: Product) {
    && p.image != ""
    && p.categoryName != ""
    && IsUpperCased(p.categoryName)
    && p.simulatedRating == SimulatedRating(p.id)
    && p.unit != ""
  }

  /** The `.filter(p => p.image).map(...)` applied to a successful product list. */
  function LoadProducts(server: seq<ServerProduct>): (r: seq<Product>)
    ensures |r| <= |server|
    ensures forall i :: 0 <= i < |r| ==> WellFormed(r[i])
    ensures (forall i :: 0 <= i < |server| ==> HasImage(server[i])) ==> |r| == |server|
    ensures (forall i :: 0 <= i < |server| ==> !HasImage(server[i])) ==> r == []
    decreases |server|
  {
    if |server| == 0 then []
    else
      var p := server[0];
      var rest := LoadProducts(server[1..]);
      if HasImage(p) then
        ToUpperIdempotent(if StrTruthy(p.categoryName) then p.categoryName.value else "");
        [Normalise(p)] + rest
      else rest
  }

  /**
   * Loading keeps exactly the products with an image, in order, each one
   * normalised: the category upper-cased or `OTHER`, the unit defaulted to
   * `Unit`, the rating derived from the id.
   */
  lemma {:induction false} LoadProductsKeepsImaged(server: seq<ServerProduct>)
    ensures |LoadProducts(server)| == |Filter(HasImage, server)|
    ensures forall i :: 0 <= i < |LoadProducts(server)| ==>
      LoadProducts(server)[i] == Normalise(Filter(HasImage, server)[i])
    decreases |server|
  {
    if |server| > 0 {
      LoadProductsKeepsImaged(server[1..]);
    }
  }

  // ---------------------------------------------------------------------
  // Filters
  // ---------------------------------------------------------------------

  datatype PriceRange = PriceRange(min: int, max: int)

  /** The sidebar's filter state; `priceRange` stays unset until the slider moves. */
  datatype Filters = Filters(
    categories: seq<string>,
    priceRange: Option<PriceRange>,
    minRating: int,
    searchQuery: string)

  const NoFilters: Filters := Filters([], None, 0, "")

  /** Case-insensitive match of the query against the name or the category. */
  predicate MatchesSearch(p: Product, query: string) {
    var q := ToLower(query);
    Includes(ToLower(p.name), q) || (p.categoryName != "" && Includes(ToLower(p.categoryName), q))
  }

  /** The price filter applies only when the slider sits below the ceiling. */
  predicate PriceFilterActive(f: Filters, maxPrice: int) {
    f.priceRange.Some? && f.priceRange.value.max < maxPrice
  }

  /** A product passes every filter that is switched on. */
  predicate Passes(p: Product, f: Filters, maxPrice: int) {
    && (f.searchQuery != "" ==> MatchesSearch(p, f.searchQuery))
    && (|f.categories| > 0 ==> p.categoryName in f.categories)
    && (PriceFilterActive(f, maxPrice) ==> p.price <= f.priceRange.value.max)
    && (f.minRating > 0 ==> p.simulatedRating >= f.minRating)
  }

  function SearchTest(query: string): Product -> bool {
    p => MatchesSearch(p, query)
  }

  function CategoryTest(categories: seq<string>): Product -> bool {
    (p: Product) => p.categoryName in categories
  }

  function PriceTest(max: int): Product -> bool {
    (p: Product) => p.price <= max
  }

  function RatingTest(minRating: int): Product -> bool {
    (p: Product) => p.simulatedRating >= minRating
  }

  function PassesTest(f: Filters, maxPrice: int): Product -> bool {
    p => Passes(p, f, maxPrice)
  }

  /** The slider position, read only when a price range is set. */
  function Ceiling(f: Filters): int {
    if f.priceRange.Some? then f.priceRange.value.max else 0
  }

  function SearchStage(products: seq<Product>, f: Filters): seq<Product> {
    if f.searchQuery != "" then Filter(SearchTest(f.searchQuery), products) else products
  }

  function CategoryStage(products: seq<Product>, f: Filters): seq<Product> {
    if |f.categories| > 0 then Filter(CategoryTest(f.categories), products) else products
  }

  function PriceStage(products: seq<Product>, f: Filters, maxPrice: int): seq<Product> {
    if PriceFilterActive(f, maxPrice) then Filter(PriceTest(Ceiling(f)), products) else products
  }

  function RatingStage(products: seq<Product>, f: Filters): seq<Product> {
    if f.minRating > 0 then Filter(RatingTest(f.minRating), products) else products
  }

  /** The filter effect: search, then category, then price, then rating, each only when on. */
  function ApplyFilters(products: seq<Product>, f: Filters, maxPrice: int): seq<Product> {
    RatingStage(PriceStage(CategoryStage(SearchStage(products, f), f), f, maxPrice), f)
  }

  function SearchGuard(f: Filters): Product -> bool {
    Guard(f.searchQuery != "", SearchTest(f.searchQuery))
  }

  function CategoryGuard(f: Filters): Product -> bool {
    Guard(|f.categories| > 0, CategoryTest(f.categories))
  }

  function PriceGuard(f: Filters, maxPrice: int): Product -> bool {
    Guard(PriceFilterActive(f, maxPrice), PriceTest(Ceiling(f)))
  }

  function RatingGuard(f: Filters): Product -> bool {
    Guard(f.minRating > 0, RatingTest(f.minRating))
  }

  /** The conjunction of the four guarded tests is `Passes`. */
  lemma GuardsArePasses(f: Filters, maxPrice: int, p: Product)
    ensures Both(Both(Both(SearchGuard(f), CategoryGuard(f)), PriceGuard(f, maxPrice)), RatingGuard(f))(p)
         == PassesTest(f, maxPrice)(p)
  {
  }

  /** The four successive filters are one filter by the conjunction of the active tests. */
  lemma ApplyFiltersIsOneFilter(products: seq<Product>, f: Filters, maxPrice: int)
    ensures ApplyFilters(products, f, maxPrice) == Filter(PassesTest(f, maxPrice), products)
  {
    var g1 := SearchGuard(f);
    var g12 := Both(g1, CategoryGuard(f));
    var g123 := Both(g12, PriceGuard(f, maxPrice));
    var g1234 := Both(g123, RatingGuard(f));

    var s1 := SearchStage(products, f);
    GuardedStage(f.searchQuery != "", SearchTest(f.searchQuery), products);

    var s2 := CategoryStage(s1, f);
    GuardedStage(|f.categories| > 0, CategoryTest(f.categories), s1);
    FilterFusion(g1, CategoryGuard(f), g12, products);

    var s3 := PriceStage(s2, f, maxPrice);
    GuardedStage(PriceFilterActive(f, maxPrice), PriceTest(Ceiling(f)), s2);
    FilterFusion(g12, PriceGuard(f, maxPrice), g123, products);

    GuardedStage(f.minRating > 0, RatingTest(f.minRating), s3);
    FilterFusion(g123, RatingGuard(f), g1234, products);

    forall p ensures g1234(p) == PassesTest(f, maxPrice)(p) {
      GuardsArePasses(f, maxPrice, p);
    }
    FilterExtensional(g1234, PassesTest(f, maxPrice), products);
  }

  /**
   * The filtered list is the product list read at increasing positions, and
   * a position is kept exactly when its product passes every active filter.
   */
  lemma ApplyFiltersKeepsExactlyPassing(products: seq<Product>, f: Filters, maxPrice: int)
    ensures IsEmbedding(KeptIndices(PassesTest(f, maxPrice), products), ApplyFilters(products, f, maxPrice), products)
    ensures forall i :: 0 <= i < |products| ==>
      (Passes(products[i], f, maxPrice) <==> i in KeptIndices(PassesTest(f, maxPrice), products))
    ensures forall p :: p in ApplyFilters(products, f, maxPrice) <==> p in products && Passes(p, f, maxPrice)
  {
    ApplyFiltersIsOneFilter(products, f, maxPrice);
    FilterKeepsExactlyPassing(PassesTest(f, maxPrice), products);
    forall p ensures p in ApplyFilters(products, f, maxPrice) <==> p in products && Passes(p, f, maxPrice) {
      FilterMembership(PassesTest(f, maxPrice), products, p);
    }
  }

  /** Filtering the filtered list again with the same filters and ceiling changes nothing. */
  lemma ApplyFiltersIdempotent(products: seq<Product>, f: Filters, maxPrice: int)
    ensures ApplyFilters(ApplyFilters(products, f, maxPrice), f, maxPrice) == ApplyFilters(products, f, maxPrice)
  {
    ApplyFiltersIsOneFilter(products, f, maxPrice);
    ApplyFiltersIsOneFilter(ApplyFilters(products, f, maxPrice), f, maxPrice);
    FilterIdempotent(PassesTest(f, maxPrice), products);
  }

  /** With every filter off, the whole list is shown. */
  lemma NoFiltersKeepsAll(products: seq<Product>, maxPrice: int)
    ensures ApplyFilters(products, NoFilters, maxPrice) == products
  {
  }

  /** Every loaded product's rating is below five, so a five-star minimum shows nothing. */
  lemma FiveStarMinimumIsEmpty(products: seq<Product>, f: Filters, maxPrice: int)
    requires forall i :: 0 <= i < |products| ==> WellFormed(products[i])
    requires f.minRating >= 5
    ensures ApplyFilters(products, f, maxPrice) == []
  {
    ApplyFiltersIsOneFilter(products, f, maxPrice);
    FilterNonePass(PassesTest(f, maxPrice), products);
  }

  // ---------------------------------------------------------------------
  // Slider ceiling
  // ---------------------------------------------------------------------

  function MaxOfPrices(products: seq<Product>): (m: int)
    requires |products| > 0
    ensures forall i :: 0 <= i < |products| ==> products[i].price <= m
    ensures exists i :: 0 <= i < |products| && products[i].price == m
    decreases |products|
  {
    if |products| == 1 then products[0].price
    else
      var rest := MaxOfPrices(products[1..]);
      assert forall i :: 1 <= i < |products| ==> products[i] == products[1..][i - 1];
      Max(products[0].price, rest)
  }

  /**
   * `Math.ceil(Math.max(...prices) / 100000) * 100000`, or ten million for an
   * empty list: the least multiple of the step at or above every price.
   */
  function MaxPrice(products: seq<Product>): (r: int)
    ensures |products| == 0 ==> r == DefaultMaxPrice
    ensures forall i :: 0 <= i < |products| ==> products[i].price <= r
    ensures r % PriceStep == 0
    ensures |products| > 0 ==> exists i :: 0 <= i < |products| && r - PriceStep < products[i].price
  {
    if |products| > 0 then CeilDiv(MaxOfPrices(products), PriceStep) * PriceStep else DefaultMaxPrice
  }

  /**
   * A slider at or above the ceiling filters nothing: the result is the same
   * as with no price range at all.
   */
  lemma SliderAtCeilingExcludesNothing(products: seq<Product>, f: Filters, max: int)
    requires max >= MaxPrice(products)
    ensures ApplyFilters(products, f.(priceRange := Some(PriceRange(0, max))), MaxPrice(products))
         == ApplyFilters(products, f.(priceRange := None), MaxPrice(products))
  {
  }

  /**
   * Even an active price filter whose ceiling is at least every price keeps
   * everything the other filters keep.
   */
  lemma PriceAboveAllKeepsAll(products: seq<Product>, f: Filters, maxPrice: int)
    requires f.priceRange.Some?
    requires forall i :: 0 <= i < |products| ==> products[i].price <= f.priceRange.value.max
    ensures ApplyFilters(products, f, maxPrice) == ApplyFilters(products, f.(priceRange := None), maxPrice)
  {
    var g := f.(priceRange := None);
    ApplyFiltersIsOneFilter(products, f, maxPrice);
    ApplyFiltersIsOneFilter(products, g, maxPrice);
    FilterAgreeOnElements(PassesTest(f, maxPrice), PassesTest(g, maxPrice), products);
  }

  /** Predicates that agree on the elements of `s` filter `s` alike. */
  lemma {:induction false} FilterAgreeOnElements(a: Product -> bool, b: Product -> bool, s: seq<Product>)
    requires forall i :: 0 <= i < |s| ==> a(s[i]) == b(s[i])
    ensures Filter(a, s) == Filter(b, s)
    decreases |s|
  {
    if |s| > 0 {
      FilterAgreeOnElements(a, b, s[1..]);
    }
  }

  // ---------------------------------------------------------------------
  // Derived category list
  // ---------------------------------------------------------------------

  function CategoryNames(products: seq<Product>): (r: seq<string>)
    ensures |r| == |products|
    ensures forall i :: 0 <= i < |products| ==> r[i] == products[i].categoryName
  {
    seq(|products|, i requires 0 <= i < |products| => products[i].categoryName)
  }

  function UpperAll(names: seq<string>): (r: seq<string>)
    ensures |r| == |names|
    ensures forall i :: 0 <= i < |names| ==> r[i] == ToUpper(names[i])
  {
    seq(|names|, i requires 0 <= i < |names| => ToUpper(names[i]))
  }

  /** `category` is the upper-cased, non-empty category of some product. */
  ghost predicate IsDerivedCategory(products: seq<Product>, category: string) {
    exists i :: 0 <= i < |products| && products[i].categoryName != "" && category == ToUpper(products[i].categoryName)
  }

  /**
   * `[...new Set(names.filter(Boolean).map(toUpperCase))].sort()`: the
   * distinct upper-cased non-empty categories, strictly increasing.
   */
  function DeriveCategories(products: seq<Product>): (r: seq<string>)
    ensures StringOrder.StrictlySorted(r)
    ensures forall c :: c in r <==> IsDerivedCategory(products, c)
    ensures forall k :: 0 <= k < |r| ==> r[k] != "" && IsUpperCased(r[k])
  {
    var names := CategoryNames(products);
    var present := Filter(NonEmpty, names);
    var upper := UpperAll(present);
    var unique := StringOrder.Dedup(upper);
    var r := StringOrder.Sort(unique);
    StringOrder.SortOfDistinct(unique);
    UpperPresentAreDerived(products);
    forall k | 0 <= k < |r| ensures r[k] != "" && IsUpperCased(r[k]) {
      assert r[k] in r;
      DerivedIsUpperCased(products, r[k]);
    }
    r
  }

  /** The upper-cased non-empty category names are exactly the derived categories. */
  lemma UpperPresentAreDerived(products: seq<Product>)
    ensures forall c :: c in UpperAll(Filter(NonEmpty, CategoryNames(products))) <==> IsDerivedCategory(products, c)
  {
    var names := CategoryNames(products);
    var present := Filter(NonEmpty, names);
    var upper := UpperAll(present);
    forall c ensures c in upper <==> IsDerivedCategory(products, c) {
      if c in upper {
        var k :| 0 <= k < |upper| && upper[k] == c;
        assert present[k] in present;
        FilterMembership(NonEmpty, names, present[k]);
        var i :| 0 <= i < |names| && names[i] == present[k];
      }
      if IsDerivedCategory(products, c) {
        var i :| 0 <= i < |products| && products[i].categoryName != "" && c == ToUpper(products[i].categoryName);
        assert names[i] in names;
        FilterMembership(NonEmpty, names, names[i]);
        var k :| 0 <= k < |present| && present[k] == names[i];
        assert upper[k] == c;
      }
    }
  }

  /** A derived category is non-empty and already upper-cased. */
  lemma DerivedIsUpperCased(products: seq<Product>, c: string)
    requires IsDerivedCategory(products, c)
    ensures c != "" && IsUpperCased(c)
  {
    var i :| 0 <= i < |products| && products[i].categoryName != "" && c == ToUpper(products[i].categoryName);
    ToUpperIdempotent(products[i].categoryName);
  }

  /**
   * The category list is determined by its elements: any strictly increasing
   * list of exactly the derived categories is the one the page shows.
   */
  lemma DeriveCategoriesUnique(products: seq<Product>, other: seq<string>)
    requires StringOrder.StrictlySorted(other)
    requires forall c :: c in other <==> IsDerivedCategory(products, c)
    ensures other == DeriveCategories(products)
  {
    StrictlySortedSameElements(other, DeriveCategories(products));
  }

  /** Two strictly increasing lists with the same elements are equal. */
  lemma {:induction false} StrictlySortedSameElements(a: seq<string>, b: seq<string>)
    requires StringOrder.StrictlySorted(a) && StringOrder.StrictlySorted(b)
    requires forall c :: c in a <==> c in b
    ensures a == b
    decreases |a|
  {
    assert |a| > 0 ==> a[0] in b;
    assert |b| > 0 ==> b[0] in a;
    if |a| > 0 && |b| > 0 {
      // the first element of each is the least element of the common set
      if a[0] != b[0] {
        assert a[0] in b;
        assert b[0] in a;
        var i :| 0 <= i < |b| && b[i] == a[0];
        var j :| 0 <= j < |a| && a[j] == b[0];
        assert i > 0 && j > 0;
        StringOrder.LessAsymmetric(b[0], a[0]);
        assert false;
      }
      forall c ensures c in a[1..] <==> c in b[1..] {
        if c in a[1..] {
          var k :| 1 <= k < |a| && a[k] == c;
          assert StringOrder.Less(a[0], c);
          StringOrder.LessIrreflexive(c);
          assert c in b;
          var m :| 0 <= m < |b| && b[m] == c;
          assert m != 0;
          assert b[1..][m - 1] == c;
        }
        if c in b[1..] {
          var k :| 1 <= k < |b| && b[k] == c;
          assert StringOrder.Less(b[0], c);
          StringOrder.LessIrreflexive(c);
          assert c in a;
          var m :| 0 <= m < |a| && a[m] == c;
          assert m != 0;
          assert a[1..][m - 1] == c;
        }
      }
      StrictlySortedSameElements(a[1..], b[1..]);
      assert a == [a[0]] + a[1..] && b == [b[0]] + b[1..];
    }
  }

  // ---------------------------------------------------------------------
  // Sidebar handlers
  // ---------------------------------------------------------------------

  /**
   * Clicking a rating selects it as the minimum, and clicking the rating that
   * is already selected switches the rating filter off.
   */
  function HandleRatingChange(f: Filters, rating: int): (r: Filters)
    ensures r == f.(minRating := r.minRating)
    ensures f.minRating == rating ==> r.minRating == 0
    ensures f.minRating != rating ==> r.minRating == rating
  {
    f.(minRating := if f.minRating == rating then 0 else rating)
  }

  /** Clicking the same rating twice from "off" or from that rating restores the filters. */
  lemma RatingClickTwice(f: Filters, rating: int)
    requires f.minRating == 0 || f.minRating == rating
    requires rating != 0
    ensures HandleRatingChange(HandleRatingChange(f, rating), rating) == f
  {
  }

  /** Ticking a category appends it; unticking removes every copy of it. */
  function HandleCategoryChange(f: Filters, category: string, isChecked: bool): (r: Filters)
    ensures r == f.(categories := r.categories)
    ensures isChecked ==> r.categories == f.categories + [category]
    ensures !isChecked ==> category !in r.categories
    ensures !isChecked ==> forall c :: c != category ==> (c in r.categories <==> c in f.categories)
  {
    if isChecked then f.(categories := f.categories + [category])
    else
      var kept := Filter(NotEqual(category), f.categories);
      assert forall c :: c in kept <==> c in f.categories && c != category by {
        forall c ensures c in kept <==> c in f.categories && c != category {
          FilterMembership(NotEqual(category), f.categories, c);
        }
      }
      f.(categories := kept)
  }

  function NotEqual(category: string): string -> bool {
    c => c != category
  }

  /** Ticking and then unticking a category leaves the same set of selected categories. */
  lemma CategoryTickUntick(f: Filters, category: string)
    requires category !in f.categories
    ensures forall c ::
      c in HandleCategoryChange(HandleCategoryChange(f, category, true), category, false).categories
      <==> c in f.categories
  {
  }
}
