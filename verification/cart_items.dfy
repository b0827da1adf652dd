/**
 * The cart as the server returns it and as the cart and checkout pages
 * read it (frontend/src/pages/Cart.jsx and frontend/src/pages/Checkout.jsx):
 * raw items with optional fields, the per-page normalised line items, and
 * the quantity and subtotal sums, with JavaScript's `NaN` where a missing
 * quantity enters a product.
 */
module CartItems {
  import opened Wrappers
  import opened JsOps

  /** The product record nested in a raw cart item; every field may be missing. */
  datatype ProductInfo = ProductInfo(
    name: Option<string>,
    price: Option<int>,
    image: Option<string>,
    unit: Option<string>,
    weight: Option<int>)

  /** One item of `cart.items` as received. */
  datatype RawItem = RawItem(
    productId: int,
    quantity: Option<int>,
    priceAtAddition: Option<int>,
    product: Option<ProductInfo>)

  /** The `cart` object of a successful response. */
  datatype CartData = CartData(items: Option<seq<RawItem>>, totalPrice: Option<int>)

  /** A line item as the pages display it; `quantity` is passed through unchanged. */
  datatype LineItem = LineItem(
    productId: int,
    name: string,
    price: int,
    quantity: Option<int>,
    image: Option<string>,
    unit: string)

  const UnknownProduct: string := "Unknown Product"

  /** A JavaScript number that may be `NaN`: arithmetic with a missing quantity. */
  datatype Num = Num(n: int) | NaN

  function Add(a: Num, b: Num): (r: Num)
    ensures r.Num? <==> a.Num? && b.Num?
    ensures r.Num? ==> r.n == a.n + b.n
  {
    if a.Num? && b.Num? then Num(a.n + b.n) else NaN
  }

  /** `x * quantity`, where a missing quantity makes the product `NaN`. */
  function TimesQuantity(x: int, quantity: Option<int>): (r: Num)
    ensures r.Num? <==> quantity.Some?
    ensures r.Num? ==> r.n == x * quantity.value
  {
    if quantity.Some? then Num(x * quantity.value) else NaN
  }

  function ProductName(raw: RawItem): Option<string> {
    if raw.product.Some? then raw.product.value.name else None
  }

  function ProductPrice(raw: RawItem): Option<int> {
    if raw.product.Some? then raw.product.value.price else None
  }

  function ProductImage(raw: RawItem): Option<string> {
    if raw.product.Some? then raw.product.value.image else None
  }

  function ProductUnit(raw: RawItem): Option<string> {
    if raw.product.Some? then raw.product.value.unit else None
  }

  function ProductWeight(raw: RawItem): Option<int> {
    if raw.product.Some? then raw.product.value.weight else None
  }

  /** The fields both pages map alike, with the price each page chose. */
  function NormaliseLine(raw: RawItem, price: int): (r: LineItem)
    ensures r.productId == raw.productId && r.quantity == raw.quantity && r.price == price
    ensures r.image == ProductImage(raw)
    ensures StrTruthy(ProductName(raw)) ==> r.name == ProductName(raw).value
    ensures !StrTruthy(ProductName(raw)) ==> r.name == UnknownProduct
    ensures StrTruthy(ProductUnit(raw)) ==> r.unit == ProductUnit(raw).value
    ensures !StrTruthy(ProductUnit(raw)) ==> r.unit == "Unit"
  {
    LineItem(raw.productId, StrOr(ProductName(raw), UnknownProduct), price,
             raw.quantity, ProductImage(raw), StrOr(ProductUnit(raw), "Unit"))
  }

  /** The raw items of a possibly absent cart: `cartData?.items || []`. */
  function RawItems(cart: Option<CartData>): (r: seq<RawItem>)
    ensures cart.None? ==> r == []
    ensures cart.Some? && cart.value.items.Some? ==> r == cart.value.items.value
  {
    if cart.Some? && cart.value.items.Some? then cart.value.items.value else []
  }

  /** `reduce((acc, item) => acc + (item.quantity || 0), 0)`. */
  function TotalQuantity(items: seq<LineItem>): int
    decreases |items|
  {
    if |items| == 0 then 0
    else TotalQuantity(items[..|items| - 1]) + IntOr(items[|items| - 1].quantity, 0)
  }

  /** The quantity total of a concatenation is the sum of the two totals. */
  lemma {:induction false} TotalQuantityAppend(a: seq<LineItem>, b: seq<LineItem>)
    ensures TotalQuantity(a + b) == TotalQuantity(a) + TotalQuantity(b)
    decreases |b|
  {
    if |b| == 0 {
      assert a + b == a;
    } else {
      var b' := b[..|b| - 1];
      assert (a + b)[..|a + b| - 1] == a + b';
      TotalQuantityAppend(a, b');
    }
  }

  /** An item whose quantity is missing counts as zero: filling it in with 0 changes nothing. */
  lemma TotalQuantityMissingIsZero(a: seq<LineItem>, item: LineItem, b: seq<LineItem>)
    requires item.quantity.None?
    ensures TotalQuantity(a + [item] + b) == TotalQuantity(a + [item.(quantity := Some(0))] + b)
    ensures TotalQuantity(a + [item] + b) == TotalQuantity(a + b)
  {
    var filled := item.(quantity := Some(0));
    TotalQuantityAppend(a + [item], b);
    TotalQuantityAppend(a + [filled], b);
    TotalQuantityAppend(a, b);
    TotalQuantityAppend(a, [item]);
    TotalQuantityAppend(a, [filled]);
    assert TotalQuantity([item]) == TotalQuantity([]) + 0;
    assert TotalQuantity([filled]) == TotalQuantity([]) + 0;
  }

  /** With no quantity missing or negative, the total bounds each quantity. */
  lemma {:induction false} TotalQuantityBoundsEach(items: seq<LineItem>, i: int)
    requires forall k :: 0 <= k < |items| ==> items[k].quantity.Some? && items[k].quantity.value >= 0
    requires 0 <= i < |items|
    ensures 0 <= items[i].quantity.value <= TotalQuantity(items)
    decreases |items|
  {
    var init := items[..|items| - 1];
    if i < |items| - 1 {
      TotalQuantityBoundsEach(init, i);
      assert init[i] == items[i];
    } else if |init| > 0 {
      TotalQuantityBoundsEach(init, 0);
    }
  }

  /** `reduce((acc, item) => acc + (item.price * item.quantity), 0)`. */
  function ItemsSubtotal(items: seq<LineItem>): Num
    decreases |items|
  {
    if |items| == 0 then Num(0)
    else Add(ItemsSubtotal(items[..|items| - 1]), TimesQuantity(items[|items| - 1].price, items[|items| - 1].quantity))
  }

  /** The sum is `NaN` exactly when some item's quantity is missing. */
  lemma {:induction false} ItemsSubtotalNaNIff(items: seq<LineItem>)
    ensures ItemsSubtotal(items).NaN? <==> exists k :: 0 <= k < |items| && items[k].quantity.None?
    decreases |items|
  {
    if |items| > 0 {
      var init := items[..|items| - 1];
      ItemsSubtotalNaNIff(init);
      if exists k :: 0 <= k < |init| && init[k].quantity.None? {
        var k :| 0 <= k < |init| && init[k].quantity.None?;
        assert items[k] == init[k];
      }
      if exists k :: 0 <= k < |items| && items[k].quantity.None? {
        var k :| 0 <= k < |items| && items[k].quantity.None?;
        if k < |init| {
          assert init[k] == items[k];
        }
      }
    }
  }

  /** The subtotal of a concatenation adds the two subtotals. */
  lemma {:induction false} ItemsSubtotalAppend(a: seq<LineItem>, b: seq<LineItem>)
    ensures ItemsSubtotal(a + b) == Add(ItemsSubtotal(a), ItemsSubtotal(b))
    decreases |b|
  {
    if |b| == 0 {
      assert a + b == a;
    } else {
      var b' := b[..|b| - 1];
      assert (a + b)[..|a + b| - 1] == a + b';
      ItemsSubtotalAppend(a, b');
    }
  }

  /** A line item with unit price `price` bought `quantity` times. */
  lemma ItemsSubtotalSingle(item: LineItem)
    ensures ItemsSubtotal([item]) == TimesQuantity(item.price, item.quantity)
  {
    assert [item][..0] == [];
  }

  /**
   * `cartData?.total_price || <sum of the items>`: the server's total when it
   * is a non-zero number, otherwise the sum over the displayed items.
   */
  function Subtotal(cart: Option<CartData>, items: seq<LineItem>): (r: Num)
    ensures cart.Some? && cart.value.totalPrice.Some? && cart.value.totalPrice.value != 0
      ==> r == Num(cart.value.totalPrice.value)
    ensures !(cart.Some? && cart.value.totalPrice.Some? && cart.value.totalPrice.value != 0)
      ==> r == ItemsSubtotal(items)
  {
    var total := if cart.Some? then cart.value.totalPrice else None;
    if total.Some? && total.value != 0 then Num(total.value) else ItemsSubtotal(items)
  }

  /**
   * What `loadCart` does before any request: without a login it shows the
   * page's log-in message, with a login but no stored token it stops quietly,
   * and otherwise it fetches the cart.
   */
  datatype LoadStart = LoginRequired(message: string) | Idle | Fetch

  function StartLoad(isAuthenticated: bool, hasToken: bool, loginMessage: string): (r: LoadStart)
    ensures r.Fetch? <==> isAuthenticated && hasToken
    ensures r.LoginRequired? <==> !isAuthenticated
    ensures r.LoginRequired? ==> r.message == loginMessage
  {
    if !isAuthenticated then LoginRequired(loginMessage)
    else if !hasToken then Idle
    else Fetch
  }

  /** The outcome of the cart request; a successful answer need not carry a cart. */
  datatype CartResponse = Succeeded(cart: Option<CartData>) | Failed(message: Option<string>) | Threw

  /** A page's cart and error message. */
  datatype PageState = PageState(cart: Option<CartData>, error: string)

  const LoadFailedMessage: string := "Failed to load cart data from server."
}
