/**
 * The cart page (frontend/src/pages/Cart.jsx): line items priced only by
 * the price recorded when they were added, totals without shipping, and the
 * guards in front of the quantity-update and remove requests.
 */
module CartPage {
  import opened Wrappers
  import opened JsOps
  import opened CartItems
  import Checkout

  /** `price_at_addition || 0`: unlike checkout, no fallback to the catalogue price. */
  function CartPrice(raw: RawItem): (r: int)
    ensures raw.priceAtAddition.Some? && raw.priceAtAddition.value != 0 ==> r == raw.priceAtAddition.value
    ensures raw.priceAtAddition.None? || raw.priceAtAddition.value == 0 ==> r == 0
  {
    IntOr(raw.priceAtAddition, 0)
  }

  /** `cartData?.items?.map(...) || []` on the cart page. */
  function CartLines(cart: Option<CartData>): (r: seq<LineItem>)
    ensures |r| == |RawItems(cart)|
    ensures forall k :: 0 <= k < |r| ==> r[k] == NormaliseLine(RawItems(cart)[k], CartPrice(RawItems(cart)[k]))
  {
    var raw := RawItems(cart);
    seq(|raw|, k requires 0 <= k < |raw| => NormaliseLine(raw[k], CartPrice(raw[k])))
  }

  /**
   * The two pages price an item alike exactly when it has a recorded price or
   * its product has none; otherwise the cart shows 0 where checkout shows the
   * catalogue price.
   */
  lemma CartAndCheckoutPrices(raw: RawItem)
    ensures CartPrice(raw) == Checkout.CheckoutPrice(raw) <==>
      (raw.priceAtAddition.Some? && raw.priceAtAddition.value != 0)
      || ProductPrice(raw).None? || ProductPrice(raw).value == 0
    ensures CartPrice(raw) != Checkout.CheckoutPrice(raw) ==>
      CartPrice(raw) == 0 && Checkout.CheckoutPrice(raw) == ProductPrice(raw).value
  {
  }

  /** When every item carries its recorded price the two pages list the same lines. */
  lemma SameLinesWhenPricesRecorded(cart: Option<CartData>)
    requires forall k :: 0 <= k < |RawItems(cart)| ==>
      RawItems(cart)[k].priceAtAddition.Some? && RawItems(cart)[k].priceAtAddition.value != 0
    ensures CartLines(cart) == Checkout.Lines(Checkout.CheckoutItems(cart))
  {
  }

  /** The cart summary: quantity, subtotal and a total that adds no shipping. */
  datatype CartTotals = CartTotals(totalQuantity: int, subtotal: Num, total: Num)

  function Totals(cart: Option<CartData>): (t: CartTotals)
    ensures t.totalQuantity == TotalQuantity(CartLines(cart))
    ensures t.subtotal == Subtotal(cart, CartLines(cart))
    ensures t.total == t.subtotal
  {
    var lines := CartLines(cart);
    var subtotal := Subtotal(cart, lines);
    CartTotals(TotalQuantity(lines), subtotal, subtotal)
  }

  /**
   * Where the two pages see the same subtotal, checkout asks exactly the
   * shipping cost more than the cart shows.
   */
  lemma CheckoutAddsOnlyShipping(cart: Option<CartData>, shippingMethod: string)
    requires (cart.Some? && cart.value.totalPrice.Some? && cart.value.totalPrice.value != 0)
      || forall k :: 0 <= k < |RawItems(cart)| ==>
           RawItems(cart)[k].priceAtAddition.Some? && RawItems(cart)[k].priceAtAddition.value != 0
    ensures Checkout.CheckoutTotals(cart, shippingMethod).total
         == Add(Totals(cart).total, Num(Checkout.ShippingCost(shippingMethod)))
    ensures Checkout.CheckoutTotals(cart, shippingMethod).totalQuantity == Totals(cart).totalQuantity
  {
    if !(cart.Some? && cart.value.totalPrice.Some? && cart.value.totalPrice.value != 0) {
      SameLinesWhenPricesRecorded(cart);
    }
    var lines := CartLines(cart);
    var checkoutLines := Checkout.Lines(Checkout.CheckoutItems(cart));
    assert forall k :: 0 <= k < |lines| ==> lines[k].quantity == checkoutLines[k].quantity;
    QuantitiesAgree(lines, checkoutLines);
  }

  /** The quantity total reads only the quantities. */
  lemma {:induction false} QuantitiesAgree(a: seq<LineItem>, b: seq<LineItem>)
    requires |a| == |b|
    requires forall k :: 0 <= k < |a| ==> a[k].quantity == b[k].quantity
    ensures TotalQuantity(a) == TotalQuantity(b)
    decreases |a|
  {
    if |a| > 0 {
      QuantitiesAgree(a[..|a| - 1], b[..|b| - 1]);
    }
  }

  /** What `updateQuantity` does; the requested quantity may be `NaN`. */
  datatype UpdateOutcome = UpdateSessionExpired | SendUpdate(productId: int, quantity: Num)

  /** `Math.max(1, requested)`: `NaN` stays `NaN`, a number is raised to at least 1. */
  function AtLeastOne(requested: Num): (r: Num)
    ensures r.NaN? <==> requested.NaN?
    ensures r.Num? ==> r.n >= 1 && (r.n == requested.n || (requested.n < 1 && r.n == 1))
  {
    if requested.NaN? then NaN else Num(Max(1, requested.n))
  }

  /** `updateQuantity`: request `Math.max(1, requested)`, provided a token is stored. */
  function UpdateQuantity(productId: int, requested: Num, hasToken: bool): (r: UpdateOutcome)
    ensures r.SendUpdate? <==> hasToken
    ensures r.SendUpdate? ==> r.productId == productId
    ensures r.SendUpdate? ==> (r.quantity.NaN? <==> requested.NaN?)
    ensures r.SendUpdate? && requested.Num? && requested.n >= 1 ==> r.quantity == requested
    ensures r.SendUpdate? && requested.Num? && requested.n < 1 ==> r.quantity == Num(1)
  {
    if !hasToken then UpdateSessionExpired else SendUpdate(productId, AtLeastOne(requested))
  }

  /**
   * The minus button of a line whose quantity may be missing: disabled when
   * `quantity <= 1`, which is false for a missing one, otherwise it asks for
   * `quantity - 1` (`NaN` for a missing quantity).
   */
  function DecrementClick(quantity: Option<int>): (r: Option<Num>)
    ensures r.Some? <==> quantity.None? || quantity.value > 1
    ensures r.Some? && quantity.Some? ==> r.value == Num(quantity.value - 1) && r.value.n >= 1
    ensures r.Some? && quantity.None? ==> r.value.NaN?
  {
    if quantity.None? then Some(NaN)
    else if quantity.value <= 1 then None
    else Some(Num(quantity.value - 1))
  }

  /** The plus button is never disabled and asks for `quantity + 1` (`NaN` for a missing quantity). */
  function IncrementClick(quantity: Option<int>): (r: Num)
    ensures r.Num? <==> quantity.Some?
    ensures r.Num? ==> r.n > quantity.value
    ensures r.Num? ==> r.n == quantity.value + 1
  {
    if quantity.Some? then Num(quantity.value + 1) else NaN
  }

  /** An enabled minus click asks for exactly one fewer; the clamp to 1 never comes into play. */
  lemma DecrementSendsAtLeastOne(productId: int, quantity: int)
    requires quantity > 1
    ensures UpdateQuantity(productId, DecrementClick(Some(quantity)).value, true) == SendUpdate(productId, Num(quantity - 1))
  {
  }

  /** Plus then minus, on the quantity the server stores after the plus, asks for the starting quantity again. */
  lemma IncrementThenDecrement(quantity: int)
    requires quantity >= 1
    ensures IncrementClick(Some(quantity)).Num?
    ensures DecrementClick(Some(IncrementClick(Some(quantity)).n)) == Some(Num(quantity))
  {
  }

  /**
   * A click sends a numeric quantity of at least 1 exactly when the line has a
   * quantity; for a line without one both buttons are enabled and send `NaN`.
   */
  lemma ClickSendsNumberIffQuantity(productId: int, quantity: Option<int>)
    ensures UpdateQuantity(productId, IncrementClick(quantity), true).quantity.Num? <==> quantity.Some?
    ensures DecrementClick(quantity).Some? ==>
      (UpdateQuantity(productId, DecrementClick(quantity).value, true).quantity.Num? <==> quantity.Some?)
    ensures quantity.None? ==> DecrementClick(quantity) == Some(NaN)
    ensures quantity.None? ==> UpdateQuantity(productId, NaN, true) == SendUpdate(productId, NaN)
    ensures quantity.Some? ==> UpdateQuantity(productId, IncrementClick(quantity), true).quantity.n >= 1
  {
  }

  /** What `removeItem` does. */
  datatype RemoveOutcome = Cancelled | RemoveSessionExpired | SendRemove(productId: int)

  /** `removeItem`: ask first, then require a token. */
  function RemoveItem(productId: int, confirmed: bool, hasToken: bool): (r: RemoveOutcome)
    ensures r.SendRemove? <==> confirmed && hasToken
    ensures r.Cancelled? <==> !confirmed
    ensures r.SendRemove? ==> r.productId == productId
  {
    if !confirmed then Cancelled
    else if !hasToken then RemoveSessionExpired
    else SendRemove(productId)
  }

  /** Without a stored token neither the update nor the remove request goes out. */
  lemma NoTokenNoRequest(productId: int, requested: Num, confirmed: bool)
    ensures UpdateQuantity(productId, requested, false) == UpdateSessionExpired
    ensures !RemoveItem(productId, confirmed, false).SendRemove?
  {
  }

  const LoginToViewCartMessage: string := "Please log in to view your cart."
  const SessionFailedMessage: string := "Failed to connect to server or session expired. Please log in again."

  /** The cart page fetches only for a logged-in user with a stored token. */
  lemma CartLoadGuard(isAuthenticated: bool, hasToken: bool)
    ensures !isAuthenticated ==> StartLoad(isAuthenticated, hasToken, LoginToViewCartMessage)
                                 == LoginRequired(LoginToViewCartMessage)
    ensures isAuthenticated && !hasToken ==> StartLoad(isAuthenticated, hasToken, LoginToViewCartMessage) == Idle
  {
  }

  /**
   * The state after the cart request returns. Unlike checkout, an empty cart
   * is no error, and a success without a cart just shows none.
   */
  function AfterLoad(prior: Option<CartData>, response: CartResponse): (s: PageState)
    ensures s.error == "" <==> response.Succeeded?
    ensures response.Succeeded? ==> s.cart == response.cart
    ensures response.Failed? ==> s.cart.None? && s.error == StrOr(response.message, LoadFailedMessage)
    ensures response.Threw? ==> s.cart == prior && s.error == SessionFailedMessage
  {
    match response
    case Succeeded(cart) => PageState(cart, "")
    case Failed(message) => PageState(None, StrOr(message, LoadFailedMessage))
    case Threw => PageState(prior, SessionFailedMessage)
  }

  /**
   * Only a thrown error keeps what was shown before; every answer of the
   * server decides the page alone. A success without a cart, like a refusal,
   * leaves no lines and a total of 0.
   */
  lemma LoadForgetsPriorUnlessThrown(prior: Option<CartData>, other: Option<CartData>, response: CartResponse)
    ensures !response.Threw? ==> AfterLoad(prior, response) == AfterLoad(other, response)
    ensures response.Threw? ==> AfterLoad(prior, response).cart == prior
    ensures !response.Threw? && AfterLoad(prior, response).cart.None? ==>
      CartLines(AfterLoad(prior, response).cart) == [] && Totals(AfterLoad(prior, response).cart).total == Num(0)
  {
  }
}
