/**
 * The checkout page (frontend/src/pages/Checkout.jsx): line items with the
 * catalogue price as a fallback and a package weight, the fixed shipping
 * table, the quantity, subtotal, weight and grand totals, the shipping form,
 * and the guards that decide whether an order request is sent at all.
 */
module Checkout {
  import opened Wrappers
  import opened JsOps
  import opened CartItems

  /** A checkout line: the displayed line item and the product weight in grams. */
  datatype CheckoutItem = CheckoutItem(line: LineItem, weight: int)

  /** `price_at_addition || product?.price || 0`. */
  function CheckoutPrice(raw: RawItem): (r: int)
    ensures raw.priceAtAddition.Some? && raw.priceAtAddition.value != 0 ==> r == raw.priceAtAddition.value
    ensures (raw.priceAtAddition.None? || raw.priceAtAddition.value == 0)
            && ProductPrice(raw).Some? && ProductPrice(raw).value != 0
            ==> r == ProductPrice(raw).value
    ensures r == 0 <==> (raw.priceAtAddition.None? || raw.priceAtAddition.value == 0)
                        && (ProductPrice(raw).None? || ProductPrice(raw).value == 0)
  {
    IntOr(raw.priceAtAddition, IntOr(ProductPrice(raw), 0))
  }

  function NormaliseCheckout(raw: RawItem): (r: CheckoutItem)
    ensures r.line == NormaliseLine(raw, CheckoutPrice(raw))
    ensures ProductWeight(raw).Some? && ProductWeight(raw).value != 0 ==> r.weight == ProductWeight(raw).value
    ensures ProductWeight(raw).None? || ProductWeight(raw).value == 0 ==> r.weight == 0
  {
    CheckoutItem(NormaliseLine(raw, CheckoutPrice(raw)), IntOr(ProductWeight(raw), 0))
  }

  /** `cartData?.items?.map(...) || []` on the checkout page. */
  function CheckoutItems(cart: Option<CartData>): (r: seq<CheckoutItem>)
    ensures |r| == |RawItems(cart)|
    ensures forall k :: 0 <= k < |r| ==> r[k] == NormaliseCheckout(RawItems(cart)[k])
  {
    var raw := RawItems(cart);
    seq(|raw|, k requires 0 <= k < |raw| => NormaliseCheckout(raw[k]))
  }

  function Lines(items: seq<CheckoutItem>): (r: seq<LineItem>)
    ensures |r| == |items|
    ensures forall k :: 0 <= k < |r| ==> r[k] == items[k].line
  {
    seq(|items|, k requires 0 <= k < |items| => items[k].line)
  }

  const Standard: string := "standard"
  const Express: string := "express"
  const SameDay: string := "same_day"

  /** The `shippingCosts` table. */
  function ShippingTable(key: string): Option<int> {
    if key == Standard then Some(15000)
    else if key == Express then Some(35000)
    else if key == SameDay then Some(75000)
    else None
  }

  /** `shippingCosts[shippingMethod] || 0`. */
  function ShippingCost(key: string): (r: int)
    ensures key == Standard ==> r == 15000
    ensures key == Express ==> r == 35000
    ensures key == SameDay ==> r == 75000
    ensures r == 0 <==> key !in {Standard, Express, SameDay}
    ensures 0 <= r <= 75000
  {
    IntOr(ShippingTable(key), 0)
  }

  /** `reduce((acc, item) => acc + (item.weight * item.quantity), 0)`. */
  function TotalWeight(items: seq<CheckoutItem>): Num
    decreases |items|
  {
    if |items| == 0 then Num(0)
    else Add(TotalWeight(items[..|items| - 1]), TimesQuantity(items[|items| - 1].weight, items[|items| - 1].line.quantity))
  }

  /** The weight total is `NaN` exactly when the price sum is: both follow the missing quantities. */
  lemma {:induction false} TotalWeightNaNLikeSubtotal(items: seq<CheckoutItem>)
    ensures TotalWeight(items).NaN? <==> ItemsSubtotal(Lines(items)).NaN?
    decreases |items|
  {
    if |items| > 0 {
      var init := items[..|items| - 1];
      TotalWeightNaNLikeSubtotal(init);
      assert Lines(items)[..|items| - 1] == Lines(init);
    }
  }

  /** The weight of a concatenation adds the two weights. */
  lemma {:induction false} TotalWeightAppend(a: seq<CheckoutItem>, b: seq<CheckoutItem>)
    ensures TotalWeight(a + b) == Add(TotalWeight(a), TotalWeight(b))
    decreases |b|
  {
    if |b| == 0 {
      assert a + b == a;
    } else {
      var b' := b[..|b| - 1];
      assert (a + b)[..|a + b| - 1] == a + b';
      TotalWeightAppend(a, b');
    }
  }

  /** Everything the order summary shows. */
  datatype Totals = Totals(totalQuantity: int, subtotal: Num, shippingCost: int, total: Num, totalWeight: Num)

  function CheckoutTotals(cart: Option<CartData>, shippingMethod: string): (t: Totals)
    ensures t.totalQuantity == TotalQuantity(Lines(CheckoutItems(cart)))
    ensures t.subtotal == Subtotal(cart, Lines(CheckoutItems(cart)))
    ensures t.shippingCost == ShippingCost(shippingMethod)
    ensures t.totalWeight == TotalWeight(CheckoutItems(cart))
  {
    var items := CheckoutItems(cart);
    var subtotal := Subtotal(cart, Lines(items));
    var shipping := ShippingCost(shippingMethod);
    Totals(TotalQuantity(Lines(items)), subtotal, shipping, Add(subtotal, Num(shipping)), TotalWeight(items))
  }

  /** The grand total is the subtotal plus shipping, and `NaN` exactly when the subtotal is. */
  lemma TotalIsSubtotalPlusShipping(cart: Option<CartData>, shippingMethod: string)
    ensures var t := CheckoutTotals(cart, shippingMethod);
      && (t.total.NaN? <==> t.subtotal.NaN?)
      && (t.total.Num? ==> t.total.n == t.subtotal.n + ShippingCost(shippingMethod))
      && (t.total.Num? ==> t.subtotal.n <= t.total.n <= t.subtotal.n + 75000)
  {
  }

  /** The checkout subtotal is `NaN` only when the server sent no total and some quantity is missing. */
  lemma SubtotalNaNIff(cart: Option<CartData>)
    ensures Subtotal(cart, Lines(CheckoutItems(cart))).NaN? <==>
      && !(cart.Some? && cart.value.totalPrice.Some? && cart.value.totalPrice.value != 0)
      && exists k :: 0 <= k < |RawItems(cart)| && RawItems(cart)[k].quantity.None?
  {
    var lines := Lines(CheckoutItems(cart));
    ItemsSubtotalNaNIff(lines);
    LinesKeepQuantities(cart);
    MissingQuantityCarriesOver(lines, RawItems(cart));
  }

  /** Checkout lines carry the raw items' quantities, position by position. */
  lemma LinesKeepQuantities(cart: Option<CartData>)
    ensures |Lines(CheckoutItems(cart))| == |RawItems(cart)|
    ensures forall k :: 0 <= k < |RawItems(cart)| ==>
      Lines(CheckoutItems(cart))[k].quantity == RawItems(cart)[k].quantity
  {
  }

  /** Lists with the same quantities position by position miss a quantity at the same places. */
  lemma MissingQuantityCarriesOver(lines: seq<LineItem>, raw: seq<RawItem>)
    requires |lines| == |raw|
    requires forall k :: 0 <= k < |raw| ==> lines[k].quantity == raw[k].quantity
    ensures (exists k :: 0 <= k < |lines| && lines[k].quantity.None?)
        <==> (exists k :: 0 <= k < |raw| && raw[k].quantity.None?)
  {
    if exists k :: 0 <= k < |lines| && lines[k].quantity.None? {
      var k :| 0 <= k < |lines| && lines[k].quantity.None?;
      assert raw[k].quantity.None?;
    }
  }

  /** Two of an item at 100000 and one at 50000, shipped standard, come to 265000. */
  lemma StandardShippingExample(p1: ProductInfo, p2: ProductInfo)
    ensures var cart := Some(CartData(Some([RawItem(1, Some(2), Some(100000), Some(p1)),
                                            RawItem(2, Some(1), Some(50000), Some(p2))]), None));
      var t := CheckoutTotals(cart, Standard);
      t.totalQuantity == 3 && t.subtotal == Num(250000) && t.total == Num(265000)
  {
    var cart := Some(CartData(Some([RawItem(1, Some(2), Some(100000), Some(p1)),
                                    RawItem(2, Some(1), Some(50000), Some(p2))]), None));
    var items := CheckoutItems(cart);
    var l0 := items[0].line;
    var l1 := items[1].line;
    assert l0.price == 100000 && l0.quantity == Some(2);
    assert l1.price == 50000 && l1.quantity == Some(1);
    assert Lines(items) == [l0] + [l1];
    ItemsSubtotalAppend([l0], [l1]);
    ItemsSubtotalSingle(l0);
    ItemsSubtotalSingle(l1);
    TotalQuantityAppend([l0], [l1]);
    assert [l0][..0] == [] && [l1][..0] == [];
  }

  /** The shipping form. */
  datatype ShippingInfo = ShippingInfo(
    fullName: string,
    email: string,
    phone: string,
    address: string,
    city: string,
    postalCode: string,
    notes: string)

  const EmptyForm: ShippingInfo := ShippingInfo("", "", "", "", "", "", "")

  /** `handleInputChange`: the input named `name` takes `value`. */
  function SetField(info: ShippingInfo, name: string, value: string): ShippingInfo {
    match name
    case "fullName" => info.(fullName := value)
    case "email" => info.(email := value)
    case "phone" => info.(phone := value)
    case "address" => info.(address := value)
    case "city" => info.(city := value)
    case "postalCode" => info.(postalCode := value)
    case "notes" => info.(notes := value)
    case _ => info
  }

  /** The `name` attributes of the form's inputs. */
  const FieldNames: set<string> := {"fullName", "email", "phone", "address", "city", "postalCode", "notes"}

  /** `shippingInfo[name]` for a field of the form; `None` for any other name. */
  function Get(info: ShippingInfo, name: string): (r: Option<string>)
    ensures r.Some? <==> name in FieldNames
  {
    if name == "fullName" then Some(info.fullName)
    else if name == "email" then Some(info.email)
    else if name == "phone" then Some(info.phone)
    else if name == "address" then Some(info.address)
    else if name == "city" then Some(info.city)
    else if name == "postalCode" then Some(info.postalCode)
    else if name == "notes" then Some(info.notes)
    else None
  }

  /** Two forms that agree on every field are the same form. */
  lemma FieldsDetermineForm(a: ShippingInfo, b: ShippingInfo)
    requires forall n :: n in FieldNames ==> Get(a, n) == Get(b, n)
    ensures a == b
  {
    assert Get(a, "fullName") == Get(b, "fullName") && Get(a, "email") == Get(b, "email");
    assert Get(a, "phone") == Get(b, "phone") && Get(a, "address") == Get(b, "address");
    assert Get(a, "city") == Get(b, "city") && Get(a, "postalCode") == Get(b, "postalCode");
    assert Get(a, "notes") == Get(b, "notes");
  }

  /**
   * Typing into one input sets that field and leaves every other field as it
   * was; an input name that is not a field of the form changes nothing.
   */
  lemma SetFieldOnlyThatField(info: ShippingInfo, name: string, value: string)
    ensures name in FieldNames ==> Get(SetField(info, name, value), name) == Some(value)
    ensures forall n :: n in FieldNames && n != name ==> Get(SetField(info, name, value), n) == Get(info, n)
    ensures name !in FieldNames ==> SetField(info, name, value) == info
  {
  }

  /** The six fields the order needs; `notes` is optional. */
  predicate RequiredFilled(info: ShippingInfo) {
    && info.fullName != "" && info.email != "" && info.phone != ""
    && info.address != "" && info.city != "" && info.postalCode != ""
  }

  const PaymentMethod: string := "bank_transfer"

  /** The body of the order request. */
  datatype OrderRequest = OrderRequest(shippingInfo: ShippingInfo, paymentMethod: string, shippingMethod: string)

  /** What pressing "Place order" does: one of two alerts, or the request it sends. */
  datatype PlaceOrderOutcome = MissingFields | EmptyCart | Send(request: OrderRequest)

  const MissingFieldsMessage: string := "Please fill in all required shipping information."
  const EmptyCartMessage: string := "Your cart is empty."

  /** The guards of `handlePlaceOrder`, checked in the source's order. */
  function PlaceOrder(info: ShippingInfo, items: seq<CheckoutItem>, shippingMethod: string): (r: PlaceOrderOutcome)
    ensures r.Send? <==> RequiredFilled(info) && |items| > 0
    ensures r.MissingFields? <==> !RequiredFilled(info)
    ensures r.Send? ==> r.request == OrderRequest(info, PaymentMethod, shippingMethod)
  {
    if !RequiredFilled(info) then MissingFields
    else if |items| == 0 then EmptyCart
    else Send(OrderRequest(info, PaymentMethod, shippingMethod))
  }

  /** The alert shown instead of sending. */
  function PlaceOrderAlert(r: PlaceOrderOutcome): (m: Option<string>)
    ensures m.None? <==> r.Send?
  {
    match r
    case MissingFields => Some(MissingFieldsMessage)
    case EmptyCart => Some(EmptyCartMessage)
    case Send(_) => None
  }

  /** The notes field never decides whether the order goes out. */
  lemma NotesAreOptional(info: ShippingInfo, notes: string, items: seq<CheckoutItem>, shippingMethod: string)
    ensures PlaceOrder(info.(notes := notes), items, shippingMethod).Send?
        == PlaceOrder(info, items, shippingMethod).Send?
  {
  }

  /** A fresh form never places an order, whatever is in the cart. */
  lemma EmptyFormSendsNothing(items: seq<CheckoutItem>, shippingMethod: string)
    ensures PlaceOrder(EmptyForm, items, shippingMethod) == MissingFields
  {
  }

  const LoginToCheckoutMessage: string := "Please log in to proceed to checkout."

  /** The checkout page fetches the cart only for a logged-in user with a stored token. */
  lemma CheckoutLoadGuard(isAuthenticated: bool, hasToken: bool)
    ensures !isAuthenticated ==> StartLoad(isAuthenticated, hasToken, LoginToCheckoutMessage)
                                 == LoginRequired(LoginToCheckoutMessage)
    ensures isAuthenticated && !hasToken ==> StartLoad(isAuthenticated, hasToken, LoginToCheckoutMessage) == Idle
  {
  }

  const CartEmptyRedirectMessage: string := "Your cart is empty. Redirecting to shop."
  const ConnectFailedMessage: string := "Failed to connect to server. Please try again."

  /** The checkout page after the cart request: the cart, the error shown, and whether it leaves for the shop. */
  datatype LoadResult = LoadResult(cart: Option<CartData>, error: string, redirectToShop: bool)

  /**
   * The state after the cart request returns; the request starts with no
   * error shown. A success stores the answer's cart first, so a success
   * without a cart clears it and then fails on `response.cart.items`, which
   * lands in the connection-failure branch without a redirect.
   */
  function AfterLoad(prior: Option<CartData>, response: CartResponse): (r: LoadResult)
    ensures response.Succeeded? ==> r.cart == response.cart
    ensures r.redirectToShop <==> response.Succeeded? && response.cart.Some? && RawItems(response.cart) == []
    ensures r.redirectToShop ==> r.error == CartEmptyRedirectMessage
    ensures r.error == "" <==> response.Succeeded? && RawItems(response.cart) != []
    ensures response.Succeeded? && response.cart.None? ==> r.error == ConnectFailedMessage
    ensures response.Failed? ==> r.cart.None? && r.error == StrOr(response.message, LoadFailedMessage)
    ensures response.Threw? ==> r.cart == prior && r.error == ConnectFailedMessage
  {
    match response
    case Succeeded(None) => LoadResult(None, ConnectFailedMessage, false)
    case Succeeded(Some(cart)) =>
      var empty := cart.items.None? || |cart.items.value| == 0;
      LoadResult(Some(cart), if empty then CartEmptyRedirectMessage else "", empty)
    case Failed(message) => LoadResult(None, StrOr(message, LoadFailedMessage), false)
    case Threw => LoadResult(prior, ConnectFailedMessage, false)
  }

  /**
   * A success without a cart ends like a thrown request made when no cart was
   * shown, and the order form is usable (no error, no redirect) exactly when
   * the answer is a success with at least one item.
   */
  lemma MissingCartEndsLikeThrow(prior: Option<CartData>, response: CartResponse)
    ensures AfterLoad(prior, Succeeded(None)) == AfterLoad(None, Threw)
    ensures AfterLoad(prior, response).error == "" && !AfterLoad(prior, response).redirectToShop
        <==> response.Succeeded? && |CheckoutItems(response.cart)| > 0
  {
  }
}
