/**
 * The product detail page (frontend/src/pages/ViewProduct.jsx): the
 * quantity selector clamped to the stock, the wrap-around image carousel,
 * and the log-in guards in front of "Add to cart" and "Buy now".
 */
module ViewProduct {
  import opened Wrappers
  import opened JsOps
  import opened Decimal
  import opened AsciiText
  import Notification

  /** `product.stock || 1`: the most the selector allows. */
  function StockCap(stock: Option<int>): int {
    IntOr(stock, 1)
  }

  /** The quantity the selector can show: at least 1 and at most the cap, or 1 when the cap is below 1. */
  predicate ValidQuantity(quantity: int, stock: Option<int>) {
    1 <= quantity <= Max(1, StockCap(stock))
  }

  /** The minus button: disabled at 1 or below, otherwise `Math.max(1, q - 1)`. */
  function Decrement(quantity: int): (r: int)
    ensures quantity <= 1 ==> r == quantity
    ensures quantity > 1 ==> r == quantity - 1 && r >= 1
  {
    if quantity <= 1 then quantity else Max(1, quantity - 1)
  }

  /** The plus button: disabled once the cap is reached, otherwise `Math.min(cap, q + 1)`. */
  function Increment(quantity: int, stock: Option<int>): (r: int)
    ensures quantity >= StockCap(stock) ==> r == quantity
    ensures quantity < StockCap(stock) ==> r == quantity + 1 && r <= StockCap(stock)
  {
    if quantity >= StockCap(stock) then quantity else Min(StockCap(stock), quantity + 1)
  }

  /** Typing `text`: `Math.max(1, Math.min(cap, parseInt(text) || 1))`. */
  function TypeQuantity(text: string, stock: Option<int>): (r: int)
    ensures ValidQuantity(r, stock)
    ensures ParseInt(text).None? || ParseInt(text) == Some(0) ==> r == 1
  {
    Max(1, Min(StockCap(stock), IntOr(ParseInt(text), 1)))
  }

  /** A typed number inside the allowed range is taken exactly as typed. */
  lemma TypedQuantityInRange(n: int, stock: Option<int>)
    requires 1 <= n <= StockCap(stock)
    ensures TypeQuantity(IntToString(n), stock) == n
  {
    ParseIntToString(n);
  }

  /** A typed number outside the range is pulled to the nearer end. */
  lemma TypedQuantityClamped(n: int, stock: Option<int>)
    ensures n > StockCap(stock) ==> TypeQuantity(IntToString(n), stock) == Max(1, StockCap(stock))
    ensures n < 1 ==> TypeQuantity(IntToString(n), stock) == 1
  {
    ParseIntToString(n);
  }

  /** The three ways the quantity changes. */
  datatype QuantityEdit = Minus | Plus | Typed(text: string)

  function ApplyEdit(quantity: int, stock: Option<int>, edit: QuantityEdit): int {
    match edit
    case Minus => Decrement(quantity)
    case Plus => Increment(quantity, stock)
    case Typed(text) => TypeQuantity(text, stock)
  }

  /** Every edit keeps a valid quantity valid. */
  lemma EditKeepsValid(quantity: int, stock: Option<int>, edit: QuantityEdit)
    requires ValidQuantity(quantity, stock)
    ensures ValidQuantity(ApplyEdit(quantity, stock, edit), stock)
  {
  }

  function ApplyEdits(quantity: int, stock: Option<int>, edits: seq<QuantityEdit>): int
    decreases |edits|
  {
    if |edits| == 0 then quantity else ApplyEdits(ApplyEdit(quantity, stock, edits[0]), stock, edits[1..])
  }

  /** The selector starts at 1, so whatever the user does it shows a quantity in [1, max(1, cap)]. */
  lemma {:induction false} EditsFromOneStayValid(quantity: int, stock: Option<int>, edits: seq<QuantityEdit>)
    requires ValidQuantity(quantity, stock)
    ensures ValidQuantity(ApplyEdits(quantity, stock, edits), stock)
    decreases |edits|
  {
    if |edits| > 0 {
      EditKeepsValid(quantity, stock, edits[0]);
      EditsFromOneStayValid(ApplyEdit(quantity, stock, edits[0]), stock, edits[1..]);
    }
  }

  /** Plus then minus returns to where it started whenever plus was enabled. */
  lemma PlusThenMinus(quantity: int, stock: Option<int>)
    requires 1 <= quantity < StockCap(stock)
    ensures Decrement(Increment(quantity, stock)) == quantity
  {
  }

  /** `product.images || [product.image]`: an array, even an empty one, wins over the single image. */
  function ProductImages(images: Option<seq<string>>, image: Option<string>): (r: seq<Option<string>>)
    ensures images.None? ==> r == [image]
    ensures images.Some? ==> |r| == |images.value| && forall k :: 0 <= k < |r| ==> r[k] == Some(images.value[k])
  {
    if images.Some? then seq(|images.value|, k requires 0 <= k < |images.value| => Some(images.value[k]))
    else [image]
  }

  /** The arrows and thumbnails appear only with more than one image. */
  predicate ShowsCarouselControls(count: int) {
    count > 1
  }

  /** The left arrow: back one, from the first image to the last. */
  function PrevImage(selected: int, count: int): (r: int)
    ensures 0 < selected ==> r == selected - 1
    ensures selected <= 0 ==> r == count - 1
  {
    if selected > 0 then selected - 1 else count - 1
  }

  /** The right arrow: on one, from the last image to the first. */
  function NextImage(selected: int, count: int): (r: int)
    ensures selected < count - 1 ==> r == selected + 1
    ensures selected >= count - 1 ==> r == 0
  {
    if selected < count - 1 then selected + 1 else 0
  }

  /** Both arrows keep the selection on an existing image and step it cyclically. */
  lemma ArrowsWrapModulo(selected: int, count: int)
    requires 0 <= selected < count
    ensures 0 <= PrevImage(selected, count) < count
    ensures 0 <= NextImage(selected, count) < count
    ensures NextImage(selected, count) == (selected + 1) % count
    ensures PrevImage(selected, count) == (selected + count - 1) % count
  {
  }

  /** Next undoes prev and prev undoes next. */
  lemma ArrowsAreInverse(selected: int, count: int)
    requires 0 <= selected < count
    ensures NextImage(PrevImage(selected, count), count) == selected
    ensures PrevImage(NextImage(selected, count), count) == selected
  {
  }

  function NextTimes(selected: int, count: int, k: nat): int
    decreases k
  {
    if k == 0 then selected else NextImage(NextTimes(selected, count, k - 1), count)
  }

  /** `k` presses of the right arrow move `k` places round the ring; `count` presses come home. */
  lemma {:induction false} NextTimesModulo(selected: int, count: int, k: nat)
    requires 0 <= selected < count
    ensures NextTimes(selected, count, k) == (selected + k) % count
    decreases k
  {
    if k > 0 {
      NextTimesModulo(selected, count, k - 1);
      var p := NextTimes(selected, count, k - 1);
      ArrowsWrapModulo(p, count);
      ModuloStep(selected + k - 1, count);
    }
  }

  lemma ModuloStep(a: int, count: int)
    requires a >= 0 && count > 0
    ensures (a % count + 1) % count == (a + 1) % count
  {
    var q := a / count;
    var r := a % count;
    if r + 1 < count {
      ModuloUnique(a + 1, count, q, r + 1);
      ModuloUnique(r + 1, count, 0, r + 1);
    } else {
      ModuloUnique(a + 1, count, q + 1, 0);
      ModuloUnique(r + 1, count, 1, 0);
    }
  }

  /** The remainder is the one `r` in [0, d) with `n == q * d + r`. */
  lemma ModuloUnique(n: int, d: int, q: int, r: int)
    requires d > 0 && 0 <= r < d && n == q * d + r
    ensures n % d == r
  {
    var q' := n / d;
    assert n == q' * d + n % d;
    assert (q - q') * d == n % d - r;
    SmallMultipleIsZero(q - q', d);
  }

  /** The only multiple of `d` strictly between `-d` and `d` is zero. */
  lemma SmallMultipleIsZero(k: int, d: int)
    requires d > 0 && -d < k * d < d
    ensures k == 0
  {
  }

  lemma FullTurn(selected: int, count: int)
    requires 0 <= selected < count
    ensures NextTimes(selected, count, count) == selected
  {
    NextTimesModulo(selected, count, count);
    ModuloUnique(selected + count, count, 1, selected);
  }

  /** What the "Add to cart" button does before any response. */
  datatype AddOutcome = PromptLogin(message: string) | NoProduct | SendAdd(productId: int, quantity: int)

  const LoginToAddMessage: string := "Please log in first to add items to your cart."
  const LoginToBuyMessage: string := "Please log in first to proceed to checkout."

  /** `handleAddToCart`: a logged-out user is told to log in; nothing is sent without a product. */
  function AddToCart(isAuthenticated: bool, productId: Option<int>, quantity: int): (r: AddOutcome)
    ensures r.SendAdd? <==> isAuthenticated && productId.Some?
    ensures !isAuthenticated ==> r == PromptLogin(LoginToAddMessage)
    ensures r.SendAdd? ==> r.productId == productId.value && r.quantity == quantity
  {
    if !isAuthenticated then PromptLogin(LoginToAddMessage)
    else if productId.None? then NoProduct
    else SendAdd(productId.value, quantity)
  }

  /** `handleBuyNow`: the same add, then the cart page; nothing at all for a logged-out user. */
  datatype BuyOutcome = BuyPromptLogin(message: string) | AddThenCart(add: AddOutcome)

  function BuyNow(isAuthenticated: bool, productId: Option<int>, quantity: int): (r: BuyOutcome)
    ensures !isAuthenticated <==> r == BuyPromptLogin(LoginToBuyMessage)
    ensures isAuthenticated ==> r == AddThenCart(AddToCart(isAuthenticated, productId, quantity))
  {
    if !isAuthenticated then BuyPromptLogin(LoginToBuyMessage)
    else AddThenCart(AddToCart(isAuthenticated, productId, quantity))
  }

  /** Logged out, neither button sends a cart request. */
  lemma LoggedOutSendsNothing(productId: Option<int>, quantity: int)
    ensures !AddToCart(false, productId, quantity).SendAdd?
    ensures BuyNow(false, productId, quantity).BuyPromptLogin?
  {
  }

  /** The outcome of the add request. */
  datatype AddResponse = AddSucceeded(message: Option<string>) | AddFailed(message: Option<string>) | AddThrew

  const AddFailedMessage: string := "Failed to add item to cart."
  const AddNetworkMessage: string := "Network or server error. Failed to add item to cart."

  /** The page's own success text: `${quantity} ${unit || 'Unit'} ${name} successfully added to cart!`. */
  function SuccessText(quantity: int, unit: Option<string>, name: string): string {
    IntToString(quantity) + SuccessTail(unit, name)
  }

  function SuccessTail(unit: Option<string>, name: string): string {
    " " + StrOr(unit, "Unit") + " " + name + " successfully added to cart!"
  }

  /** The notification after the add request: the server's message first, then the page's own text. */
  function AddNotification(response: AddResponse, quantity: int, unit: Option<string>, name: string): (m: string)
    ensures response.AddSucceeded? && StrTruthy(response.message) ==> m == response.message.value
    ensures response.AddSucceeded? && !StrTruthy(response.message) ==> m == SuccessText(quantity, unit, name)
    ensures response.AddFailed? && StrTruthy(response.message) ==> m == response.message.value
    ensures response.AddFailed? && !StrTruthy(response.message) ==> m == AddFailedMessage
    ensures response.AddThrew? ==> m == AddNetworkMessage
    ensures m != ""
  {
    match response
    case AddSucceeded(message) => StrOr(message, SuccessText(quantity, unit, name))
    case AddFailed(message) => StrOr(message, AddFailedMessage)
    case AddThrew => AddNetworkMessage
  }

  /** The page's own success text starts with the quantity, which reads back from it. */
  lemma SuccessTextNamesQuantity(quantity: int, unit: Option<string>, name: string)
    ensures ParseInt(AddNotification(AddSucceeded(None), quantity, unit, name)) == Some(quantity)
  {
    ParseIntToStringThen(quantity, SuccessTail(unit, name));
  }

  lemma LoginPromptsAreErrors()
    ensures Notification.IsError(LoginToAddMessage)
    ensures Notification.IsError(LoginToBuyMessage)
  {
    assert forall k :: 0 <= k < 13 ==> LoginToAddMessage[k] == Notification.LoginPhrase[k];
    assert LoginToAddMessage[..13] == Notification.LoginPhrase;
    assert LoginToBuyMessage[..13] == Notification.LoginPhrase;
    Notification.OpeningPhraseMakesError(LoginToAddMessage);
    Notification.OpeningPhraseMakesError(LoginToBuyMessage);
  }

  lemma FailureTextsAreErrors()
    ensures Notification.IsError(AddFailedMessage)
    ensures Notification.IsError(AddNetworkMessage)
  {
    assert AddFailedMessage[..9] == Notification.FailurePhrase;
    Notification.OpeningPhraseMakesError(AddFailedMessage);
    assert forall k :: 0 <= k < 9 ==> AddNetworkMessage[25 + k] == Notification.FailurePhrase[k];
    assert AddNetworkMessage[25..34] == Notification.FailurePhrase;
    Notification.PhraseAtMakesError(AddNetworkMessage, 25);
  }

  /**
   * Every notification the page writes itself, other than the success text,
   * is shown in the error style.
   */
  lemma OwnFailureTextsAreErrors(productId: Option<int>, quantity: int, unit: Option<string>, name: string)
    ensures Notification.IsError(AddToCart(false, productId, quantity).message)
    ensures Notification.IsError(BuyNow(false, productId, quantity).message)
    ensures Notification.IsError(AddNotification(AddFailed(None), quantity, unit, name))
    ensures Notification.IsError(AddNotification(AddThrew, quantity, unit, name))
  {
    LoginPromptsAreErrors();
    FailureTextsAreErrors();
  }
}
