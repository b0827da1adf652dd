/**
 * The home page (frontend/src/pages/Home.jsx): the deal countdown clock,
 * the cycling colour scheme of the category cards, the eight-item
 * showcases, and the quick add-to-cart button with its notification.
 */
module Home {
  import opened Wrappers
  import opened JsOps
  import opened AsciiText
  import Notification

  // ---------------------------------------------------------------------
  // Deal countdown
  // ---------------------------------------------------------------------

  datatype Clock = Clock(hours: int, minutes: int, seconds: int)

  /** Where every countdown starts: 12:34:56. */
  const StartClock: Clock := Clock(12, 34, 56)

  const Zero: Clock := Clock(0, 0, 0)

  function TotalSeconds(c: Clock): int {
    c.hours * 3600 + c.minutes * 60 + c.seconds
  }

  /** Minutes and seconds on the dial, hours never negative. */
  predicate ValidClock(c: Clock) {
    c.hours >= 0 && 0 <= c.minutes <= 59 && 0 <= c.seconds <= 59
  }

  /** One second of the countdown: borrow from minutes, then hours, and stop at zero. */
  function Tick(c: Clock): Clock {
    if c.seconds > 0 then c.(seconds := c.seconds - 1)
    else if c.minutes > 0 then Clock(c.hours, c.minutes - 1, 59)
    else if c.hours > 0 then Clock(c.hours - 1, 59, 59)
    else c
  }

  /** On a valid clock that has not run out, a tick takes off exactly one second and stays valid. */
  lemma TickTakesOneSecond(c: Clock)
    requires ValidClock(c) && c != Zero
    ensures ValidClock(Tick(c))
    ensures TotalSeconds(Tick(c)) == TotalSeconds(c) - 1
  {
  }

  /** A clock at zero stays there. */
  lemma ZeroIsFixed()
    ensures Tick(Zero) == Zero
  {
  }

  /** A valid clock shows a non-negative time, and zero seconds only at 00:00:00. */
  lemma TotalSecondsOfValid(c: Clock)
    requires ValidClock(c)
    ensures TotalSeconds(c) >= 0
    ensures TotalSeconds(c) == 0 <==> c == Zero
  {
    assert c.hours * 3600 >= 0;
    assert c != Zero ==> c.hours * 3600 > 0 || c.minutes > 0 || c.seconds > 0;
  }

  /** One tick of a valid clock: still valid, one second less, never below zero. */
  lemma TickStep(c: Clock)
    requires ValidClock(c)
    ensures ValidClock(Tick(c))
    ensures TotalSeconds(Tick(c)) == Max(0, TotalSeconds(c) - 1)
  {
    TotalSecondsOfValid(c);
    if c != Zero {
      TickTakesOneSecond(c);
    }
  }

  /** On a valid clock, zero is the only time a tick leaves unchanged. */
  lemma TickFixedOnlyAtZero(c: Clock)
    requires ValidClock(c)
    ensures Tick(c) == c <==> c == Zero
  {
  }

  function Ticks(c: Clock, n: nat): Clock
    decreases n
  {
    if n == 0 then c else Tick(Ticks(c, n - 1))
  }

  /** A valid clock with `T` seconds on it shows max(0, T - n) seconds after `n` ticks, and stays valid. */
  lemma {:induction false} TicksCountDown(c: Clock, n: nat)
    requires ValidClock(c)
    ensures ValidClock(Ticks(c, n))
    ensures TotalSeconds(Ticks(c, n)) == Max(0, TotalSeconds(c) - n)
    decreases n
  {
    if n > 0 {
      TicksCountDown(c, n - 1);
      var p := Ticks(c, n - 1);
      assert Ticks(c, n) == Tick(p);
      TickStep(p);
    }
  }

  /** From 12:34:56 the dial always shows valid minutes and seconds, and reaches zero after 45296 ticks. */
  lemma CountdownFromStart(n: nat)
    ensures ValidClock(Ticks(StartClock, n))
    ensures TotalSeconds(Ticks(StartClock, n)) == Max(0, 45296 - n)
    ensures n >= 45296 ==> Ticks(StartClock, n) == Zero
  {
    TicksCountDown(StartClock, n);
    var c := Ticks(StartClock, n);
    if n >= 45296 {
      assert TotalSeconds(c) == 0;
    }
  }

  // ---------------------------------------------------------------------
  // Category cards and showcases
  // ---------------------------------------------------------------------

  /** Number of colour schemes the category cards cycle through. */
  const GradientCount: int := 6

  /** `index % gradients.length` for a card's position in the list. */
  function GradientIndex(index: nat): (r: int)
    ensures 0 <= r < GradientCount
  {
    JsRem(index, GradientCount)
  }

  /** The colour schemes repeat every six cards, and neighbouring cards never share one. */
  lemma GradientCycle(index: nat)
    ensures GradientIndex(index + GradientCount) == GradientIndex(index)
    ensures GradientIndex(index + 1) != GradientIndex(index)
    ensures GradientIndex(index) == index % GradientCount
  {
  }

  /** How many categories and products each showcase shows at most. */
  const ShowcaseSize: int := 8

  /** `items.slice(0, 8)`: the first eight items, or all of them. */
  function Showcase<T>(items: seq<T>): (r: seq<T>)
    ensures |r| == Min(ShowcaseSize, |items|)
    ensures r == items[..|r|]
  {
    Slice(items, 0, ShowcaseSize)
  }

  /** A list of at most eight is shown whole; a longer one is cut to its first eight. */
  lemma ShowcaseWholeOrFirstEight<T>(items: seq<T>)
    ensures |items| <= ShowcaseSize ==> Showcase(items) == items
    ensures |items| > ShowcaseSize ==> |Showcase(items)| == ShowcaseSize
    ensures forall x :: x in Showcase(items) ==> x in items
  {
    var r := Showcase(items);
    assert items[..|items|] == items;
    forall x | x in r ensures x in items {
      var k :| 0 <= k < |r| && r[k] == x;
      assert items[k] == x;
    }
  }

  // ---------------------------------------------------------------------
  // Quick add to cart
  // ---------------------------------------------------------------------

  const LoginToAddMessage: string := "Please log in first to add items to your cart."
  const AddFailedMessage: string := "Failed to add item to cart."

  /** What the quick-add button does before any response: it always asks for one unit. */
  datatype QuickAdd = PromptLogin(message: string) | SendAdd(productId: int, quantity: int)

  function HandleAddToCart(isAuthenticated: bool, productId: int): (r: QuickAdd)
    ensures r.SendAdd? <==> isAuthenticated
    ensures !isAuthenticated ==> r.message == LoginToAddMessage
    ensures r.SendAdd? ==> r.productId == productId && r.quantity == 1
  {
    if !isAuthenticated then PromptLogin(LoginToAddMessage) else SendAdd(productId, 1)
  }

  /** The add request either answered (whether or not it succeeded) or threw, each with an optional message. */
  datatype AddResponse = Answered(message: Option<string>) | Threw(errorMessage: Option<string>)

  /**
   * The notification after the request. An answer shows the server's message
   * or "<name> added to cart!" without looking at whether the server reported
   * success; a thrown error shows its message or the failure text.
   */
  function AddNotification(response: AddResponse, name: string): (m: string)
    ensures response.Answered? && StrTruthy(response.message) ==> m == response.message.value
    ensures response.Answered? && !StrTruthy(response.message) ==> m == name + " added to cart!"
    ensures response.Threw? && !StrTruthy(response.errorMessage) ==> m == AddFailedMessage
    ensures response.Threw? && StrTruthy(response.errorMessage) ==> m == response.errorMessage.value
  {
    match response
    case Answered(message) => StrOr(message, name + " added to cart!")
    case Threw(errorMessage) => StrOr(errorMessage, AddFailedMessage)
  }

  /** The log-in prompt and the fallback failure text are shown in the error style. */
  lemma OwnFailureTextsAreErrors(productId: int, name: string)
    ensures Notification.IsError(HandleAddToCart(false, productId).message)
    ensures Notification.IsError(AddNotification(Threw(None), name))
  {
    assert forall k :: 0 <= k < 13 ==> LoginToAddMessage[k] == Notification.LoginPhrase[k];
    assert LoginToAddMessage[..13] == Notification.LoginPhrase;
    Notification.OpeningPhraseMakesError(LoginToAddMessage);
    assert AddFailedMessage[..9] == Notification.FailurePhrase;
    Notification.OpeningPhraseMakesError(AddFailedMessage);
  }
}
