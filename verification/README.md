# Storefront logic in Dafny

This project models the pure logic inside a React storefront. In the
original, that logic sits inside page components, between rendering and HTTP
calls. Here it is written as functions over integers, strings,
sequences of records and optional values, and proved correct. Prices are
whole rupiah (IDR) with no decimals. The model covers seven parts:

- **Shop page** (`frontend/src/pages/ProductPage.jsx`):
  - the load-time normalisation of the product list;
  - the filter that ANDs search text, selected categories, the price slider
    and the minimum rating;
  - twelve products per page;
  - the five-wide window of page-number buttons;
  - the slider's rounded ceiling;
  - the derived category list;
  - the sidebar's rating and category handlers.

  Modules: `Catalogue`, `Pagination`.
- **Cart page and checkout page** (`Cart.jsx`, `Checkout.jsx`):
  - the normalised line items, with the different price fallbacks of the
    two pages;
  - the quantity, subtotal and weight sums, where a missing quantity turns
    the product into JavaScript's `NaN`;
  - the shipping table and the grand total;
  - the shipping form;
  - the guards that decide whether an order, quantity-update or remove
    request is sent;
  - the page state after a cart load.

  Modules: `CartItems`, `Checkout`, `CartPage`.
- **Product page** (`ViewProduct.jsx`):
  - the quantity selector, clamped to the stock;
  - the wrap-around image carousel;
  - the log-in guards of "Add to cart" and "Buy now";
  - the notification texts.

  Modules: `ViewProduct`; `WeightText` holds `formatWeight`, which this page
  shares with checkout.
- **Home page** (`Home.jsx`):
  - the deal countdown;
  - the six-colour cycle of the category cards;
  - the eight-item showcases;
  - the quick add-to-cart.

  Modules: `Home`; `Notification` holds the error-style classifier shared
  with the product page.
- **Navigation bar** (`frontend/src/components/Navbar.jsx`):
  - avatar initials;
  - the cart badge;
  - the cart-count refresh rules;
  - the log-out reset;
  - the administrator check.

  Modules: `Navbar`, `Account`.
- **Log-in page** (`LoginRegister.jsx`):
  - the mode switch;
  - the role-based redirect;
  - the password confirmation guard;
  - the assembled registration error message.

  Module: `LoginRegister`.
- **JavaScript built-ins the logic relies on:**
  - `||` on numbers and strings, the truncating `%`, `Math.ceil` of a
    quotient and `slice` (`JsOps`);
  - ASCII `toLowerCase`/`toUpperCase`, `includes`, `split` and `join`
    (`AsciiText`);
  - decimal printing and `parseInt` (`Decimal`);
  - the UTF-16 code units JavaScript strings consist of (`Utf16`);
  - the default string sort, which compares code units, and `new Set`
    de-duplication (`StringOrder`);
  - `Array.prototype.filter` (`SeqFilter`);
  - optional values (`Wrappers`).

Network responses, the stored token and the log-in state are parameters.
Each response is a datatype of the answers the page distinguishes. A request
"being sent" is an outcome constructor carrying the request's content.

## Model

| member | source | states |
|---|---|---|
| Catalogue.SimulatedRating | frontend/src/pages/ProductPage.jsx:512 | With JavaScript's truncating remainder, the rating lies in 1..4 for every id. For a non-negative id it is `max(1, id % 5)`, so exactly 1 for every multiple of 5. It is 1 for any id at or below 0. |
| Catalogue.LoadProducts | frontend/src/pages/ProductPage.jsx:507-514 | Each loaded product is well formed: its image is non-empty; its category is non-empty and upper-cased; its rating is derived from its id; its unit is non-empty. No more products come out than went in. All are kept when every one has an image, and none when none has. |
| Catalogue.LoadProductsKeepsImaged | frontend/src/pages/ProductPage.jsx:507-514 | The loaded list is the products that have an image, in their original order. Each one is normalised: the category is upper-cased or `OTHER`, and the unit defaults to `Unit`. |
| Catalogue.ApplyFiltersIsOneFilter | frontend/src/pages/ProductPage.jsx:531-566 | The search, category, price and rating stages, each applied only when active, add up to one filter. That filter's test is the conjunction of the active tests. |
| Catalogue.ApplyFiltersKeepsExactlyPassing | frontend/src/pages/ProductPage.jsx:531-566 | The filtered list is the product list read at strictly increasing positions. A position is kept exactly when its product passes every active filter. A product appears in the result exactly when it is in the list and passes. |
| Catalogue.ApplyFiltersIdempotent | frontend/src/pages/ProductPage.jsx:531-566 | With the same filters and slider ceiling, filtering the filtered list again changes nothing. |
| Catalogue.NoFiltersKeepsAll | frontend/src/pages/ProductPage.jsx:531-566 | With no search, no category, no price range and no rating, every product is shown, in order. |
| Catalogue.FiveStarMinimumIsEmpty | frontend/src/pages/ProductPage.jsx:561-565 | Loaded products are rated at most 4, so a minimum rating of 5 or more leaves nothing. |
| Catalogue.MaxPrice | frontend/src/pages/ProductPage.jsx:464-468 | For an empty list the ceiling is 10,000,000. Otherwise it is a multiple of 100,000, at or above every price, and less than 100,000 above some price. |
| Catalogue.SliderAtCeilingExcludesNothing | frontend/src/pages/ProductPage.jsx:551-557 | A price range at or above the slider ceiling gives the same result as no price range. |
| Catalogue.PriceAboveAllKeepsAll | frontend/src/pages/ProductPage.jsx:551-557 | An active price range whose maximum is at least every price gives the same result as no price range. |
| Catalogue.DeriveCategories | frontend/src/pages/ProductPage.jsx:472-474 | The category list is strictly increasing in JavaScript's default sort order, which compares UTF-16 code units. So it is sorted and has no duplicates. Its elements are exactly the upper-cased non-empty categories of the products. Each element is non-empty and upper-cased. |
| Catalogue.DeriveCategoriesUnique | frontend/src/pages/ProductPage.jsx:472-474 | Any strictly increasing list of exactly the derived categories is the list shown. |
| Catalogue.HandleRatingChange | frontend/src/pages/ProductPage.jsx:211-214 | Only the minimum rating changes. Clicking the selected rating sets it to 0; any other rating becomes the minimum. |
| Catalogue.RatingClickTwice | frontend/src/pages/ProductPage.jsx:211-214 | Two clicks on the same non-zero rating, starting from "off" or from that rating, restore the filters. |
| Catalogue.HandleCategoryChange | frontend/src/pages/ProductPage.jsx:204-209 | Only the categories change. Ticking appends the category. Unticking removes every copy of it and keeps every other category. |
| Catalogue.CategoryTickUntick | frontend/src/pages/ProductPage.jsx:204-209 | Ticking, then unticking, a category that was not selected leaves the same set of selected categories. |
| Pagination.TotalPages | frontend/src/pages/ProductPage.jsx:573 | `Math.ceil(n / 12)` is the fewest pages of twelve that hold `n` items. It is zero exactly when there are no items. |
| Pagination.PageSlice | frontend/src/pages/ProductPage.jsx:574-575 | A page holds at most 12 items. For page `p` it holds items `12(p-1)` up to `12p`, clamped to the list. It is non-empty for every existing page and empty beyond the last. |
| Pagination.PagesArePrefix | frontend/src/pages/ProductPage.jsx:573-575 | Pages 1 to `k`, laid end to end, are the first `12k` items, or all of them. |
| Pagination.PagesReassemble | frontend/src/pages/ProductPage.jsx:573-575 | Pages 1 to `totalPages`, laid end to end, reproduce the filtered list exactly. |
| Pagination.ItemOnItsPage | frontend/src/pages/ProductPage.jsx:573-575 | Item `i` is on page `i/12 + 1`, an existing page, at position `i % 12`. |
| Pagination.ShowingRangeMatchesPage | frontend/src/pages/ProductPage.jsx:611 | The "Showing a-b of n" caption counts exactly the items on the current page. |
| Pagination.HandlePageChange | frontend/src/pages/ProductPage.jsx:577-582 | The page changes to `page` exactly when `1 <= page <= totalPages`. Otherwise the current page stays. |
| Pagination.HandlePageChangeKeepsValid | frontend/src/pages/ProductPage.jsx:577-582 | A current page that exists, or page 1 of an empty list, stays so after any page request. |
| Pagination.ArrowsClamp | frontend/src/pages/ProductPage.jsx:614-653 | The previous arrow on page 1 and the next arrow on the last page leave the page unchanged. |
| Pagination.PageWindowShape | frontend/src/pages/ProductPage.jsx:585-600 | For an existing page, the numbered buttons are consecutive pages inside `[1, totalPages]`. They include the current page, and there are `min(5, totalPages)` of them. |
| Pagination.PageWindowEmpty | frontend/src/pages/ProductPage.jsx:585-600 | With no pages there are no numbered buttons. |
| Pagination.PageButtonsReachEnds | frontend/src/pages/ProductPage.jsx:622-645 | With the extra first and last buttons, pages 1 and `totalPages` are always one click away, and every button is an existing page. |
| Pagination.Recompute | frontend/src/pages/ProductPage.jsx:531-570 | The filter effect makes the filtered list current for the products, filters and derived ceiling, and returns to page 1. |
| Pagination.SetFilters | frontend/src/pages/ProductPage.jsx:568-570 | A filter change keeps the products, installs the new filters, resets to page 1 and keeps the state consistent. |
| Pagination.SetProducts | frontend/src/pages/ProductPage.jsx:568-570 | A new product list keeps the filters, resets to page 1 and keeps the state consistent. |
| Pagination.ChangePage | frontend/src/pages/ProductPage.jsx:577-582 | A page click changes only the current page, and only to an existing page. Any other request leaves the state unchanged. Consistency is kept. |
| Pagination.VisibleProductsPass | frontend/src/pages/ProductPage.jsx:531-575 | In a consistent state, what is on screen is at most twelve products. Each one is from the product list and passes every active filter. |
| Pagination.TwentyFiveProductsScenario | frontend/src/pages/ProductPage.jsx:573-582 | 25 products and no filters make three pages, with items 1-12 on the first. Requests for page 4 from page 3, or page 0 from page 1, are ignored. |
| CartItems.NormaliseLine | frontend/src/pages/Cart.jsx:33-40 | A line keeps the item's id and quantity and uses the price the page chose. The name falls back to `Unknown Product` and the unit to `Unit`. |
| CartItems.TotalQuantityAppend | frontend/src/pages/Cart.jsx:144 | The quantity total of two lists laid end to end is the sum of their totals. |
| CartItems.TotalQuantityMissingIsZero | frontend/src/pages/Cart.jsx:144 | An item with a missing quantity counts as 0: filling it in with 0, or dropping it, leaves the total unchanged. |
| CartItems.TotalQuantityBoundsEach | frontend/src/pages/Cart.jsx:144 | With every quantity present and non-negative, the total is at least each quantity. |
| CartItems.ItemsSubtotalNaNIff | frontend/src/pages/Cart.jsx:145 | The sum of price times quantity is `NaN` exactly when some item's quantity is missing. |
| CartItems.ItemsSubtotalAppend | frontend/src/pages/Cart.jsx:145 | The subtotal of two lists laid end to end adds their subtotals. |
| CartItems.Subtotal | frontend/src/pages/Cart.jsx:145 | The subtotal is the server's `total_price` when it is a non-zero number, and the item sum otherwise. |
| CartItems.StartLoad | frontend/src/pages/Cart.jsx:48-55 | The cart is fetched exactly when the user is logged in and a token is stored. Without a login the page's log-in message is shown. |
| Checkout.CheckoutPrice | frontend/src/pages/Checkout.jsx:66-74 | The price is `price_at_addition` when non-zero, else `product.price` when non-zero, else 0. It is 0 exactly when both are missing or zero. |
| Checkout.NormaliseCheckout | frontend/src/pages/Checkout.jsx:66-74 | A checkout line is the shared line with the checkout price. Its weight is the product's weight when non-zero, and 0 otherwise. |
| Checkout.CheckoutItems | frontend/src/pages/Checkout.jsx:66-74 | There is one checkout line per raw item, in order, and none for a missing cart or item list. |
| Checkout.ShippingCost | frontend/src/pages/Checkout.jsx:54-58 | Shipping costs 15000 for `standard`, 35000 for `express` and 75000 for `same_day`. It is 0 exactly for any other key. |
| Checkout.TotalWeightNaNLikeSubtotal | frontend/src/pages/Checkout.jsx:127-129 | The weight total is `NaN` exactly when the price sum is: both follow the missing quantities. |
| Checkout.TotalWeightAppend | frontend/src/pages/Checkout.jsx:127-129 | The weight of two lists laid end to end adds their weights. |
| Checkout.CheckoutTotals | frontend/src/pages/Checkout.jsx:122-129 | The summary's quantity, subtotal, shipping and weight are the sums and the table entry over the checkout lines. |
| Checkout.TotalIsSubtotalPlusShipping | frontend/src/pages/Checkout.jsx:125 | The total is the subtotal plus the shipping cost, so at most 75000 above the subtotal. It is `NaN` exactly when the subtotal is. |
| Checkout.SubtotalNaNIff | frontend/src/pages/Checkout.jsx:123 | The checkout subtotal is `NaN` exactly when the server sent no non-zero total and some quantity is missing. |
| Checkout.StandardShippingExample | frontend/src/pages/Checkout.jsx:122-125 | Two items at 100000 and one at 50000, shipped standard, give 3 items, a subtotal of 250000 and a total of 265000. |
| Checkout.SetFieldOnlyThatField | frontend/src/pages/Checkout.jsx:131-137 | Typing into any of the seven inputs sets that field and leaves each of the other six as it was. An input name that is not a field of the form changes nothing. |
| Checkout.FieldsDetermineForm | frontend/src/pages/Checkout.jsx:131-137 | Two forms that agree on all seven fields are the same form, so the field-by-field frame of SetFieldOnlyThatField describes the whole form. |
| Checkout.PlaceOrder | frontend/src/pages/Checkout.jsx:139-148 | The order request is sent exactly when the six required fields are filled and the cart has items. A missing field is reported before an empty cart. The request carries the form, `bank_transfer` and the chosen shipping method. |
| Checkout.PlaceOrderAlert | frontend/src/pages/Checkout.jsx:139-148 | An alert is shown exactly when no request is sent. |
| Checkout.NotesAreOptional | frontend/src/pages/Checkout.jsx:140-143 | The notes field never decides whether the order is sent. |
| Checkout.EmptyFormSendsNothing | frontend/src/pages/Checkout.jsx:140-143 | A fresh form sends no order, whatever the cart holds. |
| Checkout.CheckoutLoadGuard | frontend/src/pages/Checkout.jsx:81-89 | Without a login, checkout shows its log-in message and fetches nothing. With a login but no token, it stops quietly. |
| Checkout.AfterLoad | frontend/src/pages/Checkout.jsx:91-107 | A successful load stores the answer's cart. It leaves for the shop exactly when that cart is present with no items, showing the redirect message. No error is shown exactly when the answer is a success with items. A success without a cart fails reading its items, so it shows the connection text with the cart cleared and no redirect. A refusal clears the cart and shows the server's message or the load-failure text. A thrown error keeps the cart and shows the connection text. |
| Checkout.MissingCartEndsLikeThrow | frontend/src/pages/Checkout.jsx:93-107 | A success without a cart ends like a thrown request made with no cart shown. The order form is usable, with no error and no redirect, exactly after a success with at least one item. |
| CartPage.CartPrice | frontend/src/pages/Cart.jsx:36 | The cart page prices an item by `price_at_addition` when non-zero, and at 0 otherwise. |
| CartPage.CartLines | frontend/src/pages/Cart.jsx:33-40 | There is one line per raw item, in order, priced by the cart price. |
| CartPage.CartAndCheckoutPrices | frontend/src/pages/Cart.jsx:36 | The two pages price an item alike exactly when it has a recorded price or its product has none. Otherwise the cart shows 0 where checkout shows the catalogue price. |
| CartPage.SameLinesWhenPricesRecorded | frontend/src/pages/Cart.jsx:33-40 | When every item has a recorded price, the cart page and the checkout page list the same lines. |
| CartPage.Totals | frontend/src/pages/Cart.jsx:144-146 | The cart total equals the subtotal, with no shipping added. |
| CartPage.CheckoutAddsOnlyShipping | frontend/src/pages/Cart.jsx:144-146 | When the two pages compute the same subtotal, checkout asks exactly the shipping cost more and counts the same quantity. |
| CartPage.QuantitiesAgree | frontend/src/pages/Cart.jsx:144 | The quantity total depends only on the quantities. |
| CartPage.UpdateQuantity | frontend/src/pages/Cart.jsx:85-93 | An update is sent exactly when a token is stored. A numeric request asks for `max(1, requested)`, so never for less than 1. A `NaN` request stays `NaN`, as `Math.max(1, NaN)` does. |
| CartPage.DecrementClick | frontend/src/pages/Cart.jsx:309-310 | The minus button is enabled exactly above quantity 1 or when the quantity is missing, because `undefined <= 1` is false. It then asks for one fewer, which is at least 1, or `NaN` for a missing quantity. |
| CartPage.IncrementClick | frontend/src/pages/Cart.jsx:320 | The plus button asks for exactly `quantity + 1`, or `NaN` exactly when the quantity is missing. |
| CartPage.DecrementSendsAtLeastOne | frontend/src/pages/Cart.jsx:309-310 | An enabled minus click with a token sends exactly one fewer. |
| CartPage.IncrementThenDecrement | frontend/src/pages/Cart.jsx:309-320 | Plus, then minus on the quantity the plus asked for, asks for the starting quantity again. |
| CartPage.ClickSendsNumberIffQuantity | frontend/src/pages/Cart.jsx:309-320 | A click sends a number of at least 1 exactly when the line has a quantity. For a line without one, both buttons are enabled and send `NaN`. |
| CartPage.RemoveItem | frontend/src/pages/Cart.jsx:110-123 | A remove request is sent exactly when the user confirms and a token is stored. Declining cancels before the token is checked. |
| CartPage.NoTokenNoRequest | frontend/src/pages/Cart.jsx:89-123 | Without a token, neither an update nor a remove request is sent. |
| CartPage.CartLoadGuard | frontend/src/pages/Cart.jsx:48-55 | Without a login, the cart page shows its log-in message and fetches nothing. With a login but no token, it stops quietly. |
| CartPage.AfterLoad | frontend/src/pages/Cart.jsx:57-70 | No error is shown exactly after a successful load, even one whose cart is empty or missing. A success shows the answer's cart. A refusal clears it with the server's message. A thrown error keeps it and shows the session text. |
| CartPage.LoadForgetsPriorUnlessThrown | frontend/src/pages/Cart.jsx:57-70 | Only a thrown error keeps what was shown before. Every answer of the server decides the page alone. When that answer leaves no cart, the page lists no lines and a total of 0. |
| ViewProduct.Decrement | frontend/src/pages/ViewProduct.jsx:451-452 | Minus is disabled at 1 or below. Otherwise it takes one off without going under 1. |
| ViewProduct.Increment | frontend/src/pages/ViewProduct.jsx:467-468 | Plus is disabled once the quantity reaches the stock cap (the stock, or 1 when it is missing or 0). Otherwise it adds one without passing that cap. |
| ViewProduct.TypeQuantity | frontend/src/pages/ViewProduct.jsx:460 | A typed value always gives a quantity in `[1, max(1, cap)]`, the cap being the stock (or 1 when it is missing or 0). Non-numeric text or 0 gives 1. |
| ViewProduct.TypedQuantityInRange | frontend/src/pages/ViewProduct.jsx:460 | A typed number within `[1, cap]` is taken as typed. |
| ViewProduct.TypedQuantityClamped | frontend/src/pages/ViewProduct.jsx:460 | A typed number above the cap becomes the cap (at least 1), and one below 1 becomes 1. |
| ViewProduct.EditKeepsValid | frontend/src/pages/ViewProduct.jsx:451-468 | Minus, plus and typing each keep a quantity in `[1, max(1, cap)]`, the cap being the stock (or 1 when it is missing or 0). |
| ViewProduct.EditsFromOneStayValid | frontend/src/pages/ViewProduct.jsx:91-468 | From the initial quantity 1, any sequence of edits stays in `[1, max(1, cap)]`, the cap being the stock (or 1 when it is missing or 0). |
| ViewProduct.PlusThenMinus | frontend/src/pages/ViewProduct.jsx:451-468 | Below the cap, plus followed by minus returns to the starting quantity. |
| ViewProduct.ProductImages | frontend/src/pages/ViewProduct.jsx:235 | An image array, even an empty one, is used as it is. Without one, the single image is the only entry. |
| ViewProduct.ArrowsWrapModulo | frontend/src/pages/ViewProduct.jsx:333-339 | Both arrows keep the selection on an existing image. Next is `(i + 1) mod n` and previous is `(i + n - 1) mod n`. |
| ViewProduct.ArrowsAreInverse | frontend/src/pages/ViewProduct.jsx:333-339 | Next undoes previous and previous undoes next. |
| ViewProduct.NextTimesModulo | frontend/src/pages/ViewProduct.jsx:339 | `k` presses of the next arrow move `k` places round the ring. |
| ViewProduct.FullTurn | frontend/src/pages/ViewProduct.jsx:339 | As many next presses as there are images come back to the starting image. |
| ViewProduct.AddToCart | frontend/src/pages/ViewProduct.jsx:129-144 | An add request is sent exactly when the user is logged in and a product is loaded, with the chosen quantity. A logged-out user gets the log-in prompt. |
| ViewProduct.BuyNow | frontend/src/pages/ViewProduct.jsx:169-181 | A logged-out user gets the checkout log-in prompt and nothing else. A logged-in user gets the same add as "Add to cart", followed by the cart page. |
| ViewProduct.LoggedOutSendsNothing | frontend/src/pages/ViewProduct.jsx:130-179 | Logged out, neither button sends a cart request. |
| ViewProduct.AddNotification | frontend/src/pages/ViewProduct.jsx:146-167 | The server's message is shown first. Otherwise the page shows its own success text or the failure text. A thrown error gives the network text. The message is never empty. |
| ViewProduct.SuccessTextNamesQuantity | frontend/src/pages/ViewProduct.jsx:151 | The page's own success text begins with the quantity, and `parseInt` reads it back. |
| ViewProduct.OwnFailureTextsAreErrors | frontend/src/pages/ViewProduct.jsx:64 | Both log-in prompts, the failure text and the network text are shown in the error style. |
| WeightText.FormatWeight | frontend/src/pages/ViewProduct.jsx:43-50 | The label is in kilograms exactly when the weight is 1000 g or more. |
| WeightText.GramLabelReadsBack | frontend/src/pages/ViewProduct.jsx:47-48 | A gram label is the weight printed unchanged, followed by " g": `parseInt` reads the weight back. |
| WeightText.GramLabelsDistinct | frontend/src/pages/Checkout.jsx:23-30 | Different weights below a kilogram never share a label. |
| Notification.IsErrorIffPhraseOccurs | frontend/src/pages/Home.jsx:42 | A message is shown as an error exactly when "Please log in" or "Failed to" occurs somewhere in it. |
| Notification.PhraseAtMakesError | frontend/src/pages/Home.jsx:42 | A message carrying either phrase at any position is an error. |
| Notification.ShortMessageIsNotError | frontend/src/pages/Home.jsx:42 | A message shorter than "Failed to" is never an error. |
| Home.TickTakesOneSecond | frontend/src/pages/Home.jsx:244-247 | On a valid clock other than 00:00:00, a tick takes off exactly one second and keeps minutes and seconds in 0..59. |
| Home.ZeroIsFixed | frontend/src/pages/Home.jsx:248 | 00:00:00 stays 00:00:00. |
| Home.TickFixedOnlyAtZero | frontend/src/pages/Home.jsx:244-248 | On a valid clock, a tick changes nothing exactly at 00:00:00. |
| Home.TicksCountDown | frontend/src/pages/Home.jsx:244-248 | After `n` ticks a valid clock with `T` seconds shows `max(0, T - n)` seconds and is still valid. |
| Home.CountdownFromStart | frontend/src/pages/Home.jsx:240-248 | From 12:34:56 the dial always shows minutes and seconds in 0..59 and non-negative hours. It reaches 00:00:00 after 45296 ticks and stays there. |
| Home.GradientIndex | frontend/src/pages/Home.jsx:201 | `index % 6` is always a valid index into the six colour schemes. |
| Home.GradientCycle | frontend/src/pages/Home.jsx:191-201 | The schemes repeat every six cards, and neighbouring cards never share one. |
| Home.Showcase | frontend/src/pages/Home.jsx:639 | A showcase shows the first `min(8, n)` items. |
| Home.ShowcaseWholeOrFirstEight | frontend/src/pages/Home.jsx:667 | A list of at most eight is shown whole. A longer one is cut to exactly eight, all from the list. |
| Home.HandleAddToCart | frontend/src/pages/Home.jsx:394-402 | The quick add sends a request exactly when the user is logged in, and always for one unit. A logged-out user gets the log-in prompt. |
| Home.AddNotification | frontend/src/pages/Home.jsx:406-420 | An answer shows the server's message or "<name> added to cart!", whatever success the server reports. A thrown error shows its message or the failure text. |
| Home.OwnFailureTextsAreErrors | frontend/src/pages/Home.jsx:42 | The quick add's log-in prompt and failure text are shown in the error style. |
| Navbar.Words | frontend/src/components/Navbar.jsx:21 | No word is empty and none contains a space, so runs of spaces make no empty words. |
| Navbar.Initials | frontend/src/components/Navbar.jsx:19-29 | The initials are one or two UTF-16 code units, none of them a lower-case ASCII letter. |
| Navbar.InitialsFallback | frontend/src/components/Navbar.jsx:20-28 | A missing, empty or all-space name gives the code units of `AC`. Any other name has at least one word. |
| Navbar.WordsOfSpacedWords | frontend/src/components/Navbar.jsx:21 | Words joined by single spaces split back into exactly those words. |
| Navbar.InitialsOfTwoWords | frontend/src/components/Navbar.jsx:22-24 | For two or more words, the initials are the upper-cased first code units of the first two words. When both words start below U+10000, these are their upper-cased first letters. |
| Navbar.InitialsOfOneWord | frontend/src/components/Navbar.jsx:25-27 | For one word, the initials are its first two code units, upper-cased. When its first two characters lie below U+10000, these are those characters upper-cased. |
| Navbar.InitialsSplitSurrogatePair | frontend/src/components/Navbar.jsx:22-24 | A first word starting with U+1F600 contributes only its high surrogate 0xD83D to the initials. |
| Navbar.BadgeLabel | frontend/src/components/Navbar.jsx:402-404 | The badge is hidden exactly at counts of 0 or below, and reads "9+" above nine. Its label is one or two characters. |
| Navbar.BadgeShowsSmallCounts | frontend/src/components/Navbar.jsx:402-404 | For a count from 1 to 9, the badge is the single digit that reads back as the count. |
| Navbar.FetchCartCount | frontend/src/components/Navbar.jsx:599-618 | The count request is sent exactly with a login and a token; otherwise the count is 0. A thrown error gives 0. A successful answer with a count gives that count. Any other answer keeps the old count. |
| Navbar.NewCountComesFromServer | frontend/src/components/Navbar.jsx:599-618 | A count that is neither 0 nor the old one comes only from a successful answer carrying it. |
| Navbar.Logout | frontend/src/components/Navbar.jsx:641-645 | Logging out sets the count to 0 and opens `/login`. |
| Navbar.LogoutHidesBadge | frontend/src/components/Navbar.jsx:641-645 | After log-out the badge is hidden, and stays hidden through any refresh without a login and a token. |
| Account.IsAdminExactly | frontend/src/components/Navbar.jsx:647 | A user is an administrator exactly when present with role `admin`, matched case-sensitively. |
| LoginRegister.Toggle | frontend/src/pages/LoginRegister.jsx:326 | The switch always changes the mode. |
| LoginRegister.ToggleTwice | frontend/src/pages/LoginRegister.jsx:370 | Switching twice returns to the same form. |
| LoginRegister.HandleLogin | frontend/src/pages/LoginRegister.jsx:52-70 | The session is handed to the authentication context exactly on an accepted log-in, with the received token. The user is signed in and the page navigates exactly when the answer also carries a user. Without a user, reading its role fails, so the network failure text is shown and the page stays. Every outcome other than a sign-in has a non-empty message. |
| LoginRegister.RedirectFollowsRole | frontend/src/pages/LoginRegister.jsx:58-62 | A successful log-in leads to `/admin` exactly for users the navigation bar treats as administrators, and to `/` otherwise. |
| LoginRegister.MissingUserShowsNetworkText | frontend/src/pages/LoginRegister.jsx:52-70 | An accepted answer without a user hands over the session, yet shows the same text as a request that threw without a server message. |
| LoginRegister.StartRegister | frontend/src/pages/LoginRegister.jsx:159-171 | The registration request is sent exactly when the password matches its confirmation, and without the confirmation. A mismatch shows the mismatch message. |
| LoginRegister.ConfirmingSendsRequest | frontend/src/pages/LoginRegister.jsx:159-162 | Making the confirmation equal to the password turns a refusal into a request. |
| LoginRegister.FlattenMembership | frontend/src/pages/LoginRegister.jsx:178 | A message is among the flattened field errors exactly when some field lists it. |
| LoginRegister.RejectionMessage | frontend/src/pages/LoginRegister.jsx:176-181 | Without field errors, the message is the server's or the generic failure text. It is never empty. |
| LoginRegister.RejectionWithFieldErrors | frontend/src/pages/LoginRegister.jsx:177-181 | With field errors, the server's message is ignored and the field messages are joined with ". ". The validation text stands in exactly when the join is empty. |
| LoginRegister.TwoFieldErrors | frontend/src/pages/LoginRegister.jsx:179 | Two field messages are shown as the first, ". ", then the second. |
| LoginRegister.AfterRegister | frontend/src/pages/LoginRegister.jsx:173-191 | Success switches to the log-in form with the success message. Any failure keeps the form and shows a non-empty error: the assembled rejection message or the network text. |
| LoginRegister.RegisteredShowsLogin | frontend/src/pages/LoginRegister.jsx:173-175 | Whatever form was showing, a successful registration shows the log-in form. |
| JsOps.JsRem | frontend/src/pages/ProductPage.jsx:512 | JavaScript's remainder has the sign of the dividend and a magnitude below the divisor. It agrees with the mathematical remainder for non-negative dividends. |
| JsOps.CeilDiv | frontend/src/pages/ProductPage.jsx:466 | `Math.ceil(a / b)` is the least `q` with `q * b >= a`. |
| JsOps.Slice | frontend/src/pages/ProductPage.jsx:575 | `slice` is never longer than its input, and is the plain sub-sequence for in-range indices. |
| AsciiText.ToUpperIdempotent | frontend/src/pages/ProductPage.jsx:474 | Upper-casing leaves no lower-case letter, and doing it twice changes nothing. |
| AsciiText.IncludesIffOccurs | frontend/src/pages/ProductPage.jsx:537-540 | `includes` holds exactly when the needle occurs at some position. |
| AsciiText.JoinSplit | frontend/src/components/Navbar.jsx:21 | Joining the pieces of a split with the separator gives back the string. |
| AsciiText.SplitJoin | frontend/src/components/Navbar.jsx:21 | Splitting a join of separator-free pieces gives back the pieces. |
| AsciiText.JoinEmptyIff | frontend/src/pages/LoginRegister.jsx:180 | A join with a non-empty separator is empty exactly when there is nothing to join, or a single empty piece. |
| Decimal.ParseIntToStringThen | frontend/src/pages/ViewProduct.jsx:460 | `parseInt` of a printed integer followed by non-digit text gives the integer. |
| Decimal.ParseIntToString | frontend/src/pages/ViewProduct.jsx:460 | `parseInt` of a printed integer gives the integer. |
| StringOrder.Sort | frontend/src/pages/ProductPage.jsx:473 | The default sort gives a permutation of the list that is sorted by UTF-16 code units. |
| StringOrder.Dedup | frontend/src/pages/ProductPage.jsx:473 | `new Set` keeps each value once and has the same values as the list. |
| StringOrder.LessTransitive | frontend/src/pages/ProductPage.jsx:473 | The string order the sort uses is transitive. |
| StringOrder.LessTotal | frontend/src/pages/ProductPage.jsx:473 | Of two different strings, one always sorts before the other, because different strings have different UTF-16 code units. |
| StringOrder.SurrogatePairsSortBelowHighCharacters | frontend/src/pages/ProductPage.jsx:473 | The sort order is not character order: U+1F600 sorts before U+FF21, although it is the larger character, because its first code unit is the surrogate 0xD83D. |
| Utf16.CodeUnits | frontend/src/pages/ProductPage.jsx:473 | A character below U+10000 is the one code unit of its own value. Any other character is a high surrogate followed by a low surrogate. |
| Utf16.EncodeInjective | frontend/src/pages/ProductPage.jsx:473 | Different strings have different code units. |
| Utf16.EncodeUpper | frontend/src/components/Navbar.jsx:23-26 | Upper-casing the characters and then encoding them gives the same code units as encoding and then upper-casing the code units. A surrogate is never changed. |
| SeqFilter.FilterKeepsExactlyPassing | frontend/src/pages/ProductPage.jsx:537-565 | `filter` reads its input at the passing positions, in order, and a position is kept exactly when its element passes. |
| SeqFilter.FilterFusion | frontend/src/pages/ProductPage.jsx:537-565 | Two filters in a row are one filter by the conjunction. |
| SeqFilter.FilterIdempotent | frontend/src/pages/ProductPage.jsx:537-565 | Filtering a filtered sequence again changes nothing. |

## Left out

- HTTP calls (cartService, apiService, axios): each response is an input value, and "a request is sent" is an outcome.
- What happens after the order, update, remove and add requests return: alerts, reloads and navigation. These are side effects with no state the model keeps.
- localStorage: only "a token is stored" is modelled, as a boolean.
- The `cartUpdated` window event, timers (`setTimeout`, `setInterval`), notification auto-dismiss and delayed redirects. These are asynchronous signalling. The countdown is modelled only as its one-second step.
- React hooks, JSX, class strings, routing and scrolling.
- `Intl.NumberFormat` currency text, every `Math.random` value, and the floating-point discount prices. These are locale or random output, not logic.
- `showMessage` (a DOM toast) and `PremiumSearchBar` (local state with no effect).
- The URL category query effect on the shop page. It reads the browser location.
- Unicode case mapping: only ASCII letters change case, in search, categories and initials.
- Log-out itself, which ends the session in the authentication context. That context is not part of this model. Only the navigation bar's own reset is modelled.
- The shop page's product-load error branch and its `Products:` message. Only the successful list is modelled.
- A `null` quantity. JavaScript multiplies `null` as 0; the model treats every missing quantity as `undefined`, which gives `NaN`.
- A product weight sent as a string, which `formatWeight` converts with `Number`.
- The error-field object of a registration rejection whose values are plain strings rather than arrays. The model takes a list of messages per field.
- Object keys like `constructor` or `toString` in the shipping table and in `handleInputChange`. The model knows only the form's seven fields and the three shipping keys. Any other input name leaves the form unchanged; the source adds an unused key.
- `Math.max(...prices)` beyond the engine's argument-count limit.
- WeightText.FormatWeight: the kilogram text is `(grams / 1000).toFixed(2) + " kg"`, a floating-point rendering. The model records only that the kilogram unit is chosen and for which weight.
- Decimal.ParseInt: covers decimal text with optional white space and sign only. The `0x` hexadecimal prefix, numbers beyond integer precision and non-ASCII white space are left out.
- Catalogue.ApplyFiltersIdempotent: is stated for a fixed slider ceiling. The page derives the ceiling from the full product list, never from the filtered one, so this is the case that arises.
