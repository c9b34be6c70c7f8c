# vello storefront: a Dafny model of its core

vello is an online medicine storefront. It has a React front end, and a
Django back end that handles accounts and profiles. This project models
the decision logic of both halves as pure Dafny functions over immutable
data and proves what that logic promises.

**Front end** — the three stores and the pages that drive them:

- **Cart** (`Cart`, `CartActions`): add, remove, set-quantity and clear,
  plus the derived count and total.
- **Orders** (`Orders`): new orders go in front of the history.
- **Session** (`Session`): the simulated login.
- **Storage** (`Storage`, `Storefront`): the browser's storage the stores
  write to, how a page load reads it back, and logout's cross-store clear.
- **Checkout** (`Checkout`): confirming an order.
- **Catalogue page** (`Browse`): the filter chain, pagination, and the
  drop-down values.
- **Product page** (`Details`): related products, the quantity stepper and
  the add button.
- **Sign-up form** (`SignupForm`): its validation.

**Back end:**

- **Account views** (`Accounts`): registration, login, forgotten password,
  reset with a one-time code, and account deletion.
- **Profile** (`Profiles`): the default profile created for a new account,
  the completeness check, the active-time summary and the partial update.
- **Active time** (`Activity`): the request middleware that accumulates
  active time, and logout's effect on it.

Modelling conventions:

- Browser and database I/O are replaced by explicit state records.
- Clocks are parameters: milliseconds on the front end, microseconds on
  the back end.
- Prices are `real`.
- JavaScript's `Array.prototype.slice`, `filter` and `[...new Set(...)]`
  are modelled exactly in `Common`. So are Python's `str.strip`, `//` and
  `%`, and the truncating `int()`.

## Model

| member | source | states |
|---|---|---|
| `Common.JsSlice` | Frontend/src/pages/Home.jsx:42 | `slice(start, end)` returns at most `end - start` items; with `0 <= start <= end` it is the clamped slice `s[min(start,n)..min(end,n)]` |
| `Common.Keep` | Frontend/src/contexts/CartContext.jsx:38 | every element `filter` returns satisfies the predicate, and the result is no longer than its input |
| `Common.KeepMembers` | Frontend/src/contexts/CartContext.jsx:38 | a value is in the filtered list exactly when it is in the input and satisfies the predicate |
| `Common.KeepMultiset` | Frontend/src/contexts/CartContext.jsx:38 | `filter` keeps every copy of a satisfying element and no copy of any other |
| `Common.KeepIsSubsequence` | Frontend/src/pages/Home.jsx:28-37 | a filtered list is an order-preserving subsequence of its input |
| `Common.KeepTwice` | Frontend/src/pages/Home.jsx:29-36 | filtering by `p` and then by `q` equals one filter by `p && q` |
| `Common.KeepConcat` | Frontend/src/contexts/CartContext.jsx:38 | filtering distributes over concatenation |
| `Common.KeepPreservesUniqueBy` | Frontend/src/contexts/CartContext.jsx:37-39 | filtering a list with unique keys leaves the keys unique |
| `Common.Distinct` | Frontend/src/pages/Home.jsx:46-48 | `[...new Set(xs)]` has no duplicates and holds exactly the values of `xs` |
| `Common.DistinctKeepsFirstOccurrenceOrder` | Frontend/src/pages/Home.jsx:46 | the set keeps values in the order of their first occurrence |
| `Common.Decimal` | Frontend/src/pages/CheckoutPage.jsx:36 | a number's decimal text is non-empty, all digits and has no leading zero |
| `Common.DecimalRoundTrip` | Frontend/src/pages/CheckoutPage.jsx:36 | reading the decimal text back gives the number |
| `Common.DecimalInjective` | Frontend/src/pages/CheckoutPage.jsx:36 | different numbers have different decimal texts |
| `Catalog.DiscountedPrice` | Frontend/src/pages/ProductDetails.jsx:76 | the unit price after the percentage discount, the formula the product page and `cartTotal` share; its bounds are the next row |
| `Catalog.DiscountedPriceBounds` | Frontend/src/pages/ProductDetails.jsx:76 | `mrp - mrp*discount/100` equals `mrp*(1 - discount/100)`; with `0 <= discount <= 100` it lies between 0 and `mrp`; no discount gives `mrp` |
| `Cart.Find` | Frontend/src/contexts/CartContext.jsx:22 | `find` fails exactly when no line has the identifier, and otherwise returns a line of the cart with that identifier |
| `Cart.AddToCart` | Frontend/src/contexts/CartContext.jsx:20-35 | a product already present has every line with its identifier raised by `qty` and the others kept in place; a new product is appended as `{...product, qty}` |
| `Cart.RemoveFromCart` | Frontend/src/contexts/CartContext.jsx:37-39 | exactly the lines with another identifier remain, each with as many copies as before, in their original order; no line with the identifier remains |
| `Cart.UpdateQty` | Frontend/src/contexts/CartContext.jsx:41-52 | below one unit it is `removeFromCart`; otherwise only matching lines get exactly `qty`, the length is kept, and an absent identifier leaves the cart unchanged |
| `Cart.CartCount` | Frontend/src/contexts/CartContext.jsx:58 | a cart of positive quantities counts at least one unit per line |
| `Cart.CartTotal` | Frontend/src/contexts/CartContext.jsx:60-63 | the sum over lines of the discounted unit price times the quantity; `TotalConcat`, `SumsAfterOneLineChanges` and `TotalNonNegative` state its behaviour |
| `Cart.TotalNonNegative` | Frontend/src/contexts/CartContext.jsx:60-63 | lines with non-negative prices and quantities never make the total negative |
| `Cart.ClearCart` | Frontend/src/contexts/CartContext.jsx:54-56 | after `clearCart` there is no line, the count is 0 and the total is 0 |
| `Cart.CountConcat` | Frontend/src/contexts/CartContext.jsx:58 | the count of two carts put together is the sum of their counts |
| `Cart.TotalConcat` | Frontend/src/contexts/CartContext.jsx:60-63 | the total of two carts put together is the sum of their totals |
| `Cart.CountZeroIffEmpty` | Frontend/src/contexts/CartContext.jsx:58 | with positive quantities the count is 0 exactly when the cart is empty |
| `Cart.SumsAfterOneLineChanges` | Frontend/src/contexts/CartContext.jsx:58-63 | changing one line moves the count and the total by that line's difference |
| `Cart.AddToCartKeepsIdsUnique` | Frontend/src/contexts/CartContext.jsx:20-35 | a cart without duplicate product identifiers keeps none after `addToCart` |
| `Cart.AddToCartKeepsQuantitiesPositive` | Frontend/src/contexts/CartContext.jsx:20-35 | adding at least one unit keeps every line at one unit or more |
| `Cart.AddExistingProduct` | Frontend/src/contexts/CartContext.jsx:22-29 | adding a present product changes only its line, by exactly `qty`; the count grows by `qty` and the total by `qty` times its discounted price |
| `Cart.AddNewProduct` | Frontend/src/contexts/CartContext.jsx:30-32 | adding an absent product appends one line at the end, the old lines form the prefix, and the count and total grow by that line |
| `Cart.AddWithoutQuantity` | Frontend/src/contexts/CartContext.jsx:20 | `addToCart(product)` with the default quantity adds exactly one unit to the count, whether or not the product was in the cart |
| `Cart.RemoveKeepsIdsUnique` | Frontend/src/contexts/CartContext.jsx:37-39 | removing keeps identifiers unique |
| `Cart.RemoveKeepsQuantitiesPositive` | Frontend/src/contexts/CartContext.jsx:37-39 | removing keeps every quantity positive |
| `Cart.RemovePresentProduct` | Frontend/src/contexts/CartContext.jsx:37-39 | removing a present product deletes exactly its line, keeps the rest in order, and lowers the count and total by that line |
| `Cart.RemoveAbsentProduct` | Frontend/src/contexts/CartContext.jsx:37-39 | removing an absent product changes nothing |
| `Cart.RemoveIsIdempotent` | Frontend/src/contexts/CartContext.jsx:37-39 | removing twice equals removing once |
| `Cart.UpdateQtyKeepsIdsUnique` | Frontend/src/contexts/CartContext.jsx:41-52 | setting a quantity keeps identifiers unique |
| `Cart.UpdateQtyKeepsQuantitiesPositive` | Frontend/src/contexts/CartContext.jsx:41-52 | setting a quantity keeps every quantity positive, because below one the line goes |
| `Cart.UpdatePresentProduct` | Frontend/src/contexts/CartContext.jsx:47-51 | setting a present product's quantity changes only its line, and the count moves from the old quantity to the new |
| `CartActions.RunKeepsCartWellFormed` | Frontend/src/contexts/CartContext.jsx:20-56 | no sequence of cart operations creates two lines for one product; with positive adds no line drops below one unit |
| `Orders.AddOrder` | Frontend/src/contexts/OrderContext.jsx:20-22 | the new order comes first, the list grows by one, and the old orders follow unchanged and in order |
| `Orders.AddOrdersNewestFirst` | Frontend/src/contexts/OrderContext.jsx:21 | after any sequence of `addOrder` calls the list reads the placed orders newest first, followed by the earlier history |
| `Orders.TwoOrdersNewestFirst` | Frontend/src/contexts/OrderContext.jsx:21 | adding A and then B to an empty history gives `[B, A]` |
| `Session.Login` | Frontend/src/contexts/UserContext.jsx:21-38 | login succeeds exactly when the email contains `@` and the password has six or more characters; the user is the fixed mock profile with the given email; otherwise "Invalid credentials" |
| `Session.LoginExamples` | Frontend/src/contexts/UserContext.jsx:25 | sample accepted and rejected logins |
| `Storage.LoadList` | Frontend/src/contexts/CartContext.jsx:6-14 | a saved cart or order list loads as saved; a missing or unparsable one loads as the empty list |
| `Storage.LoadUser` | Frontend/src/contexts/UserContext.jsx:8-13 | no stored user means nobody is signed in, a stored one is restored, and unparsable text is an uncaught error |
| `Storefront.Boot` | Frontend/src/contexts/OrderContext.jsx:6-18 | a page load fails only on an unparsable user, and otherwise yields state that storage mirrors |
| `Storefront.ReloadRestoresState` | Frontend/src/contexts/CartContext.jsx:6-18 | when storage mirrors memory, reloading restores exactly the same state |
| `Storefront.DoCart` | Frontend/src/contexts/CartContext.jsx:16-18 | a cart operation writes only the cart slot and keeps storage mirroring memory |
| `Storefront.RunCartKeepsOrdersAndUser` | Frontend/src/contexts/CartContext.jsx:20-56 | cart operations never touch the orders or the signed-in user |
| `Storefront.PlaceOrder` | Frontend/src/contexts/OrderContext.jsx:16-22 | adding an order writes the new list to the order slot, leaves the cart and user slots as they were, and keeps storage mirroring memory |
| `Storefront.LogIn` | Frontend/src/contexts/UserContext.jsx:21-38 | a successful login signs in the mock user for that email and stores it; a failed one changes nothing |
| `Storefront.LogOut` | Frontend/src/contexts/UserContext.jsx:40-47 | logout removes the user, order and cart keys and reloads, so every store comes back empty |
| `Storefront.UpdateUser` | Frontend/src/contexts/UserContext.jsx:49-55 | the user is replaced wholesale by the given data and stored; cart, orders and their slots are left as they were |
| `Storefront.SignUp` | Frontend/src/contexts/UserContext.jsx:15-19 | signup always reports success and signs nobody in |
| `Storefront.UpdatePassword` | Frontend/src/contexts/UserContext.jsx:57-63 | updating the password changes nothing |
| `Checkout.ConfirmOrder` | Frontend/src/pages/CheckoutPage.jsx:33-62 | the confirmed order, at the head of the history, snapshots the cart, its total and the user's delivery details, with status `Confirmed`, id `ORD-<now>` and delivery `now + 3 days`; the cart is then empty. An empty cart offers no checkout |
| `Checkout.OrderId` | Frontend/src/pages/CheckoutPage.jsx:36 | the identifier is `ORD-` followed by a numeral with no leading zero that reads back as the instant |
| `Checkout.OrderIdsDiffer` | Frontend/src/pages/CheckoutPage.jsx:36 | orders confirmed at different instants get different identifiers |
| `Checkout.OrderSnapshotSurvivesCartChanges` | Frontend/src/pages/CheckoutPage.jsx:49-50 | later cart operations leave the confirmed order's items and the rest of the history unchanged |
| `Browse.FilterChainIsConjunction` | Frontend/src/pages/Home.jsx:27-39 | the chain of optional filters keeps exactly the products one pass with the conjunction of the active filters keeps, in catalogue order |
| `Browse.FilteredIsExactlyTheMatches` | Frontend/src/pages/Home.jsx:28-37 | every shown product matches every active filter, every matching product is shown, and the order is the catalogue's |
| `Browse.ApplyFilters` | Frontend/src/pages/Home.jsx:27-39 | the chain of optional filters; `FilterChainIsConjunction` proves it equal to one filter by all active conditions |
| `Browse.ResetShowsEverything` | Frontend/src/pages/Home.jsx:90 | with the reset filters nothing is filtered out |
| `Browse.Refilter` | Frontend/src/pages/Home.jsx:27-39 | recomputing the filtered list goes back to page one and shows exactly the matching products, every copy, in catalogue order: one filter by all active conditions |
| `Browse.ChangeFilters` | Frontend/src/pages/Home.jsx:61 | changing a filter control goes back to page one and shows exactly the products matching the new filters, every copy, in catalogue order |
| `Browse.CatalogueLoaded` | Frontend/src/pages/Home.jsx:19-25 | loading the catalogue goes back to page one and shows exactly its matching products, every copy, in catalogue order |
| `Browse.FirstLoadShowsEverything` | Frontend/src/pages/Home.jsx:9-39 | from the initial state (no products, reset filters, page one) the arriving catalogue is listed whole, in its order, on page one |
| `Browse.Paginated` | Frontend/src/pages/Home.jsx:42 | a page holds at most nine products, those at positions `(page-1)*9` up to `page*9`, clamped |
| `Browse.TotalPages` | Frontend/src/pages/Home.jsx:43 | the page count is the fewest pages of nine that hold the list |
| `Browse.PageSizes` | Frontend/src/pages/Home.jsx:42-43 | every page up to the last is non-empty and all but the last are full |
| `Browse.PagesUpToIsPrefix` | Frontend/src/pages/Home.jsx:42 | pages one to k laid end to end are the first `9k` products |
| `Browse.PagesCoverEverything` | Frontend/src/pages/Home.jsx:42-43 | all pages together give back the filtered list |
| `Browse.Values` | Frontend/src/pages/Home.jsx:46-48 | each drop-down has no duplicates and lists exactly the values occurring in the catalogue |
| `Details.FindBySlug` | Frontend/src/pages/ProductDetails.jsx:25 | the product found is the first with that slug, and none is found only when no product has it |
| `Details.Related` | Frontend/src/pages/ProductDetails.jsx:29-31 | related products share the category and not the slug, are the first such in catalogue order, and number `min(5, all such)` |
| `Details.OpenProduct` | Frontend/src/pages/ProductDetails.jsx:24-35 | an unknown slug leads to the not-found page; otherwise the product shown is the first with the slug, its related list is `Related` of it, and it never appears among those at most five |
| `Details.Step` | Frontend/src/pages/ProductDetails.jsx:107-109 | minus gives `max(1, q-1)` and plus gives `q+1` |
| `Details.StepsStayPositive` | Frontend/src/pages/ProductDetails.jsx:107 | from one unit up, no sequence of presses takes the quantity below one |
| `Details.AddFromPage` | Frontend/src/pages/ProductDetails.jsx:43-48 | the cart changes only when a product is shown, and then by `addToCart(product, qty)` |
| `Details.PagePriceIsCartPrice` | Frontend/src/pages/ProductDetails.jsx:76 | for a product not yet in the cart, the price shown on the page is what the cart charges per unit |
| `Details.StoredPriceIsCharged` | Frontend/src/contexts/CartContext.jsx:22-28 | for a product already in the cart, the added units are charged at the price of the snapshot stored in its line, not at the page's price |
| `Details.StalePriceExample` | Frontend/src/contexts/CartContext.jsx:60-63 | a line stored at price 10, added to from a page showing 20, raises the total by 10 per unit |
| `SignupForm.TestEmail` | Frontend/src/pages/Signup.jsx:24 | a one-pass scan answers exactly whether `/\S+@\S+\.\S+/` matches somewhere in the text |
| `SignupForm.MatchEndingAt` | Frontend/src/pages/Signup.jsx:24 | a match ends at a position exactly when the run's first usable `@` is followed, two or more places on, by a `.` just before it |
| `SignupForm.Validate` | Frontend/src/pages/Signup.jsx:21-31 | the checks run in order (empty field, email pattern, password length, phone pattern) and the first failure gives the message; `''` exactly when all pass |
| `SignupForm.HandleSubmit` | Frontend/src/pages/Signup.jsx:33-42 | `signup` is called exactly when validation passes; otherwise a non-empty error is shown |
| `Profiles.BeforeAt` | backend/userprofile/signals.py:9 | `split('@')[0]` is the prefix before the first `@`, or the whole text when it has none |
| `Profiles.BeforeAtIsUnique` | backend/userprofile/signals.py:9 | only one prefix has those properties |
| `Profiles.BeforeAtWithoutAt` | backend/userprofile/signals.py:9 | an email without `@` becomes the whole profile name |
| `Profiles.DefaultProfile` | backend/userprofile/signals.py:9-15 | the default name is the email's part before the first `@`; address and phone are empty and no active time is recorded |
| `Profiles.ProfileOnSave` | backend/userprofile/signals.py:6-15 | a profile is made only when the account was just created |
| `Profiles.Strip` | backend/userprofile/views.py:21-25 | `strip()` returns the slice between leading and trailing white space, and is empty exactly when the text is blank |
| `Profiles.ProfileComplete` | backend/userprofile/views.py:21-26 | `all` of the three stripped fields; `CompleteIffNoBlankField` proves it holds exactly when no field is blank |
| `Profiles.CompleteIffNoBlankField` | backend/userprofile/views.py:16-26 | a profile is complete exactly when name, address and phone each have a non-space character |
| `Profiles.DefaultProfileIsIncomplete` | backend/userprofile/signals.py:13-14 | a fresh default profile is never complete |
| `Profiles.WholeSeconds` | backend/userprofile/views.py:52 | `int(total_seconds())` truncates toward zero, for negative durations too |
| `Profiles.Split` | backend/userprofile/views.py:53-54 | `minutes < 60` and `hours*3600 + minutes*60 <= s < hours*3600 + minutes*60 + 60` |
| `Profiles.SplitIsUnique` | backend/userprofile/views.py:53-54 | those bounds determine hours and minutes |
| `Profiles.ActiveTime` | backend/userprofile/views.py:47-60 | for a non-negative active time the reported hours and minutes bracket it to within a minute |
| `Profiles.ApplyPatch` | backend/userprofile/views.py:33-35 | only the supplied fields change; active time is kept |
| `Profiles.UpdateProfile` | backend/userprofile/views.py:28-37 | invalid data gives 400 and leaves the profile unchanged; valid data applies the supplied fields and gives 200 |
| `Profiles.PatchesCompose` | backend/userprofile/views.py:33 | two partial updates equal one with the later value winning on every field |
| `Profiles.PatchIsIdempotent` | backend/userprofile/views.py:33 | repeating an update changes nothing more |
| `Profiles.EmptyPatchChangesNothing` | backend/userprofile/views.py:33 | an update that supplies no field changes nothing |
| `Activity.Track` | backend/userprofile/middleware.py:9-30 | unauthenticated requests change nothing; otherwise `last_seen` becomes now; active time grows by exactly `now - last_seen` when there was a previous request less than an hour ago and a profile, and is otherwise unchanged |
| `Activity.VisitsAddCredit` | backend/userprofile/middleware.py:16-28 | over a run of requests the active time grows by the sum of the gaps under an hour, and the last request time stays in the session |
| `Activity.FirstVisitCreditsNothing` | backend/userprofile/middleware.py:16 | the first request of a session is not credited |
| `Activity.CreditBounds` | backend/userprofile/middleware.py:18-23 | with non-decreasing times the credit lies between 0 and the time spanned |
| `Activity.ActiveTimeGrowsWithTime` | backend/userprofile/middleware.py:18-23 | active time never decreases while request times never go backwards |
| `Activity.ClockGoingBackShrinksActiveTime` | backend/userprofile/middleware.py:18-23 | with no lower bound on the gap, a request stamped earlier shrinks the active time |
| `Activity.LogoutSession` | backend/userauth/views.py:34-48 | an unauthenticated request is refused (401, assuming the JWT authenticator comes first) and the session is untouched; a signed-in one has `last_seen` dropped even when the token is invalid; 205 exactly for a signed-in request with a valid token |
| `Activity.NoCreditAcrossLogout` | backend/userauth/views.py:40 | the first request after a signed-in user's logout is not credited |
| `Activity.RefusedLogoutKeepsCrediting` | backend/userauth/views.py:35 | a logout refused by the permission check keeps `last_seen`, so a request within the hour is still credited |
| `Accounts.Register` | backend/userauth/views.py:16-32 | valid data for a new email creates the account with its default profile and returns tokens with 201; anything else gives 400 and creates nothing |
| `Accounts.Login` | backend/userauth/views.py:104-129 | a missing field gives 400, an unknown email 404, a wrong password 401, and only the right password 200 with tokens |
| `Accounts.RegisterThenLogin` | backend/userauth/views.py:16-32 | a newly registered account logs in with its password |
| `Accounts.ForgotPassword` | backend/userauth/views.py:50-68 | no email gives 400, an unknown one 404; otherwise one code for that account is stored with the current time, and a failed mail gives 500 |
| `Accounts.ForgotAddsOneCode` | backend/userauth/views.py:63-64 | the account gets exactly one more code, and other accounts none |
| `Accounts.Newest` | backend/userauth/views.py:87 | `latest('created_at')` is the greatest creation time among codes matching the account and the value, and there is none exactly when nothing matches |
| `Accounts.Expired` | backend/userauth/views.py:92 | a code is expired strictly after three minutes; at exactly three minutes it is still in time (`ForgotThenReset`, `CodeExpiresAfterThreeMinutes`) |
| `Accounts.DropCodesOf` | backend/userauth/views.py:100 | all of the account's codes go; other accounts' codes stay, every copy of each, in order |
| `Accounts.ResetPassword` | backend/userauth/views.py:70-102 | a missing field gives 400, then an unknown account 404, then no code matching the account and value gives 400 "Invalid OTP", then a newest matching code older than three minutes gives 400 "OTP expired"; only a success changes anything, and it sets the new password and removes all of that account's codes |
| `Accounts.ResetSucceedsIffSomeCodeInTime` | backend/userauth/views.py:86-93 | judging only the newest matching code accepts exactly when some matching code is at most three minutes old |
| `Accounts.ForgotThenReset` | backend/userauth/views.py:62-102 | a code issued at `t` resets the password at any time up to and including `t + 3 min`, and the new password then logs in |
| `Accounts.CodeExpiresAfterThreeMinutes` | backend/userauth/views.py:92-93 | one second past three minutes the code is refused as expired |
| `Accounts.CodeIsSingleUse` | backend/userauth/views.py:99-100 | after a successful reset the same code is refused as invalid |
| `Accounts.DeleteAccount` | backend/userprofile/views.py:39-45 | the requesting account goes, along with its profile and its codes; all other accounts and profiles are unchanged, and every other account's codes stay, each copy, in their order |
| `Accounts.DeletedAccountCannotLogIn` | backend/userprofile/views.py:42-45 | a deleted account cannot log in any more |

## Left out

- JSX rendering, animation, toasts, modals and routing are left out: they are presentation.
- Navigation after checkout, signup and logout is left out, as is the `window.location` reload. The reload is modelled as a fresh page load (`Storefront.Boot`).
- Storage I/O and JSON text are abstracted. A storage slot is missing, unparsable, or holds a value that parses back to itself. An empty string counts as missing, as the loaders treat it. Valid JSON that is not a list (such as `null`) is not modelled.
- The catalogue fetch with `axios` is left out. The catalogue is a parameter, and a failed fetch is not modelled.
- The one-second and 1.5-second delays are left out: every call completes synchronously.
- Checkout uses a single clock reading `now` for the identifier, the order date and the delivery estimate; the source reads the clock more than once. Dates are kept as milliseconds rather than ISO strings.
- Prices are exact reals. IEEE rounding, `Intl.NumberFormat` and `toFixed` are not modelled.
- The `parseInt` NaN path of the cart page is not modelled.
- `String.length` counts UTF-16 code units. The model counts characters, so a password with characters outside the Basic Multilingual Plane is measured differently.
- JWT creation and blacklisting are abstracted. A token is the account it was issued for; a token's validity at logout is a parameter.
- Password hashing is abstracted. An account stores the password it was last given, and `check_password` is equality.
- `generate_otp` is not part of this model, and its value is a parameter. Whether `send_otp_email` succeeds is a parameter too.
- `Accounts.ForgotPassword`: the stored code is assumed to survive a failed mail. This holds when each query commits on its own, Django's default; the settings are not part of this model.
- `Accounts.Register`: the sign-up serializer (`userauth/serializers.py`) is not part of this model. Its verdict is a parameter. An email that already has an account is assumed rejected, as a unique email field would cause.
- `Profiles.UpdateProfile`: the profile serializer's own checks are abstracted into its verdict `valid`. These are maximum lengths, non-blank fields and white-space trimming. The fields a valid request supplies are taken as already cleaned.
- The code model (`userauth/models.py`) is not part of this model. Codes are assumed to get their creation time when stored and to be deleted along with their account.
- Accounts are assumed to be keyed by a unique email.
- `Profiles.WholeSeconds`: `total_seconds()` is a float. The model divides exactly, which agrees with it for durations below about 285 years.
- `Activity.Track`: the session stores `last_seen` as ISO text. The model takes the parse of that text to give back the stored instant exactly.
- `GetProfileView` only serializes the profile and is left out.
- `GoogleLoginJWTView` is named in the URL configuration but not defined in the views, so it is left out.
- Admin, URL configuration and settings are left out.
- The profile views (status, active time, update, delete) are modelled for signed-in requests only. A request without credentials is refused by the permission check before the view runs and changes nothing; only `Activity.LogoutSession` models that refusal. The settings are not part of this model, so its status code 401 is an assumption: it holds when the JWT authenticator is the first authentication class (with session authentication first the refusal is 403).
- The views assume the signed-in account has a profile. `request.user.userprofile` would raise otherwise. `Accounts.Register` and `Accounts.DeleteAccount` keep every account paired with a profile.
