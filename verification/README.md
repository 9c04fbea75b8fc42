# Storefront guards and screen logic

A Dafny model of the decision logic inside an e-commerce storefront: the
login screen of the single-page client (its "Login" / "Sign Up" modes, the
reset-password form, the strength rule for new passwords and the two submit
handlers), the product detail page (finding the routed product, image and
size pickers, the units input, the add-to-cart and review-submission
guards), and the API server's cross-origin allow-list.

Everything is pure. Backend replies, the catalogue, the route id and the
stored token are inputs. The shop-context token and the browser's "token"
storage slot are one state value (`LoginPage.Session`). Each handler returns
the request it sends, the navigation it triggers and the toast it shows.

Modules:

- `Js`: JavaScript conventions the pages rely on. `undefined` is
  `Maybe.Undefined`. `!s` on a string is true only for `undefined` and `""`.
  `localStorage.setItem` stores `String(v)`. `trim` removes the ECMA-262
  white-space and line-terminator characters.
- `PasswordPolicy`: the reset-password regular expression. It has a literal
  reading (`RegexTest`), a reading in words (`PasswordOk`) and a one-pass
  checker (`CheckPassword`), and all three are proved to agree.
- `LoginPage`: the screen as a state machine (`Step`, `Run`) plus the
  `OnSubmit` and `OnForgotPassword` handlers.
- `HtmlForms`: the browser's constraint validation that decides whether a
  login form is submitted at all. Every `required` input must be filled,
  and the `type="email"` input must hold a valid e-mail address as the HTML
  Living Standard defines it.
- `ProductPage`: the lookup (`LastMatch`, `FetchProductData`, `Load`), the
  guards (`ClickAddToCart`, `SubmitReview`, `OnReviewReply`) and the page as
  a state machine with its invariants.
- `Cors`: the `origin` callback (`Decide`, `OriginCallback`).

Behaviours of the code that a reader might not expect. The model follows
the code in each case:

- The login form sends a registration without checking password strength.
  Only the reset form applies the rule.
- No part of the login screen redirects a visitor who already holds a token.
- The reset request is keyed by email alone, with no proof of possession.
  It is modelled as written.
- Clicking a size or thumbnail that is not on screen cannot happen in the
  page. In the model such an event changes nothing (the `Available`
  predicates).
- `size` is never cleared when the routed product changes. The page
  component stays mounted when only the route id changes, so a size chosen
  on one product can be carried to another product that does not offer it.
  Then the add-to-cart guard lets it through (`ProductPage.StaleSizeReachesCart`).
  So "the size is empty or offered by the shown product" only holds while no
  load brings in a product without the chosen size. `ProductPage.StepKeepsSize`
  states exactly that condition.
- An empty `Origin` header is falsy, so it is allowed just like a missing one.

## Model

| member | source | states |
|---|---|---|
| `Js.Trim` | frontend/src/pages/Product.jsx:42 | `trim` returns a contiguous piece of its input. That piece neither starts nor ends with white space, and everything cut away on either side is white space |
| `Js.TrimEmptyIffBlank` | frontend/src/pages/Product.jsx:42 | `!text.trim()` holds exactly when the text is empty or made only of white space |
| `PasswordPolicy.RegexIsPasswordOk` | frontend/src/pages/Login.jsx:60 | The regex, read literally (three lookaheads over `.*`, then an anchored body class repeated at least 8 times), accepts exactly the strings that have length ≥ 8, use only letters, digits and the eight symbols, and contain at least one letter, one digit and one symbol |
| `PasswordPolicy.CheckPassword` | frontend/src/pages/Login.jsx:60-61 | A single scan returns true exactly when the password meets the rule |
| `PasswordPolicy.ShortPasswordRejected` | frontend/src/pages/Login.jsx:60 | The expression as written matches no string under 8 characters |
| `PasswordPolicy.ForeignCharacterRejects` | frontend/src/pages/Login.jsx:60 | One character outside letters, digits and `@$!%*?&#` makes the expression fail, whatever the rest contains |
| `PasswordPolicy.MissingKindRejects` | frontend/src/pages/Login.jsx:60 | A string with no symbol, or no digit, or no letter fails the expression, however long it is |
| `PasswordPolicy.Examples` | frontend/src/pages/Login.jsx:60 | The expression as written rejects `"short1!"` and `"abcd1234"` and accepts `"abcd12!@"` |
| `LoginPage.OnSubmit` | frontend/src/pages/Login.jsx:19-54 | Submitting always sends a request: a registration with name, email and password exactly when the mode is "Sign Up", otherwise a login with only email and password. Success stores the token in the context and in storage and goes to "/". Failure, answered or thrown, leaves the session unchanged, does not navigate and shows an error. The screen is unchanged either way |
| `LoginPage.OnForgotPassword` | frontend/src/pages/Login.jsx:56-82 | A request is sent exactly when the new password passes the rule; the handler tests the expression as written, which `RegexIsPasswordOk` ties to the rule. A refused password changes nothing but the error toast. A successful reset closes the form and goes to "/login". A failure leaves the form open. The session is never touched |
| `LoginPage.Step` | frontend/src/pages/Login.jsx:84-203 | An event on an element that is not rendered does nothing. The mode link switches "Login" and "Sign Up", the forgot link opens the reset form, the back link closes it, and typing sets the field typed into. A login-form submit sends a request exactly when that form is shown with its `required` inputs filled and a valid e-mail, and then it runs `OnSubmit`. A filled-in reset form runs `OnForgotPassword`. The forgot link, the back link and the two eye buttons change only their own flag. Events other than the two submits never send, navigate, toast or touch the session. Navigation happens only on a successful submit, and the reset form closes only through its links or a successful reset. Only the mode link changes the mode, and the mode stays "Login" or "Sign Up". Only a login submit changes the session. Only the two submits send requests, and every request carries a valid e-mail address; a registration also carries a non-empty name and password, a login a non-empty password |
| `LoginPage.Run` | frontend/src/pages/Login.jsx:8-15 | After any sequence of events the mode is still one of the two labels. At most one request was sent per submit event, and each carries a valid e-mail address |
| `HtmlForms.AtSignUnique` | frontend/src/pages/Login.jsx:107-114 | A value the `type="email"` input accepts follows the HTML grammar for a valid e-mail address. Its local part is made of letters, digits, dots and the symbols the standard lists (such as `!`, `#`, `+`, `=`, `_`, `~`, `-`). The domain is dot-separated labels of 1 to 63 letters, digits or hyphens, each starting and ending with a letter or digit. Such a value has exactly one "@": a non-empty local part comes before it and a domain after it |
| `HtmlForms.ExampleEmail` | frontend/src/pages/Login.jsx:168-175 | "ann@shop.in" is a valid e-mail address, so the e-mail input does not block the form |
| `HtmlForms.EmptyIsNotEmail` | frontend/src/pages/Login.jsx:107-114 | The empty string is not an e-mail address, so an untouched `required` e-mail input blocks its form |
| `LoginPage.UntouchedFormSendsNothing` | frontend/src/pages/Login.jsx:107-114 | Submitting the freshly mounted login form, or the reset form before anything is typed, sends no request, because the empty e-mail input blocks the form |
| `LoginPage.ReachableModeValid` | frontend/src/pages/Login.jsx:8 | Every screen reachable from the mounted state ("Login", form closed) is in "Login" or "Sign Up" mode |
| `LoginPage.ToggleTwiceRestores` | frontend/src/pages/Login.jsx:139-153 | One click of the mode link changes the mode, and a second click restores the original screen |
| `LoginPage.RegistersIffNameShown` | frontend/src/pages/Login.jsx:22 | In either mode, the submit sends a registration exactly when the rendered form shows the name input |
| `LoginPage.StoredTokenMatchesContext` | frontend/src/pages/Login.jsx:28-30 | After a successful reply that carries a token, storage and context both hold that token |
| `LoginPage.MissingTokenStoredAsText` | frontend/src/pages/Login.jsx:29-30 | A successful reply without a token leaves the context token undefined and stores the text "undefined" |
| `LoginPage.SubmitSkipsStrengthRule` | frontend/src/pages/Login.jsx:22-40 | A password that fails the strength rule is still sent by the login form |
| `ProductPage.LastMatch` | frontend/src/pages/Product.jsx:18-25 | The lookup yields an index whose product has the route id and after which no product has it, or nothing when no product has it |
| `ProductPage.FetchProductData` | frontend/src/pages/Product.jsx:18-25 | The front-to-back walk that overwrites the selection at each match ends on the last match, and finds one exactly when some product has the id |
| `ProductPage.Load` | frontend/src/pages/Product.jsx:18-74 | With no match the page is left exactly as it was, which is the empty placeholder on first load. A match shows that product and its first image, sets the units to 0 when its stock is ≤ 0 and otherwise keeps them |
| `ProductPage.DisplayedIsHeld` | frontend/src/pages/Product.jsx:70-154 | While a product out of stock holds 0 units, the input (`stock > 0 ? units : 0`) always displays the units the page holds, and shows 0 for a product out of stock |
| `ProductPage.ZeroCountIffNoReviewsYet` | frontend/src/pages/Product.jsx:244-273 | The review count `reviews?.length \|\| 0` reads 0 exactly when the list shows "No reviews yet" |
| `ProductPage.ClickAddToCart` | frontend/src/pages/Product.jsx:176-193 | `addToCart(id, size, units)` followed by navigation to /cart happens exactly when a product is shown, the button is enabled, a size is chosen and units ≥ 1. A disabled button does nothing. Otherwise the refusal names the missing size first, then invalid units |
| `ProductPage.AddsIffSizeAndUnits` | frontend/src/pages/Product.jsx:176-186 | With the out-of-stock units rule in force, on a loaded product, adding happens exactly when a size is chosen and units ≥ 1 |
| `ProductPage.UnitsNotCappedAtStock` | frontend/src/pages/Product.jsx:149-186 | Units above the stock count reach `addToCart` unchanged |
| `ProductPage.UnitsAboveStockReachable` | frontend/src/pages/Product.jsx:149-186 | The page can reach that case. After loading a product with 2 in stock, picking its size and entering 5 units, the cart receives 5 |
| `ProductPage.SubmitReview` | frontend/src/pages/Product.jsx:38-278 | There is no review button unless a product is shown and the stored token is truthy. A review is posted exactly when, in addition, the record has a non-empty id and the text is not blank. The post carries the untrimmed text and the stored token. A record without an id is refused as "not loaded" before the text is looked at. A blank text is refused as empty |
| `ProductPage.OnReviewReply` | frontend/src/pages/Product.jsx:56-67 | The page reloads exactly when the post succeeded. Otherwise the view is kept. A non-ok reply shows the server's message, or "Failed to submit review" when the message is missing or empty. A failed post shows "Error submitting review" |
| `ProductPage.Step` | frontend/src/pages/Product.jsx:28-287 | A click on an absent or disabled element does nothing; the review box is absent without a truthy stored token. A load is `Load`. A thumbnail click shows that thumbnail. A size click selects that size. Entering units in the enabled input sets them as entered. Typing in the review box sets the draft. Only size clicks change the size. Every event keeps the image rule and the out-of-stock units rule |
| `ProductPage.StepKeepsSize` | frontend/src/pages/Product.jsx:127-137 | The selected size stays empty or offered by the shown product under every event, except a load of a product that does not offer it |
| `ProductPage.StaleSizeReachesCart` | frontend/src/pages/Product.jsx:14-30 | Choosing "500g" on product a and then routing to product b, which offers only "1kg", leaves "500g" selected, and adding to the cart sends b with "500g" |
| `ProductPage.Run` | frontend/src/pages/Product.jsx:70-85 | Once the image and units rules hold, they hold after any sequence of events |
| `ProductPage.ReachableImageAndUnitsOk` | frontend/src/pages/Product.jsx:12-15 | On every view reachable from the mounted page, the shown image belongs to the shown product (or is undefined when it has no images), and a product out of stock has 0 units |
| `Cors.Decide` | backend/server.js:20-33 | A request is allowed exactly when its origin is absent, empty, or exactly one of the three listed strings. Any other origin is denied with "Not allowed by CORS" |
| `Cors.Includes` | backend/server.js:28 | The `includes` scan finds a string exactly when it is in the list |
| `Cors.OriginCallback` | backend/server.js:27-33 | The callback, written with the scan, reaches the same decision as `Decide` |
| `Cors.DecisionIgnoresMethodAndHeaders` | backend/server.js:26-37 | Two requests with the same origin get the same decision, whatever their method and other headers |
| `Cors.TrailingSlashDenied` | backend/server.js:20-28 | A listed origin with a trailing "/" is denied |
| `Cors.UpperCaseSchemeDenied` | backend/server.js:28 | The production origin with an upper-case "HTTPS" is denied, since matching is case-sensitive |

## Left out

- ProductPage.StepKeepsSize: the size rule is proved only for events that do not load a product lacking the chosen size, because the page never clears the size (`ProductPage.StaleSizeReachesCart`).
- Rendering, CSS classes, icons, the shipping-policy dropdown, `window.scrollTo`, `window.location.reload` and date formatting are presentation. A page reload appears only as the `Reloaded` result.
- Transport is not modelled: `axios`, `fetch`, `res.json()` and `localStorage` are replaced by reply values and a state slot. A reply body that fails to parse counts as a failed post.
- React scheduling is not modelled. `useEffect` timing, batching and re-render identity checks are framework behaviour. The out-of-stock effect is applied as part of `Load`, and the lookup runs on every `LoadProduct` event.
- `Number(e.target.value)` coercion (NaN, fractions, empty input) is not modelled. Units are an `int`.
- The shop context's `addToCart` and `navigate` and the `RelatedProducts` component are not part of this model. They appear only as effect values.
- Toast text is kept only where a handler decides it. Console logging is left out.
- Each submit and its reply form one step. Events that happen while a request is pending (`await axios.post`), such as a second submit or a mode toggle, are not interleaved with it. None of the stated properties depends on that order.
- The browser's value sanitization of the e-mail input is not modelled. It strips newlines and leading and trailing white space before the value reaches the component. Typed values are taken as they arrive in `onChange`. Constraint validation is modelled only as the gate on submitting (`HtmlForms`); the browser's messages are left out.
- The Express wiring is not modelled: database and image-host connections, routers, `express.json`, `app.listen` and the default `cors()` preflight at server.js:40. Neither is what the middleware does with a denial.
- The backend controllers for auth, cart, orders and reviews are not part of this model.
- JavaScript strings are UTF-16 code units, and Dafny `char`s are Unicode scalar values. The password rule and the allow-list use only ASCII, so they do not depend on this difference. `trim`'s white-space set contains no surrogates.
