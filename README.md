# Page-flip controller, modelled in Dafny

This project models the page-flip controller of a book-like widget (`main.js`).
Each leaf of the book is one sheet with two pages, so a book with N leaves has
2N pages. The controller keeps a 1-based current page. A forward step turns
leaf floor(c/2) over, gives it the stacking order 100 − i and advances the page.
A backward step turns leaf floor((c−2)/2) back, gives it the stacking order
1100 − i and goes back one page. Both steps do nothing at their end of the book.
After each step the controller rewrites the indicator `"<current> / <total>"`.
An observer then copies the same pair into an off-screen live region as
`"Page <current> of <total>"`. Keys, touch swipes and clicks on the book are
decision rules that each trigger one of the two steps, or nothing.

- `wrappers.dfy` (module `Wrappers`) holds `Option`. It models `touchStartX`, which is null or a number, and the parser results.
- `text.dfy` (module `Text`) holds the rendering of an integer in a template literal (`${n}`). Its partner is a parser, and the two are proved mutually inverse on integers and canonical decimal strings.
- `navigation.dfy` (module `Navigation`) works on values:
  - `View` holds the whole controller state.
  - `Init`, `Next` and `Prev` are the start-up state and the two transitions.
  - `KeyAction`, `SwipeAction` and `ClickAction` are the decision rules.
  - The module also holds the invariant `Valid`, stacking-order consistency, and lemmas about all of these.
- `controller.dfy` (module `Controller`) holds the class `Book`:
  - The leaves live in an `array<Leaf>` that is updated in place. The page counter, touch start and both texts are fields that the handlers reassign.
  - Each handler is proved to leave exactly the state that the matching `Navigation` function gives for the old state (`Snapshot()`).
  - The forward and backward buttons call `NextPage` and `PrevPage` directly (main.js:50-51).

Facts about the code that its comments do not suggest:
- **Leaf choice.** The comments at main.js:20 and main.js:36 describe the forward step as flipping "the next unflipped leaf" and the backward step as unflipping "the last flipped leaf". The code does neither, because the two steps compute their leaf indices differently (floor(c/2) at main.js:25 and floor((c−2)/2) at main.js:39):
  - `ForwardFromPageThreeRepeatsLeafOne` shows that the forward step from page 3 turns leaf 1 over again and leaves leaf 2 as it was.
  - `ForwardTwiceBackOnce` shows that next, next, prev from page 1 ends on page 2 with leaf 0 resting and leaf 1 flipped.
  - `BackAtFirstPageWithLeafFlipped` shows that next, next, prev, prev returns to page 1 with leaf 1 still flipped.
  - `NextThenPrevFromOdd` and `NextThenPrevFromEven` give the exact effect of a forward step followed by a backward step.
  - `ThreeLeafWalk` shows that with three leaves, four forward steps flip all three leaves (the step from page 4 turns leaf 2).
- **Swipe thresholds.** The comparisons at main.js:68-69 are strict. A swipe goes forward only when dx < −30 and back only when dx > 30, so travel of exactly ±30 px does nothing.
- **Decoders.** The controller never parses text. `Text.ParseInt` and `Navigation.ParseIndicator`/`ParseAnnouncement` are reference decoders. They exist only to show that the rendered texts determine the page pair.

## Model

| member | source | states |
|---|---|---|
| Controller.Book.constructor | main.js:12-13 | total pages = 2 × leaf count, page 1, no touch in progress, indicator written once (line 82), announcement still empty; the leaves array holds the given leaves in order |
| Controller.Book.UpdateIndicator | main.js:16-18 | the indicator becomes "<currentPage> / <totalPages>"; nothing else changes |
| Controller.Book.Announce | main.js:90-92 | the live region becomes "Page <currentPage> of <totalPages>"; nothing else changes |
| Controller.Book.NextPage | main.js:21-34 | in-place update whose new state is exactly `Next` of the old state (leaf floor(c/2) flipped with order 100 − i, page + 1, both texts rewritten, no-op at the last page), and the invariant is kept |
| Controller.Book.PrevPage | main.js:37-47 | in-place update whose new state is exactly `Prev` of the old state (leaf floor((c−2)/2) unflipped with order 1100 − i, page − 1, both texts rewritten, no-op at page 1), and the invariant is kept |
| Controller.Book.OnKeyDown | main.js:54-57 | the two independent key tests fire at most one step: ArrowRight/PageDown go forward, ArrowLeft/PageUp go back, other keys change nothing |
| Controller.Book.OnTouchStart | main.js:61-63 | records the touch position and changes nothing else |
| Controller.Book.OnTouchEnd | main.js:65-71 | with no recorded start nothing changes; otherwise exactly the swipe rule's one step (or none) on the travel, then the start is cleared |
| Controller.Book.OnClick | main.js:74-79 | a click right of the midpoint is one forward step, anywhere else one backward step |
| Navigation.TouchStart | main.js:62 | afterwards the touch start is the given position and every other part of the state is as before |
| Navigation.TouchEnd | main.js:65-71 | the touch start is null after every touch end, and a touch end without a start changes nothing |
| Navigation.InitState | main.js:12-13 | start-up state is valid, has 2N pages, page 1, the given leaves, no touch start, and its indicator reads back as (1, 2N) |
| Navigation.InitIndicatorFiveLeaves | main.js:17 | with five leaves the first indicator is exactly "1 / 10" |
| Navigation.NoOpAtBounds | main.js:21-38 | a forward step at or past the last page and a backward step at or before page 1 leave the whole state unchanged |
| Navigation.LeafIndicesInRange | main.js:25-41 | whenever a guard passes, the leaf index it computes is in [0, N), so the missing-leaf fallback is never taken |
| Navigation.NextStep | main.js:21-34 | from a page before the last, the forward step succeeds, sets leaf floor(c/2) to flipped with order 100 − i, leaves every other leaf alone, adds one to the page and rewrites both texts |
| Navigation.PrevStep | main.js:37-47 | from a page after the first, the backward step succeeds, sets leaf floor((c−2)/2) to resting with order 1100 − i, leaves every other leaf alone, subtracts one from the page and rewrites both texts |
| Navigation.PerformStep | main.js:21-47 | every action keeps the invariant and stacking-order consistency; the page moves +1 iff forward before the last page, −1 iff backward after page 1, and otherwise stays |
| Navigation.RunKeepsValid | main.js:21-47 | any series of steps from a valid state keeps the invariant (page bounds, page total = 2 × leaf count, texts matching the page pair), the leaf count and the page total |
| Navigation.RunKeepsStackOrder | main.js:28-43 | any series of steps from a valid state whose stacking orders match the flip states keeps them matching: flipped leaves have 100 − i, resting ones are unset or have 1100 − i |
| Navigation.RunStaysInBounds | main.js:12-47 | with at least one leaf, whatever their initial flip state and stacking order, every series of inputs from start-up keeps 1 ≤ currentPage ≤ totalPages |
| Navigation.ForwardFromPageThreeRepeatsLeafOne | main.js:20-31 | the forward step from page 3 turns leaf 1 over (again) and leaves leaf 2 as it was |
| Navigation.NextThenPrevFromOdd | main.js:25-44 | forward then back from odd page c restores the page and indicator, and leaves leaf floor(c/2) resting with order 1100 − i; all flags are restored iff that leaf was resting before |
| Navigation.NextThenPrevFromEven | main.js:25-44 | forward then back from even page c = 2k restores the page and indicator, but leaves leaf k flipped and leaf k − 1 resting |
| Navigation.ForwardTwiceBackOnce | main.js:21-47 | from start-up with two or more resting leaves, next, next, prev gives page 2 with leaf 0 resting and leaf 1 flipped |
| Navigation.BackAtFirstPageWithLeafFlipped | main.js:21-47 | next, next, prev, prev from start-up returns to page 1 with leaf 1 still flipped |
| Navigation.ThreeLeafWalk | main.js:21-47 | with three leaves, four forward steps give page 5 with all leaves flipped; one backward step then gives page 4 with only leaf 1 resting |
| Navigation.IndicatorRoundTrip | main.js:17 | the indicator text parses back to exactly the page pair it was written from |
| Navigation.AnnouncementRoundTrip | main.js:91 | the announcement text parses back to exactly the page pair it was written from |
| Navigation.ParseFramedRoundTrip | main.js:17 | "<prefix><int><sep><int>" with a separator starting with a space parses back to the two integers |
| Navigation.TextsAgree | main.js:90-92 | in every valid state the indicator reads back as (currentPage, totalPages), and a non-empty announcement reads back as the same pair |
| Navigation.SwipeMirror | main.js:68-69 | mirroring the swipe travel mirrors the step, and a swipe does nothing iff −30 ≤ dx ≤ 30 |
| Navigation.ClickMirror | main.js:77-78 | mirroring a click about the midpoint mirrors the step, and a click exactly on the midpoint goes back |
| Navigation.SwipeExamples | main.js:65-71 | a 40 px leftward swipe is exactly one forward step, and a 10 px leftward swipe only clears the touch start |
| Text.NatToDecimal | main.js:17 | the rendering of a non-negative integer is a non-empty digit string without a leading zero, starting with '0' only for 0 |
| Text.DecimalValueOfNatToDecimal | main.js:17 | the digits rendered for n denote n |
| Text.NatToDecimalOfDecimalValue | main.js:17 | every canonical digit string is the rendering of the number it denotes |
| Text.ParseIntOfIntToText | main.js:17 | parsing the rendering of any integer gives that integer back |
| Text.IntToTextOfParseInt | main.js:17 | any string the parser accepts is the rendering of the integer it yields |
| Text.IntToTextInjective | main.js:17 | distinct integers render to distinct texts |

## Left out

- DOM lookup and construction are not modelled. This covers `getElementById`, `querySelectorAll`, creating the live-region element and appending it (main.js:5-9, 85-89). The controller is given its leaves as a sequence instead.
- Event-listener registration and the `DOMContentLoaded` wrapper are not modelled. Each handler is a method of `Book`, and the browser's event loop, which runs handlers one at a time, is not modelled.
- The `MutationObserver` is asynchronous. Its callback becomes `Book.Announce`, and `NextPage` and `PrevPage` call it right after they rewrite the indicator. Because the observer is attached after the first indicator write, the announcement starts empty.
- Only the flip state and the stacking order of a leaf are modelled. The rest of its rendering (CSS, aria attributes, off-screen positioning) is left out. An unset inline `style.zIndex` is `ZIndex.Unset`.
- Geometry is modelled with reals. `clientX`, `getBoundingClientRect` and the click offset are exact `real`s, not doubles, so floating-point rounding is not modelled. `OnClick` receives the offset `clientX − rect.left` and the width directly. An event whose `changedTouches` list is empty is not modelled.
- Page numbers are unbounded integers. JavaScript numbers lose precision above 2^53, and print in exponent notation from 10^21 on. Neither matters for a book's page count, and neither is modelled.
