# ReviewBuddy content script — a Dafny model of its place tracking

The ReviewBuddy browser extension injects a panel into a search-results page
that shows a place (a business listing). Its content script
(`ReviewBuddyExtension/content.js`) reads the place's name and address from
two tagged elements. It keeps the last values it stored in module-level
variables, shows them in the panel, and asks a scoring service for a review
score of "name city". It also keeps the panel's minimize/maximize flag and
watches the page in three ways:

- a document observer that waits once for the two elements;
- an observer on those elements that re-runs the update on every mutation batch;
- a one-second URL poll that starts a bounded retry chain after navigation.

This project models that state machine and proves what it does.

- `Snapshot`: one read of the page (title text; the texts of the address
  element's children) and the projections `getPlaceName`,
  `getPlaceAddress` and the element-readiness test.
- `JsText`: JavaScript truthiness, template interpolation of `null`,
  `split` on one character and `trim`, with their round trips and a
  characterisation of `trim`.
- `Panel`: the injected panel (text fields, score region, visibility),
  score requests and responses, and how a response changes the score region.
- `PlaceInfo`: the city expression, `UpdateEffect` (one run of
  `updatePlaceInfo` as a function of the tracked state and a read),
  `Retry` (the self-rescheduling countdown as a recursion over budgets) and
  `RetryEffect` (a whole retry chain). These specify the class below.
- `ContentScript`: a class holding `isMinimized`, `currentUrl`,
  `currentPlaceName` and `currentPlaceAddress`, plus the panel and the
  requests sent. Its methods are the script's handlers. The retry chain
  is a `while` loop over one snapshot per attempt.

The model keeps to what the code does, including where a more careful
design would differ:

- There is no generation counter. Any successful response that arrives is
  rendered, even when a later request was sent since (`Panel.LastArrivalWins`).
- There is no "unavailable" score state. A failed request leaves the region
  as it was: the skeleton, unless a response to an earlier request was
  rendered since (`Panel.SkeletonThenResponse`,
  `Panel.EarlierScoreSurvivesLaterFailure`).
- The mutation observer does not compare reads with the stored pair.
  Repeated identical reads send the same request again
  (`PlaceInfo.RepeatedReadResends`).
- A missing element leads to placeholder texts, not to a no-op.
- An address without a comma throws at the city expression after the
  address was stored. It does not degrade to a missing city.
- Empty strings are falsy in `updatePlaceInfo`, but the retry test compares
  them as values. An empty title is therefore never stored yet keeps
  counting as a change (`PlaceInfo.EmptyTitleStaysAChange`).

Two consequences of the code follow from the model:

- Before the panel exists, every `updatePlaceInfo` throws at its first write
  and changes nothing. This covers mutation batches and retries that run
  before the asynchronous injection completes.
- When the first read after injection has an address without a comma,
  `initializePopup` stops before it registers the click handlers. The
  panel then never reacts to clicks (`ContentScript.ContentScript.InitializePopup`).

## Model

| member | source | states |
|---|---|---|
| `Snapshot.PlaceName` | ReviewBuddyExtension/content.js:14-24 | the name is the title element's text when the element exists, and null otherwise |
| `Snapshot.PlaceAddress` | ReviewBuddyExtension/content.js:26-38 | the address is the second child's text exactly when the address element exists and has more than one child, and null otherwise |
| `Snapshot.ElementsReady` | ReviewBuddyExtension/content.js:183 | the readiness test holds exactly when both projections return a value, empty texts included |
| `JsText.TrimStart` | ReviewBuddyExtension/content.js:168 | the result is a suffix of the input, everything dropped is white space, and it does not start with white space |
| `JsText.TrimEnd` | ReviewBuddyExtension/content.js:168 | the result is a prefix of the input, everything dropped is white space, and it does not end with white space |
| `JsText.Trim` | ReviewBuddyExtension/content.js:168 | `trim()` yields a string no longer than the input that neither starts nor ends with white space |
| `JsText.TrimExact` | ReviewBuddyExtension/content.js:168 | trimming white space around a core that has no white space at its ends gives back exactly that core |
| `JsText.TrimIdempotent` | ReviewBuddyExtension/content.js:168 | trimming twice is the same as trimming once |
| `JsText.Split` | ReviewBuddyExtension/content.js:168 | `split(",")` yields at least one piece, and no piece contains the separator |
| `JsText.JoinSplit` | ReviewBuddyExtension/content.js:168 | joining the pieces with the separator gives back the input |
| `JsText.SplitJoin` | ReviewBuddyExtension/content.js:168 | splitting a join of separator-free pieces gives back those pieces |
| `JsText.SplitHasSeveralPieces` | ReviewBuddyExtension/content.js:168 | there is a second piece (index 1 is defined) exactly when the separator occurs |
| `PlaceInfo.City` | ReviewBuddyExtension/content.js:168 | the city expression has a value exactly when the address contains a comma, and throws otherwise |
| `PlaceInfo.CityOfSegments` | ReviewBuddyExtension/content.js:168 | the city is the trimmed text between the first comma and the next comma or the end |
| `PlaceInfo.CityOfListing` | ReviewBuddyExtension/content.js:168 | "123 Main St, Springfield, USA" yields the city "Springfield" |
| `Panel.ListingQuery` | ReviewBuddyExtension/content.js:43 | for "Cafe Luna" in "Springfield" the query text is "Cafe Luna Springfield" |
| `Panel.AfterResponse` | ReviewBuddyExtension/content.js:48-60 | a successful response (status 200-299 with a parsed score) renders the score; a non-ok status, a bad body or a network error leaves the region unchanged |
| `Panel.SkeletonThenResponse` | ReviewBuddyExtension/content.js:46-60 | from the skeleton, a score is shown if and only if the response succeeded; otherwise the skeleton stays |
| `Panel.EarlierScoreSurvivesLaterFailure` | ReviewBuddyExtension/content.js:48-60 | when an earlier request's score was rendered and a later request fails, the earlier score stays on display |
| `Panel.LastArrivalWins` | ReviewBuddyExtension/content.js:48-60 | responses are applied in arrival order with no check of which request they answer |
| `PlaceInfo.UpdateEffect` | ReviewBuddyExtension/content.js:150-174 | it throws with nothing changed when the panel is absent. It stores and shows the name and the address only when they are truthy; otherwise it keeps the stored value and shows the placeholder. It sends one request (name as read, city), and replaces the score region with the skeleton, if and only if the address is truthy and has a comma; otherwise the region keeps its old value. A comma-less address throws after it is stored. It sends nothing else and leaves visibility alone |
| `PlaceInfo.AddressWithoutCommaThrows` | ReviewBuddyExtension/content.js:164-169 | a truthy address without a comma is stored, then the call throws with no request and the score region unchanged |
| `PlaceInfo.MissingTitleQueriesNull` | ReviewBuddyExtension/content.js:169 | the request uses the name as read, so with no title the query text is "null " followed by the city |
| `PlaceInfo.ListingUpdate` | ReviewBuddyExtension/content.js:150-174 | a read of "Cafe Luna" at "123 Main St, Springfield, USA" stores both and requests the score of "Cafe Luna Springfield" |
| `PlaceInfo.RepeatedReadResends` | ReviewBuddyExtension/content.js:204-210 | updating twice from the same read leaves the stored pair and the texts as after the first update and sends the same request again |
| `PlaceInfo.Retry` | ReviewBuddyExtension/content.js:235-266 | the budgets passed are `retries`, `retries - 1`, … and every call but the last has a positive budget. The chain stops at the first attempt that sees both elements and a changed pair, within the budget. Otherwise it ends after `max(retries, 0)` unchanged attempts, at a budget ≤ 0 |
| `PlaceInfo.ExhaustedChain` | ReviewBuddyExtension/content.js:235-240 | with no change seen, the chain makes six calls with budgets 5, 4, 3, 2, 1, 0 |
| `PlaceInfo.RetryEffect` | ReviewBuddyExtension/content.js:247-265 | a chain reads the page between 1 and 5 times, and every attempt before the last saw no change. The attempt that sees a change runs the update exactly once on its read. A chain that never sees one changes nothing |
| `PlaceInfo.FirstFindIsAChange` | ReviewBuddyExtension/content.js:251-254 | while no name is stored (null), the first attempt that finds both elements counts as a change and ends the chain with an update from that read |
| `PlaceInfo.StoredReadIsNotAChange` | ReviewBuddyExtension/content.js:251-254 | after an update from a read with a truthy name and address, that same read no longer counts as a change |
| `PlaceInfo.EmptyTitleStaysAChange` | ReviewBuddyExtension/content.js:251-254 | an empty title is not stored by the update, and the same read still counts as a change afterwards |
| `ContentScript.ContentScript.constructor` | ReviewBuddyExtension/content.js:2-5 | the script starts minimized, at the current URL, with no stored name or address and no panel, waiting for the elements |
| `ContentScript.ContentScript.OnDocumentMutation` | ReviewBuddyExtension/content.js:178-189 | the document observer fires until both elements are ready, then it disconnects for good and the place observer takes over. Nothing else changes |
| `ContentScript.ContentScript.InitializePopup` | ReviewBuddyExtension/content.js:113-138 | the new panel is filled by one update. The click handlers are registered if and only if that update did not throw |
| `ContentScript.ContentScript.UpdatePlaceInfo` | ReviewBuddyExtension/content.js:150-174 | the tracked state becomes `UpdateEffect` of the old state and the read. The flag, the URL, the handlers and the observer phase are unchanged, and the object invariant is kept, including that an empty name or address is never stored |
| `ContentScript.ContentScript.FetchReviewModelScore` | ReviewBuddyExtension/content.js:40-47 | the skeleton replaces the score region before the request is sent, and the request is appended to those outstanding |
| `ContentScript.ContentScript.ReceiveScore` | ReviewBuddyExtension/content.js:48-60 | a response changes only the score region, as `AfterResponse` says, whichever outstanding request it answers |
| `ContentScript.ContentScript.ClickMinimizeButton` | ReviewBuddyExtension/content.js:119-126 | with handlers, the content and the button are hidden and the flag is set, whatever the previous state, so minimizing is idempotent. The container handler does not run. Without handlers nothing changes |
| `ContentScript.ContentScript.ClickContainer` | ReviewBuddyExtension/content.js:128-138 | when minimized with handlers, it shows both parts and clears the flag; otherwise nothing changes |
| `ContentScript.ContentScript.OnPlaceMutation` | ReviewBuddyExtension/content.js:204-210 | every mutation batch runs exactly one update, with no comparison against the stored pair |
| `ContentScript.ContentScript.RetryUpdatePlaceInfo` | ReviewBuddyExtension/content.js:235-266 | the countdown loop ends in the state, attempt count and throw that `RetryEffect` gives |
| `ContentScript.ContentScript.PollUrl` | ReviewBuddyExtension/content.js:223-233 | it starts a retry chain if and only if the URL differs from the recorded one, and records the new URL first. The same URL changes nothing |

## Left out

- Reads of the document are abstracted into `Snapshot.Page` values. The observer on the place elements is attached to the element nodes that exist when it starts. If the page later replaces those nodes, their mutations no longer reach it. Node identity is not modelled, so `OnPlaceMutation` may be called for any read.
- Timers (`setInterval`, `setTimeout`) and their one-second cadence are left out. Two retry chains that overlap after quick URL changes are left out too: each `RetryUpdatePlaceInfo` runs to completion. In the script the attempts run a second apart, and a place-observer update in between can change the stored pair that later attempts compare against. The model compares every attempt with the pair stored when the chain started.
- `RetryUpdatePlaceInfo`: it requires one snapshot per possible attempt (`|pages| == 5`), since the page always has a state to read.
- The injection of the panel markup (`injectHTML`) is left out: fetching the bundled page and looking up the parent element. A completed injection is a call of `InitializePopup`. A failed one is a run in which it is never called.
- The score request's URL is left out: the endpoint, `encodeURIComponent` and the `number_of_reviews=10` parameter. The model keeps the query text before encoding.
- The score is a `real` and the star width (floating point) is not computed. A JSON body without a numeric `score` field is not distinguished from one with a score.
- Tooltips and logging (`log`, the debug flag) are left out, because they are cosmetic.
- An exception is recorded as `threw` together with the state reached before it. What the browser does with an uncaught exception (report it, continue the event loop) is not modelled.
- A score request that fails before its first `await` is not modelled, because the panel always exists when one is sent.
