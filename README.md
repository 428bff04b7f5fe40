# Challenge-card filter engine

A Dafny model of the filter engine of a static page of programming challenges
(`main.js`). The page shows one card per challenge and lets the visitor narrow
the cards by free-text search, by one difficulty and by one topic. The three
criteria are combined with AND. A card failing any of them gets the `hidden`
class. The engine keeps two selections, difficulty and topic, each starting on
the wildcard `"all"`. Clicking a filter button stores the new selection, moves
the `active` class to the buttons that declare that value, and recomputes every
card. Typing in the search box recomputes every card too. A separate button
flips the page between a light and a dark theme.

Modules:

- `Wrappers` (`wrappers.dfy`): the `Option` type used for parts of the page that may be missing.
- `Text` (`text.dfy`): ASCII lower-casing (`Lower`) and substring search (`Contains`, the model of `includes`), with the case-insensitivity lemma.
- `Theme` (`theme.dfy`): the dark/light flip.
- `Filters` (`filters.dfy`): cards, buttons, the match predicate, and the pure specifications of one filter pass (`Pass`) and one button reconciliation (`Reconcile`). It also holds the lemmas about them.
- `Page` (`page.dfy`): the class `FilterPage`. It holds the two selections as fields and the page's cards and buttons as arrays. Its handlers update them in place with loops. Each handler is proved against `Pass` and `Reconcile`.

The search box's value is read from the page when a pass runs. It is a
parameter `searchBox: Option<string>` of every handler that runs a pass, and
`None` means the page has no search box, which the source treats as an empty
search.

A card missing its title or description element is not matched as if that
text were empty. In `main.js`, `querySelector(...)` then returns `null`
and reading `.textContent` throws a `TypeError`, which ends the pass. The cards
before it have been decided; it and the cards after it keep their `hidden`
class. `Pass` models exactly that, and every handler returns `completed`, which
is false when this happened.

## Model

| member | source | states |
|---|---|---|
| `Text.LowerChar` | main.js:59-64 | lower-casing leaves no upper-case letter, changes a character exactly when it is upper-case, and moves it by the fixed ASCII offset |
| `Text.Lower` | main.js:59-64 | lower-casing keeps the length, lower-cases each character, and leaves no upper-case letter |
| `Text.LowerIdempotent` | main.js:59-64 | lower-casing twice is the same as lower-casing once |
| `Text.LowerSlice` | main.js:63-66 | lower-casing a slice equals slicing the lower-cased string |
| `Text.Contains` | main.js:66 | `includes` is true exactly when the term occurs at some position of the text |
| `Text.ContainsEmpty` | main.js:66 | the empty term occurs in every text |
| `Text.ContainsLowerIff` | main.js:63-66 | the lower-cased text contains the lower-cased query exactly when some stretch of the text equals the query up to ASCII case |
| `Theme.Toggle` | main.js:22-24 | the next theme is always dark or light; it is light exactly when the current one is dark; it always differs from the current one |
| `Theme.ToggleTwice` | main.js:24 | two toggles restore the theme exactly when it was dark or light; from any other value they end on light |
| `Filters.SearchTerm` | main.js:59 | the search term is already lower-case; without a search box it is empty; otherwise it is the typed text with every character lower-cased |
| `Filters.Decide` | main.js:66-74 | a decided card is hidden exactly when it fails one of the three criteria, and nothing but its `hidden` flag changes |
| `Filters.FirstUnreadable` | main.js:62-64 | the pass reaches the first card lacking a title or description element; every card before it is readable |
| `Filters.Pass` | main.js:58-76 | a pass keeps the number of cards, decides each card before the first unreadable one from that card alone, and leaves that card and all later ones untouched |
| `Filters.PassByPosition` | main.js:62-75 | cards that are decided up to the first unreadable card and untouched from it on are exactly what a pass produces |
| `Filters.PassHidesNonMatching` | main.js:62-75 | when all cards are readable, after a pass a card is hidden iff it fails search, difficulty or topic, every card agrees with the state, and only `hidden` flags change |
| `Filters.PassCompletes` | main.js:62-64 | the pass runs to the end exactly when every card has a title and a description element |
| `Filters.PassIdempotent` | main.js:58-76 | a second pass with unchanged state and cards yields the same cards |
| `Filters.PassOverwrites` | main.js:58-76 | a pass over cards decided by any earlier pass equals a single pass: only the latest state matters |
| `Filters.WildcardMatchesEveryValue` | main.js:67-68 | the `"all"` selection matches every difficulty or topic value |
| `Filters.NoFilterShowsAll` | main.js:59-68 | with no search box and both selections on `"all"`, every card the pass reaches is visible |
| `Filters.UnknownDifficultyHidesAll` | main.js:67 | a difficulty selection that no card carries hides every card the pass reaches |
| `Filters.UnknownTopicHidesAll` | main.js:68 | a topic selection that no card carries hides every card the pass reaches |
| `Filters.FacetIsCaseSensitive` | main.js:67-68 | facet values are compared exactly: `"Advanced"` does not match the selection `"advanced"` |
| `Filters.SearchIgnoresCase` | main.js:59-66 | a card meets the search for the typed text iff the text is empty or its title or description has a stretch equal to it up to case |
| `Filters.ArrayFindsArrayRotation` | main.js:59-66 | the query `"Array"` finds a card titled `"array rotation"` |
| `Filters.TokenBucketHasToken` | main.js:59-66 | the query `"token"` stays `"token"` and is found in the description `"Token bucket"` |
| `Filters.WorkedExample` | main.js:58-76 | with `"advanced"` and `"token"` only the rate-limiter card is visible; with all difficulties, no search and the `"algorithms"` topic only the binary-search card is |
| `Filters.ReconcileButton` | main.js:48-53 | a button of the targeted facet ends active exactly when it declares the new value; any other button is unchanged; dimension and value never change |
| `Filters.Reconcile` | main.js:42-56 | reconciliation treats every button on its own and keeps the number of buttons |
| `Filters.ReconcileEffect` | main.js:42-56 | afterwards the targeted facet's buttons mark exactly the new value, and buttons of the other facet, or whose handler calls neither facet's filter function or is missing, are as they were |
| `Filters.ReconcileNoMatch` | main.js:49-53 | when no button of the facet declares the new value, none of them is active afterwards |
| `Filters.ReconcileExclusive` | main.js:42-56 | when each value of the facet has one button and the new value has one, exactly that button of the facet is active |
| `Filters.ReconcileIdempotent` | main.js:42-56 | reconciling twice with the same value equals reconciling once |
| `Page.FilterPage.constructor` | main.js:1-2 | both selections start on `"all"` |
| `Page.FilterPage.ApplyFilters` | main.js:58-76 | the loop leaves the cards equal to `Pass` of the old cards under the current state; it completes iff every card is readable, and then every card agrees with the state |
| `Page.FilterPage.FilterChallenges` | main.js:78-80 | the search handler does exactly what `ApplyFilters` does |
| `Page.FilterPage.UpdateFilterButtons` | main.js:42-56 | the loop leaves the buttons equal to `Reconcile` of the old buttons, so the targeted facet's buttons mark exactly the given value |
| `Page.FilterPage.FilterByDifficulty` | main.js:30-34 | sets the difficulty selection, keeps the topic selection, reconciles the difficulty buttons, then runs a full pass under the new state |
| `Page.FilterPage.FilterByTopic` | main.js:36-40 | sets the topic selection, keeps the difficulty selection, reconciles the topic buttons, then runs a full pass under the new state |

`Page.WorkedExampleOnPage` drives the worked example through the handlers of a
`FilterPage`. It has no contract of its own.

## Left out

- `initializePage` (main.js:4-20): restoring the saved theme and the smooth-scroll listeners on in-page links are browser wiring and animation.
- `localStorage` and the `data-theme` attribute (main.js:5-6, 23, 26-27): `Theme.Toggle` takes the current attribute as a parameter (`None` when it is not set) and returns the new theme; storing it is not modelled.
- The `DOMContentLoaded` registration (main.js:82) and all `document.querySelector*` lookups: cards and buttons are the arrays of a `FilterPage`, and the search box's value is a parameter.
- Classifying a button by searching its handler's source text (main.js:45-46, 51): each button instead declares its facet (`None` for a button without a click handler or whose handler calls neither `filterByDifficulty` nor `filterByTopic`, both of which the source leaves alone) and its value, and the model compares them for equality. Therefore not represented: a handler whose text mentions both filter functions; one that mentions the single-quoted value outside its argument; and one that passes its argument in double quotes, such as `filterByDifficulty("advanced")`, which the source classifies as a difficulty button but never marks active because it looks only for `'advanced'`.
- The reconciliation's `type` argument is a `Dimension`; the source accepts any string and does nothing for one other than `'difficulty'` and `'topic'`, which no caller passes.
- `Text.Lower`: only ASCII letters are lower-cased; the full Unicode `toLowerCase` is not modelled.
- A card's `data-difficulty` and `data-topic` are strings; a missing attribute (`undefined` in the source, which never equals a selection) is not modelled separately.
- The CSS effect of the `hidden` and `active` classes: only the boolean flags are modelled.
