# Yummie page script, modelled in Dafny

The repository is one browser script, `app.js`. It drives a static recipe-card listing:
- a search box and category chips filter the cards;
- a select sorts them by price, calories, protein or featured rank;
- a heart button per card keeps a persisted set of favorites;
- a three-way theme toggle cycles auto, dark and light;
- a demo contact form validates its fields and acknowledges locally.

This project models the logic behind those handlers and proves what it promises.

Modules, one per concern of the script:

- `Text` (text.dfy): the string operations the script calls.
  - `trim` uses the full ECMAScript white-space and line-terminator set.
  - `toLowerCase` is modelled on Basic Latin and Latin-1.
  - `includes` is proved equal to "occurs at some index".
- `Catalog` (catalog.dfy): a card as a record `{id, category, text, price, kcal, protein, featured}` with integer attributes, plus the search filter and the category filter of `render`.
- `Sorting` (sorting.dfy): the sort keys and comparators of `render`.
  - The reference stable sort is the function `SortByKey`.
  - `SortInPlace` is an in-place insertion sort on an `array`, proved equal to `SortByKey`.
- `Listing` (listing.dfy): what `render` puts in the grid, and the properties of that result.
- `Theme` (theme.dfy): the `indexOf`-based theme cycle, the resolution against the system preference, and `aria-pressed`.
- `Favorites` (favorites.dfy): the favorites `Set` as a duplicate-free sequence in insertion order.
  - It covers toggling, building the set from the stored list, and each button's icon and label.
- `Contact` (contact.dfy): the contact-form validator and a `ContactForm` class whose `Submit` updates the status line and the fields.
- `App` (app.dfy): the class `Page`. It holds the `state` record and what the handlers write:
  - the grid;
  - the empty-state flag;
  - the favorite buttons;
  - the document theme;
  - the two local-storage keys.

  Each handler is a method. Its contract ties the new state to the functions above.
- `Wrappers` (wrappers.dfy): an `Option` type for storage keys.

Sort stability is stated per key value. For each value `k`, `WithRank(result, key, k)` is the list of cards whose rank is `k`. The sort leaves that list exactly as it was in the filtered input. Section 23.1.3.30 of ECMA-262 (2023 edition) requires `Array.prototype.sort` to be stable.

Three behaviours of the code that the model keeps as written:
- An unrecognised stored theme is written to `data-theme` unchanged (`app.js:21`), so `Theme.Resolve` returns it. Only the three recognised themes resolve to dark or light.
- Only a missing or empty stored favorites value defaults to `[]` (`app.js:9`); malformed JSON throws at start-up. The model takes the stored value as an already-parsed list (see Left out).
- A stored theme `""` counts as absent (`|| "auto"`), so it starts as `auto` (`Theme.InitialTheme`).

## Model

| member | source | states |
|---|---|---|
| Text.TrimStartShape | app.js:61 | the result is a suffix of the input that does not start with white space, and everything dropped is white space |
| Text.TrimEndShape | app.js:61 | the result is a prefix of the input that does not end with white space, and everything dropped is white space |
| Text.TrimEmptyIff | app.js:170 | a trimmed field is empty exactly when the field is all white space |
| Text.TrimIdempotent | app.js:61 | trimming an already trimmed value changes nothing |
| Text.TrimShape | app.js:165-167 | the trimmed value is the slice of the input between its first and last non-white-space characters; both dropped ends are white space |
| Text.LowerChar | app.js:61 | a lower-cased character is never a capital; a capital (A-Z, Latin-1 capitals) becomes the character 32 code points later, and every other character is kept |
| Text.LowerCases | app.js:61 | a lower-cased string has no capital left, keeps every non-capital in place, and replaces each capital by the character 32 code points later |
| Text.LowerIdempotent | app.js:127 | lower-casing twice equals lower-casing once, so a lower-cased query is unaffected by a second lowering |
| Text.Includes | app.js:128 | `includes` holds exactly when the query occurs at some index of the text |
| Text.OccursShift | app.js:128 | when the query is not a prefix, it occurs in the text iff it occurs in the text minus its first character |
| Text.IncludesEmpty | app.js:125 | every text includes the empty query |
| Catalog.ByQuery | app.js:126-129 | the search filter never lengthens the list |
| Catalog.MatchesQuery | app.js:126-128 | a card matches iff the query occurs at some index of its lower-cased text |
| Catalog.ByCategory | app.js:133-135 | the category filter never lengthens the list |
| Catalog.ByQueryCount | app.js:126-129 | the search filter keeps each matching card exactly as often as it occurs and drops every other card |
| Catalog.ByCategoryCount | app.js:133-135 | the category filter keeps each card of the category exactly as often as it occurs and drops the others |
| Catalog.ByQueryMember | app.js:126-129 | soundness and completeness: a card survives the search filter iff it is in the list and its lower-cased text contains the query |
| Catalog.ByCategoryMember | app.js:133-135 | soundness and completeness: a card survives the category filter iff it is in the list and has that category |
| Catalog.ByQueryEmpty | app.js:125-130 | an empty query keeps the whole list in order, so skipping the filter for it changes nothing |
| Catalog.QueryThenCategory | app.js:124-135 | search then category filtering equals the one-pass filter on both conditions, order included |
| Catalog.CategoryThenQuery | app.js:124-135 | category then search filtering equals the same one-pass filter |
| Catalog.FiltersCommute | app.js:124-135 | the two filters commute |
| Catalog.ByQueryIdempotent | app.js:126-129 | filtering twice by the same query equals filtering once |
| Catalog.ByCategoryIdempotent | app.js:133-135 | filtering twice by the same category equals filtering once |
| Catalog.VisibleMember | app.js:122-135 | a card is visible iff it is in the list, its text contains the query, and the chip is "alla" or the card's category equals it |
| Catalog.Visible | app.js:122-135 | the filter stage never lengthens the list; `VisibleMember` and `VisibleCount` give which cards it keeps |
| Catalog.VisibleCount | app.js:122-135 | filtering never invents or duplicates a card |
| Sorting.KeyOf | app.js:139-146 | the default comparator is chosen exactly for select values outside the five numeric keys |
| Sorting.Compare | app.js:138-145 | each comparator is negative or zero exactly when the first card ranks below or level with the second under the key |
| Sorting.Insert | app.js:140-145 | one insertion adds exactly one element |
| Sorting.SortByKey | app.js:140-145 | the sort keeps the length |
| Sorting.InsertPermutes | app.js:140-145 | one insertion adds the inserted card to the multiset and nothing else |
| Sorting.SortPermutes | app.js:140-145 | the sort is a permutation of its input |
| Sorting.InsertOrdered | app.js:140-145 | insertion into an ordered list keeps it ordered |
| Sorting.SortOrdered | app.js:138-146 | the sort's result is ordered by the comparator's rank |
| Sorting.InsertStable | app.js:140-145 | an inserted card lands behind every card of equal rank |
| Sorting.SortStable | app.js:140-145 | stability: for each rank value the cards with that rank keep their input order |
| Sorting.SortOrderByAttribute | app.js:138-146 | ascending keys give non-decreasing price or kcal; descending keys give non-increasing price, kcal or protein; the default gives non-increasing featured |
| Sorting.SortInPlace | app.js:140-145 | the array after the in-place sort equals the stable sort of its old contents |
| Sorting.InsertNext | app.js:140-145 | one pass turns the sorted prefix and the next element into their insertion, leaving the tail untouched |
| Listing.RenderedMember | app.js:121-146 | a card is rendered iff it passes both filters |
| Listing.Rendered | app.js:121-146 | the grid holds exactly as many cards as pass the filters; `RenderedPermutes` gives which |
| Listing.RenderedPermutes | app.js:122-146 | the rendered cards are a permutation of the filtered cards |
| Listing.RenderedOrder | app.js:138-146 | the grid's order for each select value, in the cards' own attributes |
| Listing.RenderedStable | app.js:140-145 | cards that tie under the selected key keep their relative order from the filtered list |
| Listing.EmptyStateShown | app.js:152-153 | the empty-state notice shows exactly when no card passes the filters |
| Listing.PriceDescExample | app.js:141 | sorting prices 59, 89, 45 by "price-desc" gives 89, 59, 45 |
| Theme.IndexOf | app.js:28 | `indexOf` gives -1 exactly for an absent value, and otherwise the first index holding it |
| Theme.Advance | app.js:27-29 | a click always lands on one of auto, dark, light |
| Theme.AdvanceCycle | app.js:27-29 | auto goes to dark, dark to light, light to auto |
| Theme.AdvanceUnknown | app.js:28-29 | an unrecognised stored theme advances to auto |
| Theme.AdvancePeriod3 | app.js:27-29 | three clicks return a recognised theme to itself |
| Theme.AdvanceMoves | app.js:27-29 | one or two clicks always change a recognised theme |
| Theme.InitialTheme | app.js:10 | the start-up theme is the stored one unless it is missing or empty, and then auto |
| Theme.InitialThemeRestores | app.js:10-30 | a theme the toggle persisted is the theme the next load starts with |
| Theme.Resolve | app.js:21 | auto resolves to dark iff the system prefers dark and to light otherwise; any other theme is written unchanged; so the mode is never auto, and a recognised theme gives dark or light |
| Theme.ResolveFixed | app.js:21 | a resolved mode resolves to itself under any system preference |
| Theme.PressedIff | app.js:21-23 | the toggle is pressed iff the theme is dark, or auto on a dark system |
| Favorites.Remove | app.js:52 | deleting an id keeps exactly the other members |
| Favorites.RemoveNoDup | app.js:52 | deleting keeps the list duplicate-free |
| Favorites.Toggle | app.js:52 | a toggle flips the membership of its id and of no other id |
| Favorites.ToggleNoDup | app.js:52-53 | a toggle keeps the persisted list duplicate-free |
| Favorites.ToggleTwiceMembers | app.js:52 | toggling twice restores every id's membership |
| Favorites.RemoveAppended | app.js:52 | adding an absent id and deleting it gives back the same list |
| Favorites.ToggleTwiceAbsent | app.js:52-53 | for a non-favorite, toggling twice restores the persisted list exactly |
| Favorites.ToggleTwiceReorders | app.js:52-53 | for a favorite, toggling twice can reorder the persisted list: ["a","b"] becomes ["b","a"] |
| Favorites.AddAll | app.js:9 | building a set from a list keeps exactly the listed ids, each once |
| Favorites.Load | app.js:9 | the start-up favorites are duplicate-free, empty when nothing is stored, and otherwise the stored ids |
| Favorites.AddAllFresh | app.js:9 | adding a duplicate-free list of new ids appends it unchanged |
| Favorites.LoadPersisted | app.js:9 | reloading the persisted list gives the same favorites in the same order |
| Favorites.ButtonFor | app.js:40-43 | a button is active, shows the filled heart, and reads "Ta bort favorit" exactly when its id is a favorite; otherwise it shows the empty heart and "Lägg till som favorit" |
| Favorites.ButtonDistinguishes | app.js:40-43 | favorite and non-favorite buttons never look the same |
| Contact.Accepts | app.js:165-170 | the handler's test that no trimmed field is empty holds iff each of name, email and message has a non-white-space character |
| Contact.MissingEmailRefused | app.js:170 | name "Anna", an empty email and message "Hej" is refused |
| Contact.ContactForm.constructor | app.js:160-161 | a form starts with the given fields and an empty status |
| Contact.ContactForm.Submit | app.js:162-178 | on refusal: the error text in the danger colour, fields unchanged; on acceptance: the thank-you text in the ok colour, all fields emptied |
| App.SortedIds | app.js:140-150 | sorting keeps the set of card ids in the grid |
| App.VisibleAll | app.js:5-8 | with the default query and chip every card is visible |
| App.Page.constructor | app.js:5-14 | the state defaults, the favorites loaded from storage (duplicate-free) and the stored theme or auto; the grid holds the markup's cards |
| App.Page.Start | app.js:33-157 | start-up: the applied theme, every card's button synced to the loaded favorites, and the grid rendered by featured rank with the notice hidden iff there are cards |
| App.StartSynced | app.js:46-157 | the render at start-up re-syncs the same ids the first sync covered, so every card's button shows its membership |
| App.InitialIds | app.js:157 | the first render shows exactly the ids of the markup's cards |
| App.Page.ApplyTheme | app.js:19-24 | the document theme is the resolved mode and the toggle is pressed iff it is dark |
| App.Page.ClickThemeToggle | app.js:25-32 | the theme advances one step in the cycle, is persisted and is applied |
| App.Page.SyncFavoriteButtons | app.js:36-45 | every button of a card in the grid shows that card's membership, and other buttons are unchanged |
| App.Page.ClickFavorite | app.js:48-56 | the id's membership is toggled, the persisted list equals the new set (duplicate-free), and the buttons are resynced |
| App.Page.Render | app.js:121-156 | the grid is the filtered, stably sorted cards; the empty notice is hidden iff the grid is non-empty; buttons are resynced unless sort-only |
| App.Page.InputSearch | app.js:59-63 | the query becomes the trimmed, lower-cased input and the grid is re-rendered |
| App.Page.ClickChip | app.js:66-74 | the category becomes the chip's filter and the grid is re-rendered |
| App.Page.ChangeSort | app.js:77-81 | the sort becomes the selected value and the grid is re-rendered without touching the buttons |

## Left out

- DOM lookup and event wiring are not modelled: `$`, `$$`, `addEventListener`, `closest`, and the chips' `is-active` class and `aria-pressed`. A handler is a method called with the value the event carries.
- `innerHTML` and `appendChild` are not modelled as DOM operations. The grid is the sequence of cards it holds after a render.
- `syncFavoriteButtons` only reaches buttons of cards in the grid. `render` detaches every other card, so this matches what is in the document. The buttons' markup state before the first sync is not modelled: the map starts empty.
- How the browser computes `innerText` is not modelled; each card's text is a fixed string. In the page, a card that the previous `render` detached from the document falls back to `textContent`: white space is not collapsed and hidden text is included. So whether a card matches a query can depend on whether the last render kept it in the grid. The model's fixed `Card.text` makes `render` a function of the state alone, which the page is not.
- Local storage and JSON are abstracted. A stored key is `None` when missing or empty; otherwise it holds the already-parsed list or string. Malformed JSON throws at start-up, and a JSON value that is not a list of strings misbehaves; neither is modelled.
- `matchMedia` is replaced by a boolean parameter, the system's dark preference at the time of the call.
- `parseFloat`/`parseInt` of `data-*` strings, fractional prices and NaN comparisons are left out: the attributes are integers.
- `Sorting.SortInPlace` follows insertion sort; `Array.prototype.sort`'s own algorithm is implementation-defined. Every stable sort under a consistent comparator gives the same order, but that uniqueness is not proved here.
- The recipe modal is dialog plumbing with no state worth verifying (app.js:84-118): `showModal`, the fallback `open` attribute, Escape to close, and Enter to open.
- `FormData` extraction is not modelled. The model assumes all three fields are present; a missing field would read as `undefined` and be refused. The footer year from `Date` is also left out.
- Contact.ContactForm.Submit: `reset()` restores the fields to their markup defaults, which the model takes to be empty.
- Text.Lower: does not model case mapping outside Basic Latin and Latin-1 (Greek, Cyrillic, and special cases such as U+0130 that lower-case to two code points), because the cards' Swedish text needs only these.
