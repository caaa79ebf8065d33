# Pokédex catalogue view — a Dafny model

This project models the client-side logic of a small Pokédex web app: the
catalogue page (`src/app/page.tsx`), the filter bar
(`src/components/FilterBar.tsx`) and the card with its image fallback
(`src/components/PokemonCard.tsx`).

The catalogue page receives the first 151 entries from the list endpoint. It
keeps, in their original order, the entries whose name contains the name
filter, compared case-insensitively. When a type is chosen, an entry must also
appear in that type's member list. The matches are cut into pages of
`POKEMONS_PER_PAGE = 12`. `totalPages = Math.ceil(n / 12)`, and the visible page
is `slice(start, start + 12)` with `start = (currentPage - 1) * 12`.

Page state:
- Every change of either filter sets `currentPage` back to 1.
- "Previous" is disabled at page 1.
- "Next" is disabled when `currentPage === totalPages`.
- The buttons are only rendered when `totalPages > 1`.

Each card's `image` prop carries the sprite number `start + index + 1`. The card
starts with the image it was given at mount and switches to `/fallback.png` when
the image fails to load.

Files and modules:

- `js_runtime.dfy` — `JsRuntime`: the JavaScript behaviour the page relies on.
  - `null`/`undefined` and `??` (`Nullable`, `Coalesce`).
  - ASCII `toLowerCase`/`toUpperCase`.
  - `String.prototype.includes`, with a proof that the left-to-right scan answers
    "occurs at some position".
  - `Array.prototype.slice` with ECMAScript index clamping.
- `sequences.dfy` — `Sequences`: order-preserving `Filter`. `SelectedAt` says
  that a result is exactly the in-order subsequence at the matching positions.
- `catalogue.dfy` — `Catalogue`: the page.
  - The filter predicate and `filteredPokemons`.
  - `totalPages` and the page slice.
  - The sprite number.
  - The page state machine (`State`, `Event`, `Step`).
  - What is rendered (`Render`).
- `catalogue_scenarios.dfy` — `CatalogueScenarios`: the page run on the hooks'
  test fixtures. These are bulbasaur/charmander and the "fire" type whose only
  member is charmander.
- `filter_bar.dfy` — `FilterBar`: the option list, label capitalisation and the
  change events.
- `pokemon_card.dfy` — `PokemonCard`: the `imgSrc` two-state machine.

The hooks' results are inputs, not computations. A `Catalogue.Snapshot` holds:
- the entry list (possibly not loaded);
- the chosen type's member names (possibly not loaded);
- the combined loading flag `isLoading || loadingType`.

Two behaviours are modelled as written and exhibited, not corrected:

- **The `image` prop's sprite number depends on position.** It is the card's
  1-based position among the matches, not the entry's own number
  (`Catalogue.ImageIndexIsPositionInMatches`). Under the "fire" filter,
  charmander (number 4) is given sprite 1 (`CatalogueScenarios.FireTypeCardUsesPosition`).
- **Nothing clamps `currentPage` when the matches shrink under it.** A stranded
  page shows no cards. Because the guard is `currentPage === totalPages`, "next"
  stays enabled past the end (`Catalogue.RefreshCanStrandPage`). Every filter
  change resets the page, so this needs the data to change without a filter
  change.

## Model

| member | source | states |
|---|---|---|
| JsRuntime.LowerChar | src/app/page.tsx:22 | lower-casing maps A–Z to a–z (32 code points up) and fixes every other character; the result is never upper-case |
| JsRuntime.UpperChar | src/components/FilterBar.tsx:35 | upper-casing maps a–z to A–Z (32 code points down) and fixes every other character; the result is never lower-case |
| JsRuntime.ToLowerCase | src/app/page.tsx:22 | `toLowerCase` keeps the length and lower-cases every position |
| JsRuntime.ToLowerCaseIdempotent | src/app/page.tsx:22 | lower-casing twice equals lower-casing once |
| JsRuntime.IncludesIffOccurs | src/app/page.tsx:22 | the `includes` scan answers true exactly when the needle occurs at some position of the haystack |
| JsRuntime.IncludesEmpty | src/app/page.tsx:22 | every string includes the empty string |
| JsRuntime.Slice | src/app/page.tsx:28 | `slice(start, end)` returns at most `end - start` elements and at most the whole sequence; for `0 <= start <= end` it is the elements between `start` and `end`, both clamped to the length |
| Sequences.Filter | src/app/page.tsx:21-24 | `filter` keeps at most the input's elements; every kept element is from the input and passes the predicate; every passing element is kept |
| Sequences.FilterSelectsMatches | src/app/page.tsx:21-24 | `filter` returns the input's elements at strictly increasing positions, and those positions are exactly the ones whose element passes |
| Sequences.FilterKeepsAll | src/app/page.tsx:21-24 | when every element passes, `filter` returns the input unchanged |
| Catalogue.FilterPokemons | src/app/page.tsx:19-24 | an absent entry list gives no matches; an entry is a match exactly when it is in the list, its lower-cased name includes the lower-cased name filter, and the type filter is empty or the name is in the member list (an absent list counts as empty) |
| Catalogue.FilterPokemonsIsOrderedSelection | src/app/page.tsx:21-24 | the matches are the in-order subsequence of the list at exactly the positions meeting both conditions |
| Catalogue.EmptyNameMatchesAll | src/app/page.tsx:22 | an empty name filter matches every entry |
| Catalogue.EmptyFiltersKeepEverything | src/app/page.tsx:21-24 | with both filters empty the matches are the whole list, in order |
| Catalogue.UnloadedTypeMatchesNothing | src/app/page.tsx:19-24 | with a type chosen and its members not yet loaded (or empty, as for an unknown type) there are no matches |
| Catalogue.TypeOnlyIsIntersection | src/app/page.tsx:21-23 | with only a type chosen, an entry is a match exactly when it is in the list and its name is a member |
| Catalogue.TotalPages | src/app/page.tsx:26 | `totalPages` is the least number of 12-entry pages that hold the matches; it is 0 exactly when there are none |
| Catalogue.PageSlice | src/app/page.tsx:27-28 | the visible page has at most 12 entries; for page `p >= 1` it is `filtered[(p-1)*12 .. min(p*12, n)]` (start clamped too) |
| Catalogue.PageSizes | src/app/page.tsx:26-28 | every page before the last is full and the last page is non-empty |
| Catalogue.PagePastEndIsEmpty | src/app/page.tsx:26-28 | a page number beyond `totalPages` shows nothing |
| Catalogue.PagesUpToIsPrefix | src/app/page.tsx:26-28 | pages `1..k` laid end to end are the first `min(12k, n)` matches; from `k = totalPages` on they are all the matches |
| Catalogue.AllPagesReassemble | src/app/page.tsx:26-28 | pages `1..totalPages` concatenated equal the matches: no loss, no duplication |
| Catalogue.EntryOnItsPage | src/app/page.tsx:26-28 | match `i` appears on page `i / 12 + 1`, which exists, at position `i % 12` |
| Catalogue.PageImageIndicesContiguous | src/app/page.tsx:53-57 | the sprite numbers over a page are exactly the run `start + 1 .. start + len(page)` |
| Catalogue.CardsOf | src/app/page.tsx:53-58 | one card per page entry, in order, with the entry's name and, as its `image` prop's sprite number, the page's sprite number at that position (the contiguous run of `PageImageIndicesContiguous`) |
| Catalogue.ImageIndexIsPositionInMatches | src/app/page.tsx:53-57 | the card at position `i` of a page shows the match whose 1-based position among the matches is the `image` prop's sprite number |
| Catalogue.NameInputResetsPage | src/app/page.tsx:37-40 | typing a value sets the name filter to exactly that value, keeps the type filter and sets the page to 1, whatever it was |
| Catalogue.TypeSelectResetsPage | src/app/page.tsx:41-44 | choosing option `k` sets the type filter to "" for `k = 0` and to type `k-1` otherwise, keeps the name filter and sets the page to 1 |
| Catalogue.EnabledStepsStayInRange | src/app/page.tsx:62-80 | from a page in range, an enabled "previous" means the page is above 1 and decrements it; an enabled "next" means the page is below `totalPages` and increments it |
| Catalogue.StepKeepsPageInRange | src/app/page.tsx:37-80 | every action keeps `1 <= currentPage <= max(1, totalPages)`; after a filter change this holds for whatever data arrives |
| Catalogue.RunKeepsPageInRange | src/app/page.tsx:37-80 | any sequence of actions over unchanged data keeps the page in range |
| Catalogue.RunWithRefreshesKeepsPagePositive | src/app/page.tsx:37-80 | starting from page 1 or later, no run of actions takes the page below 1, even when the data changes before any action; so `RenderShowsCurrentPage` applies to every reachable state |
| Catalogue.InitialInRange | src/app/page.tsx:13-15 | the initial state (empty filters, page 1) is in range for any data |
| Catalogue.RefreshCanStrandPage | src/app/page.tsx:26-80 | after a refresh from 36 to 13 entries page 3 is out of range, shows no cards, and "next" is still enabled and moves to page 4 |
| Catalogue.RenderShowsCurrentPage | src/app/page.tsx:48-82 | after loading, the grid shows exactly one card per entry of the visible page, so at most 12; card `i` is match `start + i` and its `image` prop has sprite number `start + i + 1`; the buttons are shown exactly when `totalPages > 1`; each is disabled exactly when clicking it would do nothing |
| CatalogueScenarios.TwoEntriesMatchAll | src/app/page.tsx:21-28 | for the list bulbasaur, charmander with no filters, both match, in one page |
| CatalogueScenarios.TwoEntriesOnePage | src/app/page.tsx:48-82 | that list renders as cards bulbasaur (sprite 1) and charmander (sprite 2) with no pagination bar |
| CatalogueScenarios.TypeOnlyPair | src/app/page.tsx:21-23 | with only a type chosen, of two entries where only the second is a member, only the second matches |
| CatalogueScenarios.FireTypeKeepsCharmander | src/app/page.tsx:21-24 | filtering the fixture list by "fire" with members ["charmander"] gives exactly [charmander] |
| CatalogueScenarios.FireTypeCardUsesPosition | src/app/page.tsx:53-57 | that filter renders one card, charmander, with sprite number 1 |
| FilterBar.CapitalizeShape | src/components/FilterBar.tsx:35 | the label has the type's length; positions after the first are unchanged; the first is not lower-case; "" gives "" |
| FilterBar.CapitalizeSameIgnoringCase | src/components/FilterBar.tsx:35 | lower-cased, the label equals the lower-cased type |
| FilterBar.CapitalizeIdempotent | src/components/FilterBar.tsx:35 | capitalising a label again leaves it unchanged |
| FilterBar.TypeOptions | src/components/FilterBar.tsx:32-37 | the options are the "all types" option (value "") followed by one option per type, in order, with the type as value and its capitalisation as label; a missing list counts as empty; the count is `1 + len(types)` |
| FilterBar.TypeOptionValues | src/components/FilterBar.tsx:32-37 | a missing type list gives only the "all types" option; the values of the options after the first are the type list, in order; every option value is "" (the first) or one of the types |
| PokemonCard.Mount | src/components/PokemonCard.tsx:12 | a mounted card shows the image it was given |
| PokemonCard.HandleError | src/components/PokemonCard.tsx:14-16 | on a load error the source becomes `/fallback.png` and the name and image are kept |
| PokemonCard.HandleErrorIdempotent | src/components/PokemonCard.tsx:15 | handling an error twice equals handling it once |
| PokemonCard.ReplayKeepsValid | src/components/PokemonCard.tsx:12-26 | after any image events the source is still the image or the fallback; the name, the image and the alt text do not change |
| PokemonCard.FallbackIsFinal | src/components/PokemonCard.tsx:14-16 | once the fallback shows, no later event brings back the original image |
| PokemonCard.ReplayShowsFallbackIffFailed | src/components/PokemonCard.tsx:12-26 | starting from a non-fallback source, the card shows the fallback exactly when some event was a load failure; with no failure the card is unchanged |
| PokemonCard.FirstFailureIsFinal | src/components/PokemonCard.tsx:12-26 | a card whose first load fails shows the fallback whatever follows, and its alt text is the name |

## Left out

- The data hooks (`src/hooks/*.ts`) are left out: HTTP GETs, react-query caching, `staleTime`, `enabled` and query keys. Their results are the inputs of `Catalogue.Snapshot`. This includes the 404 of an unknown type, which leaves the member list undefined.
- The `/pokemon/[id]` route (`src/app/pokemon/[id]/page.tsx`) is left out. It never reads `id`: it renders a second, unpaginated copy of the catalogue that filters by name only (the type select is shown but its value is never applied) and gives each card sprite number `index + 1`.
- `usePokemonDetails` is left out because no page uses it.
- The hook tests are left out because they are an I/O harness. Their fixtures reappear in `CatalogueScenarios`.
- Rendering details are left out: JSX, Tailwind classes, the loading message text, the "Página X de Y" text, `key` props and the sprite URL prefix. Only the sprite number of the `image` prop is kept.
- `PokemonCard`'s `onClick` is left out because the page never passes one.
- Case mapping is ASCII-only. Full Unicode `toLowerCase`/`toUpperCase` (including one-to-many mappings) is left out.
- Catalogue.TotalPages: `Math.ceil(n / 12)` is computed in floating point in the source. The model uses exact integer ceiling, which agrees for any list size the app can hold.
- React scheduling and reconciliation are left out. Cards are keyed by name and `useState(image)` reads its argument only at mount, so a card that stays mounted keeps its mount-time `imgSrc` when a later render passes a different `image`. For example, after typing "char", charmander still shows sprite 4. `CardView.imageIndex` is the `image` prop passed on each render, not necessarily the sprite on screen.
- Catalogue.RunKeepsPageInRange keeps the data fixed during the run. A data change between actions is covered by `StepKeepsPageInRange` after filter changes, and otherwise by the counterexample `RefreshCanStrandPage`.
- The filter bar's `onChange` handlers have no contract of their own. That they forward the raw value is stated through `Catalogue.NameInputResetsPage` and `Catalogue.TypeSelectResetsPage`.
