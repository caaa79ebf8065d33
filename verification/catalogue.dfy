/**
  The catalogue page: the entries fetched from the API are filtered by a
  case-insensitive name substring and, when a type is chosen, by that type's
  membership list; the matches are cut into pages of twelve; the page number
  is reset by every filter change and moved by the previous/next buttons.
  Fetching is not modelled: the hooks' results arrive as `Snapshot` values.
 */
module Catalogue {
  import opened JsRuntime
  import Sequences
  import FilterBar

  /** `POKEMONS_PER_PAGE`. */
  const PerPage: nat := 12

  /** One entry of the list endpoint. */
  datatype Entry = Entry(name: string, url: string)

  // ---------------------------------------------------------------------------
  // Filter
  // ---------------------------------------------------------------------------

  /** The name filter, compared case-insensitively as a substring. */
  predicate NameMatches(e: Entry, nameFilter: string)
  {
    Includes(ToLowerCase(e.name), ToLowerCase(nameFilter))
  }

  /** The type filter: no type chosen, or the entry's name is in the type's member list. */
  predicate TypeAllows(e: Entry, typeFilter: string, allowedNames: seq<string>)
  {
    typeFilter == "" || e.name in allowedNames
  }

  /** The predicate handed to `filter`. */
  function Criterion(nameFilter: string, typeFilter: string, allowedNames: seq<string>): Entry -> bool
  {
    e => NameMatches(e, nameFilter) && TypeAllows(e, typeFilter, allowedNames)
  }

  /**
    `filteredPokemons`: an absent list gives no matches, an absent membership
    list counts as empty.
   */
  function FilterPokemons(pokemonData: Nullable<seq<Entry>>, nameFilter: string, typeFilter: string,
                          allowedData: Nullable<seq<string>>): (r: seq<Entry>)
    ensures pokemonData.Missing? ==> r == []
    ensures forall e :: e in r <==>
              pokemonData.Present? && e in pokemonData.value
              && NameMatches(e, nameFilter) && TypeAllows(e, typeFilter, Coalesce(allowedData, []))
  {
    match pokemonData
    case Missing => []
    case Present(entries) => Sequences.Filter(entries, Criterion(nameFilter, typeFilter, Coalesce(allowedData, [])))
  }

  /** The matches are the list's entries at some increasing positions, and those positions are exactly the matching ones. */
  lemma FilterPokemonsIsOrderedSelection(entries: seq<Entry>, nameFilter: string, typeFilter: string,
                                         allowedData: Nullable<seq<string>>)
    ensures exists idx :: Sequences.SelectedAt(FilterPokemons(Present(entries), nameFilter, typeFilter, allowedData),
                                               entries, Criterion(nameFilter, typeFilter, Coalesce(allowedData, [])), idx)
  {
    var keep := Criterion(nameFilter, typeFilter, Coalesce(allowedData, []));
    Sequences.FilterSelectsMatches(entries, keep);
    assert FilterPokemons(Present(entries), nameFilter, typeFilter, allowedData) == Sequences.Filter(entries, keep);
  }

  /** The empty name filter matches every entry. */
  lemma EmptyNameMatchesAll(e: Entry)
    ensures NameMatches(e, "")
  {
    assert ToLowerCase("") == "";
    IncludesEmpty(ToLowerCase(e.name));
  }

  /** With both filters empty, every entry is kept, in order. */
  lemma EmptyFiltersKeepEverything(entries: seq<Entry>, allowedData: Nullable<seq<string>>)
    ensures FilterPokemons(Present(entries), "", "", allowedData) == entries
  {
    forall i | 0 <= i < |entries|
      ensures Criterion("", "", Coalesce(allowedData, []))(entries[i])
    {
      EmptyNameMatchesAll(entries[i]);
    }
    Sequences.FilterKeepsAll(entries, Criterion("", "", Coalesce(allowedData, [])));
  }

  /** A type chosen before its members have loaded, or a type with no members, matches nothing. */
  lemma UnloadedTypeMatchesNothing(pokemonData: Nullable<seq<Entry>>, nameFilter: string, typeFilter: string,
                                   allowedData: Nullable<seq<string>>)
    requires typeFilter != ""
    requires allowedData == Missing || allowedData == Present([])
    ensures FilterPokemons(pokemonData, nameFilter, typeFilter, allowedData) == []
  {
    if pokemonData.Present? {
      Sequences.FilterDropsAll(pokemonData.value, Criterion(nameFilter, typeFilter, Coalesce(allowedData, [])));
    }
  }

  /** With only a type chosen, the matches are the entries whose name is a member, in list order. */
  lemma TypeOnlyIsIntersection(entries: seq<Entry>, typeFilter: string, members: seq<string>)
    requires typeFilter != ""
    ensures forall e :: e in FilterPokemons(Present(entries), "", typeFilter, Present(members)) <==>
              e in entries && e.name in members
  {
    forall e | e in entries
      ensures NameMatches(e, "")
    {
      EmptyNameMatchesAll(e);
    }
  }

  // ---------------------------------------------------------------------------
  // Pagination
  // ---------------------------------------------------------------------------

  /** `Math.ceil(count / POKEMONS_PER_PAGE)`: the fewest pages of twelve that hold `count` items. */
  function TotalPages(count: nat): (t: nat)
    ensures t * PerPage >= count
    ensures t == 0 || (t - 1) * PerPage < count
    ensures t == 0 <==> count == 0
  {
    (count + PerPage - 1) / PerPage
  }

  /** `start`: the position in the matches of the first entry of page `currentPage`. */
  function PageStart(currentPage: int): int
  {
    (currentPage - 1) * PerPage
  }

  /** `currentPokemons`: the slice `[start, start + 12)` of the matches. */
  function PageSlice<T>(filtered: seq<T>, currentPage: int): (r: seq<T>)
    ensures |r| <= PerPage
    ensures currentPage >= 1 ==>
              r == filtered[Min(PageStart(currentPage), |filtered|)..Min(PageStart(currentPage) + PerPage, |filtered|)]
  {
    var start := PageStart(currentPage);
    Slice(filtered, start, start + PerPage)
  }

  /** Every page before the last is full, and the last page is not empty. */
  lemma PageSizes<T>(filtered: seq<T>, currentPage: int)
    requires 1 <= currentPage <= TotalPages(|filtered|)
    ensures currentPage < TotalPages(|filtered|) ==> |PageSlice(filtered, currentPage)| == PerPage
    ensures 0 < |PageSlice(filtered, currentPage)|
  {
  }

  /** A page past the last one is empty. */
  lemma PagePastEndIsEmpty<T>(filtered: seq<T>, currentPage: int)
    requires currentPage > TotalPages(|filtered|)
    ensures PageSlice(filtered, currentPage) == []
  {
  }

  /** Pages `1..k` laid end to end. */
  function PagesUpTo<T>(filtered: seq<T>, k: nat): seq<T>
    decreases k
  {
    if k == 0 then [] else PagesUpTo(filtered, k - 1) + PageSlice(filtered, k)
  }

  /**
    The first `k` pages together are the first `12 * k` matches, and once `k`
    reaches `totalPages` they are all of them.
   */
  lemma {:induction false} PagesUpToIsPrefix<T>(filtered: seq<T>, k: nat)
    ensures PagesUpTo(filtered, k) == filtered[..Min(k * PerPage, |filtered|)]
    ensures k >= TotalPages(|filtered|) ==> PagesUpTo(filtered, k) == filtered
    decreases k
  {
    assert filtered[..|filtered|] == filtered;
    if k > 0 {
      PagesUpToIsPrefix(filtered, k - 1);
      var a := Min((k - 1) * PerPage, |filtered|);
      var b := Min(k * PerPage, |filtered|);
      assert PageSlice(filtered, k) == filtered[a..b];
      assert filtered[..a] + filtered[a..b] == filtered[..b];
    }
  }

  /** Concatenating pages `1..totalPages` gives back the matches exactly: nothing lost, nothing repeated. */
  lemma AllPagesReassemble<T>(filtered: seq<T>)
    ensures PagesUpTo(filtered, TotalPages(|filtered|)) == filtered
  {
    PagesUpToIsPrefix(filtered, TotalPages(|filtered|));
    assert filtered[..|filtered|] == filtered;
  }

  /** The match at position `i` is on page `i / 12 + 1`, at position `i % 12` of that page. */
  lemma EntryOnItsPage<T>(filtered: seq<T>, i: int)
    requires 0 <= i < |filtered|
    ensures 1 <= i / PerPage + 1 <= TotalPages(|filtered|)
    ensures i % PerPage < |PageSlice(filtered, i / PerPage + 1)|
    ensures PageSlice(filtered, i / PerPage + 1)[i % PerPage] == filtered[i]
  {
    var p := i / PerPage + 1;
    assert PageStart(p) == i - i % PerPage;
  }

  // ---------------------------------------------------------------------------
  // Card image index
  // ---------------------------------------------------------------------------

  /** The sprite number in the card's image URL: `start + index + 1`. */
  function ImageIndex(start: int, index: int): int
  {
    start + index + 1
  }

  /** The sprite numbers of the cards of one page, in display order. */
  function PageImageIndices<T>(page: seq<T>, start: int): (r: seq<int>)
    ensures |r| == |page|
  {
    seq(|page|, i requires 0 <= i < |page| => ImageIndex(start, i))
  }

  /** The integers `lo, lo + 1, ..., hi - 1`. */
  function Range(lo: int, hi: int): seq<int>
    decreases hi - lo
  {
    if lo >= hi then [] else [lo] + Range(lo + 1, hi)
  }

  lemma {:induction false} RangeAt(lo: int, hi: int, i: int)
    requires 0 <= i < hi - lo
    ensures |Range(lo, hi)| == hi - lo
    ensures Range(lo, hi)[i] == lo + i
    decreases hi - lo
  {
    if i > 0 {
      RangeAt(lo + 1, hi, i - 1);
    } else if lo + 1 < hi {
      RangeAt(lo + 1, hi, 0);
    }
  }

  /** The sprite numbers over a page are the contiguous run `start + 1 .. start + |page|`. */
  lemma PageImageIndicesContiguous<T>(page: seq<T>, start: int)
    ensures PageImageIndices(page, start) == Range(start + 1, start + |page| + 1)
  {
    var r := PageImageIndices(page, start);
    if |page| > 0 {
      RangeAt(start + 1, start + |page| + 1, 0);
    } else {
      assert Range(start + 1, start + 1) == [];
    }
    forall i | 0 <= i < |page|
      ensures r[i] == Range(start + 1, start + |page| + 1)[i]
    {
      RangeAt(start + 1, start + |page| + 1, i);
    }
  }

  /**
    The sprite number of a card is its 1-based position among the MATCHES, not
    anything taken from the entry itself.
   */
  lemma ImageIndexIsPositionInMatches<T>(filtered: seq<T>, currentPage: int, i: int)
    requires currentPage >= 1
    requires 0 <= i < |PageSlice(filtered, currentPage)|
    ensures 1 <= ImageIndex(PageStart(currentPage), i) <= |filtered|
    ensures PageSlice(filtered, currentPage)[i] == filtered[ImageIndex(PageStart(currentPage), i) - 1]
  {
  }

  // ---------------------------------------------------------------------------
  // Page state
  // ---------------------------------------------------------------------------

  /** The page's own state. */
  datatype State = State(nameFilter: string, typeFilter: string, currentPage: int)

  /** Both filters empty, first page. */
  const Initial: State := State("", "", 1)

  /**
    What the hooks currently report: the entry list, the chosen type's member
    names, and whether either of them is still loading.
   */
  datatype Snapshot = Snapshot(pokemonData: Nullable<seq<Entry>>, allowedNames: Nullable<seq<string>>, loading: bool)

  /** The user's actions on the page. */
  datatype Event = Bar(change: FilterBar.Change) | PrevClicked | NextClicked

  function Matches(s: State, d: Snapshot): seq<Entry>
  {
    FilterPokemons(d.pokemonData, s.nameFilter, s.typeFilter, d.allowedNames)
  }

  function PageCount(s: State, d: Snapshot): nat
  {
    TotalPages(|Matches(s, d)|)
  }

  /** The buttons are rendered only after loading and only when there is more than one page. */
  predicate ControlsShown(s: State, d: Snapshot)
  {
    !d.loading && PageCount(s, d) > 1
  }

  /** "Previous" is clickable when shown and not disabled by `currentPage === 1`. */
  predicate PrevEnabled(s: State, d: Snapshot)
  {
    ControlsShown(s, d) && s.currentPage != 1
  }

  /** "Next" is clickable when shown and not disabled by `currentPage === totalPages`. */
  predicate NextEnabled(s: State, d: Snapshot)
  {
    ControlsShown(s, d) && s.currentPage != PageCount(s, d)
  }

  /** One user action; a click on a hidden or disabled button does nothing. */
  function Step(s: State, d: Snapshot, ev: Event): State
  {
    match ev
    case Bar(c) =>
      if c.NameChange? then s.(nameFilter := c.value, currentPage := 1)
      else s.(typeFilter := c.value, currentPage := 1)
    case PrevClicked => if PrevEnabled(s, d) then s.(currentPage := s.currentPage - 1) else s
    case NextClicked => if NextEnabled(s, d) then s.(currentPage := s.currentPage + 1) else s
  }

  /** A run of user actions while the snapshot stays the same. */
  function Run(s: State, d: Snapshot, evs: seq<Event>): State
    decreases |evs|
  {
    if |evs| == 0 then s else Run(Step(s, d, evs[0]), d, evs[1..])
  }

  /** The page number is a real page, or 1 when there are none. */
  ghost predicate PageInRange(s: State, d: Snapshot)
  {
    1 <= s.currentPage <= if PageCount(s, d) == 0 then 1 else PageCount(s, d)
  }

  /** Typing a name sets the name filter to exactly what was typed and goes back to page 1, whatever the page was. */
  lemma NameInputResetsPage(s: State, d: Snapshot, typed: string)
    ensures Step(s, d, Bar(FilterBar.OnNameInput(typed))) == State(typed, s.typeFilter, 1)
  {
  }

  /** Choosing option `k` of the select sets the type filter to that option's type ("" for the first) and goes back to page 1. */
  lemma TypeSelectResetsPage(s: State, d: Snapshot, types: Nullable<seq<string>>, k: int)
    requires 0 <= k < |FilterBar.TypeOptions(types)|
    ensures Step(s, d, Bar(FilterBar.OnTypeSelect(FilterBar.TypeOptions(types)[k].value)))
            == State(s.nameFilter, if k == 0 then "" else Coalesce(types, [])[k - 1], 1)
  {
  }

  /** An enabled button moves the page one step and stays inside `1..totalPages`. */
  lemma EnabledStepsStayInRange(s: State, d: Snapshot)
    requires PageInRange(s, d)
    ensures PrevEnabled(s, d) ==> 1 < s.currentPage && Step(s, d, PrevClicked).currentPage == s.currentPage - 1
    ensures NextEnabled(s, d) ==> s.currentPage < PageCount(s, d) && Step(s, d, NextClicked).currentPage == s.currentPage + 1
  {
  }

  /** Every action keeps the page in range; a filter change does so whatever data arrives next. */
  lemma StepKeepsPageInRange(s: State, d: Snapshot, ev: Event, next: Snapshot)
    requires PageInRange(s, d)
    ensures PageInRange(Step(s, d, ev), d)
    ensures ev.Bar? ==> PageInRange(Step(s, d, ev), next)
  {
  }

  /** From a page in range, no run of actions leaves the range. */
  lemma {:induction false} RunKeepsPageInRange(s: State, d: Snapshot, evs: seq<Event>)
    requires PageInRange(s, d)
    ensures PageInRange(Run(s, d, evs), d)
    decreases |evs|
  {
    if |evs| > 0 {
      StepKeepsPageInRange(s, d, evs[0], d);
      RunKeepsPageInRange(Step(s, d, evs[0]), d, evs[1..]);
    }
  }

  /** A run of user actions in which the hooks may report new data before each action. */
  function RunWithRefreshes(s: State, steps: seq<(Snapshot, Event)>): State
    decreases |steps|
  {
    if |steps| == 0 then s else RunWithRefreshes(Step(s, steps[0].0, steps[0].1), steps[1..])
  }

  /** Whatever the data, no action takes the page number below 1. */
  lemma StepKeepsPagePositive(s: State, d: Snapshot, ev: Event)
    requires s.currentPage >= 1
    ensures Step(s, d, ev).currentPage >= 1
  {
  }

  /**
    From page 1 or later, no run of actions takes the page number below 1, even
    when the data changes between actions; the page may still pass
    `totalPages` (see `RefreshCanStrandPage`).
   */
  lemma {:induction false} RunWithRefreshesKeepsPagePositive(s: State, steps: seq<(Snapshot, Event)>)
    requires s.currentPage >= 1
    ensures RunWithRefreshes(s, steps).currentPage >= 1
    decreases |steps|
  {
    if |steps| > 0 {
      StepKeepsPagePositive(s, steps[0].0, steps[0].1);
      RunWithRefreshesKeepsPagePositive(Step(s, steps[0].0, steps[0].1), steps[1..]);
    }
  }

  /** The page starts in range, whatever the hooks have loaded. */
  lemma InitialInRange(d: Snapshot)
    ensures PageInRange(Initial, d)
  {
  }

  /**
    Nothing clamps the page when the data shrinks under it: a page that was the
    last of three is stranded after a refresh down to two pages, shows no
    cards, and "next" is still enabled and moves further away.
   */
  lemma RefreshCanStrandPage(d: Snapshot, d': Snapshot)
    requires !d.loading && !d'.loading
    requires d.pokemonData.Present? && |d.pokemonData.value| == 3 * PerPage
    requires d'.pokemonData.Present? && d'.pokemonData.value == d.pokemonData.value[..PerPage + 1]
    ensures PageInRange(State("", "", 3), d)
    ensures !PageInRange(State("", "", 3), d')
    ensures PageSlice(Matches(State("", "", 3), d'), 3) == []
    ensures NextEnabled(State("", "", 3), d') && Step(State("", "", 3), d', NextClicked).currentPage == 4
  {
    EmptyFiltersKeepEverything(d.pokemonData.value, d.allowedNames);
    EmptyFiltersKeepEverything(d'.pokemonData.value, d'.allowedNames);
  }

  // ---------------------------------------------------------------------------
  // Rendering
  // ---------------------------------------------------------------------------

  /**
    One rendered card: the entry's name and the sprite number of the `image`
    prop it is given. A card stays mounted under its name, and `PokemonCard`
    reads `image` only at mount, so the sprite on screen can be an earlier one.
   */
  datatype CardView = CardView(name: string, imageIndex: int)

  /** The pagination bar. */
  datatype Controls = Controls(prevDisabled: bool, nextDisabled: bool, currentPage: int, totalPages: nat)

  datatype Screen = Loading | Grid(cards: seq<CardView>, controls: Nullable<Controls>)

  /** The cards of one page: each entry's name with the sprite number `start + index + 1`. */
  function CardsOf(page: seq<Entry>, start: int): (r: seq<CardView>)
    ensures |r| == |page|
    ensures forall i :: 0 <= i < |page| ==> r[i].name == page[i].name && r[i].imageIndex == PageImageIndices(page, start)[i]
  {
    seq(|page|, i requires 0 <= i < |page| => CardView(page[i].name, ImageIndex(start, i)))
  }

  /** `totalPages > 1 && (...)`: the bar, or nothing. */
  function ControlsOf(currentPage: int, totalPages: nat): Nullable<Controls>
  {
    if totalPages > 1 then Present(Controls(currentPage == 1, currentPage == totalPages, currentPage, totalPages))
    else Missing
  }

  /** What the page shows for a state and a snapshot. */
  function Render(s: State, d: Snapshot): Screen
  {
    if d.loading then Loading
    else
      var filtered := Matches(s, d);
      Grid(CardsOf(PageSlice(filtered, s.currentPage), PageStart(s.currentPage)),
           ControlsOf(s.currentPage, TotalPages(|filtered|)))
  }

  /**
    After loading, the grid shows at most twelve cards: card `i` is match
    `start + i` and carries sprite number `start + i + 1`; the bar is shown
    exactly when there is more than one page, and its buttons are disabled
    exactly when they would not act.
   */
  lemma RenderShowsCurrentPage(s: State, d: Snapshot)
    requires !d.loading && s.currentPage >= 1
    ensures Render(s, d).Grid?
    ensures |Render(s, d).cards| == |PageSlice(Matches(s, d), s.currentPage)| <= PerPage
    ensures forall i :: 0 <= i < |Render(s, d).cards| ==>
              PageStart(s.currentPage) + i < |Matches(s, d)|
              && Render(s, d).cards[i].name == Matches(s, d)[PageStart(s.currentPage) + i].name
              && Render(s, d).cards[i].imageIndex == PageStart(s.currentPage) + i + 1
    ensures Render(s, d).controls.Present? <==> ControlsShown(s, d)
    ensures Render(s, d).controls.Present? ==>
              (Render(s, d).controls.value.prevDisabled <==> !PrevEnabled(s, d))
              && (Render(s, d).controls.value.nextDisabled <==> !NextEnabled(s, d))
  {
  }
}
