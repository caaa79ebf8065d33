/**
  Worked scenarios of the catalogue page on the fixtures used by the hooks'
  tests: a two-entry list (bulbasaur, charmander) and the "fire" type whose
  only member is charmander.
 */
module CatalogueScenarios {
  import opened JsRuntime
  import Sequences
  import opened Catalogue

  const Bulbasaur: Entry := Entry("bulbasaur", "https://pokeapi.co/api/v2/pokemon/1/")
  const Charmander: Entry := Entry("charmander", "https://pokeapi.co/api/v2/pokemon/4/")

  /** Two entries, no filters: both match, on a single page. */
  lemma TwoEntriesMatchAll(entries: seq<Entry>, d: Snapshot)
    requires entries == [Bulbasaur, Charmander]
    requires d == Snapshot(Present(entries), Missing, false)
    ensures Matches(Initial, d) == entries
    ensures PageCount(Initial, d) == 1
    ensures PageSlice(Matches(Initial, d), 1) == entries
  {
    EmptyFiltersKeepEverything(entries, Missing);
    assert PageSlice(entries, 1) == entries[0..2];
  }

  /** Two entries, no filters: one page holding both, and no pagination bar. */
  lemma TwoEntriesOnePage(entries: seq<Entry>, d: Snapshot)
    requires entries == [Bulbasaur, Charmander]
    requires d == Snapshot(Present(entries), Missing, false)
    ensures Render(Initial, d) == Grid([CardView("bulbasaur", 1), CardView("charmander", 2)], Missing)
  {
    assert Render(Initial, d) == Grid(CardsOf(entries, 0), Missing) by {
      TwoEntriesMatchAll(entries, d);
    }
    FixtureCards(entries);
  }

  lemma FixtureCards(entries: seq<Entry>)
    requires entries == [Bulbasaur, Charmander]
    ensures CardsOf(entries, 0) == [CardView("bulbasaur", 1), CardView("charmander", 2)]
    ensures CardsOf([entries[1]], 0) == [CardView("charmander", 1)]
  {
  }

  /** With only a type chosen, of two entries where just the second is a member, just the second is kept. */
  lemma TypeOnlyPair(a: Entry, b: Entry, typeFilter: string, members: seq<string>)
    requires typeFilter != ""
    requires a.name !in members && b.name in members
    ensures FilterPokemons(Present([a, b]), "", typeFilter, Present(members)) == [b]
  {
    var keep := Criterion("", typeFilter, members);
    EmptyNameMatchesAll(b);
    assert !keep(a) && keep(b);
    assert [a, b][..1] == [a];
    assert [a][..0] == [];
    assert Sequences.Filter([a], keep) == [];
    assert Sequences.Filter([a, b], keep) == [b];
  }

  /** The "fire" type with members `["charmander"]` keeps only charmander. */
  lemma FireTypeKeepsCharmander(entries: seq<Entry>, members: seq<string>, d: Snapshot)
    requires entries == [Bulbasaur, Charmander] && members == ["charmander"]
    requires d == Snapshot(Present(entries), Present(members), false)
    ensures Matches(State("", "fire", 1), d) == [Charmander]
  {
    assert Bulbasaur.name !in members by {
      assert Bulbasaur.name[0] != members[0][0];
    }
    TypeOnlyPair(Bulbasaur, Charmander, "fire", members);
  }

  /**
    Under the "fire" filter charmander's card is the first of the page and so
    carries sprite number 1, although charmander's own number is 4.
   */
  lemma FireTypeCardUsesPosition(entries: seq<Entry>, members: seq<string>, d: Snapshot)
    requires entries == [Bulbasaur, Charmander] && members == ["charmander"]
    requires d == Snapshot(Present(entries), Present(members), false)
    ensures Render(State("", "fire", 1), d) == Grid([CardView("charmander", 1)], Missing)
  {
    var s := State("", "fire", 1);
    assert Render(s, d) == Grid(CardsOf([Charmander], 0), Missing) by {
      assert Matches(s, d) == [Charmander] by {
        FireTypeKeepsCharmander(entries, members, d);
      }
      assert PageSlice([Charmander], 1) == [Charmander];
    }
    assert CardsOf([Charmander], 0) == [CardView("charmander", 1)] by {
      FixtureCards(entries);
    }
  }
}
