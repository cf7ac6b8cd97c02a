/**
 * `generateFromDecklist` (deckbox.js:575-643) with its DOM output replaced by values: the
 * deck is categorised, the six sections are listed in display order, the column each one
 * goes into is planned, and each section is sorted and counted by `generateSection`.
 */
module Render {
  import opened Wrappers
  import opened Decklist
  import opened Sections
  import opened Layout

  /** One generated section and the column it was appended to. */
  datatype Placed = Placed(column: nat, view: Option<SectionView>)

  /**
   * What `generateSection` produces for the section `cards` named `name`: nothing for an
   * empty section, otherwise the name, the summed count, and the cards sorted.
   */
  ghost predicate Describes(library: Library, view: Option<SectionView>, name: string, cards: seq<Card>) {
    (view.None? <==> cards == []) &&
    (view.Some? ==>
      view.value.name == name && view.value.count == SumCounts(cards) &&
      Sorted(library, view.value.cards) && multiset(view.value.cards) == multiset(cards))
  }

  /** A parsed deck meets what generation needs: every count the parser keeps is a numeral. */
  lemma ParsedDeckNumeral(decklist: string)
    ensures NumeralCounts(DeckOf(Trace(decklist)).mainDeck) && NumeralCounts(DeckOf(Trace(decklist)).market)
  {
    ParsedDeckCards(decklist);
  }

  /** Each of `placed` is its section of `lists`, generated into its planned column. */
  ghost predicate PlacedAs(library: Library, placed: seq<Placed>, lists: seq<seq<Card>>, columns: seq<nat>)
    requires |placed| <= |lists| <= |SectionNames| && |placed| <= |columns|
  {
    forall k :: 0 <= k < |placed| ==>
      placed[k].column == columns[k] && Describes(library, placed[k].view, SectionNames[k], lists[k])
  }

  lemma PlacedAsSnoc(library: Library, placed: seq<Placed>, lists: seq<seq<Card>>, columns: seq<nat>, view: Option<SectionView>)
    requires |placed| < |lists| <= |SectionNames| && |placed| < |columns|
    requires PlacedAs(library, placed, lists, columns)
    requires Describes(library, view, SectionNames[|placed|], lists[|placed|])
    ensures PlacedAs(library, placed + [Placed(columns[|placed|], view)], lists, columns)
  {
    var next := placed + [Placed(columns[|placed|], view)];
    forall k | 0 <= k < |next|
      ensures next[k].column == columns[k] && Describes(library, next[k].view, SectionNames[k], lists[k])
    {
      if k < |placed| {
        assert next[k] == placed[k];
      }
    }
  }

  /** Categorising moves cards around but keeps every count a numeral. */
  lemma CategorizedNumeral(library: Library, deck: Deck)
    requires NumeralCounts(deck.mainDeck) && NumeralCounts(deck.market)
    ensures forall i :: 0 <= i < |SectionNames| ==> NumeralCounts(SectionList(Categorized(library, deck))[i])
  {
    forall b: Bucket
      ensures NumeralCounts(InBucket(library, deck.mainDeck, b))
    {
      InBucketMembers(library, deck.mainDeck, b);
    }
  }

  /** `generateSection` on a fresh array holding the section's cards. */
  method GenerateOne(library: Library, name: string, cards: seq<Card>) returns (view: Option<SectionView>)
    requires NumeralCounts(cards)
    ensures Describes(library, view, name, cards)
  {
    var a := new Card[|cards|](j requires 0 <= j < |cards| => cards[j]);
    assert a[..] == cards;
    view := GenerateSection(library, name, a);
  }

  /**
   * The whole display plan: `placed[i]` is the section named `SectionNames[i]`, generated
   * into the column the running-count rule picks, and `columnCount` is the number of
   * columns appended. Generating a section does not change the running count, so the
   * columns are planned before the sections are generated.
   */
  method GenerateFromDecklist(library: Library, deck: Deck) returns (placed: seq<Placed>, columnCount: nat)
    requires NumeralCounts(deck.mainDeck) && NumeralCounts(deck.market)
    ensures |placed| == |SectionNames|
    ensures forall i :: 0 <= i < |placed| ==> placed[i].column == ColumnOf(SectionList(Categorized(library, deck)), i)
    ensures forall i :: 0 <= i < |placed| ==>
      Describes(library, placed[i].view, SectionNames[i], SectionList(Categorized(library, deck))[i])
    ensures columnCount == 1 + ColumnOf(SectionList(Categorized(library, deck)), |SectionNames| - 1)
  {
    var section := Categorize(deck, library);
    var sectionList := SectionList(section);
    var columns;
    columns, columnCount := PlanColumns(sectionList);
    CategorizedNumeral(library, deck);
    placed := [];
    var i := 0;
    while i < |sectionList|
      invariant i <= |sectionList|
      invariant |placed| == i
      invariant PlacedAs(library, placed, sectionList, columns)
    {
      var view := GenerateOne(library, SectionNames[i], sectionList[i]);
      PlacedAsSnoc(library, placed, sectionList, columns, view);
      placed := placed + [Placed(columns[i], view)];
      i := i + 1;
    }
  }
}
