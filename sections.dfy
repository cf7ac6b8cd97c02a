/**
 * What `generateFromDecklist` and `generateSection` do with a parsed deck before any
 * element is created: the categorisation of main-deck cards by library type
 * (deckbox.js:586-608), the comparator that orders a section (deckbox.js:385-412), the
 * in-place sort, and the card count shown in the section header (deckbox.js:414-417).
 */
module Sections {
  import opened Wrappers
  import opened Chars
  import opened Costs
  import opened Decklist

  /** One record of the card library, keyed by card id. */
  datatype LibraryEntry = LibraryEntry(name: string, cost: string, rarity: string, typ: string, image: string, link: string)

  /** The library as loaded: a read-only map from card id to record. */
  type Library = map<string, LibraryEntry>

  /** The five sections main-deck cards are sorted into. */
  datatype Bucket = Units | Spells | Attachments | Other | Power

  /** The five main-deck sections and the market section, in the order they are filled. */
  datatype Sections = Sections(
    units: seq<Card>, spells: seq<Card>, attachments: seq<Card>,
    other: seq<Card>, power: seq<Card>, market: seq<Card>)

  /** The section `type` selects; a card with no library record counts as type "other". */
  function BucketOf(library: Library, card: Card): Bucket {
    var typ := if card.id in library then library[card.id].typ else "other";
    if typ == "unit" then Units
    else if typ == "spell" then Spells
    else if typ == "attachment" then Attachments
    else if typ == "power" then Power
    else Other
  }

  /** The cards of `cards` that belong to bucket `b`, in their original order. */
  function InBucket(library: Library, cards: seq<Card>, b: Bucket): seq<Card> {
    if cards == [] then []
    else
      var last := cards[|cards| - 1];
      var r := InBucket(library, cards[..|cards| - 1], b);
      if BucketOf(library, last) == b then r + [last] else r
  }

  /** Categorising one more card appends it to its own bucket and leaves the others alone. */
  lemma InBucketSnoc(library: Library, cards: seq<Card>, card: Card, b: Bucket)
    ensures InBucket(library, cards + [card], b)
         == if BucketOf(library, card) == b then InBucket(library, cards, b) + [card] else InBucket(library, cards, b)
  {
    assert (cards + [card])[..|cards|] == cards;
  }

  /** A card without a library record, or whose record has any other type, goes to Other. */
  lemma BucketOfOther(library: Library, card: Card)
    ensures BucketOf(library, card) == Other
        <==> card.id !in library || library[card.id].typ !in ["unit", "spell", "attachment", "power"]
  {
  }

  /** A bucket holds exactly the cards of its type. */
  lemma {:induction false} InBucketMembers(library: Library, cards: seq<Card>, b: Bucket)
    ensures forall c :: c in InBucket(library, cards, b) <==> c in cards && BucketOf(library, c) == b
  {
    if cards != [] {
      var init := cards[..|cards| - 1];
      InBucketMembers(library, init, b);
      assert cards == init + [cards[|cards| - 1]];
    }
  }

  /** What the categoriser builds from a deck. */
  function Categorized(library: Library, deck: Deck): Sections {
    Sections(
      InBucket(library, deck.mainDeck, Units), InBucket(library, deck.mainDeck, Spells),
      InBucket(library, deck.mainDeck, Attachments), InBucket(library, deck.mainDeck, Other),
      InBucket(library, deck.mainDeck, Power), deck.market)
  }

  /** The main-deck section of `section` that holds bucket `b`. */
  function Section(section: Sections, b: Bucket): seq<Card> {
    match b
    case Units => section.units
    case Spells => section.spells
    case Attachments => section.attachments
    case Other => section.other
    case Power => section.power
  }

  /** The body of the categorisation loop: `card` is pushed onto the section its type selects. */
  method PushCard(library: Library, section: Sections, card: Card) returns (next: Sections)
    ensures forall b :: Section(next, b) == if BucketOf(library, card) == b then Section(section, b) + [card] else Section(section, b)
    ensures next.market == section.market
  {
    var typ := "other";
    if card.id in library {
      typ := library[card.id].typ;
    }
    if typ == "unit" {
      next := section.(units := section.units + [card]);
    } else if typ == "spell" {
      next := section.(spells := section.spells + [card]);
    } else if typ == "attachment" {
      next := section.(attachments := section.attachments + [card]);
    } else if typ == "power" {
      next := section.(power := section.power + [card]);
    } else {
      next := section.(other := section.other + [card]);
    }
  }

  /** The categorisation loop: one push per main-deck card, then the market copied over. */
  method Categorize(deck: Deck, library: Library) returns (section: Sections)
    ensures section == Categorized(library, deck)
  {
    section := Sections([], [], [], [], [], []);
    var i := 0;
    while i < |deck.mainDeck|
      invariant i <= |deck.mainDeck|
      invariant forall b :: Section(section, b) == InBucket(library, deck.mainDeck[..i], b)
      invariant section.market == []
    {
      var card := deck.mainDeck[i];
      assert deck.mainDeck[..i + 1] == deck.mainDeck[..i] + [card];
      forall b { InBucketSnoc(library, deck.mainDeck[..i], card, b); }
      section := PushCard(library, section, card);
      i := i + 1;
    }
    assert deck.mainDeck[..i] == deck.mainDeck;
    var market := [];
    var k := 0;
    while k < |deck.market|
      invariant k <= |deck.market|
      invariant market == deck.market[..k]
    {
      market := market + [deck.market[k]];
      k := k + 1;
    }
    assert Section(section, Units) == section.units && Section(section, Spells) == section.spells;
    assert Section(section, Attachments) == section.attachments && Section(section, Other) == section.other;
    assert Section(section, Power) == section.power;
    section := section.(market := market);
  }

  /** Each bucket keeps text order: categorising a concatenation concatenates the buckets. */
  lemma {:induction false} InBucketAppend(library: Library, xs: seq<Card>, ys: seq<Card>, b: Bucket)
    ensures InBucket(library, xs + ys, b) == InBucket(library, xs, b) + InBucket(library, ys, b)
    decreases |ys|
  {
    if ys == [] {
      assert xs + ys == xs;
    } else {
      var last := ys[|ys| - 1];
      assert (xs + ys)[..|xs + ys| - 1] == xs + ys[..|ys| - 1];
      InBucketAppend(library, xs, ys[..|ys| - 1], b);
    }
  }

  /** The five main-deck buckets taken together. */
  function AllBuckets(library: Library, cards: seq<Card>): multiset<Card> {
    multiset(InBucket(library, cards, Units)) + multiset(InBucket(library, cards, Spells))
      + multiset(InBucket(library, cards, Attachments)) + multiset(InBucket(library, cards, Other))
      + multiset(InBucket(library, cards, Power))
  }

  /**
   * Every main-deck card lands in exactly one bucket: bucket `b` holds each card of its
   * type as often as the main deck does, and no card of another type.
   */
  lemma {:induction false} CategorizedOnce(library: Library, cards: seq<Card>, c: Card, b: Bucket)
    ensures multiset(InBucket(library, cards, b))[c] == if BucketOf(library, c) == b then multiset(cards)[c] else 0
  {
    if cards != [] {
      var init, last := cards[..|cards| - 1], cards[|cards| - 1];
      CategorizedOnce(library, init, c, b);
      assert cards == init + [last];
    }
  }

  /** Hence the five buckets together are the main deck, card for card. */
  lemma CategorizedPartition(library: Library, cards: seq<Card>)
    ensures AllBuckets(library, cards) == multiset(cards)
  {
    forall c | true ensures AllBuckets(library, cards)[c] == multiset(cards)[c] {
      CategorizedOnce(library, cards, c, Units);
      CategorizedOnce(library, cards, c, Spells);
      CategorizedOnce(library, cards, c, Attachments);
      CategorizedOnce(library, cards, c, Other);
      CategorizedOnce(library, cards, c, Power);
    }
  }

  /** The cost record a card sorts by: none when the id is unknown or its cost does not parse. */
  function Info(library: Library, id: string): Option<Influence> {
    if id in library then ParseCost(library[id].cost) else None
  }

  /**
   * `localeCompare` on card ids, taken to be code-point lexicographic order with a
   * result of -1, 0 or 1.
   */
  function IdCompare(x: string, y: string): (r: int)
    ensures -1 <= r <= 1
  {
    if x == [] then (if y == [] then 0 else -1)
    else if y == [] then 1
    else if x[0] < y[0] then -1
    else if y[0] < x[0] then 1
    else IdCompare(x[1..], y[1..])
  }

  lemma {:induction false} IdCompareZero(x: string, y: string)
    ensures IdCompare(x, y) == 0 <==> x == y
  {
    if x != [] && y != [] && x[0] == y[0] {
      IdCompareZero(x[1..], y[1..]);
      assert x == [x[0]] + x[1..] && y == [y[0]] + y[1..];
    }
  }

  lemma {:induction false} IdCompareAntisymmetric(x: string, y: string)
    ensures IdCompare(x, y) == -IdCompare(y, x)
  {
    if x != [] && y != [] && x[0] == y[0] {
      IdCompareAntisymmetric(x[1..], y[1..]);
    }
  }

  lemma {:induction false} IdCompareTransitive(x: string, y: string, z: string)
    requires IdCompare(x, y) <= 0 && IdCompare(y, z) <= 0
    ensures IdCompare(x, z) <= 0
  {
    if x != [] && y != [] && z != [] && x[0] == y[0] && y[0] == z[0] {
      IdCompareTransitive(x[1..], y[1..], z[1..]);
    }
  }

  /**
   * The sort comparator: cards without a cost record come first and are ordered by id;
   * the others are ordered by `compare` on their cost records, ties broken by id.
   */
  function CardCompare(library: Library, a: Card, b: Card): int {
    var infA := Info(library, a.id);
    var infB := Info(library, b.id);
    if infA.None? && infB.None? then IdCompare(a.id, b.id)
    else if infA.None? then -1
    else if infB.None? then 1
    else
      var infCompare := Compare(infA.value, infB.value);
      if infCompare != 0 then infCompare else IdCompare(a.id, b.id)
  }

  /** Swapping the arguments negates the comparator. */
  lemma CardCompareAntisymmetric(library: Library, a: Card, b: Card)
    ensures CardCompare(library, a, b) == -CardCompare(library, b, a)
  {
    IdCompareAntisymmetric(a.id, b.id);
    var infA, infB := Info(library, a.id), Info(library, b.id);
    if infA.Some? && infB.Some? {
      CompareAntisymmetric(infA.value, infB.value);
    }
  }

  /** Two cards compare equal exactly when they have the same id. */
  lemma CardCompareZero(library: Library, a: Card, b: Card)
    ensures CardCompare(library, a, b) == 0 <==> a.id == b.id
  {
    IdCompareZero(a.id, b.id);
    var infA, infB := Info(library, a.id), Info(library, b.id);
    if infA.Some? && infB.Some? {
      CompareIsFirstDifference(infA.value, infB.value);
    }
  }

  /** "Sorts no later than" is transitive, so the comparator is a total preorder on cards. */
  lemma CardCompareTransitive(library: Library, a: Card, b: Card, c: Card)
    requires CardCompare(library, a, b) <= 0 && CardCompare(library, b, c) <= 0
    ensures CardCompare(library, a, c) <= 0
  {
    var infA, infB, infC := Info(library, a.id), Info(library, b.id), Info(library, c.id);
    if infA.None? && infB.None? && infC.None? {
      IdCompareTransitive(a.id, b.id, c.id);
    } else if infA.Some? && infB.Some? && infC.Some? {
      var x, y, z := infA.value, infB.value, infC.value;
      CompareTransitive(x, y, z);
      CompareIsFirstDifference(x, y);
      CompareIsFirstDifference(y, z);
      CompareIsFirstDifference(x, z);
      CompareAntisymmetric(x, y);
      if Compare(x, y) == 0 && Compare(y, z) == 0 {
        IdCompareTransitive(a.id, b.id, c.id);
      }
    }
  }

  /** `cards` is in the order the comparator asks for. */
  ghost predicate Sorted(library: Library, cards: seq<Card>) {
    forall k, l :: 0 <= k < l < |cards| ==> CardCompare(library, cards[k], cards[l]) <= 0
  }

  /**
   * What a sorted section looks like: the cards without a cost record form a prefix
   * ordered by id; after it, cards ascend by `compare`, and cards with equal cost
   * records ascend by id.
   */
  lemma SortedSectionShape(library: Library, cards: seq<Card>)
    requires Sorted(library, cards)
    ensures forall k, l :: 0 <= k < l < |cards| ==> OrderedPair(library, cards[k], cards[l])
  {
  }

  /** The order a sorted section shows between an earlier card `a` and a later card `b`. */
  ghost predicate OrderedPair(library: Library, a: Card, b: Card) {
    var infA, infB := Info(library, a.id), Info(library, b.id);
    && (infB.None? ==> infA.None?)
    && (infA.None? && infB.None? ==> IdCompare(a.id, b.id) <= 0)
    && (infA.Some? && infB.Some? ==>
          Compare(infA.value, infB.value) < 0
          || (Compare(infA.value, infB.value) == 0 && IdCompare(a.id, b.id) <= 0))
  }

  /** `cards.sort(...)`: an insertion sort by adjacent swaps, in place. */
  method SortSection(library: Library, cards: array<Card>)
    modifies cards
    ensures Sorted(library, cards[..])
    ensures multiset(cards[..]) == multiset(old(cards[..]))
  {
    var i := 0;
    while i < cards.Length
      invariant i <= cards.Length
      invariant Sorted(library, cards[..i])
      invariant multiset(cards[..]) == multiset(old(cards[..]))
    {
      InsertNext(library, cards, i);
      i := i + 1;
    }
    assert cards[..i] == cards[..];
  }

  /**
   * The state of `cards[..i + 1]` while `cards[j]` is being swapped down: every pair is in
   * order except possibly pairs whose later card is at `j`.
   */
  ghost predicate SortedExcept(library: Library, s: seq<Card>, i: nat, j: nat) {
    forall k, l :: 0 <= k < l <= i && l < |s| && l != j ==> CardCompare(library, s[k], s[l]) <= 0
  }

  lemma SortedExceptStart(library: Library, s: seq<Card>, i: nat)
    requires i < |s| && Sorted(library, s[..i])
    ensures SortedExcept(library, s, i, i)
  {
    forall k, l | 0 <= k < l < i ensures CardCompare(library, s[k], s[l]) <= 0 {
      assert s[..i][k] == s[k] && s[..i][l] == s[l];
    }
  }

  /** Swapping an out-of-order `s[j - 1]`, `s[j]` moves the gap down by one. */
  lemma SortedExceptSwap(library: Library, s: seq<Card>, i: nat, j: nat)
    requires 0 < j <= i < |s| && SortedExcept(library, s, i, j)
    requires CardCompare(library, s[j - 1], s[j]) > 0
    ensures SortedExcept(library, s[j - 1 := s[j]][j := s[j - 1]], i, j - 1)
  {
    CardCompareAntisymmetric(library, s[j - 1], s[j]);
  }

  /** Once `s[j - 1]` and `s[j]` are in order (or `j` is 0), the prefix `s[..i + 1]` is sorted. */
  lemma SortedExceptDone(library: Library, s: seq<Card>, i: nat, j: nat)
    requires j <= i < |s| && SortedExcept(library, s, i, j)
    requires j > 0 ==> CardCompare(library, s[j - 1], s[j]) <= 0
    ensures Sorted(library, s[..i + 1])
  {
    forall k | 0 <= k < j - 1
      ensures CardCompare(library, s[k], s[j]) <= 0
    {
      CardCompareTransitive(library, s[k], s[j - 1], s[j]);
    }
  }

  /** Exchanges two elements of the array. */
  method Swap(cards: array<Card>, x: nat, y: nat)
    requires x < y < cards.Length
    modifies cards
    ensures cards[..] == old(cards[..])[x := old(cards[y])][y := old(cards[x])]
    ensures multiset(cards[..]) == multiset(old(cards[..]))
  {
    cards[x], cards[y] := cards[y], cards[x];
  }

  /**
   * The array `s` part-way through inserting `s0[i]`: the card being moved is at `j`, the
   * prefix `s[..i + 1]` holds the cards of `s0[..i + 1]`, and the rest of `s0` is untouched.
   */
  ghost predicate Inserting(library: Library, s: seq<Card>, s0: seq<Card>, i: nat, j: nat) {
    && j <= i < |s| == |s0|
    && SortedExcept(library, s, i, j)
    && multiset(s[..i + 1]) == multiset(s0[..i + 1])
    && s[i + 1..] == s0[i + 1..]
  }

  /** One swap of the moving card with the out-of-order card before it. */
  lemma InsertingSwap(library: Library, s: seq<Card>, s0: seq<Card>, i: nat, j: nat)
    requires Inserting(library, s, s0, i, j) && 0 < j
    requires CardCompare(library, s[j - 1], s[j]) > 0
    ensures Inserting(library, s[j - 1 := s[j]][j := s[j - 1]], s0, i, j - 1)
  {
    var t := s[j - 1 := s[j]][j := s[j - 1]];
    SortedExceptSwap(library, s, i, j);
    assert t[..i + 1] == s[..i + 1][j - 1 := s[j]][j := s[j - 1]];
    assert t[i + 1..] == s[i + 1..];
  }

  /** When the moving card is in order, the prefix is sorted and the array is a permutation. */
  lemma InsertingDone(library: Library, s: seq<Card>, s0: seq<Card>, i: nat, j: nat)
    requires Inserting(library, s, s0, i, j)
    requires j > 0 ==> CardCompare(library, s[j - 1], s[j]) <= 0
    ensures Sorted(library, s[..i + 1])
    ensures multiset(s) == multiset(s0)
  {
    SortedExceptDone(library, s, i, j);
    assert s == s[..i + 1] + s[i + 1..];
    assert s0 == s0[..i + 1] + s0[i + 1..];
  }

  /** Swaps the moving card `cards[j]` with the larger card before it. */
  method SwapDown(library: Library, cards: array<Card>, ghost start: seq<Card>, i: nat, j: nat)
    requires Inserting(library, cards[..], start, i, j) && 0 < j
    requires CardCompare(library, cards[j - 1], cards[j]) > 0
    modifies cards
    ensures Inserting(library, cards[..], start, i, j - 1)
  {
    InsertingSwap(library, cards[..], start, i, j);
    Swap(cards, j - 1, j);
  }

  /** One round of the insertion sort: `cards[i]` is swapped down into the sorted prefix `cards[..i]`. */
  method InsertNext(library: Library, cards: array<Card>, i: nat)
    requires i < cards.Length && Sorted(library, cards[..i])
    modifies cards
    ensures Sorted(library, cards[..i + 1])
    ensures multiset(cards[..i + 1]) == multiset(old(cards[..i + 1]))
    ensures cards[i + 1..] == old(cards[i + 1..])
    ensures multiset(cards[..]) == multiset(old(cards[..]))
  {
    ghost var start := cards[..];
    SortedExceptStart(library, start, i);
    var j: nat := i;
    while j > 0 && CardCompare(library, cards[j - 1], cards[j]) > 0
      invariant Inserting(library, cards[..], start, i, j)
    {
      SwapDown(library, cards, start, i, j);
      j := j - 1;
    }
    InsertingDone(library, cards[..], start, i, j);
  }

  /** Every card's count is a digit string, as the parser guarantees. */
  ghost predicate NumeralCounts(cards: seq<Card>) {
    forall c :: c in cards ==> IsNumeral(c.count)
  }

  /** `Number(card.count)` for a count the parser produced; other counts are never summed. */
  function CountOf(card: Card): nat {
    if IsNumeral(card.count) then Number(card.count) else 0
  }

  /** The sum of `f` over `cards`. */
  function SumOf(f: Card -> nat, cards: seq<Card>): nat {
    if cards == [] then 0
    else SumOf(f, cards[..|cards| - 1]) + f(cards[|cards| - 1])
  }

  /** `cardCount`: the sum of `Number(card.count)` over a section. */
  function SumCounts(cards: seq<Card>): nat {
    SumOf(CountOf, cards)
  }

  lemma {:induction false} SumOfAppend(f: Card -> nat, xs: seq<Card>, ys: seq<Card>)
    ensures SumOf(f, xs + ys) == SumOf(f, xs) + SumOf(f, ys)
    decreases |ys|
  {
    if ys == [] {
      assert xs + ys == xs;
    } else {
      assert (xs + ys)[..|xs + ys| - 1] == xs + ys[..|ys| - 1];
      SumOfAppend(f, xs, ys[..|ys| - 1]);
    }
  }

  lemma NumeralCountsPermutation(xs: seq<Card>, ys: seq<Card>)
    requires NumeralCounts(xs) && multiset(xs) == multiset(ys)
    ensures NumeralCounts(ys)
  {
    forall c | c in ys ensures IsNumeral(c.count) {
      assert c in multiset(ys);
    }
  }

  /** A sum over the cards does not depend on their order. */
  lemma {:induction false} SumOfPermutation(f: Card -> nat, xs: seq<Card>, ys: seq<Card>)
    requires multiset(xs) == multiset(ys)
    ensures SumOf(f, xs) == SumOf(f, ys)
    decreases |xs|
  {
    if xs != [] {
      var last := xs[|xs| - 1];
      assert last in ys by {
        assert last in multiset(xs);
      }
      var i :| 0 <= i < |ys| && ys[i] == last;
      RemoveMatching(xs, ys, i);
      SumOfPermutation(f, xs[..|xs| - 1], ys[..i] + ys[i + 1..]);
      SumOfRemove(f, ys, i);
    }
  }

  /** Taking the last card off one list and the same card off the other keeps them permutations. */
  lemma RemoveMatching(xs: seq<Card>, ys: seq<Card>, i: nat)
    requires multiset(xs) == multiset(ys) && xs != [] && i < |ys| && ys[i] == xs[|xs| - 1]
    ensures multiset(xs[..|xs| - 1]) == multiset(ys[..i] + ys[i + 1..])
  {
    var init, last, front, back := xs[..|xs| - 1], xs[|xs| - 1], ys[..i], ys[i + 1..];
    assert xs == init + [last];
    assert ys == front + [last] + back;
    assert multiset(init) == multiset(xs) - multiset{last};
    assert multiset(front + back) == multiset(ys) - multiset{last};
  }

  lemma SumOfRemove(f: Card -> nat, ys: seq<Card>, i: nat)
    requires i < |ys|
    ensures SumOf(f, ys) == SumOf(f, ys[..i] + ys[i + 1..]) + f(ys[i])
  {
    var upto, back := ys[..i + 1], ys[i + 1..];
    assert upto + back == ys;
    SumOfAppend(f, upto, back);
    assert upto[..i] == ys[..i];
    SumOfAppend(f, ys[..i], back);
  }

  /** Sorting a section leaves its count unchanged. */
  lemma SumCountsPermutation(xs: seq<Card>, ys: seq<Card>)
    requires multiset(xs) == multiset(ys)
    ensures SumCounts(xs) == SumCounts(ys)
  {
    SumOfPermutation(CountOf, xs, ys);
  }

  /** `Number(count)` on a count the parser produced. */
  function Number(count: string): nat
    requires IsNumeral(count)
  {
    DecimalValue(count)
  }

  /** The `cardCount` loop of `generateSection`. */
  method CountCards(cards: array<Card>) returns (cardCount: nat)
    requires NumeralCounts(cards[..])
    ensures cardCount == SumCounts(cards[..])
  {
    cardCount := 0;
    var i := 0;
    while i < cards.Length
      invariant i <= cards.Length
      invariant cardCount == SumCounts(cards[..i])
    {
      assert cards[..i + 1][..i] == cards[..i];
      assert cards[i] in cards[..];
      cardCount := cardCount + Number(cards[i].count);
      i := i + 1;
    }
    assert cards[..i] == cards[..];
  }

  /** The header of a non-empty section and the cards listed under it, in display order. */
  datatype SectionView = SectionView(name: string, count: nat, cards: seq<Card>)

  /**
   * `generateSection`: nothing for an empty section; otherwise the section is sorted in
   * place and its header carries the sum of the card counts.
   */
  method GenerateSection(library: Library, sectionName: string, cards: array<Card>) returns (view: Option<SectionView>)
    requires NumeralCounts(cards[..])
    modifies cards
    ensures cards.Length == 0 ==> view == None
    ensures cards.Length > 0 ==> view == Some(SectionView(sectionName, SumCounts(old(cards[..])), cards[..]))
    ensures Sorted(library, cards[..])
    ensures multiset(cards[..]) == multiset(old(cards[..]))
  {
    if cards.Length == 0 {
      return None;
    }
    ghost var input := cards[..];
    SortSection(library, cards);
    SumCountsPermutation(input, cards[..]);
    NumeralCountsPermutation(input, cards[..]);
    var cardCount := CountCards(cards);
    view := Some(SectionView(sectionName, cardCount, cards[..]));
  }
}
