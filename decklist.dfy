/**
 * `deckboxParseDeck` (deckbox.js:148-186): the two anchored regular expressions it
 * matches against the unconsumed text, and its do-while loop.
 *
 *   card line:    /^\s*([0-9]+) ([^\(]+) \((Set[0-9]+ #[0-9]+)\)\s*(.*)/
 *   market line:  /^\s*-+MARKET-+\s*(.*)/
 *
 * Both are deterministic, so each is modelled by a hand-written matcher and proved to
 * agree with a positional description of the pattern (`CardPatternAt`, `MarketPatternAt`).
 * The trailing `\s*(.*)` is `Rest`: `.` does not match a line terminator, so what is kept
 * for the next iteration stops at the first line terminator after the whitespace run.
 */
module Decklist {
  import opened Wrappers
  import opened Chars

  /** One card line: its count as written, its name and its id (`Set<n> #<m>`). */
  datatype Card = Card(count: string, name: string, id: string)

  /** The parser's result: cards before the market delimiter, and cards after it. */
  datatype Deck = Deck(mainDeck: seq<Card>, market: seq<Card>)

  /** What one loop iteration consumed: a card line, or the market delimiter. */
  datatype Item = CardItem(card: Card) | MarketItem

  datatype CardMatch = CardMatch(card: Card, rest: string)

  datatype Step = Step(item: Item, rest: string)

  /** `s[i..h]` is `Set[0-9]+ #[0-9]+`, with the space at index `k`. */
  ghost predicate SetIdAt(s: string, i: nat, k: nat, h: nat) {
    && i + 3 < k && k + 2 < h <= |s|
    && s[i] == 'S' && s[i + 1] == 'e' && s[i + 2] == 't'
    && (forall j :: i + 3 <= j < k ==> IsDigit(s[j]))
    && s[k] == ' ' && s[k + 1] == '#'
    && (forall j :: k + 2 <= j < h ==> IsDigit(s[j]))
  }

  /** `t` is, as a whole, `Set[0-9]+ #[0-9]+`. */
  ghost predicate IsSetId(t: string) {
    exists k: nat :: SetIdAt(t, 0, k, |t|)
  }

  /** What every card the parser produces looks like. */
  ghost predicate ParsedCard(c: Card) {
    IsNumeral(c.count) && |c.name| > 0 && (forall k :: 0 <= k < |c.name| ==> c.name[k] != '(') && IsSetId(c.id)
  }

  /**
   * The capture of a trailing `\s*(.*)` that starts at `i`: greedy `\s*` takes the whole
   * whitespace run (line terminators included), then `(.*)` runs up to, not including,
   * the next line terminator; everything after it is dropped.
   */
  function Rest(s: string, i: nat): (r: string)
    requires i <= |s|
    ensures NoLineTerminator(r) && |r| <= |s| - i
    ensures r == [] || !IsSpace(r[0])
  {
    var e := SkipWhile(s, i, IsSpace);
    SkipWhileRun(s, e, NotLineTerminator);
    s[e..SkipWhile(s, e, NotLineTerminator)]
  }

  /** `Set[0-9]+ #[0-9]+\)` at position `i`; the result is the position of the `)`. */
  function MatchSetId(s: string, i: nat): (h: Option<nat>)
    requires i <= |s|
    ensures h.Some? ==> i <= h.value < |s| && s[h.value] == ')' && IsSetId(s[i..h.value])
  {
    if i + 3 > |s| || s[i] != 'S' || s[i + 1] != 'e' || s[i + 2] != 't' then None
    else
      var g := SkipWhile(s, i + 3, IsDigit);
      SkipWhileRun(s, i + 3, IsDigit);
      if g == i + 3 || g + 1 >= |s| || s[g] != ' ' || s[g + 1] != '#' then None
      else
        var h := SkipWhile(s, g + 2, IsDigit);
        SkipWhileRun(s, g + 2, IsDigit);
        if h == g + 2 || h == |s| || s[h] != ')' then None
        else
          SetIdSlice(s, i, g - i, h);
          Some(h)
  }

  /** An id followed by `)` is found by `MatchSetId`, which stops at that `)`. */
  lemma MatchSetIdComplete(s: string, i: nat, h: nat)
    requires i <= h < |s| && IsSetId(s[i..h]) && s[h] == ')'
    ensures MatchSetId(s, i) == Some(h)
  {
    var k: nat :| SetIdAt(s[i..h], 0, k, h - i);
    SetIdSlice(s, i, k, h);
    SkipWhileAt(s, i + 3, i + k, IsDigit);
    SkipWhileAt(s, i + k + 2, h, IsDigit);
  }

  /** An id read in place in the text is the same id cut out of it. */
  lemma SetIdSlice(s: string, i: nat, k: nat, h: nat)
    requires i <= h <= |s|
    ensures SetIdAt(s[i..h], 0, k, h - i) <==> SetIdAt(s, i, i + k, h)
  {
    var t := s[i..h];
    assert forall j :: 0 <= j < h - i ==> t[j] == s[i + j];
  }

  /**
   * The card regex matches `s` with leading whitespace `s[..a]`, count `s[a..b]`, name
   * `s[b+1..c]` and id `s[c+2..h]`.
   */
  ghost predicate CardPatternAt(s: string, a: nat, b: nat, c: nat, h: nat) {
    && a < b < |s|
    && (forall k :: 0 <= k < a ==> IsSpace(s[k]))
    && (forall k :: a <= k < b ==> IsDigit(s[k]))
    && s[b] == ' '
    && NameIdAt(s, b, c, h)
  }

  /** After the count's space at `b`: the name `s[b+1..c]`, then ` (`, the id `s[c+2..h]` and `)`. */
  ghost predicate NameIdAt(s: string, b: nat, c: nat, h: nat) {
    && b + 1 < c && c + 2 <= h < |s|
    && (forall k :: b + 1 <= k < c ==> s[k] != '(')
    && s[c] == ' ' && s[c + 1] == '('
    && IsSetId(s[c + 2..h]) && s[h] == ')'
  }

  /**
   * Where the card regex matches: the ends of the leading whitespace and of the count,
   * the index of the space before `(`, and the index of the closing `)`.
   */
  function CardPositions(s: string): (r: Option<(nat, nat, nat, nat)>)
    ensures r.Some? ==> CardPatternAt(s, r.value.0, r.value.1, r.value.2, r.value.3)
  {
    var a := SkipWhile(s, 0, IsSpace);
    var b := SkipWhile(s, a, IsDigit);
    if b == a || b == |s| || s[b] != ' ' then None
    else
      SkipWhileRun(s, 0, IsSpace);
      SkipWhileRun(s, a, IsDigit);
      match NameAndId(s, b)
      case None => None
      case Some((c, h)) => Some((a, b, c, h))
  }

  /** The part of the card regex after the count: `(.*) \((Set[0-9]+ #[0-9]+)\)`, name and id. */
  function NameAndId(s: string, b: nat): (r: Option<(nat, nat)>)
    requires b < |s|
    ensures r.Some? ==> NameIdAt(s, b, r.value.0, r.value.1)
  {
    var p := SkipWhile(s, b + 1, NotParen);
    SkipWhileRun(s, b + 1, NotParen);
    if p == |s| || p < b + 3 || s[p - 1] != ' ' then None
    else
      match MatchSetId(s, p + 1)
      case None => None
      case Some(h) => Some((p - 1, h))
  }

  /** The card whose count, name and id the card regex captured at `at`. */
  function CardAt(s: string, at: (nat, nat, nat, nat)): Card
    requires at.0 <= at.1 && at.1 + 1 <= at.2 && at.2 + 2 <= at.3 <= |s|
  {
    Card(s[at.0..at.1], s[at.1 + 1..at.2], s[at.2 + 2..at.3])
  }

  /** `decklist.match(cardRegex)`: `None` is the source's `null`. */
  function MatchCard(s: string): (m: Option<CardMatch>)
    ensures m.Some? ==> NoLineTerminator(m.value.rest) && |m.value.rest| < |s|
  {
    match CardPositions(s)
    case None => None
    case Some(at) => Some(CardMatch(CardAt(s, at), Rest(s, at.3 + 1)))
  }

  /** The card pattern occurs at most once: the scan finds exactly the occurrence there is. */
  lemma CardPositionsComplete(s: string, a: nat, b: nat, c: nat, h: nat)
    requires CardPatternAt(s, a, b, c, h)
    ensures CardPositions(s) == Some((a, b, c, h))
  {
    SkipWhileAt(s, 0, a, IsSpace);
    SkipWhileAt(s, a, b, IsDigit);
    NameAndIdComplete(s, b, c, h);
  }

  lemma NameAndIdComplete(s: string, b: nat, c: nat, h: nat)
    requires NameIdAt(s, b, c, h)
    ensures NameAndId(s, b) == Some((c, h))
  {
    SkipWhileAt(s, b + 1, c + 1, NotParen);
    MatchSetIdComplete(s, c + 2, h);
  }

  /** Whenever the card pattern occurs, the matcher finds it and captures exactly its groups. */
  lemma MatchCardComplete(s: string, a: nat, b: nat, c: nat, h: nat)
    requires CardPatternAt(s, a, b, c, h)
    ensures MatchCard(s) == Some(CardMatch(CardAt(s, (a, b, c, h)), Rest(s, h + 1)))
  {
    CardPositionsComplete(s, a, b, c, h);
    MatchCardAt(s, (a, b, c, h));
  }

  lemma MatchCardAt(s: string, at: (nat, nat, nat, nat))
    requires CardPositions(s) == Some(at)
    ensures MatchCard(s) == Some(CardMatch(CardAt(s, at), Rest(s, at.3 + 1)))
  {
  }

  /** The groups of an occurrence of the card pattern form a card as `ParsedCard` describes it. */
  lemma PatternCardIsParsed(s: string, a: nat, b: nat, c: nat, h: nat)
    requires CardPatternAt(s, a, b, c, h)
    ensures ParsedCard(CardAt(s, (a, b, c, h)))
  {
    assert forall k :: 0 <= k < b - a ==> s[a..b][k] == s[a + k];
  }

  /** Every card the matcher returns has a numeral count, a non-empty name without `(`, and a `Set<n> #<m>` id. */
  lemma MatchedCardIsParsed(s: string)
    requires MatchCard(s).Some?
    ensures ParsedCard(MatchCard(s).value.card)
  {
    var at := CardPositions(s).value;
    MatchCardAt(s, at);
    PatternCardIsParsed(s, at.0, at.1, at.2, at.3);
  }

  /** The market regex matches `s` with leading whitespace `s[..a]` and dashes `s[a..b]` before `MARKET`. */
  ghost predicate MarketPatternAt(s: string, a: nat, b: nat) {
    && a < b && b + 6 < |s|
    && (forall k :: 0 <= k < a ==> IsSpace(s[k]))
    && (forall k :: a <= k < b ==> s[k] == '-')
    && s[b..b + 6] == "MARKET" && s[b + 6] == '-'
  }

  /** `decklist.match(marketRegex)[1]`, or `None` when it does not match. */
  function MatchMarket(s: string): (m: Option<string>)
    ensures m.Some? ==> NoLineTerminator(m.value) && |m.value| < |s|
  {
    var a := SkipWhile(s, 0, IsSpace);
    var b := SkipWhile(s, a, IsDash);
    if b == a || b + 6 >= |s| || s[b..b + 6] != "MARKET" || s[b + 6] != '-' then None
    else Some(Rest(s, SkipWhile(s, b + 6, IsDash)))
  }

  /** Whenever the market pattern occurs, the matcher finds it; greedy `-+` takes the whole dash run. */
  lemma MatchMarketComplete(s: string, a: nat, b: nat)
    requires MarketPatternAt(s, a, b)
    ensures MatchMarket(s) == Some(Rest(s, SkipWhile(s, b + 6, IsDash)))
  {
    SkipWhileAt(s, 0, a, IsSpace);
    assert s[b] == s[b..b + 6][0];
    SkipWhileAt(s, a, b, IsDash);
  }

  /** Whatever the market matcher returns is an occurrence of the market pattern. */
  lemma MatchMarketSound(s: string)
    requires MatchMarket(s).Some?
    ensures exists a: nat, b: nat ::
      && MarketPatternAt(s, a, b)
      && MatchMarket(s).value == Rest(s, SkipWhile(s, b + 6, IsDash))
  {
    var a := SkipWhile(s, 0, IsSpace);
    var b := SkipWhile(s, a, IsDash);
    SkipWhileRun(s, 0, IsSpace);
    SkipWhileRun(s, a, IsDash);
    assert MarketPatternAt(s, a, b);
  }

  /**
   * One iteration of the loop: the card regex is tried first; the market regex only
   * counts when the card regex fails.
   */
  function NextStep(s: string): (r: Option<Step>)
    ensures r.Some? ==> |r.value.rest| < |s| && NoLineTerminator(r.value.rest)
  {
    match MatchCard(s)
    case Some(m) => Some(Step(CardItem(m.card), m.rest))
    case None =>
      match MatchMarket(s)
      case Some(rest) => Some(Step(MarketItem, rest))
      case None => None
  }

  /**
   * The lines the loop consumes from `s`, in text order, up to the first remainder that
   * matches neither pattern; that remainder and anything after it are never looked at.
   */
  function Trace(s: string): seq<Item>
    decreases |s|
  {
    match NextStep(s)
    case None => []
    case Some(step) => [step.item] + Trace(step.rest)
  }

  /** What one round of the loop does to the sequence of consumed lines. */
  lemma TraceUnfold(s: string)
    ensures MatchCard(s).Some? ==> Trace(s) == [CardItem(MatchCard(s).value.card)] + Trace(MatchCard(s).value.rest)
    ensures MatchCard(s).None? && MatchMarket(s).Some? ==> Trace(s) == [MarketItem] + Trace(MatchMarket(s).value)
    ensures MatchCard(s).None? && MatchMarket(s).None? ==> Trace(s) == []
  {
  }

  /** The index of the first market delimiter in `items`, or `|items|` when there is none. */
  function FirstMarket(items: seq<Item>): (k: nat)
    ensures k <= |items|
    ensures forall j :: 0 <= j < k ==> items[j].CardItem?
    ensures k < |items| ==> items[k] == MarketItem
  {
    if items == [] || items[0] == MarketItem then 0 else 1 + FirstMarket(items[1..])
  }

  /** The cards among `items`, in order. */
  function CardsOf(items: seq<Item>): seq<Card> {
    if items == [] then []
    else (if items[0].CardItem? then [items[0].card] else []) + CardsOf(items[1..])
  }

  /**
   * The deck a sequence of consumed lines describes: the cards before the first market
   * delimiter form the main deck, every card after it (later delimiters included) the market.
   */
  function DeckOf(items: seq<Item>): Deck {
    var k := FirstMarket(items);
    Deck(CardsOf(items[..k]), CardsOf(items[k..]))
  }

  lemma {:induction false} CardsOfAppend(a: seq<Item>, b: seq<Item>)
    ensures CardsOf(a + b) == CardsOf(a) + CardsOf(b)
  {
    if a == [] {
      assert a + b == b;
    } else {
      var ab := a + b;
      assert ab[0] == a[0] && ab[1..] == a[1..] + b;
      CardsOfAppend(a[1..], b);
    }
  }

  /** Nothing is dropped or reordered: the main deck followed by the market is every card, in text order. */
  lemma {:induction false} DeckOfKeepsAllCards(items: seq<Item>)
    ensures DeckOf(items).mainDeck + DeckOf(items).market == CardsOf(items)
  {
    var k := FirstMarket(items);
    assert items == items[..k] + items[k..];
    CardsOfAppend(items[..k], items[k..]);
  }

  /** Without a market delimiter every card is in the main deck. */
  lemma {:induction false} DeckOfWithoutMarket(items: seq<Item>)
    requires MarketItem !in items
    ensures DeckOf(items) == Deck(CardsOf(items), [])
  {
    assert items[..|items|] == items && items[|items|..] == [];
  }

  /** A delimiter is found exactly when there is one. */
  lemma {:induction false} FirstMarketFound(items: seq<Item>)
    ensures FirstMarket(items) < |items| <==> MarketItem in items
  {
    if items != [] && items[0] != MarketItem {
      assert items == [items[0]] + items[1..];
      FirstMarketFound(items[1..]);
    }
  }

  lemma {:induction false} FirstMarketAppend(items: seq<Item>, item: Item)
    ensures FirstMarket(items + [item]) ==
      if MarketItem in items then FirstMarket(items)
      else if item == MarketItem then |items| else |items| + 1
  {
    if items == [] {
      assert [] + [item] == [item] && [item][1..] == [];
    } else if items[0] == MarketItem {
      assert (items + [item])[0] == MarketItem;
    } else {
      assert (items + [item])[1..] == items[1..] + [item];
      assert items == [items[0]] + items[1..];
      FirstMarketAppend(items[1..], item);
    }
  }

  /**
   * One more consumed line: a card goes to the main deck until a delimiter has been seen
   * and to the market from then on (the flag is never reset); a delimiter adds no card.
   */
  lemma {:induction false} DeckOfAppend(items: seq<Item>, item: Item)
    ensures item == MarketItem ==> DeckOf(items + [item]) == DeckOf(items)
    ensures item.CardItem? && MarketItem !in items ==>
      DeckOf(items + [item]) == Deck(DeckOf(items).mainDeck + [item.card], DeckOf(items).market)
    ensures item.CardItem? && MarketItem in items ==>
      DeckOf(items + [item]) == Deck(DeckOf(items).mainDeck, DeckOf(items).market + [item.card])
  {
    var all := items + [item];
    var k := FirstMarket(items);
    FirstMarketFound(items);
    FirstMarketAppend(items, item);
    if MarketItem in items {
      assert all[..k] == items[..k];
      assert all[k..] == items[k..] + [item];
      CardsOfAppend(items[k..], [item]);
      assert CardsOf([item]) == if item.CardItem? then [item.card] else [];
    } else {
      assert items[..k] == items && items[k..] == [];
      if item == MarketItem {
        assert all[..k] == items;
        assert all[k..] == [MarketItem];
        assert CardsOf(all[k..]) == [] == CardsOf(items[k..]);
      } else {
        assert all[..k + 1] == all && all[k + 1..] == [];
        CardsOfAppend(items, [item]);
        assert CardsOf([item]) == [item.card];
      }
    }
  }

  /**
   * The deck as the loop builds it, one consumed line at a time: a card is appended to the
   * main deck while no delimiter has been consumed and to the market afterwards.
   */
  function Collect(items: seq<Item>): Deck
    decreases |items|
  {
    if items == [] then Deck([], [])
    else
      var before := Collect(items[..|items| - 1]);
      var item := items[|items| - 1];
      if item.MarketItem? then before
      else if MarketItem in items[..|items| - 1] then Deck(before.mainDeck, before.market + [item.card])
      else Deck(before.mainDeck + [item.card], before.market)
  }

  lemma CollectSnoc(items: seq<Item>, item: Item)
    ensures Collect(items + [item]) ==
      if item.MarketItem? then Collect(items)
      else if MarketItem in items then Deck(Collect(items).mainDeck, Collect(items).market + [item.card])
      else Deck(Collect(items).mainDeck + [item.card], Collect(items).market)
  {
    assert (items + [item])[..|items|] == items;
  }

  /** Building the deck line by line gives the deck the delimiter split describes. */
  lemma {:induction false} CollectIsDeckOf(items: seq<Item>)
    ensures Collect(items) == DeckOf(items)
    decreases |items|
  {
    if items != [] {
      var init, item := items[..|items| - 1], items[|items| - 1];
      assert items == init + [item];
      CollectIsDeckOf(init);
      CollectSnoc(init, item);
      DeckOfAppend(init, item);
    }
  }

  /** A card match moves one card line from the text still to read to the lines read. */
  lemma TraceCardStep(text: string, consumed: seq<Item>, decklist: string)
    requires Trace(text) == consumed + Trace(decklist) && MatchCard(decklist).Some?
    ensures Trace(text) == (consumed + [CardItem(MatchCard(decklist).value.card)]) + Trace(MatchCard(decklist).value.rest)
  {
    TraceUnfold(decklist);
  }

  /** A delimiter match moves the delimiter from the text still to read to the lines read. */
  lemma TraceMarketStep(text: string, consumed: seq<Item>, decklist: string)
    requires Trace(text) == consumed + Trace(decklist)
    requires MatchCard(decklist).None? && MatchMarket(decklist).Some?
    ensures Trace(text) == (consumed + [MarketItem]) + Trace(MatchMarket(decklist).value)
  {
    TraceUnfold(decklist);
  }

  /** When neither regex matches, everything the parser will read has been read. */
  lemma TraceStops(text: string, consumed: seq<Item>, decklist: string)
    requires Trace(text) == consumed + Trace(decklist)
    requires MatchCard(decklist).None? && MatchMarket(decklist).None?
    ensures Trace(text) == consumed
  {
    TraceUnfold(decklist);
    assert consumed + [] == consumed;
  }

  /**
   * `deckboxParseDeck`: the do-while loop re-matches the unconsumed text on every round,
   * appends each card to the main deck or the market according to `inMarket`, and stops at
   * the first remainder that matches neither regex.
   */
  method ParseDeck(text: string) returns (deck: Deck)
    ensures deck == DeckOf(Trace(text))
  {
    var decklist := text;
    var mainDeck: seq<Card> := [];
    var market: seq<Card> := [];
    var inMarket := false;
    ghost var consumed: seq<Item> := [];
    var more := true;
    while more
      invariant more ==> Trace(text) == consumed + Trace(decklist)
      invariant !more ==> Trace(text) == consumed
      invariant Deck(mainDeck, market) == Collect(consumed)
      invariant inMarket <==> MarketItem in consumed
      decreases |decklist| + (if more then 1 else 0)
    {
      var cardMatch := MatchCard(decklist);
      var marketMatch := MatchMarket(decklist);
      if cardMatch.Some? {
        var card := cardMatch.value.card;
        TraceCardStep(text, consumed, decklist);
        CollectSnoc(consumed, CardItem(card));
        decklist := cardMatch.value.rest;
        if inMarket {
          market := market + [card];
        } else {
          mainDeck := mainDeck + [card];
        }
        consumed := consumed + [CardItem(card)];
      } else if marketMatch.Some? {
        TraceMarketStep(text, consumed, decklist);
        CollectSnoc(consumed, MarketItem);
        inMarket := true;
        decklist := marketMatch.value;
        consumed := consumed + [MarketItem];
      } else {
        TraceStops(text, consumed, decklist);
      }
      more := cardMatch.Some? || marketMatch.Some?;
    }
    deck := Deck(mainDeck, market);
    CollectIsDeckOf(consumed);
  }

  /**
   * The loop stops at the first text that matches neither pattern; it does not skip it.
   * In particular the empty text, and text that starts with anything but whitespace, a
   * digit or `-`, give an empty deck, whatever follows.
   */
  lemma UnmatchedTextEndsParse(c: char, t: string)
    requires !IsSpace(c) && !IsDigit(c) && c != '-'
    ensures Trace([c] + t) == [] && Trace("") == []
    ensures DeckOf(Trace([c] + t)) == Deck([], [])
  {
    var s := [c] + t;
    assert SkipWhile(s, 0, IsSpace) == 0;
    assert SkipWhile(s, 0, IsDigit) == 0;
    assert SkipWhile(s, 0, IsDash) == 0;
  }

  /** Every card the loop consumes is a card as `ParsedCard` describes it. */
  lemma {:induction false} TraceCardsParsed(s: string)
    ensures forall c :: c in CardsOf(Trace(s)) ==> ParsedCard(c)
    decreases |s|
  {
    match NextStep(s)
    case None =>
    case Some(step) =>
      TraceCardsParsed(step.rest);
      assert Trace(s) == [step.item] + Trace(step.rest);
      assert CardsOf(Trace(s)) == CardsOf([step.item] + Trace(step.rest));
      CardsOfAppend([step.item], Trace(step.rest));
      if step.item.CardItem? {
        MatchedCardIsParsed(s);
      }
  }

  /** Every card of a parsed deck has a numeral count, a non-empty name without `(` and a `Set<n> #<m>` id. */
  lemma ParsedDeckCards(s: string)
    ensures forall c :: c in DeckOf(Trace(s)).mainDeck || c in DeckOf(Trace(s)).market ==> ParsedCard(c)
  {
    DeckOfKeepsAllCards(Trace(s));
    TraceCardsParsed(s);
  }
}
