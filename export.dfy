/**
 * `exportDeck` (deckbox.js:533-554): the deck written back out as text, one
 * `count name (id)` line per card, with the market delimiter and the market cards only
 * when the market is non-empty; and what the parser of the Decklist module makes of
 * that text.
 */
module Export {
  import opened Wrappers
  import opened Chars
  import opened Decklist

  /** The delimiter line the export writes before the market cards. */
  const MarketDelimiter: string := "--------------MARKET---------------"

  /** The text of one card line, without its line break. */
  function CardLine(card: Card): string {
    card.count + " " + card.name + " (" + card.id + ")"
  }

  /** The lines one `forEach` appends for `cards`, each ended by a line break. */
  function Lines(cards: seq<Card>): string {
    if cards == [] then ""
    else Lines(cards[..|cards| - 1]) + CardLine(cards[|cards| - 1]) + "\n"
  }

  /** The text `exportDeck` hands to the clipboard. */
  function ExportText(deck: Deck): string {
    Lines(deck.mainDeck) + (if |deck.market| > 0 then MarketDelimiter + "\n" + Lines(deck.market) else "")
  }

  /** `exportDeck`: the string accumulator built card by card. */
  method ExportDeck(deck: Deck) returns (decklist: string)
    ensures decklist == ExportText(deck)
  {
    decklist := "";
    decklist := AppendLines(decklist, deck.mainDeck);
    assert decklist == Lines(deck.mainDeck);
    if |deck.market| > 0 {
      decklist := decklist + MarketDelimiter + "\n";
      decklist := AppendLines(decklist, deck.market);
    }
  }

  /** One `forEach` of `exportDeck`: a line per card appended to the accumulator. */
  method AppendLines(prefix: string, cards: seq<Card>) returns (decklist: string)
    ensures decklist == prefix + Lines(cards)
  {
    decklist := prefix;
    var i := 0;
    while i < |cards|
      invariant i <= |cards|
      invariant decklist == prefix + Lines(cards[..i])
    {
      var card := cards[i];
      AppendLineStep(prefix, cards, i, decklist);
      decklist := decklist + card.count + " " + card.name + " (" + card.id + ")\n";
      i := i + 1;
    }
    assert cards[..i] == cards;
  }

  lemma AppendLineStep(prefix: string, cards: seq<Card>, i: nat, decklist: string)
    requires i < |cards| && decklist == prefix + Lines(cards[..i])
    ensures decklist + cards[i].count + " " + cards[i].name + " (" + cards[i].id + ")\n" == prefix + Lines(cards[..i + 1])
  {
    var card := cards[i];
    assert cards[..i + 1][..i] == cards[..i];
    assert Lines(cards[..i + 1]) == Lines(cards[..i]) + CardLine(card) + "\n";
  }

  /** The text of one consumed line. */
  function ItemText(item: Item): string {
    match item
    case CardItem(card) => CardLine(card)
    case MarketItem => MarketDelimiter
  }

  /** The texts of `items`, each followed by the separator `sep`. */
  function Terminated(items: seq<Item>, sep: char): string {
    if items == [] then ""
    else ItemText(items[0]) + [sep] + Terminated(items[1..], sep)
  }

  function CardItems(cards: seq<Card>): (items: seq<Item>)
    ensures |items| == |cards|
    ensures forall i :: 0 <= i < |cards| ==> items[i] == CardItem(cards[i])
  {
    if cards == [] then [] else CardItems(cards[..|cards| - 1]) + [CardItem(cards[|cards| - 1])]
  }

  /** The lines the export writes, in order. */
  function ExportItems(deck: Deck): seq<Item> {
    CardItems(deck.mainDeck) + (if |deck.market| > 0 then [MarketItem] + CardItems(deck.market) else [])
  }

  lemma {:induction false} TerminatedAppend(xs: seq<Item>, ys: seq<Item>, sep: char)
    ensures Terminated(xs + ys, sep) == Terminated(xs, sep) + Terminated(ys, sep)
  {
    if xs == [] {
      assert xs + ys == ys;
    } else {
      assert (xs + ys)[1..] == xs[1..] + ys;
      TerminatedAppend(xs[1..], ys, sep);
    }
  }

  lemma {:induction false} LinesTerminated(cards: seq<Card>)
    ensures Lines(cards) == Terminated(CardItems(cards), '\n')
  {
    if cards != [] {
      var init, last := cards[..|cards| - 1], cards[|cards| - 1];
      LinesTerminated(init);
      TerminatedAppend(CardItems(init), [CardItem(last)], '\n');
      assert [CardItem(last)][1..] == [];
    }
  }

  /** The export is its lines, each ended by a line break. */
  lemma ExportTextTerminated(deck: Deck)
    ensures ExportText(deck) == Terminated(ExportItems(deck), '\n')
  {
    LinesTerminated(deck.mainDeck);
    LinesTerminated(deck.market);
    if |deck.market| > 0 {
      var tail := [MarketItem] + CardItems(deck.market);
      TerminatedAppend(CardItems(deck.mainDeck), tail, '\n');
      assert tail[1..] == CardItems(deck.market);
    } else {
      assert CardItems(deck.mainDeck) + [] == CardItems(deck.mainDeck);
    }
  }

  lemma {:induction false} CardsOfCardItems(cards: seq<Card>)
    ensures CardsOf(CardItems(cards)) == cards
    ensures MarketItem !in CardItems(cards)
  {
    if cards != [] {
      var init, last := cards[..|cards| - 1], cards[|cards| - 1];
      CardsOfCardItems(init);
      CardsOfAppend(CardItems(init), [CardItem(last)]);
      assert [CardItem(last)][1..] == [];
    }
  }

  /** The delimiter written after a run of card lines is the first one. */
  lemma FirstMarketAfterCards(cards: seq<Card>, rest: seq<Item>)
    ensures FirstMarket(CardItems(cards) + [MarketItem] + rest) == |cards|
  {
    var main := CardItems(cards);
    var items := main + [MarketItem] + rest;
    CardsOfCardItems(cards);
    FirstMarketAppend(main, MarketItem);
    FirstMarketFound(main);
    assert main + [MarketItem] == items[..|main| + 1];
    FirstMarketPrefix(items, |main| + 1);
  }

  /**
   * The lines the export writes describe exactly the deck it was given: the delimiter
   * comes after every main-deck card, and the market cards follow it.
   */
  lemma ExportItemsDescribeDeck(deck: Deck)
    ensures DeckOf(ExportItems(deck)) == deck
  {
    var items := ExportItems(deck);
    var main := CardItems(deck.mainDeck);
    CardsOfCardItems(deck.mainDeck);
    if |deck.market| > 0 {
      var tail := [MarketItem] + CardItems(deck.market);
      assert items == main + [MarketItem] + CardItems(deck.market);
      FirstMarketAfterCards(deck.mainDeck, CardItems(deck.market));
      assert items[..|main|] == main && items[|main|..] == tail;
      CardsOfCardItems(deck.market);
      CardsOfAppend([MarketItem], CardItems(deck.market));
      assert [MarketItem][1..] == [];
    } else {
      assert items == main;
      DeckOfWithoutMarket(items);
    }
  }

  /** The first delimiter of a prefix that has one is the first delimiter of the whole. */
  lemma {:induction false} FirstMarketPrefix(items: seq<Item>, n: nat)
    requires n <= |items| && MarketItem in items[..n]
    ensures FirstMarket(items) == FirstMarket(items[..n])
  {
    if items[0] != MarketItem {
      assert items[..n][0] == items[0];
      assert items[..n][1..] == items[1..][..n - 1];
      FirstMarketPrefix(items[1..], n - 1);
    }
  }

  // What the parser makes of exported text.

  /** The parser's `Rest` is unaffected by text in front of the position it starts from. */
  lemma {:induction false} SkipWhileShift(u: string, v: string, i: nat, p: char -> bool)
    requires i <= |v|
    ensures SkipWhile(u + v, |u| + i, p) == |u| + SkipWhile(v, i, p)
    decreases |v| - i
  {
    if i < |v| {
      assert (u + v)[|u| + i] == v[i];
      if p(v[i]) {
        SkipWhileShift(u, v, i + 1, p);
      }
    }
  }

  lemma RestShift(u: string, v: string, i: nat)
    requires i <= |v|
    ensures Rest(u + v, |u| + i) == Rest(v, i)
  {
    var e := SkipWhile(v, i, IsSpace);
    SkipWhileShift(u, v, i, IsSpace);
    SkipWhileShift(u, v, e, NotLineTerminator);
    var f := SkipWhile(v, e, NotLineTerminator);
    forall k | 0 <= k < f - e
      ensures (u + v)[|u| + e..|u| + f][k] == v[e..f][k]
    {
      assert (u + v)[|u| + e + k] == v[e + k];
    }
    assert (u + v)[|u| + e..|u| + f] == v[e..f];
  }

  /** `\s*(.*)` at the start of text that begins with a line of its own gives that line. */
  lemma RestIsFirstLine(u: string, v: string)
    requires u != [] && !IsSpace(u[0]) && NoLineTerminator(u)
    requires v == [] || IsLineTerminator(v[0])
    ensures Rest(u + v, 0) == u
  {
    var s := u + v;
    SkipWhileAt(s, 0, 0, IsSpace);
    SkipWhileAt(s, 0, |u|, NotLineTerminator);
    assert s[0..|u|] == u;
  }

  /** A card that can be written out and read back: what the parser produces, on one line. */
  ghost predicate Exportable(item: Item) {
    item.CardItem? ==> ParsedCard(item.card) && NoLineTerminator(item.card.name)
  }

  lemma SetIdOneLine(t: string)
    requires IsSetId(t)
    ensures NoLineTerminator(t)
  {
    var k: nat :| SetIdAt(t, 0, k, |t|);
  }

  /** The text of an exportable line has no line break and starts with a non-space. */
  lemma ItemTextShape(item: Item)
    requires Exportable(item)
    ensures |ItemText(item)| > 0 && !IsSpace(ItemText(item)[0])
    ensures NoLineTerminator(ItemText(item))
  {
    if item.CardItem? {
      var c := item.card;
      SetIdOneLine(c.id);
      var s := CardLine(c);
      assert s[0] == c.count[0];
      forall k | 0 <= k < |s| ensures !IsLineTerminator(s[k]) {
        if k < |c.count| {
          assert s[k] == c.count[k];
        } else if |c.count| < k < |c.count| + 1 + |c.name| {
          assert s[k] == c.name[k - |c.count| - 1];
        } else if |c.count| + 3 + |c.name| <= k < |s| - 1 {
          assert s[k] == c.id[k - |c.count| - 3 - |c.name|];
        }
      }
    }
  }

  /** Where the pieces of a card line sit in the text. */
  lemma CardLineLayout(card: Card, w: string, s: string, b: nat, c: nat, h: nat)
    requires s == CardLine(card) + w
    requires b == |card.count| && c == b + 1 + |card.name| && h == c + 2 + |card.id|
    ensures h < |s| && s[..b] == card.count && s[b] == ' ' && s[b + 1..c] == card.name
    ensures s[c] == ' ' && s[c + 1] == '(' && s[c + 2..h] == card.id && s[h] == ')' && s[h + 1..] == w
  {
    assert s == card.count + ([' '] + (card.name + ([' ', '('] + (card.id + ([')'] + w)))));
  }

  /** A card line of a parsed card is an occurrence of the card pattern. */
  lemma CardLinePattern(card: Card, w: string, b: nat, c: nat, h: nat)
    requires ParsedCard(card)
    requires b == |card.count| && c == b + 1 + |card.name| && h == c + 2 + |card.id|
    ensures CardPatternAt(CardLine(card) + w, 0, b, c, h)
  {
    var s := CardLine(card) + w;
    CardLineLayout(card, w, s, b, c, h);
    forall k | 0 <= k < b
      ensures IsDigit(s[k])
    {
      assert s[k] == s[..b][k];
    }
    forall k | b + 1 <= k < c
      ensures s[k] != '('
    {
      assert s[k] == s[b + 1..c][k - b - 1];
    }
    assert IsSetId(s[c + 2..h]);
    assert NameIdAt(s, b, c, h);
  }

  /** The groups of the card pattern in a card line are the card's fields. */
  lemma CardLineGroups(card: Card, w: string, b: nat, c: nat, h: nat)
    requires b == |card.count| && c == b + 1 + |card.name| && h == c + 2 + |card.id|
    ensures h < |CardLine(card) + w| && CardAt(CardLine(card) + w, (0, b, c, h)) == card
  {
    var s := CardLine(card) + w;
    CardLineLayout(card, w, s, b, c, h);
    assert s[0..b] == s[..b];
  }

  /** The capture after a card line's `)` starts on whatever follows the line. */
  lemma CardLineRest(card: Card, w: string, h: nat)
    requires h == |card.count| + 1 + |card.name| + 2 + |card.id|
    ensures h + 1 <= |CardLine(card) + w| && Rest(CardLine(card) + w, h + 1) == Rest(w, 0)
  {
    assert |CardLine(card)| == h + 1;
    RestShift(CardLine(card), w, 0);
  }

  /** A card line, whatever follows it, is matched by the card regex and gives back the card. */
  lemma MatchCardLine(card: Card, w: string)
    requires ParsedCard(card)
    ensures MatchCard(CardLine(card) + w) == Some(CardMatch(card, Rest(w, 0)))
  {
    var b := |card.count|;
    var c := b + 1 + |card.name|;
    var h := c + 2 + |card.id|;
    CardLinePattern(card, w, b, c, h);
    CardLineGroups(card, w, b, c, h);
    CardLineRest(card, w, h);
    MatchCardComplete(CardLine(card) + w, 0, b, c, h);
  }

  /** The delimiter line starts with `-`, which the card regex cannot start with. */
  lemma DelimiterNotCard(w: string)
    ensures MatchCard(MarketDelimiter + w) == None
  {
    var s := MarketDelimiter + w;
    assert s[0] == '-';
    assert SkipWhile(s, 0, IsSpace) == 0 && SkipWhile(s, 0, IsDigit) == 0;
  }

  /** The delimiter: 14 dashes, `MARKET`, 15 dashes. */
  lemma DelimiterShape()
    ensures |MarketDelimiter| == 35 && MarketDelimiter[14..20] == "MARKET"
    ensures forall k :: 0 <= k < 14 || 20 <= k < 35 ==> MarketDelimiter[k] == '-'
  {
    var before, after := "--------------", "---------------";
    assert MarketDelimiter == before + "MARKET" + after;
    assert (before + "MARKET" + after)[14..20] == "MARKET";
  }

  /** The delimiter line is an occurrence of the market pattern whose trailing dash run ends with the line. */
  lemma DelimiterPattern(w: string)
    requires w == [] || !IsDash(w[0])
    ensures MarketPatternAt(MarketDelimiter + w, 0, 14)
    ensures SkipWhile(MarketDelimiter + w, 20, IsDash) == |MarketDelimiter|
  {
    var s := MarketDelimiter + w;
    DelimiterShape();
    assert s[14..20] == MarketDelimiter[14..20];
    assert forall k :: 0 <= k < 35 ==> s[k] == MarketDelimiter[k];
    SkipWhileAt(s, 20, 35, IsDash);
  }

  /** The delimiter line, followed by anything but another `-`, is matched by the market regex only. */
  lemma MatchDelimiterLine(w: string)
    requires w == [] || !IsDash(w[0])
    ensures MatchCard(MarketDelimiter + w) == None
    ensures MatchMarket(MarketDelimiter + w) == Some(Rest(w, 0))
  {
    DelimiterNotCard(w);
    DelimiterPattern(w);
    MatchMarketComplete(MarketDelimiter + w, 0, 14);
    RestShift(MarketDelimiter, w, 0);
  }

  /** One exported line followed by `w`: the loop consumes that line and carries on with `Rest(w, 0)`. */
  lemma TraceItem(item: Item, w: string)
    requires Exportable(item)
    requires w == [] || !IsDash(w[0])
    ensures Trace(ItemText(item) + w) == [item] + Trace(Rest(w, 0))
  {
    TraceUnfold(ItemText(item) + w);
    match item
    case CardItem(card) => MatchCardLine(card, w);
    case MarketItem => MatchDelimiterLine(w);
  }

  /** Exported lines joined by spaces (the export as one line) have no line break and start with a non-space. */
  lemma {:induction false} SpaceTerminatedShape(items: seq<Item>)
    requires forall i :: 0 <= i < |items| ==> Exportable(items[i])
    ensures NoLineTerminator(Terminated(items, ' '))
    ensures items != [] ==> !IsSpace(Terminated(items, ' ')[0])
  {
    if items != [] {
      SpaceTerminatedShape(items[1..]);
      ItemTextShape(items[0]);
      var t := Terminated(items, ' ');
      var head := ItemText(items[0]) + [' '];
      assert t == head + Terminated(items[1..], ' ');
      forall k | 0 <= k < |t| ensures !IsLineTerminator(t[k]) {
        if k < |ItemText(items[0])| {
          assert t[k] == ItemText(items[0])[k];
        } else if k >= |head| {
          assert t[k] == Terminated(items[1..], ' ')[k - |head|];
        }
      }
    }
  }

  /** The greedy `\s*` of the capture swallows a leading separator. */
  lemma RestSkipsSeparator(sep: char, t: string)
    requires IsSpace(sep)
    ensures Rest([sep] + t, 0) == Rest(t, 0)
  {
    assert SkipWhile([sep] + t, 0, IsSpace) == SkipWhile([sep] + t, 1, IsSpace);
    RestShift([sep], t, 0);
  }

  /** Text on one line that starts with a non-space is captured whole. */
  lemma RestWhole(t: string)
    requires NoLineTerminator(t) && (t == [] || !IsSpace(t[0]))
    ensures Rest(t, 0) == t
  {
    if t != [] {
      RestIsFirstLine(t, []);
      assert t + [] == t;
    }
  }

  /** The exported lines, each followed by `sep`: the first one is consumed and the capture starts at the second. */
  lemma TraceTerminated(items: seq<Item>, sep: char)
    requires items != [] && Exportable(items[0]) && IsSpace(sep)
    ensures Trace(Terminated(items, sep)) == [items[0]] + Trace(Rest(Terminated(items[1..], sep), 0))
  {
    var rest := Terminated(items[1..], sep);
    calc {
      Trace(Terminated(items, sep));
      { assert Terminated(items, sep) == ItemText(items[0]) + ([sep] + rest); }
      Trace(ItemText(items[0]) + ([sep] + rest));
      { TraceItem(items[0], [sep] + rest); }
      [items[0]] + Trace(Rest([sep] + rest, 0));
      { RestSkipsSeparator(sep, rest); }
      [items[0]] + Trace(Rest(rest, 0));
    }
  }

  /**
   * Lines separated by spaces, as the export reads once its line breaks have become
   * spaces, are read back completely and in order.
   */
  lemma {:induction false} TraceSpaceTerminated(items: seq<Item>)
    requires forall i :: 0 <= i < |items| ==> Exportable(items[i])
    ensures Trace(Terminated(items, ' ')) == items
  {
    if items == [] {
      TraceEmpty();
    } else {
      TraceTerminated(items, ' ');
      SpaceTerminatedShape(items[1..]);
      RestWhole(Terminated(items[1..], ' '));
      TraceSpaceTerminated(items[1..]);
    }
  }

  lemma TraceEmpty()
    ensures Trace("") == []
  {
    UnmatchedTextEndsParse('x', "");
  }

  /** A single exported line with nothing after it is read back. */
  lemma TraceSingleLine(item: Item)
    requires Exportable(item)
    ensures Trace(ItemText(item)) == [item]
  {
    TraceItem(item, []);
    assert ItemText(item) + [] == ItemText(item);
    RestWhole([]);
    TraceEmpty();
  }

  /** With line breaks, the capture after the first line is the second line alone. */
  lemma RestNextLine(items: seq<Item>)
    requires |items| >= 2 && Exportable(items[1])
    ensures Rest(Terminated(items[1..], '\n'), 0) == ItemText(items[1])
  {
    ItemTextShape(items[1]);
    var later := Terminated(items[2..], '\n');
    assert items[1..][1..] == items[2..];
    assert Terminated(items[1..], '\n') == ItemText(items[1]) + (['\n'] + later);
    RestIsFirstLine(ItemText(items[1]), ['\n'] + later);
  }

  /**
   * The export as written, one line per card: after the first match the text kept runs
   * only up to the next line break, so the parser reads back the first two lines and no
   * more.
   */
  lemma TraceNewlineTerminated(items: seq<Item>)
    requires forall i :: 0 <= i < |items| ==> Exportable(items[i])
    ensures |items| < 2 ==> Trace(Terminated(items, '\n')) == items
    ensures |items| >= 2 ==> Trace(Terminated(items, '\n')) == items[..2]
  {
    if items == [] {
      TraceEmpty();
    } else if |items| == 1 {
      TraceNewlineOne(items);
    } else {
      TraceNewlineMany(items);
    }
  }

  lemma TraceNewlineOne(items: seq<Item>)
    requires |items| == 1 && Exportable(items[0])
    ensures Trace(Terminated(items, '\n')) == items
  {
    calc {
      Trace(Terminated(items, '\n'));
      { TraceTerminated(items, '\n'); }
      [items[0]] + Trace(Rest(Terminated(items[1..], '\n'), 0));
      { assert items[1..] == []; RestWhole([]); }
      [items[0]] + Trace([]);
      { TraceEmpty(); }
      [items[0]];
    }
  }

  lemma TraceNewlineMany(items: seq<Item>)
    requires |items| >= 2 && Exportable(items[0]) && Exportable(items[1])
    ensures Trace(Terminated(items, '\n')) == items[..2]
  {
    calc {
      Trace(Terminated(items, '\n'));
      { TraceTerminated(items, '\n'); }
      [items[0]] + Trace(Rest(Terminated(items[1..], '\n'), 0));
      { RestNextLine(items); }
      [items[0]] + Trace(ItemText(items[1]));
      { TraceSingleLine(items[1]); }
      [items[0]] + [items[1]];
    }
  }

  /** Every line break of the text replaced by a space. */
  function OneLine(s: string): (r: string)
    ensures |r| == |s|
    ensures forall k :: 0 <= k < |s| ==> r[k] == if s[k] == '\n' then ' ' else s[k]
  {
    if s == [] then [] else OneLine(s[..|s| - 1]) + [if s[|s| - 1] == '\n' then ' ' else s[|s| - 1]]
  }

  lemma {:induction false} OneLineAppend(u: string, v: string)
    ensures OneLine(u + v) == OneLine(u) + OneLine(v)
    decreases |v|
  {
    if v == [] {
      assert u + v == u;
    } else {
      assert (u + v)[..|u + v| - 1] == u + v[..|v| - 1];
      OneLineAppend(u, v[..|v| - 1]);
    }
  }

  lemma OneLineKeeps(s: string)
    requires NoLineTerminator(s)
    ensures OneLine(s) == s
  {
  }

  /** A line, its break, and what follows: only the break changes. */
  lemma OneLineCons(head: string, r: string, r': string)
    requires NoLineTerminator(head) && OneLine(r) == r'
    ensures OneLine(head + ['\n'] + r) == head + [' '] + r'
  {
    calc {
      OneLine(head + ['\n'] + r);
      { OneLineAppend(head + ['\n'], r); OneLineAppend(head, ['\n']); }
      OneLine(head) + OneLine(['\n']) + OneLine(r);
      { OneLineKeeps(head); }
      head + [' '] + r';
    }
  }

  /** Replacing the line breaks of the export by spaces gives the lines separated by spaces. */
  lemma {:induction false} OneLineTerminated(items: seq<Item>)
    requires forall i :: 0 <= i < |items| ==> Exportable(items[i])
    ensures OneLine(Terminated(items, '\n')) == Terminated(items, ' ')
  {
    if items != [] {
      OneLineTerminated(items[1..]);
      ItemTextShape(items[0]);
      OneLineCons(ItemText(items[0]), Terminated(items[1..], '\n'), Terminated(items[1..], ' '));
    }
  }

  /** Every card of the deck can be written out and read back. */
  ghost predicate ExportableDeck(deck: Deck) {
    && (forall c :: c in deck.mainDeck ==> Exportable(CardItem(c)))
    && (forall c :: c in deck.market ==> Exportable(CardItem(c)))
  }

  lemma ExportItemsExportable(deck: Deck)
    requires ExportableDeck(deck)
    ensures forall i :: 0 <= i < |ExportItems(deck)| ==> Exportable(ExportItems(deck)[i])
  {
    var main := CardItems(deck.mainDeck);
    forall i | 0 <= i < |ExportItems(deck)| ensures Exportable(ExportItems(deck)[i]) {
      if i < |main| {
        assert ExportItems(deck)[i] == CardItem(deck.mainDeck[i]);
      } else if i > |main| {
        assert ExportItems(deck)[i] == CardItem(deck.market[i - |main| - 1]);
      }
    }
  }

  /**
   * Export then parse, with the line breaks turned into spaces (the page's text as it
   * reaches the parser), gives back the deck.
   */
  lemma OneLineExportRoundTrip(deck: Deck)
    requires ExportableDeck(deck)
    ensures DeckOf(Trace(OneLine(ExportText(deck)))) == deck
  {
    ExportItemsExportable(deck);
    ExportTextTerminated(deck);
    OneLineTerminated(ExportItems(deck));
    TraceSpaceTerminated(ExportItems(deck));
    ExportItemsDescribeDeck(deck);
  }

  /**
   * Export then parse of the text as written: a deck of at most one exported line comes
   * back whole, a longer one comes back as the deck its first two lines describe.
   */
  lemma ExportRoundTripTwoLines(deck: Deck)
    requires ExportableDeck(deck)
    ensures |ExportItems(deck)| < 2 ==> DeckOf(Trace(ExportText(deck))) == deck
    ensures |ExportItems(deck)| >= 2 ==> DeckOf(Trace(ExportText(deck))) == DeckOf(ExportItems(deck)[..2])
  {
    ExportItemsExportable(deck);
    ExportTextTerminated(deck);
    TraceNewlineTerminated(ExportItems(deck));
    ExportItemsDescribeDeck(deck);
  }
}
