# deckbox.js decklist core, in Dafny

This project models the decklist and cost-handling core of `deckbox.js`, which displays a
deck for a collectible card game. The model covers six parts:

- **Cost parser and comparator.** `deckboxMakeInfluence` reads a cost string such as
  `"2FF"` into a power requirement and five faction counts (fire, justice, primal, shadow,
  time). It returns `null` when it meets a character it does not know. Its `compare`
  orders two costs lexicographically on (power, shadow, primal, justice, time, fire).
  It lives in `costs.dfy`.
- **Decklist parser.** `deckboxParseDeck` runs two anchored regular expressions, one for a
  card line and one for the market delimiter, again and again on the text that is left.
  It stops at the first text that matches neither. Both regular expressions are written
  out as deterministic matchers, and each matcher is proved sound and complete against a
  positional description of its pattern. This part is in `chars.dfy` and `decklist.dfy`.
- **Categoriser.** It puts each main-deck card into a units, spells, attachments, power or
  other bucket by its library type. It is in `sections.dfy`.
- **Section sort and count.** `generateSection` sorts a section in place with a
  four-case comparator and adds up the card counts. It is in `sections.dfy`.
- **Two-column split.** It walks the six sections in display order with a running count
  of entries. It is in `layout.dfy`, and `render.dfy` combines it with the parts above.
- **Exporter.** `exportDeck` rebuilds the decklist text. It is in `export.dfy`, together
  with what the parser reads back from that text.

The imperative code is modelled as methods, each proved against a pure specification
function. This covers the character loop of the cost parser, the parser's do-while
loop, the categorisation pushes, the in-place sort and counting loop, the column walk
and the string accumulator of the exporter. The comparators are functions, and their
properties are lemmas.

The regular expressions are followed as written in the code:

- The market line is `^\s*-+MARKET-+`. Zero or more leading whitespace characters and one
  or more hyphens on each side are enough.
- The trailing `\s*(.*)` has no `s` flag, so the text kept after a match ends at the next
  line terminator.

As a consequence, newline-separated text parses back only its first two lines.
`Export.ExportRoundTripTwoLines` proves this. Once the line breaks are collapsed to
spaces, as the browser's `innerText` does in practice, the export parses back whole
(`Export.OneLineExportRoundTrip`).

## Model

| member | source | states |
|---|---|---|
| Costs.EmptyCost | deckbox.js:52-59 | the empty cost string gives a record with all six fields zero |
| Costs.ParseCostAppendFails | deckbox.js:67-95 | one more character makes the result `null` exactly when the prefix already failed or the character is not a digit or one of F, J, P, S, T, X |
| Costs.ParseCostAppendDigit | deckbox.js:70-78 | a digit multiplies the power by ten and adds its value; the `power > 0` branch agrees with this because the power is zero otherwise; no faction changes |
| Costs.ParseCostAppendLetter | deckbox.js:79-91 | each of F, J, P, S, T adds exactly one to its own field and to nothing else; X changes none of the six fields |
| Costs.MakeInfluence | deckbox.js:46-136 | the character loop with its error flag returns the record `ParseCost` describes, or `null` exactly when some character is invalid |
| Costs.DecodeChar | deckbox.js:67-95 | one round of the character loop: the character is flagged invalid exactly when it is not a digit or one of `F J P S T X`, and a valid one turns the record `ParseCost` gives for the text read so far into the record for that text with the character appended |
| Costs.Compare | deckbox.js:102-128 | the six-way chain of `compare`; its meaning is stated by `CompareIsFirstDifference`, `CompareAntisymmetric` and `CompareTransitive` |
| Costs.CompareIsFirstDifference | deckbox.js:102-128 | `compare` is zero exactly when all six fields are equal; otherwise it is the difference of the first differing field in the order power, shadow, primal, justice, time, fire |
| Costs.CompareAntisymmetric | deckbox.js:102-128 | `a.compare(b) == -b.compare(a)` |
| Costs.CompareTransitive | deckbox.js:102-128 | `compare` is a transitive order |
| Decklist.Rest | deckbox.js:153-154 | the `\s*(.*)` capture holds no line terminator, does not start with whitespace and is no longer than the text it is taken from |
| Decklist.MatchSetId | deckbox.js:153 | a match of the id group is a `Set<digits> #<digits>` slice followed by `)` |
| Decklist.MatchSetIdComplete | deckbox.js:153 | every `Set<digits> #<digits>)` at the position is found |
| Decklist.CardPositions | deckbox.js:153 | the group boundaries found satisfy the card pattern: whitespace, digits, a space, a name without `(`, ` (`, a set id, `)` |
| Decklist.CardPositionsComplete | deckbox.js:153 | whenever the card pattern holds at some boundaries, those are the boundaries found, so the match is unique |
| Decklist.NameAndId | deckbox.js:153 | the part of the card regex after the count, `([^\(]+) \((Set[0-9]+ #[0-9]+)\)`: the boundaries it returns satisfy that part of the pattern |
| Decklist.NameAndIdComplete | deckbox.js:153 | whenever that part of the pattern holds at some boundaries, those are the boundaries returned |
| Decklist.MatchCard | deckbox.js:163-172 | after a card match the remaining text has no line terminator and is strictly shorter |
| Decklist.CardAt | deckbox.js:167-171 | the card object built from groups 1-3; `MatchCardComplete` and `PatternCardIsParsed` state what it holds |
| Decklist.MatchCardComplete | deckbox.js:163-172 | a text of the card pattern yields the card (count, name, id) from its three groups and the capture after the closing `)` |
| Decklist.PatternCardIsParsed | deckbox.js:153 | the groups of a card match are a numeral count, a non-empty name without `(`, and a `Set<n> #<m>` id |
| Decklist.MatchedCardIsParsed | deckbox.js:167-171 | every card the matcher produces has that shape |
| Decklist.MatchMarket | deckbox.js:154 | after a market match the remaining text has no line terminator and is strictly shorter |
| Decklist.MatchMarketComplete | deckbox.js:154 | a text of the market pattern matches, keeping the capture after the trailing hyphens |
| Decklist.MatchMarketSound | deckbox.js:154 | every market match comes from a position where the pattern holds |
| Decklist.NextStep | deckbox.js:162-183 | one loop iteration leaves a strictly shorter remainder without a line terminator, so the loop terminates |
| Decklist.TraceUnfold | deckbox.js:162-183 | the card pattern is tried first, then the market pattern, and the loop stops when neither matches |
| Decklist.FirstMarket | deckbox.js:160-181 | the position where `inMarket` becomes true: every earlier line is a card, and the line there is the delimiter |
| Decklist.FirstMarketFound | deckbox.js:179-181 | the market is entered exactly when some delimiter was read |
| Decklist.FirstMarketAppend | deckbox.js:174-181 | `inMarket` is never reset: later delimiters do not move the switch point |
| Decklist.DeckOfKeepsAllCards | deckbox.js:166-181 | main deck followed by market is every card read, in text order |
| Decklist.DeckOfWithoutMarket | deckbox.js:174-178 | without a delimiter every card goes to the main deck |
| Decklist.DeckOfAppend | deckbox.js:166-181 | a card is pushed onto the main deck before the first delimiter and onto the market after it; a delimiter pushes nothing |
| Decklist.CollectIsDeckOf | deckbox.js:162-181 | pushing each matched card onto the main deck until a delimiter has been read and onto the market afterwards builds exactly the deck that splits the lines at the first delimiter |
| Decklist.ParseDeck | deckbox.js:148-186 | the do-while loop builds exactly the deck that the sequence of matched lines describes |
| Decklist.UnmatchedTextEndsParse | deckbox.js:162-183 | empty text, and text starting with a character neither pattern can begin with, give two empty lists |
| Decklist.TraceCardsParsed | deckbox.js:167-171 | every card read has a numeral count, a non-empty name without `(` and a set id |
| Decklist.ParsedDeckCards | deckbox.js:148-186 | the same holds for every card of the parsed main deck and market |
| Sections.BucketOf | deckbox.js:587-602 | the bucket the library type selects; stated by `BucketOfOther`, `InBucketMembers` and `CategorizedOnce` |
| Sections.InBucketSnoc | deckbox.js:586-604 | handling one more card appends it to its own bucket and leaves the others alone |
| Sections.BucketOfOther | deckbox.js:587-602 | a card goes to other exactly when it has no library entry or its type is none of unit, spell, attachment, power |
| Sections.InBucketMembers | deckbox.js:586-604 | a bucket holds exactly the main-deck cards of its type |
| Sections.Categorize | deckbox.js:586-608 | the push loop builds the five buckets in text order and copies the market unchanged |
| Sections.PushCard | deckbox.js:588-604 | a card is pushed onto the one bucket its library type selects (Other when the id is unknown); every other bucket and the market are unchanged |
| Sections.InBucketAppend | deckbox.js:586-604 | each bucket keeps text order |
| Sections.CategorizedOnce | deckbox.js:586-604 | each card lands, with its full multiplicity, in its own bucket and in no other |
| Sections.CategorizedPartition | deckbox.js:586-604 | the five buckets together are a permutation of the main deck |
| Sections.Info | deckbox.js:388-393 | the cost record of a card: `deckboxMakeInfluence` of its library cost, nothing for an unknown id or an invalid cost; `SortedSectionShape` states how the sort uses it |
| Sections.IdCompare | deckbox.js:396 | `localeCompare` returns -1, 0 or 1 |
| Sections.IdCompareZero | deckbox.js:396 | ids compare equal exactly when they are equal |
| Sections.IdCompareAntisymmetric | deckbox.js:396 | swapping the ids negates the result |
| Sections.IdCompareTransitive | deckbox.js:396 | the id order is transitive |
| Sections.CardCompare | deckbox.js:385-412 | the four-case sort comparator; stated by `CardCompareZero`, `CardCompareAntisymmetric`, `CardCompareTransitive` and `SortedSectionShape` |
| Sections.CardCompareAntisymmetric | deckbox.js:385-412 | the four-case comparator is antisymmetric |
| Sections.CardCompareZero | deckbox.js:385-412 | the comparator returns 0 exactly for cards with the same id |
| Sections.CardCompareTransitive | deckbox.js:385-412 | the comparator is transitive, so it is a consistent sort order |
| Sections.SortedSectionShape | deckbox.js:385-412 | in a sorted section, cards without a usable cost come first, ordered by id among themselves, and the rest are ordered by `compare` with ties broken by id |
| Sections.SortSection | deckbox.js:385-412 | `cards.sort` leaves the array sorted by the comparator and a permutation of its input |
| Sections.InsertNext | deckbox.js:385-412 | one insertion step: the prefix `cards[..i+1]` ends sorted and holds the same cards as before, and the rest of the array is untouched |
| Sections.Swap | deckbox.js:385 | exchanging two elements keeps the contents |
| Sections.NumeralCountsPermutation | deckbox.js:414-417 | sorting keeps every count a numeral |
| Sections.SumCountsPermutation | deckbox.js:414-417 | the sum of counts does not depend on the order of the cards |
| Sections.Number | deckbox.js:416 | `Number(card.count)` on a numeral count: its decimal value; `CountCards` and `SumCountsPermutation` state the sum built from it |
| Sections.CountCards | deckbox.js:414-417 | the loop's `cardCount` is the sum of `Number(card.count)` |
| Sections.GenerateSection | deckbox.js:380-419 | an empty section emits nothing; otherwise the section is sorted, is a permutation of its input, and its header count is the sum of the input counts |
| Layout.SectionList | deckbox.js:611-618 | the six sections in display order |
| Layout.PlanColumns | deckbox.js:620-643 | after counting entries, the walk puts section `i` in column 1 exactly when the entries before it are at least half the total, and appends one column plus one more if any section went to the second |
| Layout.ColumnsMonotone | deckbox.js:634-639 | the second column is opened at most once and never left, so column 0 holds a prefix of the sections and no section is split |
| Layout.EmptyDeckColumns | deckbox.js:636 | with no entries at all the switch happens before Units |
| Layout.FirstSectionInColumnZero | deckbox.js:636 | with at least one entry the first section stays in column 0 |
| Layout.UnitsColumn | deckbox.js:611-643 | Units goes to column 0 unless the deck has no entries |
| Layout.ColumnBalance | deckbox.js:620-643 | the sections of column 1 hold at most half of the entries, and column 0 without its last section holds less than half |
| Layout.EntriesPrefixMonotone | deckbox.js:642 | the running count never decreases |
| Render.ParsedDeckNumeral | deckbox.js:654-662 | a parsed deck has only numeral counts, which is what generation needs |
| Render.CategorizedNumeral | deckbox.js:586-618 | every listed section keeps that property |
| Render.GenerateOne | deckbox.js:641 | a section is emitted with its name, summed count and sorted cards, and an empty one is not emitted |
| Render.GenerateFromDecklist | deckbox.js:561-644 | each of the six sections is generated from the categorised deck into the column the running-count rule picks, and the number of columns is the one the walk appends |
| Export.ExportDeck | deckbox.js:533-554 | the accumulator ends as one `count name (id)` line per main-deck card, followed by the delimiter line and the market lines only when the market is non-empty |
| Export.AppendLines | deckbox.js:540-543 | the `forEach` appends to the accumulator one `count name (id)` line per card, in order, after whatever it already held |
| Export.CardItems | deckbox.js:540-550 | one line per card, in order |
| Export.LinesTerminated | deckbox.js:540-543 | the card lines are each line's text followed by a line break |
| Export.ExportTextTerminated | deckbox.js:538-551 | the export is its lines, each followed by `\n` |
| Export.ExportItemsDescribeDeck | deckbox.js:540-551 | the exported lines describe the deck they came from: reading them as the parser does gives the deck back |
| Export.CardLine | deckbox.js:541-542 | one exported `count name (id)` line; `MatchCardLine` states that the card regex reads it back as the card, `ItemTextShape` that it is one non-empty line |
| Export.MatchCardLine | deckbox.js:153 | the card regex matches an exported card line and yields that card |
| Export.MatchDelimiterLine | deckbox.js:154 | the card regex does not match the exported delimiter; the market regex does and consumes it whole |
| Export.TraceItem | deckbox.js:162-183 | an exported line is read back as itself, and the text kept after it starts at the next line |
| Export.ItemTextShape | deckbox.js:540-550 | an exported line is non-empty, does not start with whitespace and has no line terminator |
| Export.TraceSpaceTerminated | deckbox.js:162-183 | lines separated by spaces are all read back, in order |
| Export.TraceNewlineTerminated | deckbox.js:162-183 | lines separated by line breaks are read back only up to the second |
| Export.OneLineTerminated | deckbox.js:654 | collapsing the line breaks of the export to spaces gives the space-separated export |
| Export.OneLineExportRoundTrip | deckbox.js:533-554 | parsing the export with its line breaks collapsed gives back the deck |
| Export.ExportRoundTripTwoLines | deckbox.js:533-554 | parsing the export as written gives back the deck only when it has at most one line; otherwise only the deck described by its first two lines |

## Left out

- The DOM is not modelled. This covers element creation, headers, card rows, cost icons, hover pop-ups, `animateFadeout` with its timers, `deckboxGenerateAll` and the `readystatechange` hook. `Render.GenerateFromDecklist` returns the sections and their columns as values instead of appending elements.
- The header text `name (count)` is not modelled; the section view keeps the name and the count apart.
- `loadLibrary` is left out because it does I/O through `XMLHttpRequest` and `JSON.parse`. The library is a parameter, a map from id to entry.
- `copyToClipboard` is left out; `Export.ExportDeck` returns the text it would copy.
- The `console.log` of an invalid cost is left out; the error is only the `null` result.
- gatherlib.js is not part of this model. It fetches over the network and scrapes HTML.
- The wild counter is left out. `influence.wild` is never initialised, so `X` makes it `NaN`, and nothing reads it.
- A card missing from the library makes `appendCard` throw, because it reads `cardInfo.rarity` before its null check. That display code is not modelled.
- Sections.IdCompare: `localeCompare` depends on the locale and is modelled as code-point order. Ids are `Set<digits> #<digits>`, and on such strings the locale should not matter.
- Strings are sequences of characters, not of UTF-16 code units.
- Sections.SortSection: `Array.prototype.sort` is modelled as an insertion sort. Only the result being sorted and a permutation is stated, not the engine's algorithm or its stability.
- Sections.GenerateSection: requires every count to be a numeral, so `Number` never gives `NaN` and no floating-point rounding of large sums is modelled. The parser only produces numeral counts (`Render.ParsedDeckNumeral`).
- Costs.ParseCost and Costs.MakeInfluence: power is an exact integer. In the source `influence.power * 10 + digit` (deckbox.js:75) is a double, which is exact only up to 2^53, so a power of more than 15 digits rounds there and not in the model.
- Render.GenerateFromDecklist: requires every count to be a numeral, for the same reason.
- Layout.PlanColumns: the floating-point `total / 2` is modelled with exact reals. Totals are small integers, for which the two agree.
- Export.OneLineExportRoundTrip: the whitespace collapse of `innerText` is modelled only as each line break becoming a space.
- Export.ExportRoundTripTwoLines and Export.OneLineExportRoundTrip: require every card to have the shape the parser produces and a name without line terminators. A card of any other shape cannot be read back.
