/**
 * The two-column split of `generateFromDecklist` (deckbox.js:620-643): the sections are
 * walked in their fixed order with a running count of the entries already placed, and a
 * second column is opened before the first section reached once that count is at least
 * half of all entries.
 */
module Layout {
  import opened Decklist
  import opened Sections

  /** The order the sections are displayed in. */
  const SectionNames: seq<string> := ["Units", "Spells", "Attachments", "Other", "Power", "Market"]

  /** `sectionList`: the six sections in display order. */
  function SectionList(section: Sections): (list: seq<seq<Card>>)
    ensures |list| == |SectionNames|
  {
    [section.units, section.spells, section.attachments, section.other, section.power, section.market]
  }

  /** The number of entries (array elements, not card quantities) in `sections`. */
  function Entries(sections: seq<seq<Card>>): nat {
    if sections == [] then 0
    else Entries(sections[..|sections| - 1]) + |sections[|sections| - 1]|
  }

  /**
   * The column section `i` is placed in: the second one exactly when the entries of the
   * sections before it make up at least half of all entries.
   */
  function ColumnOf(sections: seq<seq<Card>>, i: nat): nat
    requires i < |sections|
  {
    if 2 * Entries(sections[..i]) >= Entries(sections) then 1 else 0
  }

  /**
   * The counting loop and the column walk. `columns[i]` is the column section `i` is
   * generated into; `columnCount` is the number of `appendColumn` calls.
   */
  method PlanColumns(sectionList: seq<seq<Card>>) returns (columns: seq<nat>, columnCount: nat)
    ensures |columns| == |sectionList|
    ensures forall i :: 0 <= i < |sectionList| ==> columns[i] == ColumnOf(sectionList, i)
    ensures columnCount == if sectionList == [] then 1 else 1 + ColumnOf(sectionList, |sectionList| - 1)
  {
    var total := 0;
    var i := 0;
    while i < |sectionList|
      invariant i <= |sectionList|
      invariant total == Entries(sectionList[..i])
    {
      assert sectionList[..i + 1][..i] == sectionList[..i];
      total := total + |sectionList[i]|;
      i := i + 1;
    }
    assert sectionList[..i] == sectionList;

    columnCount := 1;
    columns := [];
    var currentCount := 0;
    var currentColumn := 0;
    i := 0;
    while i < |sectionList|
      invariant i <= |sectionList|
      invariant currentCount == Entries(sectionList[..i])
      invariant |columns| == i
      invariant forall k :: 0 <= k < i ==> columns[k] == ColumnOf(sectionList, k)
      invariant currentColumn == if i == 0 then 0 else columns[i - 1]
      invariant columnCount == 1 + currentColumn
    {
      if i > 0 {
        EntriesPrefixMonotone(sectionList, i - 1, i);
      }
      // `currentCount >= total / 2`, with the floating-point halving of the source
      if currentCount as real >= total as real / 2.0 && currentColumn == 0 {
        columnCount := columnCount + 1;
        currentColumn := currentColumn + 1;
      }
      columns := columns + [currentColumn];
      assert sectionList[..i + 1][..i] == sectionList[..i];
      currentCount := currentCount + |sectionList[i]|;
      i := i + 1;
    }
  }

  /** The running count only grows along the walk. */
  lemma {:induction false} EntriesPrefixMonotone(sections: seq<seq<Card>>, j: nat, i: nat)
    requires j <= i <= |sections|
    ensures Entries(sections[..j]) <= Entries(sections[..i])
    decreases i
  {
    if j < i {
      assert sections[..i][..i - 1] == sections[..i - 1];
      EntriesPrefixMonotone(sections, j, i - 1);
    }
  }

  lemma {:induction false} EntriesAppend(xs: seq<seq<Card>>, ys: seq<seq<Card>>)
    ensures Entries(xs + ys) == Entries(xs) + Entries(ys)
    decreases |ys|
  {
    if ys == [] {
      assert xs + ys == xs;
    } else {
      assert (xs + ys)[..|xs + ys| - 1] == xs + ys[..|ys| - 1];
      EntriesAppend(xs, ys[..|ys| - 1]);
    }
  }

  /**
   * The second column is opened at most once and never taken back: once a section is in
   * column 1, so is every later one. Column 0 therefore holds a prefix of the sections.
   */
  lemma ColumnsMonotone(sections: seq<seq<Card>>, i: nat, j: nat)
    requires i <= j < |sections|
    ensures ColumnOf(sections, i) <= ColumnOf(sections, j) <= 1
  {
    EntriesPrefixMonotone(sections, i, j);
  }

  /** With no entries at all the check passes before the first section: everything is in column 1. */
  lemma EmptyDeckColumns(sections: seq<seq<Card>>)
    requires Entries(sections) == 0
    ensures forall i :: 0 <= i < |sections| ==> ColumnOf(sections, i) == 1
  {
  }

  /** With at least one entry, the first section (Units) is always in column 0. */
  lemma FirstSectionInColumnZero(sections: seq<seq<Card>>)
    requires |sections| > 0 && Entries(sections) > 0
    ensures ColumnOf(sections, 0) == 0
  {
    assert sections[..0] == [];
  }

  /**
   * The balance the split achieves: if section `p` is the first one in column 1, the
   * sections after it hold at most half of the entries, and the sections of column 0
   * before its last one hold less than half.
   */
  lemma ColumnBalance(sections: seq<seq<Card>>, p: nat)
    requires p < |sections| && ColumnOf(sections, p) == 1 && (p == 0 || ColumnOf(sections, p - 1) == 0)
    ensures 2 * Entries(sections[p..]) <= Entries(sections)
    ensures p > 0 ==> 2 * Entries(sections[..p - 1]) < Entries(sections)
  {
    assert sections == sections[..p] + sections[p..];
    EntriesAppend(sections[..p], sections[p..]);
  }

  /** The six-section walk: Units goes to column 0 unless the deck has no entries at all. */
  lemma UnitsColumn(section: Sections)
    ensures ColumnOf(SectionList(section), 0) == if Entries(SectionList(section)) == 0 then 1 else 0
  {
    assert SectionList(section)[..0] == [];
  }
}
