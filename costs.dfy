/**
 * Card costs ("influence"): the cost-string decoder `deckboxMakeInfluence` and the
 * `compare` function it attaches to every decoded record (deckbox.js:46-136).
 */
module Costs {
  import opened Wrappers
  import opened Chars

  /**
   * A decoded cost: the generic power cost and one counter per faction symbol. The
   * wild counter of the source is left out: it starts undefined, so `X` makes it NaN,
   * and nothing ever reads it.
   */
  datatype Influence = Influence(power: nat, fire: nat, justice: nat, primal: nat, shadow: nat, time: nat)

  const NoInfluence := Influence(0, 0, 0, 0, 0, 0)

  /** The characters a cost string may hold: digits, the five faction letters and `X`. */
  predicate IsCostChar(c: char) {
    IsDigit(c) || c == 'F' || c == 'J' || c == 'P' || c == 'S' || c == 'T' || c == 'X'
  }

  /** The digit characters of `s`, in order. */
  function Digits(s: string): (ds: string)
    ensures AllDigits(ds) && |ds| <= |s|
  {
    if s == [] then []
    else Digits(s[..|s| - 1]) + (if IsDigit(s[|s| - 1]) then [s[|s| - 1]] else [])
  }

  function Occurrences(s: string, c: char): nat { multiset(s)[c] }

  /**
   * What a cost string means: `None` (the source's `null`) as soon as one character is
   * not a cost character; otherwise power is the number all its digits spell when read
   * together, left to right, and each faction counts the occurrences of its letter.
   */
  function ParseCost(s: string): Option<Influence>
  {
    if forall k :: 0 <= k < |s| ==> IsCostChar(s[k]) then
      Some(Influence(DecimalValue(Digits(s)), Occurrences(s, 'F'), Occurrences(s, 'J'),
                     Occurrences(s, 'P'), Occurrences(s, 'S'), Occurrences(s, 'T')))
    else None
  }

  /** The empty cost decodes to all zeros. */
  lemma EmptyCost()
    ensures ParseCost("") == Some(NoInfluence)
  {
  }

  lemma OccurrencesAppend(s: string, c: char, d: char)
    ensures Occurrences(s + [c], d) == Occurrences(s, d) + (if c == d then 1 else 0)
  {
    assert multiset(s + [c]) == multiset(s) + multiset{c};
  }

  lemma DigitsAppend(s: string, c: char)
    ensures Digits(s + [c]) == Digits(s) + (if IsDigit(c) then [c] else [])
  {
    assert (s + [c])[..|s|] == s;
  }

  lemma AllCostCharsAppend(s: string, c: char)
    ensures (forall k :: 0 <= k < |s + [c]| ==> IsCostChar((s + [c])[k]))
       <==> (forall k :: 0 <= k < |s| ==> IsCostChar(s[k])) && IsCostChar(c)
  {
    assert forall k :: 0 <= k < |s| ==> (s + [c])[k] == s[k];
    assert (s + [c])[|s|] == c;
  }

  /** Any character that is not a cost character, anywhere, makes the whole decode fail. */
  lemma {:induction false} ParseCostAppendFails(s: string, c: char)
    ensures ParseCost(s + [c]) == None <==> ParseCost(s) == None || !IsCostChar(c)
  {
    AllCostCharsAppend(s, c);
  }

  /** A digit read after `s` shifts power one decimal place and adds itself. */
  lemma {:induction false} ParseCostAppendDigit(s: string, c: char)
    requires ParseCost(s).Some? && IsDigit(c)
    ensures ParseCost(s + [c]) == Some(ParseCost(s).value.(power := ParseCost(s).value.power * 10 + DigitValue(c)))
  {
    AllCostCharsAppend(s, c);
    DigitsAppend(s, c);
    var ds := Digits(s + [c]);
    assert ds[..|ds| - 1] == Digits(s);
    OccurrencesAppend(s, c, 'F');
    OccurrencesAppend(s, c, 'J');
    OccurrencesAppend(s, c, 'P');
    OccurrencesAppend(s, c, 'S');
    OccurrencesAppend(s, c, 'T');
  }

  /**
   * A faction letter read after `s` adds exactly one to its own counter and leaves the
   * other five fields alone; `X` changes none of the six fields.
   */
  lemma {:induction false} ParseCostAppendLetter(s: string, c: char)
    requires ParseCost(s).Some? && IsCostChar(c) && !IsDigit(c)
    ensures var inf := ParseCost(s).value;
      ParseCost(s + [c]) == Some(Influence(inf.power,
        inf.fire + (if c == 'F' then 1 else 0), inf.justice + (if c == 'J' then 1 else 0),
        inf.primal + (if c == 'P' then 1 else 0), inf.shadow + (if c == 'S' then 1 else 0),
        inf.time + (if c == 'T' then 1 else 0)))
  {
    AllCostCharsAppend(s, c);
    DigitsAppend(s, c);
    assert Digits(s + [c]) == Digits(s);
    OccurrencesAppend(s, c, 'F');
    OccurrencesAppend(s, c, 'J');
    OccurrencesAppend(s, c, 'P');
    OccurrencesAppend(s, c, 'S');
    OccurrencesAppend(s, c, 'T');
  }

  /**
   * `deckboxMakeInfluence`: the character loop of the source, including its
   * `power > 0` test before shifting in a digit, decodes exactly `ParseCost`.
   */
  method MakeInfluence(influenceString: string) returns (r: Option<Influence>)
    ensures r == ParseCost(influenceString)
  {
    var influence := NoInfluence;
    var makeError := false;
    var i := 0;
    while i < |influenceString|
      invariant 0 <= i <= |influenceString|
      invariant makeError <==> ParseCost(influenceString[..i]) == None
      invariant !makeError ==> ParseCost(influenceString[..i]) == Some(influence)
    {
      var chr := influenceString[i];
      assert influenceString[..i + 1] == influenceString[..i] + [chr];
      ParseCostAppendFails(influenceString[..i], chr);
      var invalid;
      influence, invalid := DecodeChar(influenceString[..i], influence, chr);
      if invalid {
        makeError := true;
      }
      i := i + 1;
    }
    assert influenceString[..i] == influenceString;
    if makeError {
      r := None;
    } else {
      r := Some(influence);
    }
  }

  /**
   * One round of the character loop: a digit shifts into the power, a faction letter
   * bumps its own field, `X` changes none of them, and anything else is invalid. When
   * `influence` decodes `prefix`, the result decodes `prefix` extended by `chr`.
   */
  method DecodeChar(ghost prefix: string, influence: Influence, chr: char) returns (next: Influence, invalid: bool)
    ensures invalid <==> !IsCostChar(chr)
    ensures ParseCost(prefix) == Some(influence) && !invalid ==> ParseCost(prefix + [chr]) == Some(next)
  {
    next, invalid := influence, false;
    if IsDigit(chr) {
      var digit := DigitValue(chr);
      if influence.power > 0 {
        next := influence.(power := influence.power * 10 + digit);
      } else {
        next := influence.(power := digit);
      }
    } else if chr == 'F' {
      next := influence.(fire := influence.fire + 1);
    } else if chr == 'J' {
      next := influence.(justice := influence.justice + 1);
    } else if chr == 'P' {
      next := influence.(primal := influence.primal + 1);
    } else if chr == 'S' {
      next := influence.(shadow := influence.shadow + 1);
    } else if chr == 'T' {
      next := influence.(time := influence.time + 1);
    } else if chr == 'X' {
      // the source bumps a wild counter that nothing reads
    } else {
      invalid := true;
    }
    if ParseCost(prefix) == Some(influence) && !invalid {
      if IsDigit(chr) {
        ParseCostAppendDigit(prefix, chr);
      } else {
        ParseCostAppendLetter(prefix, chr);
      }
    }
  }

  /** The fields `compare` looks at, in the order it looks at them. */
  function Key(a: Influence): seq<int> {
    [a.power, a.shadow, a.primal, a.justice, a.time, a.fire]
  }

  /**
   * `influence.compare(other)`: negative when `a` sorts first, positive when `b` does,
   * zero when they tie.
   */
  function Compare(a: Influence, b: Influence): int {
    if a.power != b.power then a.power - b.power
    else if a.shadow != b.shadow then a.shadow - b.shadow
    else if a.primal != b.primal then a.primal - b.primal
    else if a.justice != b.justice then a.justice - b.justice
    else if a.time != b.time then a.time - b.time
    else if a.fire != b.fire then a.fire - b.fire
    else 0
  }

  /**
   * `compare` is lexicographic on (power, shadow, primal, justice, time, fire): it is
   * zero exactly when all six fields agree, and otherwise it is the difference of the
   * first field that differs (not -1 or 1, whatever the source's comment says).
   */
  lemma CompareIsFirstDifference(a: Influence, b: Influence)
    ensures Compare(a, b) == 0 <==> a == b
    ensures a != b ==> exists k :: 0 <= k < 6 && Key(a)[..k] == Key(b)[..k] && Key(a)[k] != Key(b)[k]
                                   && Compare(a, b) == Key(a)[k] - Key(b)[k]
  {
    var x, y := Key(a), Key(b);
    if a != b {
      var k := if x[0] != y[0] then 0 else if x[1] != y[1] then 1 else if x[2] != y[2] then 2
               else if x[3] != y[3] then 3 else if x[4] != y[4] then 4 else 5;
      assert x[..k] == y[..k];
      assert x[k] != y[k] && Compare(a, b) == x[k] - y[k];
    }
  }

  /** Swapping the arguments negates the result. */
  lemma CompareAntisymmetric(a: Influence, b: Influence)
    ensures Compare(a, b) == -Compare(b, a)
  {
  }

  /** The order `compare` induces is transitive. */
  lemma CompareTransitive(a: Influence, b: Influence, c: Influence)
    ensures Compare(a, b) <= 0 && Compare(b, c) <= 0 ==> Compare(a, c) <= 0
  {
  }
}
