/**
 * Character classes of ECMAScript regular expressions as deckbox.js uses them, the
 * greedy "run of characters" scan that every deterministic regex piece reduces to,
 * and the decimal value of a run of digits (`Number(...)` on a digit string).
 */
module Chars {

  /** `[0-9]`, and the `charCodeAt` range test of the cost parser. */
  predicate IsDigit(c: char) { '0' <= c <= '9' }

  /** ECMAScript LineTerminator: the characters `.` does not match without the `s` flag. */
  predicate IsLineTerminator(c: char) {
    c == '\n' || c == '\r' || c == '\U{2028}' || c == '\U{2029}'
  }

  predicate NotLineTerminator(c: char) { !IsLineTerminator(c) }

  /** `\s`: ECMAScript WhiteSpace and LineTerminator characters. */
  predicate IsSpace(c: char) {
    || c == '\t' || c == '\U{B}' || c == '\U{C}' || c == ' ' || c == '\U{A0}'
    || c == '\U{1680}' || ('\U{2000}' <= c <= '\U{200A}')
    || c == '\U{202F}' || c == '\U{205F}' || c == '\U{3000}' || c == '\U{FEFF}'
    || IsLineTerminator(c)
  }

  predicate IsDash(c: char) { c == '-' }

  /** `[^\(]` */
  predicate NotParen(c: char) { c != '(' }

  predicate AllDigits(s: string) { forall k :: 0 <= k < |s| ==> IsDigit(s[k]) }

  predicate NoLineTerminator(s: string) { forall k :: 0 <= k < |s| ==> !IsLineTerminator(s[k]) }

  /** A count as the decklist regex captures it: `[0-9]+`. */
  predicate IsNumeral(s: string) { |s| > 0 && AllDigits(s) }

  /**
   * The end of the longest run of characters satisfying `p` that starts at `i`: what a
   * greedy `p*` matches when nothing after it can make it give characters back.
   */
  function SkipWhile(s: string, i: nat, p: char -> bool): (j: nat)
    requires i <= |s|
    ensures i <= j <= |s|
    ensures j == |s| || !p(s[j])
    decreases |s| - i
  {
    if i == |s| || !p(s[i]) then i else SkipWhile(s, i + 1, p)
  }

  /** Every character the scan passes over satisfies `p`. */
  lemma {:induction false} SkipWhileRun(s: string, i: nat, p: char -> bool)
    requires i <= |s|
    ensures forall k :: i <= k < SkipWhile(s, i, p) ==> p(s[k])
    decreases |s| - i
  {
    if i < |s| && p(s[i]) {
      SkipWhileRun(s, i + 1, p);
    }
  }

  /** A run that ends where `p` first fails is the run `SkipWhile` finds. */
  lemma SkipWhileAt(s: string, i: nat, j: nat, p: char -> bool)
    requires i <= j <= |s|
    requires forall k :: i <= k < j ==> p(s[k])
    requires j == |s| || !p(s[j])
    ensures SkipWhile(s, i, p) == j
    decreases j - i
  {
    if i < j {
      SkipWhileAt(s, i + 1, j, p);
    }
  }

  function DigitValue(c: char): (d: nat)
    requires IsDigit(c)
    ensures d <= 9
  {
    (c as int - '0' as int) as nat
  }

  /** The number a string of decimal digits denotes, most significant digit first. */
  function DecimalValue(ds: string): (v: nat)
    requires AllDigits(ds)
  {
    if ds == [] then 0
    else DecimalValue(ds[..|ds| - 1]) * 10 + DigitValue(ds[|ds| - 1])
  }
}
