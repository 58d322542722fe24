/**
 * The fragment of `java.util.regex` that the importer's patterns rely on:
 * the predefined character classes, runs of one class, the left-to-right
 * start search of `Matcher.find()` and the longest-first order in which a
 * greedy quantifier tries its candidates.
 */
module JavaRegex {
  import opened Results

  /** Java's `\s` (without UNICODE_CHARACTER_CLASS): space, tab, newline, VT, FF, carriage return. */
  predicate IsSpace(c: char) {
    c == ' ' || c == '\t' || c == '\n' || c == '\U{000B}' || c == '\U{000C}' || c == '\r'
  }

  /** Java's `\d`: an ASCII digit. */
  predicate IsDigit(c: char) {
    '0' <= c <= '9'
  }

  /** Java's `\w`: `[a-zA-Z_0-9]`. */
  predicate IsWord(c: char) {
    'a' <= c <= 'z' || 'A' <= c <= 'Z' || IsDigit(c) || c == '_'
  }

  /** Java's `.` without DOTALL: any character except a line terminator. */
  predicate IsDot(c: char) {
    !(c == '\n' || c == '\r' || c == '\U{0085}' || c == '\U{2028}' || c == '\U{2029}')
  }

  /** `String.startsWith` with a one-character prefix. */
  predicate StartsWith(s: string, c: char) {
    |s| > 0 && s[0] == c
  }

  /** Every character of `s[i..j]` is in class `P`. */
  predicate AllIn(s: string, i: int, j: int, P: char -> bool) {
    0 <= i <= j <= |s| && forall m :: i <= m < j ==> P(s[m])
  }

  /** The end of the longest run of class-`P` characters starting at `from`. */
  function RunEnd(s: string, from: nat, P: char -> bool): (r: nat)
    requires from <= |s|
    ensures from <= r <= |s|
    ensures AllIn(s, from, r, P)
    ensures r == |s| || !P(s[r])
    decreases |s| - from
  {
    if from < |s| && P(s[from]) then RunEnd(s, from + 1, P) else from
  }

  /** A run of class `P` from `from` to `j` is never longer than the one `RunEnd` finds. */
  lemma RunEndMaximal(s: string, from: nat, j: int, P: char -> bool)
    requires from <= |s|
    requires AllIn(s, from, j, P)
    ensures j <= RunEnd(s, from, P)
  {
  }

  /** A run of class `P` that is followed by a character outside `P` is exactly the one `RunEnd` finds. */
  lemma RunEndExact(s: string, from: nat, j: int, P: char -> bool)
    requires from <= |s|
    requires AllIn(s, from, j, P)
    requires j < |s| && !P(s[j])
    ensures j == RunEnd(s, from, P)
  {
    RunEndMaximal(s, from, j, P);
  }

  /**
   * The start search of `Matcher.find()`: the least `q` in `[lo, hi)` at
   * which a match exists, or none.
   */
  function First(lo: int, hi: int, P: int -> bool): (r: Option<int>)
    ensures r.Some? ==> lo <= r.value < hi && P(r.value)
    ensures r.Some? ==> forall q :: lo <= q < r.value ==> !P(q)
    ensures r.None? ==> forall q :: lo <= q < hi ==> !P(q)
    decreases hi - lo
  {
    if lo >= hi then None
    else if P(lo) then Some(lo)
    else First(lo + 1, hi, P)
  }

  /**
   * The order of a greedy quantifier: the greatest `q` in `[lo, hi)` for
   * which the rest of the pattern succeeds, or none.
   */
  function Last(lo: int, hi: int, P: int -> bool): (r: Option<int>)
    ensures r.Some? ==> lo <= r.value < hi && P(r.value)
    ensures r.Some? ==> forall q :: r.value < q < hi ==> !P(q)
    ensures r.None? ==> forall q :: lo <= q < hi ==> !P(q)
    decreases hi - lo
  {
    if lo >= hi then None
    else if P(hi - 1) then Some(hi - 1)
    else Last(lo, hi - 1, P)
  }
}
