/**
 * The six fixed patterns of the importer, each applied with
 * `Matcher.find()`: a pattern may match anywhere in a line, the leftmost
 * start wins, and at that start a greedy group takes the longest candidate
 * for which the rest of the pattern still matches.
 *
 * For every pattern there is a declarative predicate (`HeaderAt`, `NameAt`,
 * ...) saying that the pattern matches at start `p` with the given group
 * lengths, and an extractor whose contract says that it returns exactly the
 * groups of the match `find()` reports.
 */
module GedcomPatterns {
  import opened Results
  import opened JavaRegex

  /** `<level>\s<tag>` starts at `p`. */
  predicate TagAt(line: string, p: int, level: char, tag: string) {
    0 <= p && p + 2 + |tag| <= |line|
    && line[p] == level && IsSpace(line[p + 1]) && line[p + 2..p + 2 + |tag|] == tag
  }

  // ---------------------------------------------------------------------
  // Record header: `0\s\@I([\w\d]+)\@\sINDI`
  // ---------------------------------------------------------------------

  /** The header pattern matches at `p` with a `k`-character identifier group. */
  predicate HeaderAt(line: string, p: int, k: int) {
    0 <= p && 1 <= k && p + k + 10 <= |line|
    && line[p] == '0' && IsSpace(line[p + 1]) && line[p + 2] == '@' && line[p + 3] == 'I'
    && AllIn(line, p + 4, p + 4 + k, IsWord)
    && line[p + 4 + k] == '@' && IsSpace(line[p + 5 + k]) && line[p + 6 + k..p + 10 + k] == "INDI"
  }

  /** The only identifier length a header at `p` can have: the word run after `@I`. */
  function IdLength(line: string, p: nat): int {
    if p + 4 <= |line| then RunEnd(line, p + 4, IsWord) - (p + 4) else 0
  }

  predicate IsHeaderAt(line: string, p: int) {
    0 <= p && HeaderAt(line, p, IdLength(line, p))
  }

  /** `@` is not a word character, so the greedy identifier group has no other choice. */
  lemma HeaderIdForced(line: string, p: int, k: int)
    requires HeaderAt(line, p, k)
    ensures k == IdLength(line, p) && IsHeaderAt(line, p) && p < |line|
  {
    RunEndExact(line, p + 4, p + 4 + k, IsWord);
  }

  /** The leftmost start of a header match. */
  function FindHeader(line: string): (r: Option<int>)
    ensures r.Some? ==> 0 <= r.value < |line| && IsHeaderAt(line, r.value)
    ensures r.Some? ==> forall q :: 0 <= q < r.value ==> !IsHeaderAt(line, q)
    ensures r.None? ==> forall q :: 0 <= q < |line| ==> !IsHeaderAt(line, q)
  {
    var P := q => IsHeaderAt(line, q);
    assert forall q :: P(q) <==> IsHeaderAt(line, q);
    First(0, |line|, P)
  }

  /**
   * `getGedComId`: the identifier group of the leftmost header match, which
   * is the word run between `@I` and the next `@`, without the `I`.
   */
  function GedcomId(line: string): Option<string> {
    match FindHeader(line)
    case None => None
    case Some(p) => Some(line[p + 4..p + 4 + IdLength(line, p)])
  }

  /** Every header match lies at a start `FindHeader` can report. */
  lemma HeaderMatchesFound(line: string)
    ensures forall p, k :: HeaderAt(line, p, k) ==> IsHeaderAt(line, p) && p < |line|
  {
    forall p, k | HeaderAt(line, p, k) ensures IsHeaderAt(line, p) && p < |line| {
      HeaderIdForced(line, p, k);
    }
  }

  lemma FoundHeaderExtracted(line: string)
    requires FindHeader(line).Some?
    ensures var id := GedcomId(line).value;
      exists p :: HeaderAt(line, p, |id|) && id == line[p + 4..p + 4 + |id|]
                  && forall q, k :: HeaderAt(line, q, k) ==> p <= q
  {
    HeaderMatchesFound(line);
    assert HeaderAt(line, FindHeader(line).value, |GedcomId(line).value|);
  }

  /** `GedcomId` returns exactly the identifier group of the match `find()` reports. */
  lemma GedcomIdSpec(line: string)
    ensures GedcomId(line).None? <==> forall p, k :: !HeaderAt(line, p, k)
    ensures GedcomId(line).Some? ==>
      var id := GedcomId(line).value;
      exists p :: HeaderAt(line, p, |id|) && id == line[p + 4..p + 4 + |id|]
                  && forall q, k :: HeaderAt(line, q, k) ==> p <= q
  {
    HeaderMatchesFound(line);
    if FindHeader(line).Some? {
      FoundHeaderExtracted(line);
    }
  }

  // ---------------------------------------------------------------------
  // Name: `1\sNAME\s(?<firstName>.+)\s\/(?<lastName>.+)\/`
  // ---------------------------------------------------------------------

  /** The name pattern matches at `p` with an `a`-character first name and a `b`-character last name. */
  predicate NameAt(line: string, p: int, a: int, b: int) {
    TagAt(line, p, '1', "NAME") && 1 <= a && 1 <= b && p + a + b + 10 <= |line|
    && IsSpace(line[p + 6])
    && AllIn(line, p + 7, p + 7 + a, IsDot) && IsSpace(line[p + 7 + a]) && line[p + 8 + a] == '/'
    && AllIn(line, p + 9 + a, p + 9 + a + b, IsDot) && line[p + 9 + a + b] == '/'
  }

  /** The match `find()` reports: leftmost start, then the longest first name, then the longest last name. */
  ghost predicate NameChosen(line: string, p: int, a: int, b: int) {
    && NameAt(line, p, a, b)
    && (forall q, a', b' :: NameAt(line, q, a', b') ==> p <= q)
    && (forall a', b' :: NameAt(line, p, a', b') ==> a' < a || (a' == a && b' <= b))
  }

  /** A last name of `b` characters starting at `t` is followed by the closing `/`. */
  predicate LastNameFits(line: string, t: int, b: int) {
    1 <= b && AllIn(line, t, t + b, IsDot) && t + b < |line| && line[t + b] == '/'
  }

  /** The greedy `(?<lastName>.+)\/` starting at `t`: the longest dot run ending just before a `/`. */
  function LastNameLength(line: string, t: nat): (r: Option<int>)
    requires t <= |line|
    ensures r.Some? ==> LastNameFits(line, t, r.value)
    ensures forall b :: LastNameFits(line, t, b) ==> r.Some? && b <= r.value
  {
    var P := b => 0 <= b && t + b < |line| && line[t + b] == '/';
    var hi := RunEnd(line, t, IsDot) - t + 1;
    assert forall b :: P(b) <==> 0 <= b && t + b < |line| && line[t + b] == '/';
    assert forall b :: LastNameFits(line, t, b) ==> 1 <= b < hi && P(b) by {
      forall b | LastNameFits(line, t, b) ensures 1 <= b < hi && P(b) {
        RunEndMaximal(line, t, t + b, IsDot);
      }
    }
    Last(1, hi, P)
  }

  /** After an `a`-character first name at `p`, the rest of the name pattern matches. */
  predicate NameTailAt(line: string, p: nat, a: int) {
    1 <= a && p + 9 + a <= |line| && IsSpace(line[p + 7 + a]) && line[p + 8 + a] == '/'
    && LastNameLength(line, p + 9 + a).Some?
  }

  /**
   * The group lengths the backtracking matcher settles on at start `p`:
   * the longest first name for which the rest matches, then the longest
   * last name.
   */
  function NameGroups(line: string, p: nat): Option<(int, int)> {
    if !(TagAt(line, p, '1', "NAME") && p + 7 <= |line| && IsSpace(line[p + 6])) then None
    else
      var P := a => NameTailAt(line, p, a);
      match Last(1, RunEnd(line, p + 7, IsDot) - (p + 7) + 1, P)
      case None => None
      case Some(a) => Some((a, LastNameLength(line, p + 9 + a).value))
  }

  lemma NameGroupsSound(line: string, p: nat)
    requires NameGroups(line, p).Some?
    ensures NameAt(line, p, NameGroups(line, p).value.0, NameGroups(line, p).value.1)
  {
    var P := a => NameTailAt(line, p, a);
    var hi := RunEnd(line, p + 7, IsDot) - (p + 7) + 1;
    assert forall a :: P(a) <==> NameTailAt(line, p, a);
    var a := Last(1, hi, P).value;
    assert AllIn(line, p + 7, p + 7 + a, IsDot);
  }

  lemma NameGroupsGreedy(line: string, p: nat, a: int, b: int)
    requires NameAt(line, p, a, b)
    ensures NameGroups(line, p).Some?
    ensures a < NameGroups(line, p).value.0
            || (a == NameGroups(line, p).value.0 && b <= NameGroups(line, p).value.1)
  {
    var P := a => NameTailAt(line, p, a);
    var hi := RunEnd(line, p + 7, IsDot) - (p + 7) + 1;
    assert forall a :: P(a) <==> NameTailAt(line, p, a);
    RunEndMaximal(line, p + 7, p + 7 + a, IsDot);
    assert LastNameFits(line, p + 9 + a, b);
    assert P(a);
  }

  /** The leftmost start of a name match. */
  function FindName(line: string): (r: Option<int>)
    ensures r.Some? ==> 0 <= r.value < |line| && NameGroups(line, r.value).Some?
    ensures r.Some? ==> forall q :: 0 <= q < r.value ==> NameGroups(line, q).None?
    ensures r.None? ==> forall q :: 0 <= q < |line| ==> NameGroups(line, q).None?
  {
    var P := q => 0 <= q && NameGroups(line, q).Some?;
    assert forall q :: P(q) <==> 0 <= q && NameGroups(line, q).Some?;
    First(0, |line|, P)
  }

  /** `extractName`'s match: the first and last name groups, or none. */
  function ExtractName(line: string): Option<(string, string)> {
    match FindName(line)
    case None => None
    case Some(p) =>
      var (a, b) := NameGroups(line, p).value;
      Some((line[p + 7..p + 7 + a], line[p + 9 + a..p + 9 + a + b]))
  }

  /** Every name match lies at a start where `NameGroups` succeeds. */
  lemma NameMatchesFound(line: string)
    ensures forall p, a, b :: NameAt(line, p, a, b) ==> p < |line| && NameGroups(line, p).Some?
  {
    forall p, a, b | NameAt(line, p, a, b) ensures p < |line| && NameGroups(line, p).Some? {
      NameGroupsGreedy(line, p, a, b);
    }
  }

  /** The start `FindName` reports carries the match `find()` chooses. */
  lemma FoundNameIsChosen(line: string, p: nat)
    requires FindName(line) == Some(p)
    ensures NameChosen(line, p, NameGroups(line, p).value.0, NameGroups(line, p).value.1)
  {
    var (a, b) := NameGroups(line, p).value;
    NameMatchesFound(line);
    NameGroupsSound(line, p);
    forall a', b' | NameAt(line, p, a', b') ensures a' < a || (a' == a && b' <= b) {
      NameGroupsGreedy(line, p, a', b');
    }
  }

  /**
   * `ExtractName` returns exactly the two groups of the match `find()`
   * reports, and nothing when the pattern matches nowhere in the line.
   */
  lemma ExtractNameSpec(line: string)
    ensures ExtractName(line).None? <==> forall p, a, b :: !NameAt(line, p, a, b)
    ensures ExtractName(line).Some? ==>
      exists p, a, b :: NameChosen(line, p, a, b)
                        && ExtractName(line).value == (line[p + 7..p + 7 + a], line[p + 9 + a..p + 9 + a + b])
  {
    NameMatchesFound(line);
    if FindName(line).Some? {
      FoundNameExtracted(line);
    }
  }

  lemma FoundNameExtracted(line: string)
    requires FindName(line).Some?
    ensures exists p, a, b :: NameChosen(line, p, a, b)
                              && ExtractName(line) == Some((line[p + 7..p + 7 + a], line[p + 9 + a..p + 9 + a + b]))
  {
    var p := FindName(line).value;
    var a := NameGroups(line, p).value.0;
    var b := NameGroups(line, p).value.1;
    FoundNameIsChosen(line, p);
    assert ExtractName(line) == Some((line[p + 7..p + 7 + a], line[p + 9 + a..p + 9 + a + b]));
  }

  // ---------------------------------------------------------------------
  // Sex: `1\sSEX\s(?<sex>[\w])`
  // ---------------------------------------------------------------------

  predicate SexAt(line: string, p: int) {
    TagAt(line, p, '1', "SEX") && p + 7 <= |line| && IsSpace(line[p + 5]) && IsWord(line[p + 6])
  }

  /** `extractSex`'s match: the single word character after the leftmost `1\sSEX\s`. */
  function FindSex(line: string): (r: Option<int>)
    ensures r.Some? ==> SexAt(line, r.value) && forall q :: 0 <= q < r.value ==> !SexAt(line, q)
    ensures r.None? ==> forall q :: 0 <= q < |line| ==> !SexAt(line, q)
  {
    var P := q => SexAt(line, q);
    assert forall q :: P(q) <==> SexAt(line, q);
    First(0, |line|, P)
  }

  function ExtractSex(line: string): Option<string> {
    match FindSex(line)
    case None => None
    case Some(p) => Some([line[p + 6]])
  }

  /** `ExtractSex` returns the one word character after the leftmost `1\sSEX\s`, or nothing. */
  lemma ExtractSexSpec(line: string)
    ensures ExtractSex(line).None? <==> forall p :: !SexAt(line, p)
    ensures ExtractSex(line).Some? ==>
      exists p :: SexAt(line, p) && ExtractSex(line).value == [line[p + 6]]
                  && forall q :: SexAt(line, q) ==> p <= q
  {
  }

  // ---------------------------------------------------------------------
  // Birth event: `1\sBIRT`
  // ---------------------------------------------------------------------

  predicate BirtAt(line: string, p: int) {
    TagAt(line, p, '1', "BIRT")
  }

  /** `extractBirthInformation`'s test: `1\sBIRT` occurs somewhere in the line. */
  function HasBirthTag(line: string): (r: bool)
    ensures r <==> exists p :: BirtAt(line, p)
  {
    var P := q => BirtAt(line, q);
    assert forall q :: P(q) <==> BirtAt(line, q);
    First(0, |line|, P).Some?
  }

  // ---------------------------------------------------------------------
  // Date: `2\sDATE\s(?<date>\d+\s\w+\s\d+)`
  // ---------------------------------------------------------------------

  /** The date pattern matches at `p` with runs of `x` digits, `y` word characters and `z` digits. */
  predicate DateAt(line: string, p: int, x: int, y: int, z: int) {
    TagAt(line, p, '2', "DATE") && 1 <= x && 1 <= y && 1 <= z && p + 9 + x + y + z <= |line|
    && IsSpace(line[p + 6])
    && AllIn(line, p + 7, p + 7 + x, IsDigit) && IsSpace(line[p + 7 + x])
    && AllIn(line, p + 8 + x, p + 8 + x + y, IsWord) && IsSpace(line[p + 8 + x + y])
    && AllIn(line, p + 9 + x + y, p + 9 + x + y + z, IsDigit)
  }

  /** The match `find()` reports: leftmost start; at that start the first two runs are forced and the year run is longest. */
  ghost predicate DateChosen(line: string, p: int, x: int, y: int, z: int) {
    && DateAt(line, p, x, y, z)
    && (forall q, x', y', z' :: DateAt(line, q, x', y', z') ==> p <= q)
    && (forall x', y', z' :: DateAt(line, p, x', y', z') ==> x' == x && y' == y && z' <= z)
  }

  /**
   * The run lengths of the date group at `p`: the digit and word runs are
   * forced by the `\s` after them, the greedy year run is the longest.
   */
  function DateGroups(line: string, p: nat): Option<(int, int, int)> {
    if !(TagAt(line, p, '2', "DATE") && p + 7 <= |line| && IsSpace(line[p + 6])) then None
    else
      var e1 := RunEnd(line, p + 7, IsDigit);
      if e1 == p + 7 || e1 == |line| || !IsSpace(line[e1]) then None
      else
        var e2 := RunEnd(line, e1 + 1, IsWord);
        if e2 == e1 + 1 || e2 == |line| || !IsSpace(line[e2]) then None
        else
          var e3 := RunEnd(line, e2 + 1, IsDigit);
          if e3 == e2 + 1 then None
          else Some((e1 - (p + 7), e2 - (e1 + 1), e3 - (e2 + 1)))
  }

  lemma DateGroupsSound(line: string, p: nat)
    requires DateGroups(line, p).Some?
    ensures DateAt(line, p, DateGroups(line, p).value.0, DateGroups(line, p).value.1, DateGroups(line, p).value.2)
  {
  }

  lemma DateGroupsGreedy(line: string, p: nat, x: int, y: int, z: int)
    requires DateAt(line, p, x, y, z)
    ensures DateGroups(line, p).Some?
    ensures x == DateGroups(line, p).value.0 && y == DateGroups(line, p).value.1
    ensures z <= DateGroups(line, p).value.2
  {
    RunEndExact(line, p + 7, p + 7 + x, IsDigit);
    RunEndExact(line, p + 8 + x, p + 8 + x + y, IsWord);
    RunEndMaximal(line, p + 9 + x + y, p + 9 + x + y + z, IsDigit);
  }

  /** The leftmost start of a date match. */
  function FindDate(line: string): (r: Option<int>)
    ensures r.Some? ==> 0 <= r.value < |line| && DateGroups(line, r.value).Some?
    ensures r.Some? ==> forall q :: 0 <= q < r.value ==> DateGroups(line, q).None?
    ensures r.None? ==> forall q :: 0 <= q < |line| ==> DateGroups(line, q).None?
  {
    var P := q => 0 <= q && DateGroups(line, q).Some?;
    assert forall q :: P(q) <==> 0 <= q && DateGroups(line, q).Some?;
    First(0, |line|, P)
  }

  /** `extractBirthday`'s match: the `date` group, or none. */
  function DateToken(line: string): Option<string> {
    match FindDate(line)
    case None => None
    case Some(p) =>
      var (x, y, z) := DateGroups(line, p).value;
      Some(line[p + 7..p + 9 + x + y + z])
  }

  /** Every date match lies at a start where `DateGroups` succeeds. */
  lemma DateMatchesFound(line: string)
    ensures forall p, x, y, z :: DateAt(line, p, x, y, z) ==> p < |line| && DateGroups(line, p).Some?
  {
    forall p, x, y, z | DateAt(line, p, x, y, z) ensures p < |line| && DateGroups(line, p).Some? {
      DateGroupsGreedy(line, p, x, y, z);
    }
  }

  /** The start `FindDate` reports carries the match `find()` chooses. */
  lemma FoundDateIsChosen(line: string, p: nat)
    requires FindDate(line) == Some(p)
    ensures var (x, y, z) := DateGroups(line, p).value; DateChosen(line, p, x, y, z)
  {
    var (x, y, z) := DateGroups(line, p).value;
    DateMatchesFound(line);
    DateGroupsSound(line, p);
    forall x', y', z' | DateAt(line, p, x', y', z') ensures x' == x && y' == y && z' <= z {
      DateGroupsGreedy(line, p, x', y', z');
    }
  }

  /**
   * `DateToken` returns exactly the `date` group of the match `find()`
   * reports, and nothing when the pattern matches nowhere in the line.
   */
  lemma DateTokenSpec(line: string)
    ensures DateToken(line).None? <==> forall p, x, y, z :: !DateAt(line, p, x, y, z)
    ensures DateToken(line).Some? ==>
      exists p, x, y, z :: DateChosen(line, p, x, y, z) && DateToken(line).value == line[p + 7..p + 9 + x + y + z]
  {
    DateMatchesFound(line);
    if FindDate(line).Some? {
      var p := FindDate(line).value;
      var (x, y, z) := DateGroups(line, p).value;
      FoundDateIsChosen(line, p);
      assert DateToken(line).value == line[p + 7..p + 9 + x + y + z];
    }
  }

  // ---------------------------------------------------------------------
  // Place: `2\sPLAC\s(?<place>.+)`
  // ---------------------------------------------------------------------

  /** The place pattern matches at `p` with a `c`-character place group. */
  predicate PlaceAt(line: string, p: int, c: int) {
    TagAt(line, p, '2', "PLAC") && 1 <= c && p + 7 + c <= |line|
    && IsSpace(line[p + 6]) && AllIn(line, p + 7, p + 7 + c, IsDot)
  }

  /** The greedy place group at `p`: everything up to the next line terminator. */
  function PlaceLength(line: string, p: nat): int {
    if TagAt(line, p, '2', "PLAC") && p + 7 <= |line| then RunEnd(line, p + 7, IsDot) - (p + 7) else 0
  }

  predicate IsPlaceAt(line: string, p: int) {
    0 <= p && PlaceAt(line, p, PlaceLength(line, p))
  }

  lemma PlaceLengthGreedy(line: string, p: nat, c: int)
    requires PlaceAt(line, p, c)
    ensures c <= PlaceLength(line, p) && IsPlaceAt(line, p) && p < |line|
  {
    RunEndMaximal(line, p + 7, p + 7 + c, IsDot);
  }

  /** The leftmost start of a place match. */
  function FindPlace(line: string): (r: Option<int>)
    ensures r.Some? ==> IsPlaceAt(line, r.value) && forall q :: 0 <= q < r.value ==> !IsPlaceAt(line, q)
    ensures r.None? ==> forall q :: 0 <= q < |line| ==> !IsPlaceAt(line, q)
  {
    var P := q => IsPlaceAt(line, q);
    assert forall q :: P(q) <==> IsPlaceAt(line, q);
    First(0, |line|, P)
  }

  /** `extractPlace`: the `place` group, or none. */
  function ExtractPlace(line: string): Option<string> {
    match FindPlace(line)
    case None => None
    case Some(p) => Some(line[p + 7..p + 7 + PlaceLength(line, p)])
  }

  /**
   * `ExtractPlace` returns the untrimmed rest of the line after the
   * leftmost `2\sPLAC\s` that is followed by at least one character, up to
   * a line terminator, and nothing when there is none.
   */
  lemma ExtractPlaceSpec(line: string)
    ensures ExtractPlace(line).None? <==> forall p, c :: !PlaceAt(line, p, c)
    ensures ExtractPlace(line).Some? ==>
      exists p, c :: PlaceAt(line, p, c) && ExtractPlace(line).value == line[p + 7..p + 7 + c]
                     && (forall c' :: PlaceAt(line, p, c') ==> c' <= c)
                     && (forall q, c' :: PlaceAt(line, q, c') ==> p <= q)
  {
    assert forall p, c :: PlaceAt(line, p, c) ==> c <= PlaceLength(line, p) && IsPlaceAt(line, p) && p < |line| by {
      forall p, c | PlaceAt(line, p, c) ensures c <= PlaceLength(line, p) && IsPlaceAt(line, p) && p < |line| {
        PlaceLengthGreedy(line, p, c);
      }
    }
    if FindPlace(line).Some? {
      var p := FindPlace(line).value;
      assert PlaceAt(line, p, PlaceLength(line, p));
    }
  }
}
