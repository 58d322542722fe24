/**
 * What `analyzeList` yields with the importer's own six patterns: the
 * reference reading of every record, when the scan throws, and the shape
 * of every field it stores.
 */
module GedcomImport {
  import opened Results
  import opened JavaRegex
  import opened GedcomPatterns
  import opened Domain
  import opened Importer
  import opened ImporterSpec
  import opened ImporterProofs

  /** Text a `[\w]+` group captures: at least one word character. */
  predicate WordText(s: string) {
    |s| >= 1 && forall m :: 0 <= m < |s| ==> IsWord(s[m])
  }

  /** Text a `.+` group captures: at least one character, and no line terminator. */
  predicate DotText(s: string) {
    |s| >= 1 && forall m :: 0 <= m < |s| ==> IsDot(s[m])
  }

  predicate DotTextPair(names: (string, string)) {
    DotText(names.0) && DotText(names.1)
  }

  /** What `extractSex` stores: exactly one word character. */
  predicate OneWordChar(s: string) {
    |s| == 1 && IsWord(s[0])
  }

  lemma SliceAllIn(line: string, i: nat, j: nat, P: char -> bool)
    requires AllIn(line, i, j, P)
    ensures forall m :: 0 <= m < |line[i..j]| ==> P(line[i..j][m])
  {
    assert forall m :: 0 <= m < j - i ==> line[i..j][m] == line[i + m];
  }

  /** The identifier of a header line is a non-empty run of word characters. */
  lemma GedcomIdShape(line: string)
    ensures GedcomId(line).Some? ==> WordText(GedcomId(line).value)
  {
    GedcomIdSpec(line);
    if GedcomId(line).Some? {
      var id := GedcomId(line).value;
      var p :| HeaderAt(line, p, |id|) && id == line[p + 4..p + 4 + |id|]
               && forall q, k :: HeaderAt(line, q, k) ==> p <= q;
      SliceAllIn(line, p + 4, p + 4 + |id|, IsWord);
    }
  }

  /** Both name groups are non-empty and free of line terminators. */
  lemma ExtractNameShape(line: string)
    ensures ExtractName(line).Some? ==> DotTextPair(ExtractName(line).value)
  {
    if FindName(line).Some? {
      NameGroupsSound(line, FindName(line).value);
      SliceAllIn(line, FindName(line).value + 7,
                 FindName(line).value + 7 + NameGroups(line, FindName(line).value).value.0, IsDot);
      SliceAllIn(line, FindName(line).value + 9 + NameGroups(line, FindName(line).value).value.0,
                 FindName(line).value + 9 + NameGroups(line, FindName(line).value).value.0
                   + NameGroups(line, FindName(line).value).value.1, IsDot);
    }
  }

  /** The sex group is one word character. */
  lemma ExtractSexShape(line: string)
    ensures ExtractSex(line).Some? ==> OneWordChar(ExtractSex(line).value)
  {
    ExtractSexSpec(line);
  }

  /** The place group is non-empty and free of line terminators. */
  lemma ExtractPlaceShape(line: string)
    ensures ExtractPlace(line).Some? ==> DotText(ExtractPlace(line).value)
  {
    ExtractPlaceSpec(line);
    if ExtractPlace(line).Some? {
      var p, c :| PlaceAt(line, p, c) && ExtractPlace(line).value == line[p + 7..p + 7 + c]
                  && (forall c' :: PlaceAt(line, p, c') ==> c' <= c)
                  && (forall q, c' :: PlaceAt(line, q, c') ==> p <= q);
      SliceAllIn(line, p + 7, p + 7 + c, IsDot);
    }
  }

  /**
   * A Person as the importer can produce it: an identifier of word
   * characters, first and last name set together, and every set text field
   * shaped as its pattern captures.
   */
  predicate WellFormed(p: Person) {
    && p.gedcomId.Some? && WordText(p.gedcomId.value)
    && (p.firstName.Some? <==> p.lastName.Some?)
    && (p.firstName.Some? ==> DotText(p.firstName.value) && DotText(p.lastName.value))
    && (p.sex.Some? ==> OneWordChar(p.sex.value))
    && (p.birthplace.Some? ==> DotText(p.birthplace.value))
  }

  /** The reference Person of every record is well formed. */
  lemma RecordPersonWellFormed(lines: seq<string>, i: nat, id: string, parse: DateParser)
    requires i < |lines| && WordText(id)
    ensures RecordPerson(GedcomRules(parse), lines, i, id).gedcomId == Some(id)
    ensures WellFormed(RecordPerson(GedcomRules(parse), lines, i, id))
  {
    var rules := GedcomRules(parse);
    var block := RecordBlock(lines, i);
    var births := RecordBirths(rules, lines, i);
    RecordLinesWithin(rules, lines, i);
    forall line ensures ExtractName(line).Some? ==> DotTextPair(ExtractName(line).value) {
      ExtractNameShape(line);
    }
    forall line ensures ExtractSex(line).Some? ==> OneWordChar(ExtractSex(line).value) {
      ExtractSexShape(line);
    }
    forall line ensures ExtractPlace(line).Some? ==> DotText(ExtractPlace(line).value) {
      ExtractPlaceShape(line);
    }
    LastMatchKeeps(lines, block, ExtractName, DotTextPair);
    LastMatchKeeps(lines, block, ExtractSex, OneWordChar);
    LastMatchKeeps(lines, births, ExtractPlace, DotText);
  }

  /**
   * `analyzeList` with the importer's patterns: it throws
   * `IndexOutOfBoundsException` for index `|lines|` exactly when the record
   * of some header reads past the last line; otherwise it yields, in line
   * order, the reference Person of every header line, and each is well
   * formed.
   */
  lemma AnalyzeCharacterised(lines: seq<string>, parse: DateParser)
    ensures Analyze(lines, parse).Failure? <==> OverrunsFrom(GedcomRules(parse), lines, 0)
    ensures Analyze(lines, parse).Failure? ==> Analyze(lines, parse).error == IndexOutOfBounds(|lines|, |lines|)
    ensures Analyze(lines, parse).Success? ==>
      PersonsOf(GedcomRules(parse), lines, HeaderIndices(GedcomRules(parse), lines, 0), Analyze(lines, parse).value)
    ensures Analyze(lines, parse).Success? ==>
      forall m :: 0 <= m < |Analyze(lines, parse).value| ==> WellFormed(Analyze(lines, parse).value[m])
  {
    var rules := GedcomRules(parse);
    AnalyzeFromRefines(rules, lines, 0);
    if Analyze(lines, parse).Success? {
      var ps := Analyze(lines, parse).value;
      var hs := HeaderIndices(rules, lines, 0);
      forall m | 0 <= m < |ps| ensures WellFormed(ps[m]) {
        GedcomIdShape(lines[hs[m]]);
        RecordPersonWellFormed(lines, hs[m], GedcomId(lines[hs[m]]).value, parse);
      }
    }
  }

  lemma {:induction false} NoHeaderNoIndices(lines: seq<string>, from: nat, parse: DateParser)
    requires from <= |lines|
    requires forall i :: from <= i < |lines| ==> GedcomId(lines[i]).None?
    ensures HeaderIndices(GedcomRules(parse), lines, from) == []
    decreases |lines| - from
  {
    if from < |lines| {
      NoHeaderNoIndices(lines, from + 1, parse);
    }
  }

  /** Input without a header line yields no Person, and cannot fail. */
  lemma NoHeaderNoPersons(lines: seq<string>, parse: DateParser)
    requires forall i :: 0 <= i < |lines| ==> GedcomId(lines[i]).None?
    ensures Analyze(lines, parse) == Success([])
  {
    AnalyzeFromRefines(GedcomRules(parse), lines, 0);
    NoHeaderNoIndices(lines, 0, parse);
  }

  /**
   * The record of the header on line `i` reads past the last line exactly
   * when the header is the last line, or when no line after `i + 1` starts
   * with `0` and the last line contains `1\sBIRT`.
   */
  lemma RecordOverrunsExactly(lines: seq<string>, i: nat, parse: DateParser)
    requires i < |lines|
    ensures RecordOverruns(GedcomRules(parse), lines, i) <==>
      i + 1 == |lines|
      || (HasBirthTag(lines[|lines| - 1]) && forall m :: i + 1 < m < |lines| ==> NotLevelZero(lines[m]))
  {
    if i + 1 < |lines| {
      if forall m :: i + 1 < m < |lines| ==> NotLevelZero(lines[m]) {
        assert RecordEnd(lines, i) + 1 == |lines|;
      }
    }
  }
}
