/**
 * Worked samples on concrete input: what each pattern extracts from a
 * line, the greedy name groups of `find()`, two inputs on which
 * `analyzeList` throws because a lookahead reads past the last line, and a
 * whole record read into a Person.
 *
 * Each sample takes its line as a parameter fixed by its precondition, so
 * that the verifier reasons about the line instead of evaluating the
 * search functions on a literal.
 */
module Samples {
  import opened Results
  import opened JavaRegex
  import opened GedcomPatterns
  import opened Domain
  import opened Importer

  lemma SliceIs(line: string, i: nat, j: nat, s: string)
    requires i <= j <= |line| && j - i == |s|
    requires forall m :: 0 <= m < |s| ==> line[i + m] == s[m]
    ensures line[i..j] == s
  {
  }

  // ---------------------------------------------------------------------
  // Record header
  // ---------------------------------------------------------------------

  lemma HeaderMatches(line: string)
    requires line == "0 @I1@ INDI"
    ensures HeaderAt(line, 0, 1)
  {
    SliceIs(line, 7, 11, "INDI");
  }

  /** The identifier is the group after `@I`: `1`, not `I1`. */
  lemma HeaderIdLine(line: string)
    requires line == "0 @I1@ INDI"
    ensures GedcomId(line) == Some("1")
  {
    HeaderMatches(line);
    HeaderIdForced(line, 0, 1);
    assert FindHeader(line) == Some(0);
    SliceIs(line, 4, 5, "1");
  }

  lemma HeaderId()
    ensures GedcomId("0 @I1@ INDI") == Some("1")
  {
    HeaderIdLine("0 @I1@ INDI");
  }

  // ---------------------------------------------------------------------
  // Name
  // ---------------------------------------------------------------------

  lemma SimpleNameGroups(line: string)
    requires line == "1 NAME John /Smith/"
    ensures NameGroups(line, 0) == Some((4, 5))
  {
    SliceIs(line, 2, 6, "NAME");
    assert NameAt(line, 0, 4, 5);
    NameGroupsGreedy(line, 0, 4, 5);
    NameGroupsSound(line, 0);
    SimpleNameOnly(line, NameGroups(line, 0).value.0, NameGroups(line, 0).value.1);
  }

  lemma SimpleNameOnly(line: string, a: int, b: int)
    requires line == "1 NAME John /Smith/" && NameAt(line, 0, a, b) && 4 <= a
    ensures a == 4 && b == 5
  {
    assert a <= 8;
    assert !IsSpace(line[12]) && !IsSpace(line[13]) && !IsSpace(line[14]) && !IsSpace(line[15]);
  }

  lemma SimpleNameLine(line: string)
    requires line == "1 NAME John /Smith/"
    ensures ExtractName(line) == Some(("John", "Smith"))
  {
    SimpleNameGroups(line);
    assert FindName(line) == Some(0);
    SliceIs(line, 7, 11, "John");
    SliceIs(line, 13, 18, "Smith");
  }

  lemma SimpleName()
    ensures ExtractName("1 NAME John /Smith/") == Some(("John", "Smith"))
  {
    SimpleNameLine("1 NAME John /Smith/");
  }

  lemma GreedyNameOnly(line: string, a: int, b: int)
    requires line == "1 NAME Anna /von/ /Berg/" && NameAt(line, 0, a, b) && 10 <= a
    ensures a == 10 && b == 4
  {
    assert a <= 13;
    assert !IsSpace(line[18]) && !IsSpace(line[19]) && !IsSpace(line[20]);
  }

  lemma GreedyNameGroups(line: string)
    requires line == "1 NAME Anna /von/ /Berg/"
    ensures NameGroups(line, 0) == Some((10, 4))
  {
    SliceIs(line, 2, 6, "NAME");
    assert NameAt(line, 0, 10, 4);
    NameGroupsGreedy(line, 0, 10, 4);
    NameGroupsSound(line, 0);
    GreedyNameOnly(line, NameGroups(line, 0).value.0, NameGroups(line, 0).value.1);
  }

  lemma GreedyNameLine(line: string)
    requires line == "1 NAME Anna /von/ /Berg/"
    ensures ExtractName(line) == Some(("Anna /von/", "Berg"))
  {
    GreedyNameGroups(line);
    assert FindName(line) == Some(0);
    SliceIs(line, 7, 17, "Anna /von/");
    SliceIs(line, 19, 23, "Berg");
  }

  /**
   * Two slash-delimited parts: the greedy first-name group takes everything
   * up to the last ` /` after which a last name still fits.
   */
  lemma GreedyName()
    ensures ExtractName("1 NAME Anna /von/ /Berg/") == Some(("Anna /von/", "Berg"))
  {
    GreedyNameLine("1 NAME Anna /von/ /Berg/");
  }

  // ---------------------------------------------------------------------
  // Sex, birth tag, date and place
  // ---------------------------------------------------------------------

  lemma SexLine(line: string)
    requires line == "1 SEX Male"
    ensures ExtractSex(line) == Some("M")
  {
    SliceIs(line, 2, 5, "SEX");
    assert SexAt(line, 0);
    ExtractSexSpec(line);
  }

  /** Only the first character of the value is kept. */
  lemma SexFirstChar()
    ensures ExtractSex("1 SEX Male") == Some("M")
  {
    SexLine("1 SEX Male");
  }

  lemma BirthTagLine(line: string)
    requires line == "1 BIRT"
    ensures HasBirthTag(line)
  {
    SliceIs(line, 2, 6, "BIRT");
    assert BirtAt(line, 0);
  }

  lemma DateMatches(line: string)
    requires line == "2 DATE 1 JAN 1900"
    ensures DateAt(line, 0, 1, 3, 4)
  {
    SliceIs(line, 2, 6, "DATE");
  }

  lemma DateFound(line: string)
    requires line == "2 DATE 1 JAN 1900"
    ensures FindDate(line) == Some(0) && DateGroups(line, 0) == Some((1, 3, 4))
  {
    DateMatches(line);
    DateGroupsGreedy(line, 0, 1, 3, 4);
    DateGroupsSound(line, 0);
  }

  lemma DateLine(line: string)
    requires line == "2 DATE 1 JAN 1900"
    ensures DateToken(line) == Some("1 JAN 1900")
  {
    DateFound(line);
    SliceIs(line, 7, 17, "1 JAN 1900");
  }

  /** The text handed to the date parser: day, month and year with their separators. */
  lemma BirthdayToken()
    ensures DateToken("2 DATE 1 JAN 1900") == Some("1 JAN 1900")
  {
    DateLine("2 DATE 1 JAN 1900");
  }

  lemma PlaceMatches(line: string)
    requires line == "2 PLAC Berlin, Germany"
    ensures PlaceAt(line, 0, 15)
  {
    SliceIs(line, 2, 6, "PLAC");
  }

  lemma PlaceFound(line: string)
    requires line == "2 PLAC Berlin, Germany"
    ensures FindPlace(line) == Some(0) && PlaceLength(line, 0) == 15
  {
    PlaceMatches(line);
    PlaceLengthGreedy(line, 0, 15);
  }

  lemma PlaceLine(line: string)
    requires line == "2 PLAC Berlin, Germany"
    ensures ExtractPlace(line) == Some("Berlin, Germany")
  {
    PlaceFound(line);
    SliceIs(line, 7, 22, "Berlin, Germany");
  }

  /** The place is the whole rest of the line. */
  lemma Birthplace()
    ensures ExtractPlace("2 PLAC Berlin, Germany") == Some("Berlin, Germany")
  {
    PlaceLine("2 PLAC Berlin, Germany");
  }

  // ---------------------------------------------------------------------
  // Whole inputs on which the scan throws
  // ---------------------------------------------------------------------

  lemma HeaderOnLastLineFails(lines: seq<string>, parse: DateParser)
    requires lines == ["0 @I1@ INDI"]
    ensures Analyze(lines, parse) == Failure(IndexOutOfBounds(1, 1))
  {
    HeaderIdLine(lines[0]);
  }

  /** A header on the last line: the record's do-while reads the line after it. */
  lemma HeaderOnLastLine(parse: DateParser)
    ensures Analyze(["0 @I1@ INDI"], parse) == Failure(IndexOutOfBounds(1, 1))
  {
    HeaderOnLastLineFails(["0 @I1@ INDI"], parse);
  }

  lemma BirthOnLastLineFails(lines: seq<string>, parse: DateParser)
    requires lines == ["0 @I1@ INDI", "1 BIRT"]
    ensures Analyze(lines, parse) == Failure(IndexOutOfBounds(2, 2))
  {
    HeaderIdLine(lines[0]);
    BirthTagLine(lines[1]);
    assert ScanRecord(GedcomRules(parse), lines, 0, "1").Failure?;
  }

  /** `1 BIRT` on the last line: the birth do-while reads the line after it. */
  lemma BirthOnLastLine(parse: DateParser)
    ensures Analyze(["0 @I1@ INDI", "1 BIRT"], parse) == Failure(IndexOutOfBounds(2, 2))
  {
    BirthOnLastLineFails(["0 @I1@ INDI", "1 BIRT"], parse);
  }

  // ---------------------------------------------------------------------
  // Lines on which a pattern finds nothing
  // ---------------------------------------------------------------------

  /** `<c>\s<tag>` occurs nowhere when, wherever `c` could start it, the tag's `j`-th character differs. */
  lemma NoTag(line: string, c: char, tag: string, j: int)
    requires 0 <= j < |tag|
    requires forall m :: 0 <= m && m + 2 + |tag| <= |line| && line[m] == c ==> line[m + 2..m + 2 + |tag|][j] != tag[j]
    ensures forall p :: !TagAt(line, p, c, tag)
  {
  }

  /** A header needs `0`, a blank and `@`. */
  lemma NoHeader(line: string)
    requires forall m :: 0 <= m && m + 11 <= |line| && line[m] == '0' ==> line[m + 2] != '@'
    ensures GedcomId(line).None?
  {
  }

  lemma NoName(line: string)
    requires forall p :: !TagAt(line, p, '1', "NAME")
    ensures ExtractName(line).None?
  {
  }

  lemma NoSex(line: string)
    requires forall p :: !TagAt(line, p, '1', "SEX")
    ensures ExtractSex(line).None?
  {
  }

  lemma NoBirth(line: string)
    requires forall p :: !TagAt(line, p, '1', "BIRT")
    ensures !HasBirthTag(line)
  {
  }

  lemma NoDate(line: string, parse: DateParser)
    requires forall p :: !TagAt(line, p, '2', "DATE")
    ensures DateHit(line, parse).None?
  {
  }

  lemma NoPlace(line: string)
    requires forall p :: !TagAt(line, p, '2', "PLAC")
    ensures ExtractPlace(line).None?
  {
  }

  // ---------------------------------------------------------------------
  // A whole record
  // ---------------------------------------------------------------------

  /** One individual with a name, a sex and a birth event, followed by the trailer. */
  const SampleFile: seq<string> := [
    "0 @I1@ INDI",
    "1 NAME John /Smith/",
    "1 SEX Male",
    "1 BIRT",
    "2 DATE 1 JAN 1900",
    "2 PLAC Berlin, Germany",
    "0 TRLR"]

  const SampleDate := Date(1, 1, 1900)

  const SamplePerson := Person(Some("1"), Some("John"), Some("Smith"), Some("M"), Some(SampleDate), Some("Berlin, Germany"))

  /** What the header, name, sex and birth rules find on one line. */
  predicate LineReads(rules: Rules, line: string, header: Option<string>, name: Option<(string, string)>,
                      sex: Option<string>, birth: bool)
  {
    rules.header(line) == header && rules.name(line) == name && rules.sex(line) == sex && rules.birth(line) == birth
  }

  /** What the date and place rules find on one line. */
  predicate BirthReads(rules: Rules, line: string, date: Option<Date>, place: Option<string>) {
    rules.date(line) == date && rules.place(line) == place
  }

  lemma NameLineNoHeader(line: string)
    requires line == "1 NAME John /Smith/"
    ensures GedcomId(line).None?
  {
    NoHeader(line);
  }

  lemma NameLineNoSex(line: string)
    requires line == "1 NAME John /Smith/"
    ensures ExtractSex(line).None?
  {
    NoTag(line, '1', "SEX", 0);
    NoSex(line);
  }

  lemma NameLineNoBirth(line: string)
    requires line == "1 NAME John /Smith/"
    ensures !HasBirthTag(line)
  {
    NoTag(line, '1', "BIRT", 0);
    NoBirth(line);
  }

  lemma SexLineNoHeader(line: string)
    requires line == "1 SEX Male"
    ensures GedcomId(line).None?
  {
    NoHeader(line);
  }

  lemma SexLineNoName(line: string)
    requires line == "1 SEX Male"
    ensures ExtractName(line).None?
  {
    NoTag(line, '1', "NAME", 0);
    NoName(line);
  }

  lemma SexLineNoBirth(line: string)
    requires line == "1 SEX Male"
    ensures !HasBirthTag(line)
  {
    NoTag(line, '1', "BIRT", 0);
    NoBirth(line);
  }

  lemma BirthLineOnlyBirth(line: string)
    requires line == "1 BIRT"
    ensures GedcomId(line).None? && ExtractName(line).None? && ExtractSex(line).None?
  {
    NoHeader(line);
    NoName(line);
    NoTag(line, '1', "SEX", 0);
    NoSex(line);
  }

  lemma DateLineNoHeader(line: string)
    requires line == "2 DATE 1 JAN 1900"
    ensures GedcomId(line).None?
  {
    NoHeader(line);
  }

  lemma DateLineNoName(line: string)
    requires line == "2 DATE 1 JAN 1900"
    ensures ExtractName(line).None?
  {
    NoTag(line, '1', "NAME", 0);
    NoName(line);
  }

  lemma DateLineNoSex(line: string)
    requires line == "2 DATE 1 JAN 1900"
    ensures ExtractSex(line).None?
  {
    NoTag(line, '1', "SEX", 0);
    NoSex(line);
  }

  lemma DateLineNoBirth(line: string)
    requires line == "2 DATE 1 JAN 1900"
    ensures !HasBirthTag(line)
  {
    NoTag(line, '1', "BIRT", 0);
    NoBirth(line);
  }

  lemma DateLineNoPlace(line: string)
    requires line == "2 DATE 1 JAN 1900"
    ensures ExtractPlace(line).None?
  {
    NoTag(line, '2', "PLAC", 0);
    NoPlace(line);
  }

  lemma PlaceLineNoHeader(line: string)
    requires line == "2 PLAC Berlin, Germany"
    ensures GedcomId(line).None?
  {
    NoHeader(line);
  }

  lemma PlaceLineNoName(line: string)
    requires line == "2 PLAC Berlin, Germany"
    ensures ExtractName(line).None? && ExtractSex(line).None? && !HasBirthTag(line)
  {
    NoName(line);
    NoSex(line);
    NoBirth(line);
  }

  lemma PlaceLineNoDate(line: string, parse: DateParser)
    requires line == "2 PLAC Berlin, Germany"
    ensures DateHit(line, parse).None?
  {
    NoTag(line, '2', "DATE", 0);
    NoDate(line, parse);
  }

  lemma TrailerNoHeader(line: string)
    requires line == "0 TRLR"
    ensures GedcomId(line).None?
  {
    NoHeader(line);
  }

  /** What the importer's rules find on each line of the sample. */
  lemma HeaderLineReads(line: string, parse: DateParser)
    requires line == "0 @I1@ INDI"
    ensures GedcomRules(parse).header(line) == Some("1")
  {
    HeaderIdLine(line);
  }

  lemma NameLineReads(line: string, parse: DateParser)
    requires line == "1 NAME John /Smith/"
    ensures LineReads(GedcomRules(parse), line, None, Some(("John", "Smith")), None, false)
  {
    NameLineNoHeader(line);
    SimpleNameLine(line);
    NameLineNoSex(line);
    NameLineNoBirth(line);
  }

  lemma SexLineReads(line: string, parse: DateParser)
    requires line == "1 SEX Male"
    ensures LineReads(GedcomRules(parse), line, None, None, Some("M"), false)
  {
    SexLineNoHeader(line);
    SexLineNoName(line);
    SexLine(line);
    SexLineNoBirth(line);
  }

  lemma BirthLineReads(line: string, parse: DateParser)
    requires line == "1 BIRT"
    ensures LineReads(GedcomRules(parse), line, None, None, None, true)
  {
    BirthLineOnlyBirth(line);
    BirthTagLine(line);
  }

  lemma DateLineReads(line: string, parse: DateParser)
    requires line == "2 DATE 1 JAN 1900" && parse("1 JAN 1900") == Some(SampleDate)
    ensures LineReads(GedcomRules(parse), line, None, None, None, false)
    ensures BirthReads(GedcomRules(parse), line, Some(SampleDate), None)
  {
    DateLineNoHeader(line);
    DateLineNoName(line);
    DateLineNoSex(line);
    DateLineNoBirth(line);
    DateLine(line);
    DateLineNoPlace(line);
  }

  lemma PlaceLineReads(line: string, parse: DateParser)
    requires line == "2 PLAC Berlin, Germany"
    ensures LineReads(GedcomRules(parse), line, None, None, None, false)
    ensures BirthReads(GedcomRules(parse), line, None, Some("Berlin, Germany"))
  {
    PlaceLineNoHeader(line);
    PlaceLineNoName(line);
    PlaceLineNoDate(line, parse);
    PlaceLine(line);
  }

  lemma TrailerReads(line: string, parse: DateParser)
    requires line == "0 TRLR"
    ensures GedcomRules(parse).header(line).None? && !NotLevelZero(line) && !LevelTwo(line)
  {
    TrailerNoHeader(line);
  }

  /** The birth do-while of the sample reads the date line and the place line and stops at the trailer. */
  lemma SampleBirthSteps(rules: Rules, lines: seq<string>, p: Person, d: Date, place: string)
    requires |lines| == 7
    requires BirthReads(rules, lines[4], Some(d), None) && BirthReads(rules, lines[5], None, Some(place))
    requires LevelTwo(lines[5]) && !LevelTwo(lines[6])
    ensures BirthLoop(rules, lines, 4, p) == p.(birthday := Some(d), birthplace := Some(place))
  {
  }

  /** The sample's record loop from the birth line on: the birth event, then two lines the name and sex patterns ignore. */
  lemma SampleTailSteps(rules: Rules, lines: seq<string>, p: Person, d: Date, place: string)
    requires |lines| == 7
    requires BirthReads(rules, lines[4], Some(d), None) && BirthReads(rules, lines[5], None, Some(place))
    requires LevelTwo(lines[5]) && !LevelTwo(lines[6])
    requires LineReads(rules, lines[3], None, None, None, true)
    requires LineReads(rules, lines[4], None, None, None, false)
    requires LineReads(rules, lines[5], None, None, None, false)
    requires NotLevelZero(lines[4]) && NotLevelZero(lines[5]) && !NotLevelZero(lines[6])
    ensures RecordLoop(rules, lines, 3, p) == Success(p.(birthday := Some(d), birthplace := Some(place)))
  {
    SampleBirthSteps(rules, lines, p, d, place);
    assert RecordLoop(rules, lines, 5, p.(birthday := Some(d), birthplace := Some(place)))
        == Success(p.(birthday := Some(d), birthplace := Some(place)));
  }

  /** The sample's whole record loop, from the name line on. */
  lemma SampleRecordSteps(rules: Rules, lines: seq<string>, id: string, first: string, last: string,
                          sex: string, d: Date, place: string)
    requires |lines| == 7
    requires BirthReads(rules, lines[4], Some(d), None) && BirthReads(rules, lines[5], None, Some(place))
    requires LevelTwo(lines[5]) && !LevelTwo(lines[6])
    requires LineReads(rules, lines[1], None, Some((first, last)), None, false)
    requires LineReads(rules, lines[2], None, None, Some(sex), false)
    requires LineReads(rules, lines[3], None, None, None, true)
    requires LineReads(rules, lines[4], None, None, None, false)
    requires LineReads(rules, lines[5], None, None, None, false)
    requires NotLevelZero(lines[2]) && NotLevelZero(lines[3])
    requires NotLevelZero(lines[4]) && NotLevelZero(lines[5]) && !NotLevelZero(lines[6])
    ensures RecordLoop(rules, lines, 1, NewPerson(id))
            == Success(Person(Some(id), Some(first), Some(last), Some(sex), Some(d), Some(place)))
  {
    SampleTailSteps(rules, lines, Person(Some(id), Some(first), Some(last), Some(sex), None, None), d, place);
    assert RecordLoop(rules, lines, 2, NewPerson(id).(firstName := Some(first), lastName := Some(last)))
        == RecordLoop(rules, lines, 3, Person(Some(id), Some(first), Some(last), Some(sex), None, None));
  }

  /** A seven-line file whose only header is its first line yields that header's Person alone. */
  lemma SampleScanSteps(rules: Rules, lines: seq<string>, id: string, q: Person)
    requires |lines| == 7
    requires rules.header(lines[0]) == Some(id)
    requires rules.header(lines[1]).None? && rules.header(lines[2]).None? && rules.header(lines[3]).None?
    requires rules.header(lines[4]).None? && rules.header(lines[5]).None? && rules.header(lines[6]).None?
    requires RecordLoop(rules, lines, 1, NewPerson(id)) == Success(q)
    ensures AnalyzeFrom(rules, lines, 0) == Success([q])
  {
    assert AnalyzeFrom(rules, lines, 6) == Success([]);
    assert AnalyzeFrom(rules, lines, 5) == Success([]);
    assert AnalyzeFrom(rules, lines, 4) == Success([]);
    assert AnalyzeFrom(rules, lines, 3) == Success([]);
    assert AnalyzeFrom(rules, lines, 2) == Success([]);
    assert AnalyzeFrom(rules, lines, 1) == Success([]);
    assert ScanRecord(rules, lines, 0, id) == Success(q);
    assert [q] + [] == [q];
  }

  /** What the importer's rules find on the sample's lines. */
  lemma SampleReads(l0: string, l1: string, l2: string, l3: string, l4: string, l5: string, l6: string,
                    parse: DateParser)
    requires l0 == "0 @I1@ INDI" && l1 == "1 NAME John /Smith/" && l2 == "1 SEX Male" && l3 == "1 BIRT"
    requires l4 == "2 DATE 1 JAN 1900" && l5 == "2 PLAC Berlin, Germany" && l6 == "0 TRLR"
    requires parse("1 JAN 1900") == Some(SampleDate)
    ensures GedcomRules(parse).header(l0) == Some("1")
    ensures LineReads(GedcomRules(parse), l1, None, Some(("John", "Smith")), None, false)
    ensures LineReads(GedcomRules(parse), l2, None, None, Some("M"), false)
    ensures LineReads(GedcomRules(parse), l3, None, None, None, true)
    ensures LineReads(GedcomRules(parse), l4, None, None, None, false)
    ensures LineReads(GedcomRules(parse), l5, None, None, None, false)
    ensures BirthReads(GedcomRules(parse), l4, Some(SampleDate), None)
    ensures BirthReads(GedcomRules(parse), l5, None, Some("Berlin, Germany"))
    ensures GedcomRules(parse).header(l6).None?
    ensures NotLevelZero(l2) && NotLevelZero(l3) && NotLevelZero(l4) && NotLevelZero(l5) && !NotLevelZero(l6)
    ensures LevelTwo(l5) && !LevelTwo(l6)
  {
    HeaderLineReads(l0, parse);
    NameLineReads(l1, parse);
    SexLineReads(l2, parse);
    BirthLineReads(l3, parse);
    DateLineReads(l4, parse);
    PlaceLineReads(l5, parse);
    TrailerReads(l6, parse);
  }

  /** The sample's scan, from what the rules find on its lines. */
  lemma SampleScan(rules: Rules, l0: string, l1: string, l2: string, l3: string, l4: string, l5: string, l6: string)
    requires rules.header(l0) == Some("1")
    requires LineReads(rules, l1, None, Some(("John", "Smith")), None, false)
    requires LineReads(rules, l2, None, None, Some("M"), false)
    requires LineReads(rules, l3, None, None, None, true)
    requires LineReads(rules, l4, None, None, None, false)
    requires LineReads(rules, l5, None, None, None, false)
    requires BirthReads(rules, l4, Some(SampleDate), None)
    requires BirthReads(rules, l5, None, Some("Berlin, Germany"))
    requires rules.header(l6).None?
    requires NotLevelZero(l2) && NotLevelZero(l3) && NotLevelZero(l4) && NotLevelZero(l5) && !NotLevelZero(l6)
    requires LevelTwo(l5) && !LevelTwo(l6)
    ensures AnalyzeFrom(rules, [l0, l1, l2, l3, l4, l5, l6], 0) == Success([SamplePerson])
  {
    assert [l0, l1, l2, l3, l4, l5, l6][1] == l1 && [l0, l1, l2, l3, l4, l5, l6][2] == l2;
    assert [l0, l1, l2, l3, l4, l5, l6][3] == l3 && [l0, l1, l2, l3, l4, l5, l6][4] == l4;
    assert [l0, l1, l2, l3, l4, l5, l6][5] == l5 && [l0, l1, l2, l3, l4, l5, l6][6] == l6;
    SampleRecordSteps(rules, [l0, l1, l2, l3, l4, l5, l6], "1", "John", "Smith", "M", SampleDate, "Berlin, Germany");
    SampleScanSteps(rules, [l0, l1, l2, l3, l4, l5, l6], "1", SamplePerson);
  }

  /**
   * The sample file yields one Person with every field set, provided the
   * date parser reads `1 JAN 1900` as 1 January 1900.
   */
  lemma Sample(parse: DateParser)
    requires parse("1 JAN 1900") == Some(SampleDate)
    ensures Analyze(SampleFile, parse) == Success([SamplePerson])
  {
    SampleReads("0 @I1@ INDI", "1 NAME John /Smith/", "1 SEX Male", "1 BIRT",
                "2 DATE 1 JAN 1900", "2 PLAC Berlin, Germany", "0 TRLR", parse);
    SampleScan(GedcomRules(parse), "0 @I1@ INDI", "1 NAME John /Smith/", "1 SEX Male", "1 BIRT",
               "2 DATE 1 JAN 1900", "2 PLAC Berlin, Germany", "0 TRLR");
  }
}
