/**
 * `GedComImporter.analyzeList` and its field extractors, as functions of
 * the line list. The Person the Java code mutates in place is threaded
 * through as a value; the `IndexOutOfBoundsException` a lookahead loop
 * raises when it reads past the last line is a `Failure`.
 *
 * The scanner is written against a table of line rules (`Rules`);
 * `GedcomRules` is the table of the importer's six patterns, and
 * `Analyze` is `analyzeList` with that table.
 */
module Importer {
  import opened Results
  import opened JavaRegex
  import opened GedcomPatterns
  import opened Domain

  /** `List.get(index)` on a list of `size` elements with `index >= size`. */
  datatype ScanError = IndexOutOfBounds(index: int, size: int)

  /** `new SimpleDateFormat("d MMM yyyy", Locale.ENGLISH).parse`: `None` where it throws `ParseException`. */
  type DateParser = string -> Option<Date>

  /** What each extractor finds on one line. */
  datatype Rules = Rules(
    header: string -> Option<string>,
    name: string -> Option<(string, string)>,
    sex: string -> Option<string>,
    birth: string -> bool,
    date: string -> Option<Date>,
    place: string -> Option<string>)

  /** The date `extractBirthday` stores for a line: a matched token that the parser accepts. */
  function DateHit(line: string, parse: DateParser): (r: Option<Date>)
    ensures DateToken(line).None? ==> r.None?
    ensures DateToken(line).Some? ==> r == parse(DateToken(line).value)
  {
    match DateToken(line)
    case None => None
    case Some(token) => parse(token)
  }

  /**
   * `extractBirthday` stores nothing when the date pattern matches nowhere
   * in the line; otherwise it stores what the parser makes of the `date`
   * group of the match `find()` reports.
   */
  lemma DateHitSpec(line: string, parse: DateParser)
    ensures (forall p, x, y, z :: !DateAt(line, p, x, y, z)) ==> DateHit(line, parse).None?
    ensures (exists p, x, y, z :: DateAt(line, p, x, y, z)) ==>
      exists p, x, y, z :: DateChosen(line, p, x, y, z) && DateHit(line, parse) == parse(line[p + 7..p + 9 + x + y + z])
  {
    DateTokenSpec(line);
  }

  /**
   * The rules of `GedComImporter`: `getGedComId`, `extractName`,
   * `extractSex`, the `1\sBIRT` test of `extractBirthInformation`,
   * `extractBirthday` with the given date parser, and `extractPlace`.
   */
  function GedcomRules(parse: DateParser): Rules {
    Rules(GedcomId, ExtractName, ExtractSex, HasBirthTag, line => DateHit(line, parse), ExtractPlace)
  }

  /** `extractName`: both names are set from one match, or the person is left as it was. */
  function ApplyName(rules: Rules, line: string, person: Person): (r: Person)
    ensures r.firstName.Some? <==> person.firstName.Some? || rules.name(line).Some?
    ensures r.firstName.Some? && r.firstName != person.firstName ==> r.lastName.Some?
    ensures r.(firstName := person.firstName, lastName := person.lastName) == person
  {
    match rules.name(line)
    case None => person
    case Some((first, last)) => person.(firstName := Some(first), lastName := Some(last))
  }

  /** `extractSex`: the sex is set on a match, or the person is left as it was. */
  function ApplySex(rules: Rules, line: string, person: Person): (r: Person)
    ensures r.sex.Some? <==> person.sex.Some? || rules.sex(line).Some?
    ensures r.(sex := person.sex) == person
  {
    person.(sex := Overlay(person.sex, rules.sex(line)))
  }

  /** `extractBirthday`: a missing or unparsable date leaves the birthday as it was. */
  function ApplyBirthday(rules: Rules, line: string, person: Person): (r: Person)
    ensures rules.date(line).None? ==> r == person
    ensures r.(birthday := person.birthday) == person
  {
    person.(birthday := Overlay(person.birthday, rules.date(line)))
  }

  /** `extractBirthplace` with `extractPlace`. */
  function ApplyBirthplace(rules: Rules, line: string, person: Person): (r: Person)
    ensures r.birthplace.Some? <==> person.birthplace.Some? || rules.place(line).Some?
    ensures r.(birthplace := person.birthplace) == person
  {
    person.(birthplace := Overlay(person.birthplace, rules.place(line)))
  }

  /** `!line.startsWith("0")`: the record's do-while continues past such a line. */
  predicate NotLevelZero(line: string) {
    !StartsWith(line, '0')
  }

  /** `line.startsWith("2")`: the birth do-while continues past such a line. */
  predicate LevelTwo(line: string) {
    StartsWith(line, '2')
  }

  /**
   * The do-while of `extractBirthInformation` from line `b`: the date and
   * place extractors run on line `b`, and the loop goes on while the next
   * line exists and starts with `2`.
   */
  function BirthLoop(rules: Rules, lines: seq<string>, b: nat, person: Person): (r: Person)
    requires b < |lines|
    ensures r.(birthday := person.birthday, birthplace := person.birthplace) == person
    decreases |lines| - b
  {
    var p := ApplyBirthplace(rules, lines[b], ApplyBirthday(rules, lines[b], person));
    if b + 1 < |lines| && LevelTwo(lines[b + 1]) then BirthLoop(rules, lines, b + 1, p) else p
  }

  /**
   * `extractBirthInformation` for line `k`: on `1\sBIRT` the birth loop
   * starts at line `k + 1`, which is read even when it does not exist.
   */
  function ExtractBirthInformation(rules: Rules, lines: seq<string>, k: nat, person: Person)
    : (r: Result<Person, ScanError>)
    requires k < |lines|
    ensures r.Failure? <==> rules.birth(lines[k]) && k + 1 == |lines|
    ensures r.Failure? ==> r.error == IndexOutOfBounds(|lines|, |lines|)
    ensures !rules.birth(lines[k]) ==> r == Success(person)
  {
    if !rules.birth(lines[k]) then Success(person)
    else if k + 1 == |lines| then Failure(IndexOutOfBounds(k + 1, |lines|))
    else Success(BirthLoop(rules, lines, k + 1, person))
  }

  /**
   * The do-while of `analyzeList` from line `k`: name, sex and birth
   * extractors run on line `k`, and the loop goes on while the next line
   * exists and does not start with `0`.
   */
  function RecordLoop(rules: Rules, lines: seq<string>, k: nat, person: Person): (r: Result<Person, ScanError>)
    requires k < |lines|
    ensures r.Failure? ==> r.error == IndexOutOfBounds(|lines|, |lines|)
    ensures r.Success? ==> r.value.gedcomId == person.gedcomId
    decreases |lines| - k
  {
    var named := ApplySex(rules, lines[k], ApplyName(rules, lines[k], person));
    var p :- ExtractBirthInformation(rules, lines, k, named);
    if k + 1 < |lines| && NotLevelZero(lines[k + 1]) then RecordLoop(rules, lines, k + 1, p)
    else Success(p)
  }

  /**
   * One record: the Person created for the header on line `i`, filled in
   * by the do-while that starts by reading line `i + 1`.
   */
  function ScanRecord(rules: Rules, lines: seq<string>, i: nat, id: string): (r: Result<Person, ScanError>)
    requires i < |lines|
    ensures i + 1 == |lines| ==> r == Failure(IndexOutOfBounds(|lines|, |lines|))
    ensures r.Failure? ==> r.error == IndexOutOfBounds(|lines|, |lines|)
    ensures r.Success? ==> r.value.gedcomId == Some(id)
  {
    if i + 1 == |lines| then Failure(IndexOutOfBounds(i + 1, |lines|))
    else RecordLoop(rules, lines, i + 1, NewPerson(id))
  }

  /** The `for` loop of `analyzeList` from line `i`: every line is matched against the header pattern. */
  function AnalyzeFrom(rules: Rules, lines: seq<string>, i: nat): (r: Result<seq<Person>, ScanError>)
    requires i <= |lines|
    ensures r.Failure? ==> r.error == IndexOutOfBounds(|lines|, |lines|)
    ensures r.Success? ==> |r.value| <= |lines| - i
    ensures r.Success? ==> forall m :: 0 <= m < |r.value| ==> r.value[m].gedcomId.Some?
    decreases |lines| - i
  {
    if i == |lines| then Success([])
    else
      match rules.header(lines[i])
      case None => AnalyzeFrom(rules, lines, i + 1)
      case Some(id) =>
        var person :- ScanRecord(rules, lines, i, id);
        var rest :- AnalyzeFrom(rules, lines, i + 1);
        Success([person] + rest)
  }

  /** `analyzeList(lines, persons)` with an empty `persons`: the Persons it appends, or the exception it throws. */
  function Analyze(lines: seq<string>, parse: DateParser): Result<seq<Person>, ScanError> {
    AnalyzeFrom(GedcomRules(parse), lines, 0)
  }
}
