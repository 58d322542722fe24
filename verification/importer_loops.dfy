/**
 * `analyzeList` and `extractBirthInformation` with the loops of the Java
 * code: a `for` over all lines and the two do-while lookaheads, each of
 * which advances its line counter before it reads the line. Each method is
 * proved to compute the functional model of `Importer`, and hence the
 * reference reading of `ImporterSpec`.
 */
module ImporterLoops {
  import opened Results
  import opened Domain
  import opened Importer
  import opened ImporterSpec
  import opened ImporterProofs

  /** `extractBirthInformation(lines, line, person, k)`. */
  method BirthInformation(rules: Rules, lines: seq<string>, k: nat, person: Person)
    returns (r: Result<Person, ScanError>)
    requires k < |lines|
    ensures r == ExtractBirthInformation(rules, lines, k, person)
    ensures r.Success? && rules.birth(lines[k]) ==>
      r.value == Refine(rules, person, lines, [], BirthRange(rules, lines, k))
  {
    if !rules.birth(lines[k]) {
      return Success(person);
    }
    var b := k + 1;
    if b >= |lines| {
      return Failure(IndexOutOfBounds(b, |lines|));
    }
    BirthInformationRefines(rules, lines, k, person);
    var p := person;
    while true
      invariant k < b < |lines|
      invariant BirthLoop(rules, lines, k + 1, person) == BirthLoop(rules, lines, b, p)
      decreases |lines| - b
    {
      p := ApplyBirthday(rules, lines[b], p);
      p := ApplyBirthplace(rules, lines[b], p);
      if !(b + 1 < |lines| && LevelTwo(lines[b + 1])) {
        return Success(p);
      }
      b := b + 1;
    }
  }

  /** The body of `analyzeList`'s `if (gedcomId != null)`: a new Person filled in by the record's do-while. */
  method Record(rules: Rules, lines: seq<string>, i: nat, id: string) returns (r: Result<Person, ScanError>)
    requires i < |lines|
    ensures r == ScanRecord(rules, lines, i, id)
    ensures r.Failure? <==> RecordOverruns(rules, lines, i)
    ensures r.Success? ==> r.value == RecordPerson(rules, lines, i, id)
  {
    ScanRecordRefines(rules, lines, i, id);
    var n := i + 1;
    if n >= |lines| {
      return Failure(IndexOutOfBounds(n, |lines|));
    }
    var person := NewPerson(id);
    while true
      invariant i < n < |lines|
      invariant ScanRecord(rules, lines, i, id) == RecordLoop(rules, lines, n, person)
      decreases |lines| - n
    {
      person := ApplyName(rules, lines[n], person);
      person := ApplySex(rules, lines[n], person);
      var birth := BirthInformation(rules, lines, n, person);
      if birth.Failure? {
        return Failure(birth.error);
      }
      person := birth.value;
      if !(n + 1 < |lines| && NotLevelZero(lines[n + 1])) {
        return Success(person);
      }
      n := n + 1;
    }
  }

  /** `persons` followed by the outcome of the rest of a scan. */
  function Prefixed(persons: seq<Person>, rest: Result<seq<Person>, ScanError>): (r: Result<seq<Person>, ScanError>)
    ensures r.Failure? <==> rest.Failure?
    ensures r.Failure? ==> r.error == rest.error
    ensures r.Success? ==>
      |r.value| == |persons| + |rest.value| && r.value[..|persons|] == persons && r.value[|persons|..] == rest.value
  {
    match rest
    case Failure(e) => Failure(e)
    case Success(v) => Success(persons + v)
  }

  /** Moving a header's Person from the rest of the scan to the collected ones. */
  lemma PrefixedStep(rules: Rules, lines: seq<string>, i: nat, persons: seq<Person>, person: Person)
    requires i < |lines| && rules.header(lines[i]).Some?
    requires ScanRecord(rules, lines, i, rules.header(lines[i]).value) == Success(person)
    ensures Prefixed(persons, AnalyzeFrom(rules, lines, i)) == Prefixed(persons + [person], AnalyzeFrom(rules, lines, i + 1))
  {
    if AnalyzeFrom(rules, lines, i + 1).Success? {
      assert persons + ([person] + AnalyzeFrom(rules, lines, i + 1).value)
             == (persons + [person]) + AnalyzeFrom(rules, lines, i + 1).value;
    }
  }

  /** The `for` loop of `analyzeList`. */
  method Scan(rules: Rules, lines: seq<string>) returns (r: Result<seq<Person>, ScanError>)
    ensures r == AnalyzeFrom(rules, lines, 0)
  {
    var persons: seq<Person> := [];
    for i := 0 to |lines|
      invariant AnalyzeFrom(rules, lines, 0) == Prefixed(persons, AnalyzeFrom(rules, lines, i))
    {
      var gedcomId := rules.header(lines[i]);
      if gedcomId.Some? {
        var person := Record(rules, lines, i, gedcomId.value);
        if person.Failure? {
          return Failure(person.error);
        }
        PrefixedStep(rules, lines, i, persons, person.value);
        persons := persons + [person.value];
      }
    }
    assert persons + [] == persons;
    return Success(persons);
  }

  /**
   * `analyzeList(lines, persons)` started with an empty `persons`: the
   * Persons it appends, or the exception it throws.
   */
  method AnalyzeList(rules: Rules, lines: seq<string>) returns (r: Result<seq<Person>, ScanError>)
    ensures r == AnalyzeFrom(rules, lines, 0)
    ensures r.Failure? <==> OverrunsFrom(rules, lines, 0)
    ensures r.Failure? ==> r.error == IndexOutOfBounds(|lines|, |lines|)
    ensures r.Success? ==> PersonsOf(rules, lines, HeaderIndices(rules, lines, 0), r.value)
  {
    r := Scan(rules, lines);
    AnalyzeFromRefines(rules, lines, 0);
  }
}
