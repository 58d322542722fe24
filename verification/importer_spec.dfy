/**
 * A reference description of what `analyzeList` computes, stated without
 * its loops, and the lemmas that connect it to the loop-shaped model in
 * `Importer`:
 *   - a do-while lookahead processes exactly the lines up to `LookaheadEnd`;
 *   - every field of a record's Person is the value of the LAST successful
 *     match among the lines that feed it (the record's block for name and
 *     sex, the birth sub-ranges for birthday and birthplace);
 *   - the output holds one Person per header line, in line order, unless a
 *     lookahead reads past the last line.
 */
module ImporterSpec {
  import opened Results
  import opened Domain
  import opened Importer

  // ---------------------------------------------------------------------
  // Extents of the two do-while lookaheads
  // ---------------------------------------------------------------------

  /**
   * The last line a do-while that starts at line `k` processes: the first
   * index `r >= k` whose successor is missing or fails `continues`.
   */
  function LookaheadEnd(lines: seq<string>, k: nat, continues: string -> bool): (r: nat)
    requires k < |lines|
    ensures k <= r < |lines|
    ensures forall m :: k < m <= r ==> continues(lines[m])
    ensures r + 1 == |lines| || !continues(lines[r + 1])
    decreases |lines| - k
  {
    if k + 1 < |lines| && continues(lines[k + 1]) then LookaheadEnd(lines, k + 1, continues) else k
  }

  /** The last line of the block of the header on line `i`. */
  function RecordEnd(lines: seq<string>, i: nat): nat
    requires i + 1 < |lines|
  {
    LookaheadEnd(lines, i + 1, NotLevelZero)
  }

  /** The last line of the birth sub-range opened by line `k`. */
  function BirthEnd(lines: seq<string>, k: nat): nat
    requires k + 1 < |lines|
  {
    LookaheadEnd(lines, k + 1, LevelTwo)
  }

  /** The indices `lo, lo + 1, ..., hi - 1`. */
  function Range(lo: nat, hi: nat): (r: seq<nat>)
    requires lo <= hi
    ensures |r| == hi - lo
    decreases hi - lo
  {
    if lo == hi then [] else [lo] + Range(lo + 1, hi)
  }

  predicate Within(lines: seq<string>, idx: seq<nat>) {
    forall j :: 0 <= j < |idx| ==> idx[j] < |lines|
  }

  /** The birth sub-range a line opens: none without `1\sBIRT`, none when it is the last line. */
  function BirthRange(rules: Rules, lines: seq<string>, k: nat): (r: seq<nat>)
    requires k < |lines|
  {
    if rules.birth(lines[k]) && k + 1 < |lines| then Range(k + 1, BirthEnd(lines, k) + 1) else []
  }

  /** The lines the birth extractors visit while the record loop processes lines `lo..hi-1`, in visiting order. */
  function BirthTrace(rules: Rules, lines: seq<string>, lo: nat, hi: nat): (r: seq<nat>)
    requires lo <= hi <= |lines|
    decreases hi - lo
  {
    if lo == hi then [] else BirthRange(rules, lines, lo) + BirthTrace(rules, lines, lo + 1, hi)
  }

  /** The block of the header on line `i`: lines `i + 1` through `RecordEnd` (none for a header on the last line). */
  function RecordBlock(lines: seq<string>, i: nat): (r: seq<nat>)
    requires i < |lines|
  {
    if i + 1 < |lines| then Range(i + 1, RecordEnd(lines, i) + 1) else []
  }

  /** The lines the birth extractors visit for the header on line `i`. */
  function RecordBirths(rules: Rules, lines: seq<string>, i: nat): (r: seq<nat>)
    requires i < |lines|
  {
    if i + 1 < |lines| then BirthTrace(rules, lines, i + 1, RecordEnd(lines, i) + 1) else []
  }

  // ---------------------------------------------------------------------
  // Last match wins
  // ---------------------------------------------------------------------

  /**
   * The result of the last line among `idx` on which extractor `f`
   * succeeds, if any. (An index past the last line matches nothing; the
   * stretches built here never hold one, see `ImporterProofs.RecordLinesWithin`.)
   */
  function LastMatch<T>(lines: seq<string>, idx: seq<nat>, f: string -> Option<T>): Option<T>
    decreases |idx|
  {
    if |idx| == 0 then None
    else Overlay(if idx[0] < |lines| then f(lines[idx[0]]) else None, LastMatch(lines, idx[1..], f))
  }

  /**
   * The Person `person` becomes when the name and sex extractors run on the
   * lines `block` and the date and place extractors on the lines `births`.
   */
  function Refine(rules: Rules, person: Person, lines: seq<string>, block: seq<nat>, births: seq<nat>): Person {
    var name := LastMatch(lines, block, rules.name);
    person.(
      firstName := if name.Some? then Some(name.value.0) else person.firstName,
      lastName := if name.Some? then Some(name.value.1) else person.lastName,
      sex := Overlay(person.sex, LastMatch(lines, block, rules.sex)),
      birthday := Overlay(person.birthday, LastMatch(lines, births, rules.date)),
      birthplace := Overlay(person.birthplace, LastMatch(lines, births, rules.place)))
  }

  /** The Person the header on line `i` yields when its record is read in full. */
  function RecordPerson(rules: Rules, lines: seq<string>, i: nat, id: string): Person
    requires i < |lines|
  {
    Refine(rules, NewPerson(id), lines, RecordBlock(lines, i), RecordBirths(rules, lines, i))
  }

  /** A lookahead of the record on line `i` reads line `|lines|`. */
  predicate RecordOverruns(rules: Rules, lines: seq<string>, i: nat)
    requires i < |lines|
  {
    i + 1 == |lines| || (RecordEnd(lines, i) + 1 == |lines| && rules.birth(lines[RecordEnd(lines, i)]))
  }

  /** The header lines from `from` on, in order. */
  function HeaderIndices(rules: Rules, lines: seq<string>, from: nat): (r: seq<nat>)
    requires from <= |lines|
    ensures forall m :: 0 <= m < |r| ==> from <= r[m] < |lines| && rules.header(lines[r[m]]).Some?
    ensures forall m, m' :: 0 <= m < m' < |r| ==> r[m] < r[m']
    ensures forall j :: from <= j < |lines| && rules.header(lines[j]).Some? ==> j in r
    decreases |lines| - from
  {
    if from == |lines| then []
    else if rules.header(lines[from]).Some? then [from] + HeaderIndices(rules, lines, from + 1)
    else HeaderIndices(rules, lines, from + 1)
  }

  /** Some header on line `from` or later has a record that reads past the last line. */
  predicate OverrunsFrom(rules: Rules, lines: seq<string>, from: nat) {
    exists i :: from <= i < |lines| && rules.header(lines[i]).Some? && RecordOverruns(rules, lines, i)
  }

  /** `ps` holds, in order, the reference Person of each header line in `hs`. */
  predicate PersonsOf(rules: Rules, lines: seq<string>, hs: seq<nat>, ps: seq<Person>) {
    && |ps| == |hs|
    && forall m :: 0 <= m < |hs| ==>
         && hs[m] < |lines| && rules.header(lines[hs[m]]).Some?
         && ps[m] == RecordPerson(rules, lines, hs[m], rules.header(lines[hs[m]]).value)
  }
}
