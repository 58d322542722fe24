/**
 * Lemmas connecting the loop-shaped model of `analyzeList` (module
 * `Importer`) with the reference description in `ImporterSpec`. They hold
 * for every table of line rules, so in particular for `GedcomRules`.
 */
module ImporterProofs {
  import opened Results
  import opened Domain
  import opened Importer
  import opened ImporterSpec

  // ---------------------------------------------------------------------
  // Last match wins
  // ---------------------------------------------------------------------

  /**
   * `LastMatch` is the result of the last line on which the extractor
   * succeeds, and is absent exactly when it succeeds nowhere.
   */
  lemma {:induction false} LastMatchIsLast<T>(lines: seq<string>, idx: seq<nat>, f: string -> Option<T>)
    requires Within(lines, idx)
    ensures LastMatch(lines, idx, f).None? <==> forall j :: 0 <= j < |idx| ==> f(lines[idx[j]]).None?
    ensures LastMatch(lines, idx, f).Some? ==>
      exists j :: 0 <= j < |idx| && f(lines[idx[j]]) == LastMatch(lines, idx, f)
                  && forall j' :: j < j' < |idx| ==> f(lines[idx[j']]).None?
    decreases |idx|
  {
    if |idx| > 0 {
      var tail := idx[1..];
      LastMatchIsLast(lines, tail, f);
      assert forall j :: 0 < j < |idx| ==> idx[j] == tail[j - 1];
      if LastMatch(lines, tail, f).Some? {
        var j :| 0 <= j < |tail| && f(lines[tail[j]]) == LastMatch(lines, tail, f)
                 && forall j' :: j < j' < |tail| ==> f(lines[tail[j']]).None?;
        assert f(lines[idx[j + 1]]) == LastMatch(lines, idx, f);
      } else {
        assert forall j :: 0 < j < |idx| ==> f(lines[idx[j]]).None?;
      }
    }
  }

  /** The last match over two consecutive stretches of lines: the second stretch wins when it matches. */
  lemma {:induction false} LastMatchConcat<T>(lines: seq<string>, a: seq<nat>, b: seq<nat>, f: string -> Option<T>)
    ensures LastMatch(lines, a + b, f) == Overlay(LastMatch(lines, a, f), LastMatch(lines, b, f))
    decreases |a|
  {
    if |a| == 0 {
      assert a + b == b;
    } else {
      assert (a + b)[1..] == a[1..] + b;
      LastMatchConcat(lines, a[1..], b, f);
    }
  }

  /** Running the extractors over two stretches one after the other is running them over the concatenation. */
  lemma RefineCompose(rules: Rules, person: Person, lines: seq<string>, b1: seq<nat>, t1: seq<nat>,
                      b2: seq<nat>, t2: seq<nat>)
    ensures Refine(rules, Refine(rules, person, lines, b1, t1), lines, b2, t2)
            == Refine(rules, person, lines, b1 + b2, t1 + t2)
  {
    LastMatchConcat(lines, b1, b2, rules.name);
    LastMatchConcat(lines, b1, b2, rules.sex);
    LastMatchConcat(lines, t1, t2, rules.date);
    LastMatchConcat(lines, t1, t2, rules.place);
  }

  /** A stretch of one line: the extractor's own result. */
  lemma LastMatchSingle<T>(lines: seq<string>, k: nat, f: string -> Option<T>)
    requires k < |lines|
    ensures LastMatch(lines, [k], f) == f(lines[k])
  {
    assert [k][1..] == [];
  }

  // ---------------------------------------------------------------------
  // The birth do-while
  // ---------------------------------------------------------------------

  /** The date and place extractors on one line. */
  lemma BirthStepRefines(rules: Rules, lines: seq<string>, b: nat, person: Person)
    requires b < |lines|
    ensures ApplyBirthplace(rules, lines[b], ApplyBirthday(rules, lines[b], person))
            == Refine(rules, person, lines, [], [b])
  {
    LastMatchSingle(lines, b, rules.date);
    LastMatchSingle(lines, b, rules.place);
  }

  /**
   * The birth loop started at line `b` runs the date and place extractors
   * on exactly the lines `b..LookaheadEnd(lines, b, LevelTwo)`, and the
   * last successful match wins.
   */
  lemma {:induction false} BirthLoopRefines(rules: Rules, lines: seq<string>, b: nat, person: Person)
    requires b < |lines|
    ensures BirthLoop(rules, lines, b, person)
            == Refine(rules, person, lines, [], Range(b, LookaheadEnd(lines, b, LevelTwo) + 1))
    decreases |lines| - b
  {
    var e := LookaheadEnd(lines, b, LevelTwo);
    var p := ApplyBirthplace(rules, lines[b], ApplyBirthday(rules, lines[b], person));
    BirthStepRefines(rules, lines, b, person);
    if b + 1 < |lines| && LevelTwo(lines[b + 1]) {
      assert BirthLoop(rules, lines, b, person) == BirthLoop(rules, lines, b + 1, p);
      assert e == LookaheadEnd(lines, b + 1, LevelTwo);
      BirthLoopRefines(rules, lines, b + 1, p);
      RefineCompose(rules, person, lines, [], [b], [], Range(b + 1, e + 1));
      assert [b] + Range(b + 1, e + 1) == Range(b, e + 1);
      var none: seq<nat> := [];
      assert none + none == none;
    } else {
      assert BirthLoop(rules, lines, b, person) == p;
      assert Range(b, e + 1) == [b];
    }
  }

  // ---------------------------------------------------------------------
  // The record do-while
  // ---------------------------------------------------------------------

  /** Name and sex extractors on one line. */
  lemma NameSexRefines(rules: Rules, lines: seq<string>, k: nat, person: Person)
    requires k < |lines|
    ensures ApplySex(rules, lines[k], ApplyName(rules, lines[k], person)) == Refine(rules, person, lines, [k], [])
  {
    LastMatchSingle(lines, k, rules.name);
    LastMatchSingle(lines, k, rules.sex);
  }

  /** The birth extractor on one line, when it does not read past the end. */
  lemma BirthInformationRefines(rules: Rules, lines: seq<string>, k: nat, person: Person)
    requires k < |lines|
    requires !(rules.birth(lines[k]) && k + 1 == |lines|)
    ensures ExtractBirthInformation(rules, lines, k, person)
            == Success(Refine(rules, person, lines, [], BirthRange(rules, lines, k)))
  {
    if rules.birth(lines[k]) {
      BirthLoopRefines(rules, lines, k + 1, person);
    }
  }

  /** One pass of the record loop's body, when it does not read past the end. */
  lemma RecordStepRefines(rules: Rules, lines: seq<string>, k: nat, person: Person)
    requires k < |lines|
    requires !(rules.birth(lines[k]) && k + 1 == |lines|)
    ensures ExtractBirthInformation(rules, lines, k, ApplySex(rules, lines[k], ApplyName(rules, lines[k], person)))
            == Success(Refine(rules, person, lines, [k], BirthRange(rules, lines, k)))
  {
    var named := ApplySex(rules, lines[k], ApplyName(rules, lines[k], person));
    NameSexRefines(rules, lines, k, person);
    BirthInformationRefines(rules, lines, k, named);
    RefineCompose(rules, person, lines, [k], [], [], BirthRange(rules, lines, k));
    assert [k] + [] == [k];
    assert [] + BirthRange(rules, lines, k) == BirthRange(rules, lines, k);
  }

  /** A block of one line, as a range. */
  lemma OneLineBlock(rules: Rules, lines: seq<string>, k: nat, person: Person)
    requires k < |lines|
    ensures Refine(rules, person, lines, [k], BirthRange(rules, lines, k))
            == Refine(rules, person, lines, Range(k, k + 1), BirthTrace(rules, lines, k, k + 1))
  {
    assert Range(k, k + 1) == [k];
    assert BirthTrace(rules, lines, k, k + 1) == BirthRange(rules, lines, k) + [];
    assert BirthRange(rules, lines, k) + [] == BirthRange(rules, lines, k);
  }

  /** The record loop on its last line: it fails exactly when that line opens a birth sub-range past the end. */
  lemma RecordLoopLastLine(rules: Rules, lines: seq<string>, k: nat, person: Person)
    requires k < |lines|
    requires k + 1 == |lines| || !NotLevelZero(lines[k + 1])
    ensures LookaheadEnd(lines, k, NotLevelZero) == k
    ensures RecordLoop(rules, lines, k, person).Failure? <==> k + 1 == |lines| && rules.birth(lines[k])
    ensures RecordLoop(rules, lines, k, person).Success? ==>
      RecordLoop(rules, lines, k, person).value
      == Refine(rules, person, lines, Range(k, k + 1), BirthTrace(rules, lines, k, k + 1))
  {
    if !(rules.birth(lines[k]) && k + 1 == |lines|) {
      RecordStepRefines(rules, lines, k, person);
      OneLineBlock(rules, lines, k, person);
    }
  }

  /** The record loop going on to the next line. */
  lemma RecordLoopNextLine(rules: Rules, lines: seq<string>, k: nat, person: Person)
    requires k + 1 < |lines| && NotLevelZero(lines[k + 1])
    ensures LookaheadEnd(lines, k, NotLevelZero) == LookaheadEnd(lines, k + 1, NotLevelZero)
    ensures RecordLoop(rules, lines, k, person)
            == RecordLoop(rules, lines, k + 1, Refine(rules, person, lines, [k], BirthRange(rules, lines, k)))
  {
    RecordStepRefines(rules, lines, k, person);
  }

  /** Line `k` followed by the lines `k + 1..e`. */
  lemma PrependLine(rules: Rules, lines: seq<string>, k: nat, e: nat, person: Person)
    requires k < e < |lines|
    ensures Refine(rules, Refine(rules, person, lines, [k], BirthRange(rules, lines, k)),
                   lines, Range(k + 1, e + 1), BirthTrace(rules, lines, k + 1, e + 1))
            == Refine(rules, person, lines, Range(k, e + 1), BirthTrace(rules, lines, k, e + 1))
  {
    RefineCompose(rules, person, lines, [k], BirthRange(rules, lines, k), Range(k + 1, e + 1),
                  BirthTrace(rules, lines, k + 1, e + 1));
    assert [k] + Range(k + 1, e + 1) == Range(k, e + 1);
    assert BirthRange(rules, lines, k) + BirthTrace(rules, lines, k + 1, e + 1) == BirthTrace(rules, lines, k, e + 1);
  }

  /**
   * The record loop started at line `k`, whose block ends at line `e`:
   * it fails exactly when the block reaches the last line and the last
   * line opens a birth sub-range; otherwise every field is the last match
   * among the lines that feed it.
   */
  predicate LoopRefines(rules: Rules, lines: seq<string>, k: nat, e: nat, person: Person)
    requires k <= e < |lines|
  {
    && (RecordLoop(rules, lines, k, person).Failure? <==> e + 1 == |lines| && rules.birth(lines[e]))
    && (RecordLoop(rules, lines, k, person).Success? ==>
          RecordLoop(rules, lines, k, person)
          == Success(Refine(rules, person, lines, Range(k, e + 1), BirthTrace(rules, lines, k, e + 1))))
  }

  /** The record loop going on past line `k`, given what holds from line `k + 1`. */
  lemma RecordLoopContinues(rules: Rules, lines: seq<string>, k: nat, e: nat, person: Person)
    requires k + 1 <= e < |lines|
    requires LoopRefines(rules, lines, k + 1, e, Refine(rules, person, lines, [k], BirthRange(rules, lines, k)))
    requires RecordLoop(rules, lines, k, person)
             == RecordLoop(rules, lines, k + 1, Refine(rules, person, lines, [k], BirthRange(rules, lines, k)))
    ensures LoopRefines(rules, lines, k, e, person)
  {
    PrependLine(rules, lines, k, e, person);
  }

  /**
   * The record loop started at line `k` processes exactly the lines
   * `k..LookaheadEnd(lines, k, NotLevelZero)`, with the outcome
   * `LoopRefines` states.
   */
  lemma {:induction false} RecordLoopRefines(rules: Rules, lines: seq<string>, k: nat, person: Person)
    requires k < |lines|
    ensures LoopRefines(rules, lines, k, LookaheadEnd(lines, k, NotLevelZero), person)
    decreases |lines| - k
  {
    if k + 1 == |lines| || !NotLevelZero(lines[k + 1]) {
      RecordLoopLastLine(rules, lines, k, person);
    } else {
      RecordLoopRefines(rules, lines, k + 1, Refine(rules, person, lines, [k], BirthRange(rules, lines, k)));
      RecordLoopNextLine(rules, lines, k, person);
      RecordLoopContinues(rules, lines, k, LookaheadEnd(lines, k + 1, NotLevelZero), person);
    }
  }

  /** One record: fails exactly when its lookahead overruns, otherwise yields `RecordPerson`. */
  lemma ScanRecordRefines(rules: Rules, lines: seq<string>, i: nat, id: string)
    requires i < |lines|
    ensures ScanRecord(rules, lines, i, id)
            == if RecordOverruns(rules, lines, i) then Failure(IndexOutOfBounds(|lines|, |lines|))
               else Success(RecordPerson(rules, lines, i, id))
  {
    if i + 1 < |lines| {
      RecordLoopRefines(rules, lines, i + 1, NewPerson(id));
      RecordPersonUnfolds(rules, lines, i, id);
    }
  }

  /** The reference Person of a record, with its block and birth lines spelled out. */
  lemma RecordPersonUnfolds(rules: Rules, lines: seq<string>, i: nat, id: string)
    requires i + 1 < |lines|
    ensures RecordPerson(rules, lines, i, id)
            == Refine(rules, NewPerson(id), lines, Range(i + 1, LookaheadEnd(lines, i + 1, NotLevelZero) + 1),
                      BirthTrace(rules, lines, i + 1, LookaheadEnd(lines, i + 1, NotLevelZero) + 1))
  {
    assert RecordBlock(lines, i) == Range(i + 1, LookaheadEnd(lines, i + 1, NotLevelZero) + 1);
    assert RecordBirths(rules, lines, i) == BirthTrace(rules, lines, i + 1, LookaheadEnd(lines, i + 1, NotLevelZero) + 1);
  }

  // ---------------------------------------------------------------------
  // The scan over all lines
  // ---------------------------------------------------------------------

  /** Whether a header at or after line `from` overruns, one line at a time. */
  lemma OverrunsStep(rules: Rules, lines: seq<string>, from: nat)
    requires from < |lines|
    ensures OverrunsFrom(rules, lines, from)
            <==> (rules.header(lines[from]).Some? && RecordOverruns(rules, lines, from)) || OverrunsFrom(rules, lines, from + 1)
  {
    if OverrunsFrom(rules, lines, from) {
      var i :| from <= i < |lines| && rules.header(lines[i]).Some? && RecordOverruns(rules, lines, i);
      if i > from {
        assert OverrunsFrom(rules, lines, from + 1);
      }
    }
  }

  /** A header's reference Person in front of those of the later headers. */
  lemma PersonsOfCons(rules: Rules, lines: seq<string>, h: nat, id: string, hs: seq<nat>, ps: seq<Person>)
    requires h < |lines| && rules.header(lines[h]) == Some(id)
    requires PersonsOf(rules, lines, hs, ps)
    ensures PersonsOf(rules, lines, [h] + hs, [RecordPerson(rules, lines, h, id)] + ps)
  {
    var hs' := [h] + hs;
    var ps' := [RecordPerson(rules, lines, h, id)] + ps;
    forall m | 0 <= m < |hs'|
      ensures hs'[m] < |lines| && rules.header(lines[hs'[m]]).Some?
              && ps'[m] == RecordPerson(rules, lines, hs'[m], rules.header(lines[hs'[m]]).value)
    {
      if m > 0 {
        assert hs'[m] == hs[m - 1] && ps'[m] == ps[m - 1];
      }
    }
  }

  /** The scan from line `from` holds what `AnalyzeFromRefines` states. */
  predicate ScanRefines(rules: Rules, lines: seq<string>, from: nat)
    requires from <= |lines|
  {
    && (AnalyzeFrom(rules, lines, from).Failure? <==> OverrunsFrom(rules, lines, from))
    && (AnalyzeFrom(rules, lines, from).Success? ==>
          PersonsOf(rules, lines, HeaderIndices(rules, lines, from), AnalyzeFrom(rules, lines, from).value))
  }

  /** A line that is no header adds nothing. */
  lemma SkipLineRefines(rules: Rules, lines: seq<string>, from: nat)
    requires from < |lines| && rules.header(lines[from]).None?
    requires ScanRefines(rules, lines, from + 1)
    ensures ScanRefines(rules, lines, from)
  {
    OverrunsStep(rules, lines, from);
    assert AnalyzeFrom(rules, lines, from) == AnalyzeFrom(rules, lines, from + 1);
    assert HeaderIndices(rules, lines, from) == HeaderIndices(rules, lines, from + 1);
  }

  /** A header line adds its record's Person in front, or the scan fails on its overrun. */
  lemma HeaderLineRefines(rules: Rules, lines: seq<string>, from: nat, id: string)
    requires from < |lines| && rules.header(lines[from]) == Some(id)
    requires ScanRefines(rules, lines, from + 1)
    ensures ScanRefines(rules, lines, from)
  {
    OverrunsStep(rules, lines, from);
    ScanRecordRefines(rules, lines, from, id);
    if !RecordOverruns(rules, lines, from) && AnalyzeFrom(rules, lines, from + 1).Success? {
      PersonsOfCons(rules, lines, from, id, HeaderIndices(rules, lines, from + 1),
                    AnalyzeFrom(rules, lines, from + 1).value);
      assert AnalyzeFrom(rules, lines, from).value
             == [RecordPerson(rules, lines, from, id)] + AnalyzeFrom(rules, lines, from + 1).value;
      assert HeaderIndices(rules, lines, from) == [from] + HeaderIndices(rules, lines, from + 1);
    }
  }

  /** The scan from line `from`: one Person per header, in order, unless some record overruns. */
  lemma {:induction false} AnalyzeFromRefines(rules: Rules, lines: seq<string>, from: nat)
    requires from <= |lines|
    ensures AnalyzeFrom(rules, lines, from).Failure? <==> OverrunsFrom(rules, lines, from)
    ensures AnalyzeFrom(rules, lines, from).Success? ==>
      PersonsOf(rules, lines, HeaderIndices(rules, lines, from), AnalyzeFrom(rules, lines, from).value)
    decreases |lines| - from
  {
    if from < |lines| {
      AnalyzeFromRefines(rules, lines, from + 1);
      match rules.header(lines[from])
      case None => SkipLineRefines(rules, lines, from);
      case Some(id) => HeaderLineRefines(rules, lines, from, id);
    }
  }

  // ---------------------------------------------------------------------
  // Where each field of a record's Person comes from
  // ---------------------------------------------------------------------

  lemma {:induction false} RangeIndex(lo: nat, hi: nat)
    requires lo <= hi
    ensures forall j :: 0 <= j < hi - lo ==> Range(lo, hi)[j] == lo + j
    decreases hi - lo
  {
    if lo < hi {
      RangeIndex(lo + 1, hi);
      assert forall j :: 0 < j < hi - lo ==> Range(lo, hi)[j] == Range(lo + 1, hi)[j - 1];
    }
  }

  lemma RangeWithin(lines: seq<string>, lo: nat, hi: nat)
    requires lo <= hi <= |lines|
    ensures Within(lines, Range(lo, hi))
  {
    RangeIndex(lo, hi);
  }

  /** The birth sub-range a line opens lies within the lines. */
  lemma BirthRangeWithin(rules: Rules, lines: seq<string>, k: nat)
    requires k < |lines|
    ensures Within(lines, BirthRange(rules, lines, k))
  {
    if rules.birth(lines[k]) && k + 1 < |lines| {
      RangeWithin(lines, k + 1, BirthEnd(lines, k) + 1);
    }
  }

  lemma {:induction false} BirthTraceWithin(rules: Rules, lines: seq<string>, lo: nat, hi: nat)
    requires lo <= hi <= |lines|
    ensures Within(lines, BirthTrace(rules, lines, lo, hi))
    decreases hi - lo
  {
    if lo < hi {
      BirthTraceWithin(rules, lines, lo + 1, hi);
      BirthRangeWithin(rules, lines, lo);
      WithinConcat(lines, BirthRange(rules, lines, lo), BirthTrace(rules, lines, lo + 1, hi));
    }
  }

  /** Line `j` lies in the birth sub-range that line `k` opens. */
  predicate InBirthRange(rules: Rules, lines: seq<string>, k: nat, j: nat) {
    k + 1 < |lines| && rules.birth(lines[k]) && k < j <= BirthEnd(lines, k)
  }

  /** Line `j` lies in the birth sub-range of some line among `lo..hi-1`. */
  ghost predicate BirthOpened(rules: Rules, lines: seq<string>, lo: nat, hi: nat, j: nat) {
    exists k :: lo <= k < hi && InBirthRange(rules, lines, k, j)
  }

  /** Every line the birth extractors visit lies in the sub-range of a birth line among `lo..hi-1`. */
  lemma {:induction false} BirthTraceOrigin(rules: Rules, lines: seq<string>, lo: nat, hi: nat)
    requires lo <= hi <= |lines|
    ensures forall m :: 0 <= m < |BirthTrace(rules, lines, lo, hi)| ==>
      BirthOpened(rules, lines, lo, hi, BirthTrace(rules, lines, lo, hi)[m])
    decreases hi - lo
  {
    if lo < hi {
      var a := BirthRange(rules, lines, lo);
      var b := BirthTrace(rules, lines, lo + 1, hi);
      var t := BirthTrace(rules, lines, lo, hi);
      BirthTraceOrigin(rules, lines, lo + 1, hi);
      if rules.birth(lines[lo]) && lo + 1 < |lines| {
        RangeIndex(lo + 1, BirthEnd(lines, lo) + 1);
      }
      assert t == a + b;
      forall m | 0 <= m < |t| ensures BirthOpened(rules, lines, lo, hi, t[m]) {
        if m < |a| {
          assert t[m] == a[m] == lo + 1 + m;
          assert InBirthRange(rules, lines, lo, t[m]);
        } else {
          assert t[m] == b[m - |a|];
          assert BirthOpened(rules, lines, lo + 1, hi, b[m - |a|]);
          var k :| lo + 1 <= k < hi && InBirthRange(rules, lines, k, b[m - |a|]);
          assert InBirthRange(rules, lines, k, t[m]);
        }
      }
    }
  }

  /**
   * Line `j` is fed to the date and place extractors by a `1\sBIRT` line
   * `k` of the block of the header on line `i`: it is line `k + 1`, or a
   * later line of `k`'s sub-range, which starts with `2`.
   */
  ghost predicate FedByBirthLine(rules: Rules, lines: seq<string>, i: nat, j: nat)
    requires i + 1 < |lines|
  {
    exists k :: i < k <= RecordEnd(lines, i) && InBirthRange(rules, lines, k, j)
                && (j == k + 1 || LevelTwo(lines[j]))
  }

  /** Birthday and birthplace are read only from the birth sub-ranges of the record's own lines. */
  lemma RecordBirthsOrigin(rules: Rules, lines: seq<string>, i: nat)
    requires i + 1 < |lines|
    ensures forall m :: 0 <= m < |RecordBirths(rules, lines, i)| ==>
      FedByBirthLine(rules, lines, i, RecordBirths(rules, lines, i)[m])
  {
    var t := RecordBirths(rules, lines, i);
    BirthTraceOrigin(rules, lines, i + 1, RecordEnd(lines, i) + 1);
    forall m | 0 <= m < |t| ensures FedByBirthLine(rules, lines, i, t[m]) {
      assert BirthOpened(rules, lines, i + 1, RecordEnd(lines, i) + 1, t[m]);
      var k :| i + 1 <= k < RecordEnd(lines, i) + 1 && InBirthRange(rules, lines, k, t[m]);
      assert t[m] == k + 1 || LevelTwo(lines[t[m]]);
    }
  }

  lemma WithinConcat(lines: seq<string>, a: seq<nat>, b: seq<nat>)
    requires Within(lines, a) && Within(lines, b)
    ensures Within(lines, a + b)
  {
    assert forall j :: 0 <= j < |a + b| ==> (a + b)[j] == if j < |a| then a[j] else b[j - |a|];
  }

  /** The lines that feed a record's Person all exist. */
  lemma RecordLinesWithin(rules: Rules, lines: seq<string>, i: nat)
    requires i < |lines|
    ensures Within(lines, RecordBlock(lines, i)) && Within(lines, RecordBirths(rules, lines, i))
  {
    if i + 1 < |lines| {
      RangeWithin(lines, i + 1, RecordEnd(lines, i) + 1);
      BirthTraceWithin(rules, lines, i + 1, RecordEnd(lines, i) + 1);
    }
  }

  /** No line among `idx` matches `f`. */
  predicate NoHit<T>(lines: seq<string>, idx: seq<nat>, f: string -> Option<T>)
    requires Within(lines, idx)
  {
    forall j :: 0 <= j < |idx| ==> f(lines[idx[j]]).None?
  }

  /** `v` is what `f` finds on the last line among `idx` on which it finds anything. */
  ghost predicate LastHit<T>(lines: seq<string>, idx: seq<nat>, f: string -> Option<T>, v: T)
    requires Within(lines, idx)
  {
    exists j :: 0 <= j < |idx| && f(lines[idx[j]]) == Some(v)
                && forall j' :: j < j' < |idx| ==> f(lines[idx[j']]).None?
  }

  /** The last match, stated through `NoHit` and `LastHit`. */
  lemma LastMatchHit<T>(lines: seq<string>, idx: seq<nat>, f: string -> Option<T>)
    requires Within(lines, idx)
    ensures NoHit(lines, idx, f) <==> LastMatch(lines, idx, f).None?
    ensures LastMatch(lines, idx, f).Some? ==> LastHit(lines, idx, f, LastMatch(lines, idx, f).value)
  {
    LastMatchIsLast(lines, idx, f);
  }

  /**
   * Each field of a refined Person: unchanged when no line that feeds it
   * matches, otherwise the value found on the last line that matches; the
   * two names always come from the same match, and the id never changes.
   */
  lemma RefineProvenance(rules: Rules, person: Person, lines: seq<string>, block: seq<nat>, births: seq<nat>)
    requires Within(lines, block) && Within(lines, births)
    ensures Refine(rules, person, lines, block, births).gedcomId == person.gedcomId
    ensures NoHit(lines, block, rules.name) ==>
      Refine(rules, person, lines, block, births).firstName == person.firstName
      && Refine(rules, person, lines, block, births).lastName == person.lastName
    ensures !NoHit(lines, block, rules.name) ==>
      var r := Refine(rules, person, lines, block, births);
      r.firstName.Some? && r.lastName.Some?
      && LastHit(lines, block, rules.name, (r.firstName.value, r.lastName.value))
    ensures NoHit(lines, block, rules.sex) ==> Refine(rules, person, lines, block, births).sex == person.sex
    ensures !NoHit(lines, block, rules.sex) ==>
      var r := Refine(rules, person, lines, block, births);
      r.sex.Some? && LastHit(lines, block, rules.sex, r.sex.value)
    ensures NoHit(lines, births, rules.date) ==> Refine(rules, person, lines, block, births).birthday == person.birthday
    ensures !NoHit(lines, births, rules.date) ==>
      var r := Refine(rules, person, lines, block, births);
      r.birthday.Some? && LastHit(lines, births, rules.date, r.birthday.value)
    ensures NoHit(lines, births, rules.place) ==> Refine(rules, person, lines, block, births).birthplace == person.birthplace
    ensures !NoHit(lines, births, rules.place) ==>
      var r := Refine(rules, person, lines, block, births);
      r.birthplace.Some? && LastHit(lines, births, rules.place, r.birthplace.value)
  {
    LastMatchHit(lines, block, rules.name);
    LastMatchHit(lines, block, rules.sex);
    LastMatchHit(lines, births, rules.date);
    LastMatchHit(lines, births, rules.place);
  }

  /** Whatever an extractor always guarantees of its result holds of the last match too. */
  lemma LastMatchKeeps<T>(lines: seq<string>, idx: seq<nat>, f: string -> Option<T>, good: T -> bool)
    requires Within(lines, idx)
    requires forall line :: f(line).Some? ==> good(f(line).value)
    ensures LastMatch(lines, idx, f).Some? ==> good(LastMatch(lines, idx, f).value)
  {
    LastMatchIsLast(lines, idx, f);
  }
}
