/** The per-instance accuracy of an MCQ evaluation: the records grouped by the
    instance number in their ids, each instance's share of exactly correct
    answers, and the summary over the instances. */
module InstanceAcc {
  import opened Wrappers
  import opened Text
  import opened Dicts
  import opened Sorting
  import GenerateDataset

  // ---------------------------------------------------------------------------
  // Ids

  predicate LettersIn(s: string, i: nat, j: nat)
    requires i <= j <= |s|
  {
    forall k | i <= k < j :: IsAsciiLetter(s[k])
  }

  predicate DigitsIn(s: string, i: nat, j: nat)
    requires i <= j <= |s|
  {
    forall k | i <= k < j :: IsDigit(s[k])
  }

  /** The end of the run of letters starting at `i`. */
  function LetterRun(s: string, i: nat): (j: nat)
    requires i <= |s|
    ensures i <= j <= |s| && LettersIn(s, i, j)
    ensures j < |s| ==> !IsAsciiLetter(s[j])
    decreases |s| - i
  {
    if i < |s| && IsAsciiLetter(s[i]) then LetterRun(s, i + 1) else i
  }

  /** The end of the run of digits starting at `i`. */
  function DigitRun(s: string, i: nat): (j: nat)
    requires i <= |s|
    ensures i <= j <= |s| && DigitsIn(s, i, j)
    ensures j < |s| ==> !IsDigit(s[j])
    decreases |s| - i
  {
    if i < |s| && IsDigit(s[i]) then DigitRun(s, i + 1) else i
  }

  /** The text of `id` from its start matches `[A-Za-z]+_(\d+)_(\d+)`, with the
      letters ending at `a`, the first number at `b` and the second at `c`; the
      greedy second number stops before any further digit. */
  predicate Shaped(id: string, a: nat, b: nat, c: nat) {
    0 < a && a + 1 < b && b + 1 < c <= |id|
    && id[a] == '_' && id[b] == '_'
    && LettersIn(id, 0, a) && DigitsIn(id, a + 1, b) && DigitsIn(id, b + 1, c)
    && (c == |id| || !IsDigit(id[c]))
  }

  /** Where the pattern's three fields end, if it matches. */
  function Fields(id: string): (f: Option<(nat, nat, nat)>)
    ensures f.Some? ==> Shaped(id, f.value.0, f.value.1, f.value.2)
  {
    var a := LetterRun(id, 0);
    if a == 0 || a >= |id| || id[a] != '_' then None
    else
      var b := DigitRun(id, a + 1);
      if b == a + 1 || b >= |id| || id[b] != '_' then None
      else
        var c := DigitRun(id, b + 1);
        if c == b + 1 then None else Some((a, b, c))
  }

  lemma {:induction false} LetterRunStops(s: string, i: nat, j: nat)
    requires i <= j <= |s| && LettersIn(s, i, j)
    requires j == |s| || !IsAsciiLetter(s[j])
    ensures LetterRun(s, i) == j
    decreases j - i
  {
    if i < j {
      LetterRunStops(s, i + 1, j);
    }
  }

  lemma {:induction false} DigitRunStops(s: string, i: nat, j: nat)
    requires i <= j <= |s| && DigitsIn(s, i, j)
    requires j == |s| || !IsDigit(s[j])
    ensures DigitRun(s, i) == j
    decreases j - i
  {
    if i < j {
      DigitRunStops(s, i + 1, j);
    }
  }

  /** The pattern matches wherever the shape is there, with the same fields:
      together with the contract of `Fields`, an id parses exactly when it has
      the shape. */
  lemma ShapedFields(id: string, a: nat, b: nat, c: nat)
    requires Shaped(id, a, b, c)
    ensures Fields(id) == Some((a, b, c))
  {
    LetterRunStops(id, 0, a);
    DigitRunStops(id, a + 1, b);
    DigitRunStops(id, b + 1, c);
  }

  /** `parse_id`: the template and instance numbers of an id that starts with
      letters, `_`, digits, `_`, digits; anything may follow. `None` stands for
      `(None, None)`. */
  function ParseId(id: string): (r: Option<(nat, nat)>)
    ensures r.Some? <==> Fields(id).Some?
  {
    match Fields(id)
    case None => None
    case Some(f) =>
      assert AllDigits(id[f.0 + 1..f.1]) && AllDigits(id[f.1 + 1..f.2]);
      Some((DigitsValue(id[f.0 + 1..f.1]), DigitsValue(id[f.1 + 1..f.2])))
  }

  /** An id written as letters, `_`, a number, `_`, a number, followed by
      anything that does not start with a digit, reads back as its two
      numbers. */
  lemma ParseIdWritten(letters: string, t: string, i: string, rest: string)
    requires letters != [] && forall k | 0 <= k < |letters| :: IsAsciiLetter(letters[k])
    requires t != [] && AllDigits(t) && i != [] && AllDigits(i)
    requires rest == [] || !IsDigit(rest[0])
    ensures ParseId(letters + "_" + t + "_" + i + rest) == Some((DigitsValue(t), DigitsValue(i)))
  {
    var id := letters + "_" + t + "_" + i + rest;
    var a := |letters|;
    var b := a + 1 + |t|;
    var c := b + 1 + |i|;
    assert id[..a] == letters;
    assert id[a + 1..b] == t;
    assert id[b + 1..c] == i;
    assert id[c..] == rest;
    assert LettersIn(id, 0, a) by {
      forall k | 0 <= k < a ensures IsAsciiLetter(id[k]) {
        assert id[k] == id[..a][k];
      }
    }
    assert DigitsIn(id, a + 1, b) by {
      forall k | a + 1 <= k < b ensures IsDigit(id[k]) {
        assert id[k] == id[a + 1..b][k - a - 1];
      }
    }
    assert DigitsIn(id, b + 1, c) by {
      forall k | b + 1 <= k < c ensures IsDigit(id[k]) {
        assert id[k] == id[b + 1..c][k - b - 1];
      }
    }
    assert c < |id| ==> id[c] == id[c..][0];
    assert Shaped(id, a, b, c);
    ShapedFields(id, a, b, c);
  }

  /** A generated record id `MCQ_{n}_{idx}` parses to its question number and
      instance. */
  lemma ParseRecordId(n: nat, idx: nat)
    ensures ParseId(GenerateDataset.RecordId(n, idx)) == Some((n, idx))
  {
    var id := GenerateDataset.RecordId(n, idx);
    assert id == "MCQ" + "_" + NatToString(n) + "_" + NatToString(idx) + "";
    ParseIdWritten("MCQ", NatToString(n), NatToString(idx), "");
  }

  // ---------------------------------------------------------------------------
  // Grouping by instance

  /** An evaluation record: its id and its score, `None` when the score is
      missing or not a number. */
  datatype Evaluated = Evaluated(id: string, score: Option<real>)

  /** `data.get('score', 0) == 1.0`: partial credit does not count. */
  predicate Correct(e: Evaluated) {
    e.score == Some(1.0)
  }

  /** The counts of one instance. */
  datatype Tally = Tally(correct: nat, total: nat, questions: seq<string>)

  /** A tally made from at least one record. */
  predicate Sound(t: Tally) {
    1 <= t.total && t.correct <= t.total && |t.questions| == t.total
  }

  function Instance(e: Evaluated): Option<nat> {
    match ParseId(e.id)
    case Some(p) => Some(p.1)
    case None => None
  }

  /** One record added to the tallies: counted in its instance's tally, which
      is created empty when the instance is new; skipped when its id does not
      parse. */
  function Add(d: Dict<nat, Tally>, e: Evaluated): (r: Dict<nat, Tally>)
    requires IsDict(d)
    ensures IsDict(r)
  {
    match Instance(e)
    case None => d
    case Some(inst) => Set(d, inst, Counted(Get(d, inst).GetOr(Tally(0, 0, [])), e))
  }

  /** A tally with one more record. */
  function Counted(t: Tally, e: Evaluated): (u: Tally)
    ensures u.total == t.total + 1 && u.questions == t.questions + [e.id]
    ensures u.correct == t.correct + (if Correct(e) then 1 else 0)
    ensures t.correct <= t.total && |t.questions| == t.total ==> Sound(u)
  {
    Tally(t.correct + (if Correct(e) then 1 else 0), t.total + 1, t.questions + [e.id])
  }

  lemma AddKeys(d: Dict<nat, Tally>, e: Evaluated, inst: nat)
    requires IsDict(d)
    ensures HasKey(Add(d, e), inst) <==> HasKey(d, inst) || Instance(e) == Some(inst)
  {
    if Instance(e).Some? && Instance(e) != Some(inst) {
      var r := Add(d, e);
      assert Get(r, inst) == Get(d, inst);
    }
  }

  lemma AddSound(d: Dict<nat, Tally>, e: Evaluated)
    requires IsDict(d) && AllSound(d)
    ensures AllSound(Add(d, e))
  {
    if Instance(e).Some? {
      var inst := Instance(e).value;
      var r := Add(d, e);
      var t := Get(d, inst).GetOr(Tally(0, 0, []));
      assert HasKey(d, inst) ==> Sound(t) by {
        if HasKey(d, inst) {
          assert d[IndexOf(d, inst)].1 == t;
        }
      }
      forall k | 0 <= k < |r| ensures Sound(r[k].1) {
        if k < |d| && d[k].0 != inst {
          assert r[k] == d[k];
        } else {
          assert r[k] == (inst, Counted(t, e));
        }
      }
    }
  }

  /** `instance_results`: one tally per instance, in first-seen order; records
      whose ids do not parse are skipped. */
  function Accumulate(records: seq<Evaluated>): (d: Dict<nat, Tally>)
    ensures IsDict(d)
    ensures AllSound(d)
    decreases |records|
  {
    if records == [] then []
    else
      var d := Accumulate(records[..|records| - 1]);
      AddSound(d, records[|records| - 1]);
      Add(d, records[|records| - 1])
  }

  /** Some record has an id that parses to instance `inst`. */
  predicate Occurs(records: seq<Evaluated>, inst: nat) {
    exists k | 0 <= k < |records| :: Instance(records[k]) == Some(inst)
  }

  lemma OccursStep(records: seq<Evaluated>, inst: nat)
    requires records != []
    ensures Occurs(records, inst) <==>
      Occurs(records[..|records| - 1], inst) || Instance(records[|records| - 1]) == Some(inst)
  {
    var n := |records| - 1;
    var init := records[..n];
    if Occurs(records, inst) {
      var k :| 0 <= k < |records| && Instance(records[k]) == Some(inst);
      if k < n {
        assert init[k] == records[k];
      }
    }
    if Occurs(init, inst) {
      var k :| 0 <= k < n && Instance(init[k]) == Some(inst);
      assert init[k] == records[k];
    }
  }

  /** The instances present are exactly the instances of the records whose ids
      parse. */
  lemma {:induction false} AccumulateKeys(records: seq<Evaluated>, inst: nat)
    ensures HasKey(Accumulate(records), inst) <==> Occurs(records, inst)
    decreases |records|
  {
    if records != [] {
      var n := |records| - 1;
      var d := Accumulate(records[..n]);
      assert Accumulate(records) == Add(d, records[n]);
      AccumulateKeys(records[..n], inst);
      AddKeys(d, records[n], inst);
      OccursStep(records, inst);
    }
  }

  /** `[e.id for e in records if instance of e is inst]`. */
  function IdsIn(records: seq<Evaluated>, inst: nat): seq<string>
    decreases |records|
  {
    if records == [] then []
    else
      var e := records[|records| - 1];
      IdsIn(records[..|records| - 1], inst) + (if Instance(e) == Some(inst) then [e.id] else [])
  }

  /** How many records of instance `inst` are correct. */
  function CorrectIn(records: seq<Evaluated>, inst: nat): nat
    decreases |records|
  {
    if records == [] then 0
    else
      var e := records[|records| - 1];
      CorrectIn(records[..|records| - 1], inst) + (if Instance(e) == Some(inst) && Correct(e) then 1 else 0)
  }

  lemma {:induction false} CorrectInBound(records: seq<Evaluated>, inst: nat)
    ensures CorrectIn(records, inst) <= |IdsIn(records, inst)|
    decreases |records|
  {
    if records != [] {
      CorrectInBound(records[..|records| - 1], inst);
    }
  }

  lemma AddGet(d: Dict<nat, Tally>, e: Evaluated, inst: nat)
    requires IsDict(d)
    ensures Get(Add(d, e), inst) ==
      if Instance(e) == Some(inst) then Some(Counted(Get(d, inst).GetOr(Tally(0, 0, [])), e))
      else Get(d, inst)
  {
  }

  /** The tally instance `inst` should have: the ids of its records in file
      order, their number and the number of correct ones; none when no record
      names it. */
  function Expected(records: seq<Evaluated>, inst: nat): Option<Tally> {
    var ids := IdsIn(records, inst);
    if ids == [] then None else Some(Tally(CorrectIn(records, inst), |ids|, ids))
  }

  lemma ExpectedStep(records: seq<Evaluated>, inst: nat)
    requires records != []
    ensures var e := records[|records| - 1];
      Expected(records, inst) ==
        if Instance(e) == Some(inst) then Some(Counted(Expected(records[..|records| - 1], inst).GetOr(Tally(0, 0, [])), e))
        else Expected(records[..|records| - 1], inst)
  {
    var n := |records| - 1;
    var e := records[n];
    var ids := IdsIn(records[..n], inst);
    var correct := CorrectIn(records[..n], inst);
    if Instance(e) == Some(inst) {
      assert IdsIn(records, inst) == ids + [e.id];
      assert CorrectIn(records, inst) == correct + (if Correct(e) then 1 else 0);
      if ids == [] {
        CorrectInBound(records[..n], inst);
      }
    } else {
      assert IdsIn(records, inst) == ids;
      assert CorrectIn(records, inst) == correct;
    }
  }

  /** Each instance's tally is the one a filter over the records of that
      instance gives. */
  lemma {:induction false} AccumulateTally(records: seq<Evaluated>, inst: nat)
    ensures Get(Accumulate(records), inst) == Expected(records, inst)
    decreases |records|
  {
    if records != [] {
      var n := |records| - 1;
      var d := Accumulate(records[..n]);
      assert Accumulate(records) == Add(d, records[n]);
      AccumulateTally(records[..n], inst);
      AddGet(d, records[n], inst);
      ExpectedStep(records, inst);
    }
  }

  function TotalOf(d: Dict<nat, Tally>): nat {
    SumOf(d, TotalField)
  }

  function CorrectOf(d: Dict<nat, Tally>): nat {
    SumOf(d, CorrectField)
  }

  function TotalField(c: Tally): nat {
    c.total
  }

  function CorrectField(c: Tally): nat {
    c.correct
  }

  /** How many records have an id that parses, and how many of those are
      correct. */
  function Parsed(records: seq<Evaluated>): (n: nat)
    decreases |records|
  {
    if records == [] then 0
    else Parsed(records[..|records| - 1]) + (if Instance(records[|records| - 1]).Some? then 1 else 0)
  }

  function ParsedCorrect(records: seq<Evaluated>): (n: nat)
    decreases |records|
  {
    if records == [] then 0
    else
      var e := records[|records| - 1];
      ParsedCorrect(records[..|records| - 1]) + (if Instance(e).Some? && Correct(e) then 1 else 0)
  }

  /** Every record whose id parses is counted once, in its instance, and the
      correct ones once more as correct. */
  lemma {:induction false} AccumulateSums(records: seq<Evaluated>)
    ensures TotalOf(Accumulate(records)) == Parsed(records)
    ensures CorrectOf(Accumulate(records)) == ParsedCorrect(records)
    decreases |records|
  {
    if records != [] {
      var n := |records| - 1;
      var d := Accumulate(records[..n]);
      assert Accumulate(records) == Add(d, records[n]);
      AccumulateSums(records[..n]);
      AddSums(d, records[n]);
    }
  }

  lemma AddSums(d: Dict<nat, Tally>, e: Evaluated)
    requires IsDict(d)
    ensures TotalOf(Add(d, e)) == TotalOf(d) + (if Instance(e).Some? then 1 else 0)
    ensures CorrectOf(Add(d, e)) == CorrectOf(d) + (if Instance(e).Some? && Correct(e) then 1 else 0)
  {
    if Instance(e).Some? {
      var inst := Instance(e).value;
      var x := (inst, Counted(Get(d, inst).GetOr(Tally(0, 0, [])), e));
      if HasKey(d, inst) {
        SetExisting(d, inst, x.1);
        SumOfUpdate(d, TotalField, IndexOf(d, inst), x);
        SumOfUpdate(d, CorrectField, IndexOf(d, inst), x);
      } else {
        SumOfAppend(d, TotalField, x);
        SumOfAppend(d, CorrectField, x);
      }
    }
  }

  // ---------------------------------------------------------------------------
  // Accuracies and the summary

  /** `part / total if total > 0 else 0`. */
  function Ratio(part: nat, total: nat): (r: real)
    ensures total == 0 ==> r == 0.0
    ensures part <= total ==> 0.0 <= r <= 1.0
    ensures total > 0 ==> (r == 1.0 <==> part == total) && (r == 0.0 <==> part == 0)
  {
    if total > 0 then
      var r := part as real / total as real;
      assert r * total as real == part as real;
      r
    else 0.0
  }

  /** An instance's accuracy: `correct / total`, 0 for an empty tally. */
  function Accuracy(t: Tally): (a: real)
    ensures Sound(t) ==> 0.0 <= a <= 1.0
    ensures Sound(t) ==> (a == 1.0 <==> t.correct == t.total)
  {
    Ratio(t.correct, t.total)
  }

  /** `sum / n if n > 0 else 0` for a sum of `n` values between 0 and 1. */
  function Mean(sum: real, n: nat): (m: real)
    requires 0.0 <= sum <= n as real
    ensures 0.0 <= m <= 1.0
    ensures n == 0 ==> m == 0.0
  {
    if n > 0 then sum / n as real else 0.0
  }

  function AccuracySum(d: Dict<nat, Tally>): real
    decreases |d|
  {
    if d == [] then 0.0 else AccuracySum(d[..|d| - 1]) + Accuracy(d[|d| - 1].1)
  }

  /** Every tally of `d` is sound. */
  predicate AllSound(d: Dict<nat, Tally>) {
    forall i | 0 <= i < |d| :: Sound(d[i].1)
  }

  lemma {:induction false} AccuracySumBounds(d: Dict<nat, Tally>)
    requires AllSound(d)
    ensures 0.0 <= AccuracySum(d) <= |d| as real
    ensures CorrectOf(d) <= TotalOf(d)
    decreases |d|
  {
    if d != [] {
      AccuracySumBounds(d[..|d| - 1]);
    }
  }

  /** The summary; the standard deviation is not modelled. */
  datatype Summary = Summary(
    average: real, overall: real, totalCorrect: nat, totalQuestions: nat, numInstances: nat)

  /** `calculate_summary_statistics`: the mean of the instance accuracies and
      the overall share of correct records, each between 0 and 1 and 0 when
      there is nothing to average. */
  function Summarise(d: Dict<nat, Tally>): (s: Summary)
    requires AllSound(d)
    ensures s.numInstances == |d|
    ensures s.totalCorrect <= s.totalQuestions
    ensures 0.0 <= s.average <= 1.0 && 0.0 <= s.overall <= 1.0
    ensures d == [] ==> s.average == 0.0
    ensures s.totalQuestions == 0 ==> s.overall == 0.0
    ensures s.totalQuestions > 0 ==> (s.overall == 1.0 <==> s.totalCorrect == s.totalQuestions)
  {
    AccuracySumBounds(d);
    Summary(Mean(AccuracySum(d), |d|), Ratio(CorrectOf(d), TotalOf(d)), CorrectOf(d), TotalOf(d), |d|)
  }

  /** The summary of an evaluation file: the totals count exactly the records
      whose ids parse, and the correct ones among them. */
  lemma SummaryOfRecords(records: seq<Evaluated>)
    ensures AllSound(Accumulate(records))
    ensures var s := Summarise(Accumulate(records));
      s.totalQuestions == Parsed(records) && s.totalCorrect == ParsedCorrect(records)
  {
    AccumulateSums(records);
  }

  // ---------------------------------------------------------------------------
  // Output order

  function Ascending(e: (nat, Tally)): int {
    -(e.0 as int)
  }

  /** `sorted(instance_results.items())`: the tallies by instance, ascending,
      each once. */
  function Rows(d: Dict<nat, Tally>): (rows: seq<(nat, Tally)>)
    ensures multiset(rows) == multiset(d)
    ensures forall i, j | 0 <= i < j < |rows| :: rows[i].0 <= rows[j].0
  {
    var rows := SortDescBy(d, Ascending);
    assert forall i, j | 0 <= i < j < |rows| :: Ascending(rows[i]) >= Ascending(rows[j]);
    rows
  }
}
