/** The per-model report of an evaluation file: the number of questions and of
    correct ones, the same per question type, and how often each evaluator gave
    a true, false or missing verdict. */
module ResultReport {
  import opened Wrappers
  import opened Text
  import opened Dicts
  import opened Verdicts
  import InstanceAcc

  // ---------------------------------------------------------------------------
  // Records

  /** One evaluator's entry inside an evaluation item: its name and its verdict,
      undecided when `is_correct` is missing, null or not a boolean. */
  datatype Judged = Judged(evaluator: string, verdict: Verdict)

  /** An evaluation record: its id, its `type` field, its score (`None` when
      missing) and the verdicts of each of its evaluation items. */
  datatype Evaluation = Evaluation(
    id: Option<string>, kind: Option<string>, score: Option<real>, items: seq<seq<Judged>>)

  const UnknownType: string := "Unknown"

  /** `eval_data.get("id", "Unknown")`. */
  function IdOf(e: Evaluation): string {
    e.id.GetOr(UnknownType)
  }

  /** The text of an id before its first `_`, or `Unknown` when it has none. */
  function IdPrefix(id: string): (t: string)
    ensures '_' in id ==> forall j | 0 <= j < |t| :: t[j] != '_'
  {
    if '_' !in id then UnknownType else Split(id, '_')[0]
  }

  /** An id that starts with a prefix free of `_` followed by `_` has that
      prefix as its type. */
  lemma IdPrefixOf(prefix: string, rest: string)
    requires forall j | 0 <= j < |prefix| :: prefix[j] != '_'
    ensures IdPrefix(prefix + "_" + rest) == prefix
  {
    var id := prefix + "_" + rest;
    assert id[|prefix|] == '_';
    SplitCons(prefix, rest, '_');
  }

  /** `extract_question_type`: the mapped type, else the record's `type` field,
      else the id's prefix. */
  function ExtractQuestionType(mapping: Dict<string, string>, e: Evaluation): (t: string)
    ensures HasKey(mapping, IdOf(e)) ==> Some(t) == Get(mapping, IdOf(e))
    ensures !HasKey(mapping, IdOf(e)) && e.kind.Some? ==> t == e.kind.value
  {
    match Get(mapping, IdOf(e))
    case Some(t) => t
    case None => if e.kind.Some? then e.kind.value else IdPrefix(IdOf(e))
  }

  /** The type `analyze_evaluations` counts a record under: the mapped type,
      else the id's prefix; the record's own `type` field is not consulted. */
  function TypeOf(mapping: Dict<string, string>, e: Evaluation): (t: string)
    ensures HasKey(mapping, IdOf(e)) ==> Some(t) == Get(mapping, IdOf(e))
    ensures !HasKey(mapping, IdOf(e)) ==> t == IdPrefix(IdOf(e))
  {
    Get(mapping, IdOf(e)).GetOr(IdPrefix(IdOf(e)))
  }

  /** The two ways to read a record's type agree except where the record has a
      `type` field and no mapping: there the report ignores the field. */
  lemma TypeIgnoresField(mapping: Dict<string, string>, e: Evaluation)
    ensures TypeOf(mapping, e) == ExtractQuestionType(mapping, e.(kind := None))
    ensures e.kind.None? || HasKey(mapping, IdOf(e)) ==> TypeOf(mapping, e) == ExtractQuestionType(mapping, e)
  {
  }

  /** `eval_data.get("score", 0) > 0`: partial credit counts as correct. */
  predicate Positive(e: Evaluation) {
    e.score.GetOr(0.0) > 0.0
  }

  // ---------------------------------------------------------------------------
  // Counts per question type

  datatype TypeCount = TypeCount(total: nat, correct: nat)

  predicate SoundCount(c: TypeCount) {
    1 <= c.total && c.correct <= c.total
  }

  predicate AllSoundCounts(d: Dict<string, TypeCount>) {
    forall i | 0 <= i < |d| :: SoundCount(d[i].1)
  }

  /** One record counted under its type. */
  function Counted(c: TypeCount, e: Evaluation): (u: TypeCount)
    ensures u.total == c.total + 1
    ensures u.correct == c.correct + (if Positive(e) then 1 else 0)
    ensures c.correct <= c.total ==> SoundCount(u)
  {
    TypeCount(c.total + 1, c.correct + (if Positive(e) then 1 else 0))
  }

  function AddType(d: Dict<string, TypeCount>, t: string, e: Evaluation): (r: Dict<string, TypeCount>)
    requires IsDict(d)
    ensures IsDict(r)
  {
    Set(d, t, Counted(Get(d, t).GetOr(TypeCount(0, 0)), e))
  }

  /** `question_types`, in first-seen order. */
  function TypeCounts(mapping: Dict<string, string>, evals: seq<Evaluation>): (d: Dict<string, TypeCount>)
    ensures IsDict(d)
    decreases |evals|
  {
    if evals == [] then []
    else
      var e := evals[|evals| - 1];
      AddType(TypeCounts(mapping, evals[..|evals| - 1]), TypeOf(mapping, e), e)
  }

  /** How many records count under type `t`, and how many of those are
      correct. */
  function OfType(mapping: Dict<string, string>, evals: seq<Evaluation>, t: string): (c: TypeCount)
    ensures c.correct <= c.total
    decreases |evals|
  {
    if evals == [] then TypeCount(0, 0)
    else
      var e := evals[|evals| - 1];
      var c := OfType(mapping, evals[..|evals| - 1], t);
      if TypeOf(mapping, e) == t then Counted(c, e) else c
  }

  lemma AddTypeGet(d: Dict<string, TypeCount>, t: string, e: Evaluation, u: string)
    requires IsDict(d)
    ensures Get(AddType(d, t, e), u) ==
      if u == t then Some(Counted(Get(d, t).GetOr(TypeCount(0, 0)), e)) else Get(d, u)
  {
  }

  /** Each type's counts are those of a filter over the records of that type;
      a type no record has is absent. */
  lemma {:induction false} TypeCountsGet(mapping: Dict<string, string>, evals: seq<Evaluation>, t: string)
    ensures Get(TypeCounts(mapping, evals), t) ==
      if OfType(mapping, evals, t).total == 0 then None else Some(OfType(mapping, evals, t))
    decreases |evals|
  {
    if evals != [] {
      var n := |evals| - 1;
      var e := evals[n];
      var d := TypeCounts(mapping, evals[..n]);
      assert TypeCounts(mapping, evals) == AddType(d, TypeOf(mapping, e), e);
      TypeCountsGet(mapping, evals[..n], t);
      AddTypeGet(d, TypeOf(mapping, e), e, t);
      var c := OfType(mapping, evals[..n], t);
      if TypeOf(mapping, e) == t && c.total == 0 {
        assert c == TypeCount(0, 0);
      }
    }
  }

  /** Every type present has at least one record and no more correct records
      than records. */
  lemma TypeCountsSound(mapping: Dict<string, string>, evals: seq<Evaluation>)
    ensures AllSoundCounts(TypeCounts(mapping, evals))
  {
    var d := TypeCounts(mapping, evals);
    forall i | 0 <= i < |d| ensures SoundCount(d[i].1) {
      GetAt(d, i);
      TypeCountsGet(mapping, evals, d[i].0);
    }
  }

  function TotalOf(d: Dict<string, TypeCount>): nat {
    SumOf(d, TotalField)
  }

  function CorrectOf(d: Dict<string, TypeCount>): nat {
    SumOf(d, CorrectField)
  }

  function TotalField(c: TypeCount): nat {
    c.total
  }

  function CorrectField(c: TypeCount): nat {
    c.correct
  }

  /** How many records are correct. */
  function CountPositive(evals: seq<Evaluation>): (n: nat)
    ensures n <= |evals|
    decreases |evals|
  {
    if evals == [] then 0
    else CountPositive(evals[..|evals| - 1]) + (if Positive(evals[|evals| - 1]) then 1 else 0)
  }

  lemma AddTypeSums(d: Dict<string, TypeCount>, t: string, e: Evaluation)
    requires IsDict(d)
    ensures TotalOf(AddType(d, t, e)) == TotalOf(d) + 1
    ensures CorrectOf(AddType(d, t, e)) == CorrectOf(d) + (if Positive(e) then 1 else 0)
  {
    var x := (t, Counted(Get(d, t).GetOr(TypeCount(0, 0)), e));
    if HasKey(d, t) {
      SetExisting(d, t, x.1);
      SumOfUpdate(d, TotalField, IndexOf(d, t), x);
      SumOfUpdate(d, CorrectField, IndexOf(d, t), x);
    } else {
      SumOfAppend(d, TotalField, x);
      SumOfAppend(d, CorrectField, x);
    }
  }

  /** Every record is counted under exactly one type: the per-type totals add
      up to the number of records, and the per-type correct counts to the
      number of correct records. */
  lemma {:induction false} TypeCountsSums(mapping: Dict<string, string>, evals: seq<Evaluation>)
    ensures TotalOf(TypeCounts(mapping, evals)) == |evals|
    ensures CorrectOf(TypeCounts(mapping, evals)) == CountPositive(evals)
    decreases |evals|
  {
    if evals != [] {
      var n := |evals| - 1;
      var e := evals[n];
      var d := TypeCounts(mapping, evals[..n]);
      assert TypeCounts(mapping, evals) == AddType(d, TypeOf(mapping, e), e);
      TypeCountsSums(mapping, evals[..n]);
      AddTypeSums(d, TypeOf(mapping, e), e);
    }
  }

  // ---------------------------------------------------------------------------
  // Evaluator statistics

  /** The evaluators the report counts, in its order; verdicts of any other
      evaluator are ignored. */
  const Tracked: seq<string> := ["quantity", "expression", "llm", "mcq"]

  const InitialStats: Dict<string, Tally> :=
    [("quantity", EmptyTally), ("expression", EmptyTally), ("llm", EmptyTally), ("mcq", EmptyTally)]

  /** The verdicts of all records, in file order. */
  function AllJudged(evals: seq<Evaluation>): seq<Judged>
    decreases |evals|
  {
    if evals == [] then [] else AllJudged(evals[..|evals| - 1]) + FlatItems(evals[|evals| - 1].items)
  }

  function FlatItems(items: seq<seq<Judged>>): seq<Judged>
    decreases |items|
  {
    if items == [] then [] else FlatItems(items[..|items| - 1]) + items[|items| - 1]
  }

  /** One verdict added to the statistics, when its evaluator is tracked. */
  function AddVerdict(d: Dict<string, Tally>, v: Judged): (r: Dict<string, Tally>)
    requires IsDict(d)
    ensures IsDict(r) && Keys(r) == Keys(d)
  {
    match Get(d, v.evaluator)
    case None => d
    case Some(c) => Set(d, v.evaluator, c.Add(v.verdict))
  }

  /** `evaluator_stats`. */
  function EvaluatorStats(vs: seq<Judged>): (d: Dict<string, Tally>)
    ensures IsDict(d) && Keys(d) == Tracked
    decreases |vs|
  {
    if vs == [] then InitialStats else AddVerdict(EvaluatorStats(vs[..|vs| - 1]), vs[|vs| - 1])
  }

  /** How many verdicts of `evaluator` are `v`. */
  function CountOf(vs: seq<Judged>, evaluator: string, v: Verdict): nat
    decreases |vs|
  {
    if vs == [] then 0
    else
      var last := vs[|vs| - 1];
      CountOf(vs[..|vs| - 1], evaluator, v)
        + (if last.evaluator == evaluator && last.verdict == v then 1 else 0)
  }

  /** The counts a tracked evaluator should have. */
  function Expected(vs: seq<Judged>, evaluator: string): Tally {
    Tally(CountOf(vs, evaluator, Correct), CountOf(vs, evaluator, Incorrect), CountOf(vs, evaluator, Undecided))
  }

  lemma AddVerdictGet(d: Dict<string, Tally>, v: Judged, name: string)
    requires IsDict(d) && HasKey(d, name)
    ensures Get(AddVerdict(d, v), name) ==
      if v.evaluator == name then Some(Get(d, name).value.Add(v.verdict)) else Get(d, name)
  {
  }

  lemma ExpectedStep(vs: seq<Judged>, name: string)
    requires vs != []
    ensures var v := vs[|vs| - 1];
      Expected(vs, name) ==
        if v.evaluator == name then Expected(vs[..|vs| - 1], name).Add(v.verdict)
        else Expected(vs[..|vs| - 1], name)
  {
  }

  lemma InitialGet(name: string)
    requires name in Tracked
    ensures Get(InitialStats, name) == Some(EmptyTally)
  {
    assert Keys(InitialStats) == Tracked;
    assert forall i | 0 <= i < |InitialStats| :: InitialStats[i].1 == EmptyTally;
  }

  /** Each tracked evaluator's true, false and null counts are the numbers of
      its verdicts of each kind, whatever the other evaluators said. */
  lemma {:induction false} EvaluatorStatsCounts(vs: seq<Judged>, name: string)
    requires name in Tracked
    ensures Get(EvaluatorStats(vs), name) == Some(Expected(vs, name))
    decreases |vs|
  {
    if vs == [] {
      InitialGet(name);
    } else {
      var n := |vs| - 1;
      var d := EvaluatorStats(vs[..n]);
      assert EvaluatorStats(vs) == AddVerdict(d, vs[n]);
      EvaluatorStatsCounts(vs[..n], name);
      AddVerdictGet(d, vs[n], name);
      ExpectedStep(vs, name);
    }
  }

  // ---------------------------------------------------------------------------
  // The report

  datatype TypeRow = TypeRow(total: nat, correct: nat, accuracy: real)

  datatype Report = Report(
    total: nat, correct: nat, overall: real,
    types: Dict<string, TypeRow>, evaluators: Dict<string, Tally>)

  /** A type's row: its counts and `correct / total`. */
  function Row(c: TypeCount): (row: TypeRow)
    ensures SoundCount(c) ==> 0.0 <= row.accuracy <= 1.0 && (row.accuracy == 1.0 <==> c.correct == c.total)
  {
    TypeRow(c.total, c.correct, InstanceAcc.Ratio(c.correct, c.total))
  }

  /** `question_types` with each type's accuracy, in the same order. */
  function Rows(d: Dict<string, TypeCount>): (rows: Dict<string, TypeRow>)
    requires AllSoundCounts(d)
    ensures Keys(rows) == Keys(d)
    ensures forall i | 0 <= i < |rows| ::
      rows[i].1.correct <= rows[i].1.total && 0.0 <= rows[i].1.accuracy <= 1.0
  {
    seq(|d|, i requires 0 <= i < |d| => (d[i].0, Row(d[i].1)))
  }

  /** `analyze_evaluations`. */
  function Analyze(mapping: Dict<string, string>, evals: seq<Evaluation>): (r: Report)
    ensures r.total == |evals| && r.correct == CountPositive(evals)
    ensures 0.0 <= r.overall <= 1.0
    ensures evals == [] ==> r.overall == 0.0
    ensures evals != [] ==> (r.overall == 1.0 <==> r.correct == r.total)
    ensures Keys(r.evaluators) == Tracked
    ensures Keys(r.types) == Keys(TypeCounts(mapping, evals))
    ensures forall i | 0 <= i < |r.types| ::
      r.types[i].1.correct <= r.types[i].1.total && 0.0 <= r.types[i].1.accuracy <= 1.0
  {
    var d := TypeCounts(mapping, evals);
    TypeCountsSound(mapping, evals);
    var rows := Rows(d);
    Report(|evals|, CountPositive(evals), InstanceAcc.Ratio(CountPositive(evals), |evals|),
      rows, EvaluatorStats(AllJudged(evals)))
  }

  /** The report's figures against the records: the per-type rows add up to
      the totals, each type's row counts the records of that type, and each
      evaluator's counts are the numbers of its verdicts of each kind. */
  lemma AnalyzeCounts(mapping: Dict<string, string>, evals: seq<Evaluation>, t: string, name: string)
    requires name in Tracked
    ensures var r := Analyze(mapping, evals);
      (HasKey(r.types, t) <==> OfType(mapping, evals, t).total > 0)
      && Get(r.evaluators, name) == Some(Expected(AllJudged(evals), name))
      && TotalOf(TypeCounts(mapping, evals)) == r.total
      && CorrectOf(TypeCounts(mapping, evals)) == r.correct
  {
    TypeCountsGet(mapping, evals, t);
    EvaluatorStatsCounts(AllJudged(evals), name);
    TypeCountsSums(mapping, evals);
  }
}
