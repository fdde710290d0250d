/** The per-model row of the open-ended-question evaluator summary: how many
    sub-questions a model's `results.json` accounts for, and the share of them
    each evaluator in the chain decided. */
module EvaluatorCoverage {
  import opened Wrappers
  import opened Dicts
  import opened Verdicts
  import Evaluate

  /** The parts of a `results.json` the summary reads: its top-level numbers
      and its `evaluator_stats`, each evaluator's counts by key. A file
      without `evaluator_stats` has the empty dictionary here, as the `{}`
      default gives. */
  datatype ResultsFile = ResultsFile(numbers: Dict<string, real>, evaluatorStats: Dict<string, Dict<string, int>>)

  /** `evaluator_stats.get(evaluator, {...zeros...}).get(key, 0)`. */
  function Field(file: ResultsFile, evaluator: string, key: string): (n: int)
    ensures !HasKey(file.evaluatorStats, evaluator) ==> n == 0
  {
    match Get(file.evaluatorStats, evaluator)
    case None => 0
    case Some(counts) => Get(counts, key).GetOr(0)
  }

  /** An evaluator's three counts and its coverage. */
  datatype Coverage = Coverage(trues: int, falses: int, nulls: int, coverage: real)

  /** A summary row: the overall accuracy, the number of sub-questions and the
      coverage of the quantity, expression and LLM evaluators. */
  datatype Row = Row(overall: real, subquestions: int, quantity: Coverage, expression: Coverage, llm: Coverage)

  /** `part / whole` when `whole` is positive, else 0. */
  function Share(part: int, whole: int): (r: real)
    ensures whole <= 0 ==> r == 0.0
    ensures whole > 0 && 0 <= part <= whole ==> 0.0 <= r <= 1.0 && (r == 1.0 <==> part == whole)
    ensures whole > 0 && part == 0 ==> r == 0.0
  {
    if whole > 0 then
      var r := part as real / whole as real;
      assert r * whole as real == part as real;
      r
    else 0.0
  }

  /** An evaluator's `true`, `false` and `null` counts. */
  datatype Triple = Triple(trues: int, falses: int, nulls: int)

  function TripleOf(file: ResultsFile, evaluator: string): Triple {
    Triple(Field(file, evaluator, "true"), Field(file, evaluator, "false"), Field(file, evaluator, "null"))
  }

  function CoverageOver(c: Triple, whole: int): Coverage {
    Coverage(c.trues, c.falses, c.nulls, Share(c.trues + c.falses, whole))
  }

  /** The row from the counts: the sub-questions are every one the quantity
      evaluator settled as true, every one the expression evaluator settled as
      true, and every one the LLM judge saw; each evaluator's share is over
      what the evaluators before it left. */
  function RowOf(overall: real, quantity: Triple, expression: Triple, llm: Triple): (row: Row)
    ensures row.overall == overall
    ensures row.subquestions == quantity.trues + expression.trues + llm.trues + llm.falses + llm.nulls
    ensures row.quantity == Coverage(quantity.trues, quantity.falses, quantity.nulls,
      Share(quantity.trues + quantity.falses, row.subquestions))
    ensures row.expression.coverage
      == Share(expression.trues + expression.falses, expression.trues + llm.trues + llm.falses + llm.nulls)
    ensures row.llm.coverage == Share(llm.trues + llm.falses, llm.trues + llm.falses + llm.nulls)
  {
    var n := quantity.trues + expression.trues + llm.trues + llm.falses + llm.nulls;
    Row(overall, n, CoverageOver(quantity, n), CoverageOver(expression, n - quantity.trues),
      CoverageOver(llm, n - quantity.trues - expression.trues))
  }

  /** The sub-question count leaves out the quantity falses of sub-questions
      the judge never saw, so the quantity share can pass 1: five quantity falses
      and one expression true, with no LLM verdicts, give a share of 5. */
  lemma QuantityShareCanExceedOne()
    ensures RowOf(0.0, Triple(0, 5, 0), Triple(1, 0, 0), Triple(0, 0, 0)).quantity.coverage == 5.0
  {
    assert Share(5, 1) == 5.0;
  }

  /** The row for a `results.json`, with the overall accuracy read under
      `overallKey`. */
  function RowWith(file: ResultsFile, overallKey: string): (row: Row)
    ensures !HasKey(file.numbers, overallKey) ==> row.overall == 0.0
    ensures HasKey(file.numbers, overallKey) ==> Some(row.overall) == Get(file.numbers, overallKey)
    ensures row.subquestions == Field(file, "quantity", "true") + Field(file, "expression", "true")
      + Field(file, "llm", "true") + Field(file, "llm", "false") + Field(file, "llm", "null")
    ensures row.llm.nulls == Field(file, "llm", "null")
  {
    RowOf(Get(file.numbers, overallKey).GetOr(0.0),
      TripleOf(file, "quantity"), TripleOf(file, "expression"), TripleOf(file, "llm"))
  }

  /** With counts that are not negative, the expression evaluator's share is
      over the expression trues and all LLM verdicts, and the LLM judge's share
      is over its own verdicts: between 0 and 1, and 1 exactly when the judge
      left nothing undecided. */
  lemma RowShares(overall: real, q: Triple, e: Triple, l: Triple)
    requires q.trues >= 0 && e.trues >= 0 && l.trues >= 0 && l.falses >= 0 && l.nulls >= 0
    ensures var row := RowOf(overall, q, e, l);
      row.subquestions == q.trues + e.trues + l.trues + l.falses + l.nulls
      && row.expression.coverage == Share(e.trues + e.falses, e.trues + l.trues + l.falses + l.nulls)
      && row.llm.coverage == Share(l.trues + l.falses, l.trues + l.falses + l.nulls)
      && 0.0 <= row.llm.coverage <= 1.0
      && (l.trues + l.falses + l.nulls > 0 ==> (row.llm.coverage == 1.0 <==> l.nulls == 0))
  {
  }

  /** The row `analyze_evaluator_stats` builds, which reads the overall
      accuracy under `overall_accuracy`; `None` when the model has no readable
      `results.json` and its row holds only its name. */
  function AnalyseAsWritten(file: Option<ResultsFile>): (row: Option<Row>)
    ensures row.Some? <==> file.Some?
    ensures row.Some? ==> row.value == RowWith(file.value, "overall_accuracy")
  {
    match file
    case None => None
    case Some(f) => Some(RowWith(f, "overall_accuracy"))
  }

  /** The row with the overall accuracy read under `average_score`, the key
      under which the evaluation writes it. */
  function Analyse(file: Option<ResultsFile>): (row: Option<Row>)
    ensures row.Some? <==> file.Some?
    ensures row.Some? ==> row.value == RowWith(file.value, "average_score")
  {
    match file
    case None => None
    case Some(f) => Some(RowWith(f, "average_score"))
  }

  // ---------------------------------------------------------------------------
  // Reading back what the evaluation writes

  function TallyEntry(t: Tally): Dict<string, int> {
    [("true", t.trues), ("false", t.falses), ("null", t.nulls)]
  }

  /** The numbers and the evaluator statistics `evaluate_responses` writes to
      `results.json`. */
  function Written(s: Evaluate.Summary): (file: ResultsFile)
    ensures Keys(file.numbers) == ["total_questions", "average_score", "pending_llm_evaluation"]
  {
    ResultsFile(
      [("total_questions", s.totalQuestions as real), ("average_score", s.averageScore),
       ("pending_llm_evaluation", s.pendingLlm as real)],
      [("quantity", TallyEntry(s.quantity)), ("expression", TallyEntry(s.expression)),
       ("llm", TallyEntry(s.llm)), ("mcq", TallyEntry(s.mcq))])
  }

  lemma FieldsOfWritten(s: Evaluate.Summary)
    ensures var file := Written(s);
      Field(file, "quantity", "true") == s.quantity.trues
      && Field(file, "quantity", "false") == s.quantity.falses
      && Field(file, "quantity", "null") == s.quantity.nulls
      && Field(file, "expression", "true") == s.expression.trues
      && Field(file, "expression", "false") == s.expression.falses
      && Field(file, "expression", "null") == s.expression.nulls
      && Field(file, "llm", "true") == s.llm.trues
      && Field(file, "llm", "false") == s.llm.falses
      && Field(file, "llm", "null") == s.llm.nulls
  {
    var stats := Written(s).evaluatorStats;
    assert Keys(stats) == ["quantity", "expression", "llm", "mcq"];
    assert IsDict(stats);
    GetAt(stats, 0);
    GetAt(stats, 1);
    GetAt(stats, 2);
    TallyEntryGet(s.quantity);
    TallyEntryGet(s.expression);
    TallyEntryGet(s.llm);
  }

  lemma TallyEntryGet(t: Tally)
    ensures Get(TallyEntry(t), "true") == Some(t.trues as int)
    ensures Get(TallyEntry(t), "false") == Some(t.falses as int)
    ensures Get(TallyEntry(t), "null") == Some(t.nulls as int)
  {
    var e := TallyEntry(t);
    assert Keys(e) == ["true", "false", "null"];
    assert IsDict(e);
    GetAt(e, 0);
    GetAt(e, 1);
    GetAt(e, 2);
  }

  /** The row of a summary the evaluation wrote carries its tallies. */
  lemma RowOfSummary(s: Evaluate.Summary, key: string)
    ensures RowWith(Written(s), key) == RowOf(Get(Written(s).numbers, key).GetOr(0.0),
      TallyTriple(s.quantity), TallyTriple(s.expression), TallyTriple(s.llm))
  {
    FieldsOfWritten(s);
  }

  function TallyTriple(t: Tally): Triple {
    Triple(t.trues, t.falses, t.nulls)
  }

  /** A file without evaluator statistics gives zero counts and zero
      coverage everywhere. */
  lemma EmptyStatistics(numbers: Dict<string, real>, key: string)
    ensures var row := RowWith(ResultsFile(numbers, []), key);
      row.subquestions == 0
      && row.quantity == Coverage(0, 0, 0, 0.0)
      && row.expression == Coverage(0, 0, 0, 0.0)
      && row.llm == Coverage(0, 0, 0, 0.0)
  {
    var file := ResultsFile(numbers, []);
    var zero := Triple(0, 0, 0);
    assert TripleOf(file, "quantity") == zero && TripleOf(file, "expression") == zero && TripleOf(file, "llm") == zero;
    var row := RowOf(Get(numbers, key).GetOr(0.0), zero, zero, zero);
    assert row.expression == Coverage(0, 0, 0, Share(0, 0));
    assert row.llm == Coverage(0, 0, 0, Share(0, 0));
  }

  /** As written, the overall accuracy column is 0 for every file the
      evaluation writes: the file has no `overall_accuracy` key. */
  lemma AsWrittenOverallAlwaysZero(s: Evaluate.Summary)
    ensures AnalyseAsWritten(Some(Written(s))).value.overall == 0.0
  {
    assert !HasKey(Written(s).numbers, "overall_accuracy");
  }

  /** Read under `average_score`, the column carries the evaluation's average
      score. */
  lemma OverallIsAverageScore(s: Evaluate.Summary)
    ensures Analyse(Some(Written(s))).value.overall == s.averageScore
  {
    assert Get(Written(s).numbers, "average_score") == Some(s.averageScore);
  }
}
