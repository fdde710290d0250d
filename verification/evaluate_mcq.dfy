/** `src/evaluate/evaluate_mcq.py`: the stand-alone multiple-choice evaluation.
    Every problem is graded against one expected option `a` with the MCQ evaluator
    alone; a response with no dataset record gets a zero placeholder that is left
    out of the average but counted in the accuracy tally. */
module EvaluateMcq {
  import opened Wrappers
  import opened Dicts
  import opened Verdicts
  import opened Pairing
  import opened EvalUtils
  import McqEvaluator
  import opened Evaluate

  /** `{'a': correct_option}`, else `{'a': letter read from answer}` (or the whole
      answer when no letter is read), after lifting a nested question; `None` when
      the record has neither field. */
  function McqExpected(r: DatasetRecord): (d: Option<Dict<string, string>>)
    ensures d.Some? ==> |d.value| == 1 && d.value[0].0 == "a" && IsDict(d.value)
    ensures d.None? <==> LiftNested(r).correctOption.None? && LiftNested(r).answer.None?
    ensures LiftNested(r).correctOption.Some? ==> d == Some([("a", LiftNested(r).correctOption.value)])
  {
    var l := LiftNested(r);
    if l.correctOption.Some? then Some([("a", l.correctOption.value)])
    else if l.answer.Some? then
      var x := McqEvaluator.ExtractMcqAnswer(l.answer);
      Some([("a", if McqEvaluator.Truthy(x) then x.value else l.answer.value)])
    else None
  }

  /** The stand-alone script and the general one grade an MCQ problem against the
      same expected answers. */
  lemma SameExpectedAsGeneral(r: DatasetRecord, question: string)
    ensures var d := McqExpected(r);
      ExpectedFor(MCQ, r, question) == (if d.Some? then Some(DeduplicateExpectedAnswers(d.value)) else None)
  {
  }

  /** A one-entry dictionary is left as it is by the de-duplication unless its key
      is `main`. */
  lemma DedupSingle(id: string, v: string)
    requires id != "main"
    ensures DeduplicateExpectedAnswers([(id, v)]) == [(id, v)]
  {
    var d := [(id, v)];
    assert Values(d) == [v];
    DedupKeyChoice(d, 0);
  }

  /** The MCQ evaluator's record. */
  function McqRecord(expected: string, actual: Option<string>): (rec: EvalRecord)
    ensures rec.kind == McqKind && !rec.verdict.Undecided?
    ensures rec.verdict.Correct? <==> McqEvaluator.Evaluate(Some(expected), actual).isCorrect
  {
    var m := McqEvaluator.Evaluate(Some(expected), actual);
    EvalRecord(McqKind, FromBool(m.isCorrect), McqDetails(m.expected, m.extracted))
  }

  /** The result for one expected answer: unanswered is false with no record,
      otherwise the MCQ evaluator's verdict with its one record. */
  function McqScoreOne(e: string, a: Option<Option<string>>): (r: SubResult)
    ensures r.expected == e
    ensures a.None? ==> r == SubResult(false, e, None, [])
    ensures a.Some? ==>
      r.extracted == a.value && |r.records| == 1 && r.records[0] == McqRecord(e, a.value)
      && (r.isCorrect <==> McqEvaluator.Evaluate(Some(e), a.value).isCorrect)
  {
    match a
    case None => SubResult(false, e, None, [])
    case Some(x) =>
      var rec := McqRecord(e, x);
      SubResult(rec.verdict.Correct?, e, x, [rec])
  }

  /** `evaluate_response` of the stand-alone script. */
  function McqEvaluateResponse(expected: Dict<string, string>, response: string): (ev: Evaluation)
    requires IsDict(expected)
    ensures ev.totalCount == |expected| && ev.correctCount == CorrectCount(ev.subResults)
    ensures ev.score == Ratio(ev.correctCount, ev.totalCount) && 0.0 <= ev.score <= 1.0
    ensures Keys(ev.subResults) == Keys(expected)
    ensures forall i | 0 <= i < |expected| ::
      ev.subResults[i].1 == McqScoreOne(expected[i].1, Get(ev.mapping, expected[i].0))
  {
    var mapping := MapAnswers(expected, ExtractedAnswers(MCQ, response));
    var subs := seq(|expected|, i requires 0 <= i < |expected| =>
      (expected[i].0, McqScoreOne(expected[i].1, Get(mapping, expected[i].0))));
    assert Keys(subs) == Keys(expected);
    var correct := CorrectCount(subs);
    Evaluation(subs, Ratio(correct, |expected|), correct, |expected|, mapping)
  }

  /** The stand-alone evaluation agrees with the general one run on MCQ, whatever
      the general one's other evaluators and flags. */
  lemma AgreesWithGeneral(expected: Dict<string, string>, response: string, flags: Flags, run: Run)
    requires IsDict(expected)
    ensures McqEvaluateResponse(expected, response) == EvaluateResponse(expected, response, MCQ, flags, run)
  {
    var a := McqEvaluateResponse(expected, response);
    var b := EvaluateResponse(expected, response, MCQ, flags, run);
    assert Chain(MCQ, flags) == [McqKind];
    forall i | 0 <= i < |expected| ensures a.subResults[i] == b.subResults[i] {
      var x := Get(a.mapping, expected[i].0);
      if x.Some? {
        var c := RunChain([McqKind], expected[i].1, x.value, run);
        assert c.0 == [Record(McqKind, expected[i].1, x.value, run)];
      }
    }
    assert a.subResults == b.subResults;
  }

  /** With the single expected answer `a`, the response's letter is always paired
      with it, the MCQ evaluator runs once, and the score is 1 when it accepts and
      0 otherwise. */
  lemma SingleAnswerScore(e: string, response: string)
    ensures var ev := McqEvaluateResponse([("a", e)], response);
      var m := McqEvaluator.Evaluate(Some(e), McqEvaluator.ExtractMcqAnswer(Some(response)));
      var sub := ev.subResults[0].1;
      |ev.subResults| == 1 && ev.subResults[0].0 == "a" && ev.totalCount == 1
      && sub.isCorrect == m.isCorrect
      && sub.records == [McqRecord(e, McqEvaluator.ExtractMcqAnswer(Some(response)))]
      && ev.score == (if m.isCorrect then 1.0 else 0.0)
  {
    var expected := [("a", e)];
    var x := ExtractedAnswers(MCQ, response);
    assert Keys(expected) == ["a"] && Keys(x) == ["a"];
    SameIdPaired(expected, x, "a");
    var ev := McqEvaluateResponse(expected, response);
    assert ev.subResults[0].1 == McqScoreOne(e, Get(ev.mapping, "a"));
    assert CorrectCount(ev.subResults) == (if ev.subResults[0].1.isCorrect then 1 else 0);
  }

  /** What became of one response. */
  datatype McqOutcome =
    | Skipped                              // a record with neither field
    | Unmatched(placeholder: ProblemResult) // no record: zero, not averaged
    | Scored(result: ProblemResult)

  /** One response of `evaluate_responses`. */
  function McqEvaluateOne(resp: ResponseRecord, dataset: seq<DatasetRecord>): (o: McqOutcome)
    ensures FindRecord(dataset, resp.id).None? <==> o.Unmatched?
    ensures o.Unmatched? ==> o.placeholder == Placeholder(resp.id)
    ensures o.Scored? ==>
      o.result.id == resp.id && o.result.score.Some? && 0.0 <= o.result.score.value <= 1.0
      && o.result.correctCount <= o.result.totalCount
  {
    match FindRecord(dataset, resp.id)
    case None => Unmatched(Placeholder(resp.id))
    case Some(rec) =>
      match McqExpected(rec)
      case None => Skipped
      case Some(raw) =>
        var expected := DeduplicateExpectedAnswers(raw);
        var ev := McqEvaluateResponse(expected, resp.response);
        Scored(ProblemResult(resp.id, expected, ExtractedAnswers(MCQ, resp.response),
                             SummariseAll(MCQ, NoFlags, ev.subResults),
                             Some(ev.score), ev.correctCount, ev.totalCount, None))
  }

  /** The flags play no part for MCQ. */
  const NoFlags := Flags(false, false, false, false)

  /** A graded problem has the one sub-question `a`, scored 1 or 0 by the MCQ
      evaluator's verdict, whose `mcq` entry reports that verdict. */
  lemma ScoredProblemShape(resp: ResponseRecord, dataset: seq<DatasetRecord>)
    requires McqEvaluateOne(resp, dataset).Scored?
    ensures var r := McqEvaluateOne(resp, dataset).result;
      |r.evaluation| == 1 && r.totalCount == 1
      && r.evaluation[0].id == "a"
      && r.evaluation[0].evals.mcq.Some?
      && r.evaluation[0].evals.mcq.value.verdict == r.evaluation[0].verdict
      && (r.evaluation[0].verdict.Correct? <==> r.score == Some(1.0))
      && (r.evaluation[0].verdict.Incorrect? <==> r.score == Some(0.0))
  {
    var rec := FindRecord(dataset, resp.id).value;
    var raw := McqExpected(rec).value;
    var e := raw[0].1;
    assert raw == [("a", e)];
    DedupSingle("a", e);
    SingleAnswerScore(e, resp.response);
    var ev := McqEvaluateResponse([("a", e)], resp.response);
    var sub := ev.subResults[0].1;
    var q := Summarise(MCQ, NoFlags, "a", sub);
    assert FirstOfKind(sub.records, McqKind) == Some(sub.records[0]);
    assert q.evals.mcq == Some(McqEntryOf(sub.records[0]));
  }

  /** The results in order, without the skipped responses. */
  function ResultsOf(os: seq<McqOutcome>): (rs: seq<ProblemResult>)
    ensures |rs| <= |os|
    decreases |os|
  {
    if os == [] then []
    else
      var n := |os| - 1;
      ResultsOf(os[..n]) + match os[n] {
        case Skipped => []
        case Unmatched(p) => [p]
        case Scored(r) => [r]
      }
  }

  /** The number of graded problems. */
  function ScoredCount(os: seq<McqOutcome>): (n: nat)
    ensures n <= |os|
    decreases |os|
  {
    if os == [] then 0 else ScoredCount(os[..|os| - 1]) + (if os[|os| - 1].Scored? then 1 else 0)
  }

  /** The outcomes of all responses, in order. */
  function McqEvaluateAll(responses: seq<ResponseRecord>, dataset: seq<DatasetRecord>): (os: seq<McqOutcome>)
    ensures |os| == |responses|
    ensures forall k | 0 <= k < |os| :: os[k] == McqEvaluateOne(responses[k], dataset)
    ensures WellFormed(os)
  {
    seq(|responses|, k requires 0 <= k < |responses| => McqEvaluateOne(responses[k], dataset))
  }

  /** Outcomes as `McqEvaluateOne` makes them: placeholders score 0, graded
      problems a fraction. */
  predicate WellFormed(os: seq<McqOutcome>) {
    forall k | 0 <= k < |os| ::
      (os[k].Unmatched? ==> os[k].placeholder.score == Some(0.0))
      && (os[k].Scored? ==> os[k].result.score.Some? && 0.0 <= os[k].result.score.value <= 1.0)
  }

  /** Every result has a score, and the scores add up to at most the number of
      graded problems: placeholders add nothing. */
  lemma {:induction false} McqScoreBounds(os: seq<McqOutcome>)
    requires WellFormed(os)
    ensures ScoresInRange(ResultsOf(os))
    ensures forall k | 0 <= k < |ResultsOf(os)| :: ResultsOf(os)[k].score.Some?
    ensures 0.0 <= ScoreSum(ResultsOf(os)) <= ScoredCount(os) as real
    decreases |os|
  {
    if os != [] {
      var n := |os| - 1;
      assert WellFormed(os[..n]) by {
        forall k | 0 <= k < n ensures os[..n][k] == os[k] {
        }
      }
      McqScoreBounds(os[..n]);
      var rs := ResultsOf(os);
      var prev := ResultsOf(os[..n]);
      if !os[n].Skipped? {
        assert rs[..|rs| - 1] == prev;
      } else {
        assert rs == prev;
      }
    }
  }

  /** The summary `evaluate_mcq.py` writes. */
  datatype McqSummary = McqSummary(totalQuestions: nat, averageScore: real, mcq: Tally, accuracy: Tally)

  /** The averages and tallies: the average is over graded problems only, the
      accuracy tally over every result, placeholders counting as false. */
  method McqStatistics(os: seq<McqOutcome>) returns (s: McqSummary)
    requires WellFormed(os)
    ensures s.totalQuestions == ScoredCount(os)
    ensures s.averageScore == Average(ScoreSum(ResultsOf(os)), ScoredCount(os))
    ensures 0.0 <= s.averageScore <= 1.0
    ensures s.accuracy == TallyOf(AccuracyVerdicts(ResultsOf(os)))
    ensures s.accuracy.nulls == 0 && s.accuracy.Total() == |ResultsOf(os)|
    ensures s.mcq == TallyOf(KindVerdicts(ResultsOf(os), McqKind))
  {
    var results := ResultsOf(os);
    McqScoreBounds(os);
    AverageInRange(ScoreSum(results), ScoredCount(os));
    var accuracy := AccuracyTally(results);
    var mcq := KindStatistics(results, McqKind);
    s := McqSummary(ScoredCount(os), Average(ScoreSum(results), ScoredCount(os)), mcq, accuracy);
  }

  /** The accuracy tally of results that all have a score: nothing is null. */
  method AccuracyTally(results: seq<ProblemResult>) returns (t: Tally)
    requires forall k | 0 <= k < |results| :: results[k].score.Some?
    ensures t == TallyOf(AccuracyVerdicts(results))
    ensures t.nulls == 0
  {
    t := EmptyTally;
    var k := 0;
    while k < |results|
      invariant 0 <= k <= |results|
      invariant t == AddAll(EmptyTally, AccuracyVerdicts(results[..k]))
      invariant t.nulls == 0
    {
      StatisticsStep(results, k);
      t := t.Add(AccuracyVerdict(results[k]));
      k := k + 1;
    }
    TakeAll(results);
    AddAllCounts(AccuracyVerdicts(results));
  }
}
