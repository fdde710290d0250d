/** `src/evaluate/evaluate.py`: scoring one response against the expected
    sub-answers through a chain of evaluators, and the bookkeeping of a whole run:
    placeholder results, provisional nulls while the LLM judge is pending, the
    write-back of the judge's verdicts, and the summary statistics.

    The Quantity, Expression and LLM evaluators enter as an outcome function `run`
    (their own logic is in `QuantityEvaluator` and `ExpressionEvaluator`; the LLM
    judge is outside the model). The MCQ evaluator is the concrete one. */
module Evaluate {
  import opened Wrappers
  import opened Dicts
  import opened Verdicts
  import opened Pairing
  import opened EvalUtils
  import McqEvaluator

  datatype QuestionType = OEQ | MCQ

  datatype EvaluatorKind = QuantityKind | ExpressionKind | LlmKind | McqKind

  /** `details` of an evaluator result, by the keys it has: the MCQ evaluator's
      (`expected`, `extracted`, `match`, `error` = None), the one built when an
      evaluator raised (`expected`, `actual`, `error`), and the other evaluators'
      (whose `error` is all that is read back). */
  datatype Details =
    | McqDetails(shownExpected: Option<string>, shownExtracted: Option<string>)
    | RaisedDetails(expected: string, actual: Option<string>, message: string)
    | OtherDetails(error: Option<string>)
  {
    function Error(): Option<string> {
      match this
      case McqDetails(_, _) => None
      case RaisedDetails(_, _, m) => Some(m)
      case OtherDetails(e) => e
    }
  }

  /** One entry of `evaluator_results`. */
  datatype EvalRecord = EvalRecord(kind: EvaluatorKind, verdict: Verdict, details: Details)

  /** The Quantity, Expression and LLM evaluators. */
  type Run = (EvaluatorKind, string, Option<string>) -> Outcome

  datatype Flags = Flags(disableQuantity: bool, disableExpression: bool, enableLlm: bool, llmBatch: bool)

  /** The evaluators `evaluate_response` lines up. */
  function Chain(qt: QuestionType, flags: Flags): (chain: seq<EvaluatorKind>)
    ensures qt == MCQ ==> chain == [McqKind]
    ensures qt == OEQ ==>
      (McqKind !in chain
       && (QuantityKind in chain <==> !flags.disableQuantity)
       && (ExpressionKind in chain <==> !flags.disableExpression)
       && (LlmKind in chain <==> flags.enableLlm && !flags.llmBatch))
    ensures Distinct(chain)
  {
    if qt == MCQ then [McqKind]
    else
      (if flags.disableQuantity then [] else [QuantityKind])
      + (if flags.disableExpression then [] else [ExpressionKind])
      + (if flags.enableLlm && !flags.llmBatch then [LlmKind] else [])
  }

  /** The record one evaluator leaves: an exception becomes an undecided record
      carrying its message. */
  function Record(kind: EvaluatorKind, expected: string, actual: Option<string>, run: Run): (r: EvalRecord)
    ensures r.kind == kind
    ensures kind != McqKind && run(kind, expected, actual).Raised? ==>
      r.verdict == Undecided && r.details == RaisedDetails(expected, actual, run(kind, expected, actual).message)
    ensures kind == McqKind ==> !r.verdict.Undecided?
  {
    if kind == McqKind then
      var m := McqEvaluator.Evaluate(Some(expected), actual);
      EvalRecord(McqKind, FromBool(m.isCorrect), McqDetails(m.expected, m.extracted))
    else match run(kind, expected, actual) {
      case Returned(j) => EvalRecord(kind, j.verdict, OtherDetails(j.error))
      case Raised(msg) => EvalRecord(kind, Undecided, RaisedDetails(expected, actual, msg))
    }
  }

  /** Tries the evaluators in turn and stops at the first that says `True`. */
  function RunChain(chain: seq<EvaluatorKind>, expected: string, actual: Option<string>, run: Run)
    : (r: (seq<EvalRecord>, bool))
    ensures |r.0| <= |chain|
    ensures forall i | 0 <= i < |r.0| :: r.0[i] == Record(chain[i], expected, actual, run)
    ensures forall i | 0 <= i < |r.0| - 1 :: !r.0[i].verdict.Correct?
    ensures r.1 <==> r.0 != [] && r.0[|r.0| - 1].verdict.Correct?
    ensures !r.1 ==> |r.0| == |chain|
    decreases |chain|
  {
    if chain == [] then ([], false)
    else
      var rec := Record(chain[0], expected, actual, run);
      if rec.verdict.Correct? then ([rec], true)
      else
        var rest := RunChain(chain[1..], expected, actual, run);
        ([rec] + rest.0, rest.1)
  }

  /** The chain accepts exactly when one of its evaluators says `True`; an
      undecided or failing evaluator does not stop it. */
  lemma ChainAccepts(chain: seq<EvaluatorKind>, expected: string, actual: Option<string>, run: Run)
    ensures RunChain(chain, expected, actual, run).1 <==>
      exists i | 0 <= i < |chain| :: Record(chain[i], expected, actual, run).verdict.Correct?
  {
    var r := RunChain(chain, expected, actual, run);
    if r.1 {
      assert Record(chain[|r.0| - 1], expected, actual, run).verdict.Correct?;
    } else {
      forall i | 0 <= i < |chain| ensures !Record(chain[i], expected, actual, run).verdict.Correct? {
        assert r.0[i] == Record(chain[i], expected, actual, run);
      }
    }
  }

  /** One entry of `subquestion_results`. */
  datatype SubResult = SubResult(isCorrect: bool, expected: string, extracted: Option<string>, records: seq<EvalRecord>)

  /** The answers read from the response: `{'a': letter or None}` for MCQ, the boxed
      answers otherwise. A missing response reads like the empty one. */
  function ExtractedAnswers(qt: QuestionType, response: string): (d: Dict<string, Option<string>>)
    ensures IsDict(d)
    ensures qt == MCQ ==> d == [("a", McqEvaluator.ExtractMcqAnswer(Some(response)))]
  {
    if qt == MCQ then [("a", McqEvaluator.ExtractMcqAnswer(Some(response)))]
    else
      var b := ExtractBoxedAnswers(response);
      var d := seq(|b|, i requires 0 <= i < |b| => (b[i].0, Some(b[i].1)));
      assert Keys(d) == Keys(b);
      d
  }

  /** The result for one expected answer: false with nothing run when the response
      gives it no answer, else the verdict of the chain. */
  function ScoreOne(e: string, a: Option<Option<string>>, chain: seq<EvaluatorKind>, run: Run): (r: SubResult)
    ensures r.expected == e
    ensures a.None? ==> r == SubResult(false, e, None, [])
    ensures a.Some? ==>
      r.extracted == a.value
      && (r.isCorrect <==> exists k | 0 <= k < |chain| :: Record(chain[k], e, a.value, run).verdict.Correct?)
  {
    match a
    case None => SubResult(false, e, None, [])
    case Some(x) =>
      var c := RunChain(chain, e, x, run);
      ChainAccepts(chain, e, x, run);
      SubResult(c.1, e, x, c.0)
  }

  /** Scores the expected answers in order. */
  function ScoreAll(expected: Dict<string, string>, mapping: Dict<string, Option<string>>,
                    chain: seq<EvaluatorKind>, run: Run): (r: Dict<string, SubResult>)
    ensures |r| == |expected| && Keys(r) == Keys(expected)
    ensures forall i | 0 <= i < |r| :: r[i].1 == ScoreOne(expected[i].1, Get(mapping, expected[i].0), chain, run)
  {
    seq(|expected|, i requires 0 <= i < |expected| =>
      (expected[i].0, ScoreOne(expected[i].1, Get(mapping, expected[i].0), chain, run)))
  }

  /** The number of sub-questions judged correct. */
  function CorrectCount(r: Dict<string, SubResult>): (n: nat)
    ensures n <= |r|
    decreases |r|
  {
    if r == [] then 0 else (if r[0].1.isCorrect then 1 else 0) + CorrectCount(r[1..])
  }

  /** The value of `evaluate_response`. */
  datatype Evaluation = Evaluation(subResults: Dict<string, SubResult>, score: real, correctCount: nat,
                                   totalCount: nat, mapping: Dict<string, Option<string>>)

  /** `evaluate_response(expected_answers, actual_response, question_type, ...)`. */
  function EvaluateResponse(expected: Dict<string, string>, response: string, qt: QuestionType,
                            flags: Flags, run: Run): (ev: Evaluation)
    requires IsDict(expected)
    ensures ev.totalCount == |expected| && ev.correctCount <= ev.totalCount
    ensures ev.correctCount == CorrectCount(ev.subResults)
    ensures ev.score == Ratio(ev.correctCount, ev.totalCount) && 0.0 <= ev.score <= 1.0
    ensures IsDict(ev.subResults) && Keys(ev.subResults) == Keys(expected)
    ensures ev.mapping == MapAnswers(expected, ExtractedAnswers(qt, response))
    ensures forall i | 0 <= i < |expected| ::
      var s := ev.subResults[i].1;
      s.expected == expected[i].1
      && (s.isCorrect <==>
            HasKey(ev.mapping, expected[i].0)
            && exists k | 0 <= k < |Chain(qt, flags)| ::
                 Record(Chain(qt, flags)[k], expected[i].1, Get(ev.mapping, expected[i].0).value, run).verdict.Correct?)
      && (!HasKey(ev.mapping, expected[i].0) ==> s == SubResult(false, expected[i].1, None, []))
  {
    var mapping := MapAnswers(expected, ExtractedAnswers(qt, response));
    var subs := ScoreAll(expected, mapping, Chain(qt, flags), run);
    var correct := CorrectCount(subs);
    Evaluation(subs, Ratio(correct, |expected|), correct, |expected|, mapping)
  }

  // ---------------------------------------------------------------------------
  // evaluate_responses: the expected answers of a problem

  type ProblemId = Option<string>

  /** The `question` dictionary a dataset record may carry. */
  datatype NestedQuestion = NestedQuestion(correctOption: Option<string>, answer: Option<string>)

  /** A dataset record, by the fields the evaluation reads. `answers` is the JSON
      object as written; loading it keeps the first position and the last value of
      a repeated key. */
  datatype DatasetRecord = DatasetRecord(id: ProblemId, answer: Option<string>,
                                         answers: Option<seq<(string, string)>>,
                                         correctOption: Option<string>,
                                         question: Option<NestedQuestion>)

  /** A model response record; `question` is the problem text. */
  datatype ResponseRecord = ResponseRecord(id: ProblemId, question: string, response: string)

  /** `next(item for item in expected_answers if item.get('id') == problem_id)`. */
  function FindRecord(dataset: seq<DatasetRecord>, id: ProblemId): (r: Option<DatasetRecord>)
    ensures r.Some? ==> r.value in dataset && r.value.id == id
    ensures r.None? ==> forall k | 0 <= k < |dataset| :: dataset[k].id != id
    decreases |dataset|
  {
    if dataset == [] then None
    else if dataset[0].id == id then Some(dataset[0])
    else FindRecord(dataset[1..], id)
  }

  /** For MCQ: `correct_option` of a nested question replaces the record's, and its
      `answer` is used only when the record has none. */
  function LiftNested(r: DatasetRecord): (l: DatasetRecord)
    ensures l.id == r.id && l.answers == r.answers && l.question == r.question
    ensures r.question.None? ==> l == r
    ensures r.answer.Some? ==> l.answer == r.answer
  {
    match r.question
    case None => r
    case Some(n) =>
      r.(correctOption := if n.correctOption.Some? then n.correctOption else r.correctOption,
         answer := if r.answer.Some? then r.answer else n.answer)
  }

  /** The expected answers before de-duplication, or `None` when the record offers
      nothing to grade against (the problem is then skipped). */
  function RawExpected(qt: QuestionType, r: DatasetRecord): (d: Option<Dict<string, string>>)
    ensures d.Some? ==> IsDict(d.value)
    ensures qt == MCQ && d.Some? ==> |d.value| == 1 && d.value[0].0 == "a"
    ensures qt == OEQ && r.answer.Some? ==> d == Some(ExtractExpectedAnswers(r.answer.value))
    ensures d.None? <==> if qt == MCQ then LiftNested(r).correctOption.None? && LiftNested(r).answer.None?
                         else r.answer.None? && r.answers.None?
  {
    if qt == MCQ then
      var l := LiftNested(r);
      if l.correctOption.Some? then Some([("a", l.correctOption.value)])
      else if l.answer.Some? then
        var x := McqEvaluator.ExtractMcqAnswer(l.answer);
        Some([("a", if McqEvaluator.Truthy(x) then x.value else l.answer.value)])
      else None
    else if r.answer.Some? then Some(ExtractExpectedAnswers(r.answer.value))
    else if r.answers.Some? then Some(FromPairs(r.answers.value))
    else None
  }

  /** The fallback for an empty or `main`-only answer dictionary: every sub-question
      of the problem text gets the whole `answer`, when there is one. */
  function MainFallback(d: Dict<string, string>, answer: Option<string>, question: string): (r: Dict<string, string>)
  {
    if (d == [] || (|d| == 1 && HasKey(d, "main"))) && answer.Some? then
      AssignAll(d, ExtractSubquestions(question), answer.value)
    else d
  }

  function AssignAll(d: Dict<string, string>, ids: seq<string>, v: string): (r: Dict<string, string>)
    ensures IsDict(d) ==> IsDict(r)
    decreases |ids|
  {
    if ids == [] then d else AssignAll(Set(d, ids[0], v), ids[1..], v)
  }

  /** The expected answers a problem is graded against. */
  function ExpectedFor(qt: QuestionType, r: DatasetRecord, question: string): (d: Option<Dict<string, string>>)
    ensures d.Some? <==> RawExpected(qt, r).Some?
    ensures d.Some? ==> IsDict(d.value) && d.value == DeduplicateExpectedAnswers(RawExpected(qt, r).value)
  {
    match RawExpected(qt, r)
    case None => None
    case Some(raw) =>
      var answer := if qt == MCQ then LiftNested(r).answer else r.answer;
      MainFallbackNeverFires(qt, r, question);
      Some(DeduplicateExpectedAnswers(MainFallback(raw, answer, question)))
  }

  /** The fallback never fires: wherever an `answer` exists, the answers were
      extracted from it (never empty, one-letter keys) or are the single MCQ
      answer `a`; a given `answers` dictionary is only used when there is no
      `answer`. */
  lemma MainFallbackNeverFires(qt: QuestionType, r: DatasetRecord, question: string)
    requires RawExpected(qt, r).Some?
    ensures var raw := RawExpected(qt, r).value;
      var answer := if qt == MCQ then LiftNested(r).answer else r.answer;
      MainFallback(raw, answer, question) == raw
  {
    var raw := RawExpected(qt, r).value;
    if qt == OEQ && r.answer.Some? {
      assert |raw[0].0| == 1;
      assert !HasKey(raw, "main") by {
        forall i | 0 <= i < |raw| ensures Keys(raw)[i] != "main" {
          assert |raw[i].0| == 1;
        }
      }
    } else if qt == MCQ {
      assert Keys(raw) == ["a"];
    }
  }

  // ---------------------------------------------------------------------------
  // evaluate_responses: first pass

  /** The `evaluations` entry of an OEQ evaluator. */
  datatype EvalEntry = EvalEntry(verdict: Verdict, error: Option<string>)

  /** The `evaluations['mcq']` entry. */
  datatype McqEntry = McqEntry(verdict: Verdict, expected: Option<string>, extracted: Option<string>, error: Option<string>)

  datatype Evaluations = Evaluations(quantity: Option<EvalEntry>, expression: Option<EvalEntry>,
                                     llm: Option<EvalEntry>, mcq: Option<McqEntry>)

  /** One element of a result's `evaluation` list. */
  datatype SubqSummary = SubqSummary(id: string, verdict: Verdict, expected: string,
                                     extracted: Option<string>, evals: Evaluations)

  /** The first record an evaluator of that kind left. */
  function FirstOfKind(records: seq<EvalRecord>, kind: EvaluatorKind): (r: Option<EvalRecord>)
    ensures r.Some? ==> r.value in records && r.value.kind == kind
    ensures r.None? ==> forall i | 0 <= i < |records| :: records[i].kind != kind
    decreases |records|
  {
    if records == [] then None
    else if records[0].kind == kind then Some(records[0])
    else FirstOfKind(records[1..], kind)
  }

  function EntryOf(r: Option<EvalRecord>): Option<EvalEntry> {
    match r
    case None => None
    case Some(rec) => Some(EvalEntry(rec.verdict, rec.details.Error()))
  }

  /** The MCQ entry as written: it reads `details['actual']`, which only the record
      of a raising evaluator has; on the MCQ evaluator's own details the lookup
      raises `KeyError` and ends the run. */
  function McqEntryAsWritten(rec: EvalRecord): (r: Result<McqEntry, string>)
    ensures rec.details.McqDetails? ==> r.Err?
  {
    match rec.details
    case McqDetails(_, _) => Err("KeyError: 'actual'")
    case RaisedDetails(e, a, m) => Ok(McqEntry(rec.verdict, Some(e), a, Some(m)))
    case OtherDetails(err) => Err("KeyError: 'expected'")
  }

  /** The MCQ entry reading the extracted answer the evaluator reported. */
  function McqEntryOf(rec: EvalRecord): (r: McqEntry)
    ensures r.verdict == rec.verdict
    ensures rec.details.McqDetails? ==>
      r.expected == rec.details.shownExpected && r.extracted == rec.details.shownExtracted && r.error.None?
  {
    match rec.details
    case McqDetails(e, x) => McqEntry(rec.verdict, e, x, None)
    case RaisedDetails(e, a, m) => McqEntry(rec.verdict, Some(e), a, Some(m))
    case OtherDetails(err) => McqEntry(rec.verdict, None, None, err)
  }

  /** The summary of one sub-question: with the LLM judge pending (OEQ with the
      judge enabled), a sub-question not yet correct is provisionally `None`. */
  function Summarise(qt: QuestionType, flags: Flags, id: string, s: SubResult): (q: SubqSummary)
    ensures q.id == id && q.expected == s.expected && q.extracted == s.extracted
    ensures s.isCorrect ==> q.verdict == Correct
    ensures !s.isCorrect ==> q.verdict == (if qt == OEQ && flags.enableLlm then Undecided else Incorrect)
  {
    var verdict := if qt == OEQ && flags.enableLlm && !s.isCorrect then Undecided else FromBool(s.isCorrect);
    var evals :=
      if qt == MCQ then
        var m := FirstOfKind(s.records, McqKind);
        Evaluations(None, None, None, if m.Some? then Some(McqEntryOf(m.value)) else None)
      else
        Evaluations(if flags.disableQuantity then None else EntryOf(FirstOfKind(s.records, QuantityKind)),
                    if flags.disableExpression then None else EntryOf(FirstOfKind(s.records, ExpressionKind)),
                    if flags.enableLlm then EntryOf(FirstOfKind(s.records, LlmKind)) else None,
                    None);
    SubqSummary(id, verdict, s.expected, s.extracted, evals)
  }

  /** One element of `results`. `score` is `None` while every sub-question awaits
      the judge. */
  datatype ProblemResult = ProblemResult(id: ProblemId, expected: Dict<string, string>,
                                         extracted: Dict<string, Option<string>>,
                                         evaluation: seq<SubqSummary>, score: Option<real>,
                                         correctCount: nat, totalCount: nat, error: Option<string>)

  /** The placeholder for a response with no dataset record. */
  function Placeholder(id: ProblemId): (r: ProblemResult)
    ensures r.score == Some(0.0) && r.totalCount == 0 && r.correctCount == 0 && r.evaluation == []
    ensures r.error == Some("No expected answer found in dataset")
  {
    ProblemResult(id, [], [], [], Some(0.0), 0, 0, Some("No expected answer found in dataset"))
  }

  /** A sub-question to send to the judge. */
  datatype LlmTask = LlmTask(problem: ProblemId, subq: string, expected: string, actual: Option<string>)

  /** The number of summaries whose verdict is `v`. */
  function CountVerdict(qs: seq<SubqSummary>, v: Verdict): (n: nat)
    ensures n <= |qs|
    decreases |qs|
  {
    if qs == [] then 0 else (if qs[0].verdict == v then 1 else 0) + CountVerdict(qs[1..], v)
  }

  function SummariseAll(qt: QuestionType, flags: Flags, subs: Dict<string, SubResult>): (qs: seq<SubqSummary>)
    ensures |qs| == |subs|
    ensures forall i | 0 <= i < |qs| :: qs[i] == Summarise(qt, flags, subs[i].0, subs[i].1)
  {
    seq(|subs|, i requires 0 <= i < |subs| => Summarise(qt, flags, subs[i].0, subs[i].1))
  }

  /** The judge tasks of one problem: every sub-question not judged correct. */
  function TasksOf(id: ProblemId, subs: Dict<string, SubResult>): (ts: seq<LlmTask>)
    ensures |ts| <= |subs|
    ensures forall t | t in ts :: t.problem == id
    ensures forall i | 0 <= i < |subs| :: !subs[i].1.isCorrect ==>
      LlmTask(id, subs[i].0, subs[i].1.expected, subs[i].1.extracted) in ts
    decreases |subs|
  {
    if subs == [] then []
    else
      var rest := TasksOf(id, subs[1..]);
      var s := subs[0];
      assert forall i | 1 <= i < |subs| :: subs[i] == subs[1..][i - 1];
      if s.1.isCorrect then rest else [LlmTask(id, s.0, s.1.expected, s.1.extracted)] + rest
  }

  /** The score of a problem after the first pass. With the judge pending, only
      decided sub-questions count, and a problem with none has no score yet. */
  function ProvisionalScore(qt: QuestionType, flags: Flags, ev: Evaluation, qs: seq<SubqSummary>)
    : (r: (Option<real>, nat, nat))
    ensures !(qt == OEQ && flags.enableLlm) ==> r == (Some(ev.score), ev.correctCount, ev.totalCount)
    ensures qt == OEQ && flags.enableLlm ==>
      var decided := |qs| - CountVerdict(qs, Undecided);
      (decided == 0 ==> r == (None, 0, 0))
      && (decided > 0 ==> r == (Some(Ratio(CountVerdict(qs, Correct), decided)), CountVerdict(qs, Correct), decided))
    ensures 0.0 <= ev.score <= 1.0 && r.0.Some? ==> 0.0 <= r.0.value <= 1.0
  {
    if qt == OEQ && flags.enableLlm then
      var decided := |qs| - CountVerdict(qs, Undecided);
      var correct := CountVerdict(qs, Correct);
      CorrectAndUndecided(qs);
      if decided > 0 then (Some(Ratio(correct, decided)), correct, decided) else (None, 0, 0)
    else (Some(ev.score), ev.correctCount, ev.totalCount)
  }

  /** The first pass over one response: its result (if any) and its judge tasks. */
  function FirstPassOne(resp: ResponseRecord, dataset: seq<DatasetRecord>, qt: QuestionType,
                        flags: Flags, run: Run): (r: (Option<ProblemResult>, seq<LlmTask>))
    ensures r.0.Some? ==> r.0.value.id == resp.id
    ensures FindRecord(dataset, resp.id).None? ==> r == (Some(Placeholder(resp.id)), [])
    ensures forall t | t in r.1 :: t.problem == resp.id
    ensures r.1 != [] ==> r.0.Some?
    ensures r.0.Some? && r.0.value.score.Some? ==> 0.0 <= r.0.value.score.value <= 1.0
    ensures !(qt == OEQ && flags.enableLlm) ==> r.1 == []
  {
    match FindRecord(dataset, resp.id)
    case None => (Some(Placeholder(resp.id)), [])
    case Some(rec) =>
      match ExpectedFor(qt, rec, resp.question)
      case None => (None, [])
      case Some(expected) =>
        var pending := qt == OEQ && flags.enableLlm;
        var evFlags := if pending then flags.(enableLlm := false, llmBatch := true) else flags;
        var ev := EvaluateResponse(expected, resp.response, qt, evFlags, run);
        var qs := SummariseAll(qt, flags, ev.subResults);
        var tasks := if pending then TasksOf(resp.id, ev.subResults) else [];
        var (score, correct, total) := ProvisionalScore(qt, flags, ev, qs);
        (Some(ProblemResult(resp.id, expected, ExtractedAnswers(qt, resp.response), qs, score, correct, total, None)),
         tasks)
  }

  /** At most as many verdicts are correct or undecided as there are summaries. */
  lemma {:induction false} CorrectAndUndecided(qs: seq<SubqSummary>)
    ensures CountVerdict(qs, Correct) + CountVerdict(qs, Undecided) <= |qs|
    decreases |qs|
  {
    if qs != [] {
      CorrectAndUndecided(qs[1..]);
    }
  }

  /** Every score, when there is one, is a fraction in `[0, 1]`. */
  predicate ScoresInRange(results: seq<ProblemResult>) {
    forall k | 0 <= k < |results| :: results[k].score.Some? ==> 0.0 <= results[k].score.value <= 1.0
  }

  function Ids(results: seq<ProblemResult>): (ids: seq<ProblemId>)
    ensures |ids| == |results| && forall k | 0 <= k < |results| :: ids[k] == results[k].id
  {
    seq(|results|, k requires 0 <= k < |results| => results[k].id)
  }

  /** What the first pass makes of each response. */
  type Pass = (Option<ProblemResult>, seq<LlmTask>)

  /** The results and the judge tasks of the responses in order: a result for
      each response that gave one, and the tasks of all. */
  function Gather(ones: seq<Pass>): (r: (seq<ProblemResult>, seq<LlmTask>))
    ensures |r.0| <= |ones|
    ensures (forall k | 0 <= k < |ones| :: ones[k].1 == []) ==> r.1 == []
    decreases |ones|
  {
    if ones == [] then ([], [])
    else
      var n := |ones| - 1;
      var (results, tasks) := Gather(ones[..n]);
      var one := ones[n];
      assert ones[..n] + [one] == ones;
      (if one.0.Some? then results + [one.0.value] else results, tasks + one.1)
  }

  /** A score in range for every response that has one. */
  predicate PassInRange(one: Pass) {
    one.0.Some? && one.0.value.score.Some? ==> 0.0 <= one.0.value.score.value <= 1.0
  }

  /** Tasks only for a response that gave a result, and only under its id. */
  predicate TasksOwned(one: Pass) {
    forall t | t in one.1 :: one.0.Some? && t.problem == one.0.value.id
  }

  lemma {:induction false} GatherInRange(ones: seq<Pass>)
    requires forall k | 0 <= k < |ones| :: PassInRange(ones[k])
    ensures ScoresInRange(Gather(ones).0)
    decreases |ones|
  {
    if ones != [] {
      var n := |ones| - 1;
      GatherInRange(ones[..n]);
      assert PassInRange(ones[n]);
    }
  }

  lemma {:induction false} GatherOwned(ones: seq<Pass>)
    requires forall k | 0 <= k < |ones| :: TasksOwned(ones[k])
    ensures forall t | t in Gather(ones).1 :: t.problem in Ids(Gather(ones).0)
    decreases |ones|
  {
    if ones != [] {
      var n := |ones| - 1;
      GatherOwned(ones[..n]);
      var (results, tasks) := Gather(ones[..n]);
      var one := ones[n];
      assert TasksOwned(one);
      var results' := if one.0.Some? then results + [one.0.value] else results;
      assert Gather(ones) == (results', tasks + one.1);
      assert Ids(results') == Ids(results) + (if one.0.Some? then [one.0.value.id] else []);
    }
  }

  lemma {:induction false} GatherAllSome(ones: seq<Pass>)
    requires forall k | 0 <= k < |ones| :: ones[k].0.Some?
    ensures Gather(ones).0 == seq(|ones|, k requires 0 <= k < |ones| => ones[k].0.value)
    decreases |ones|
  {
    if ones != [] {
      var n := |ones| - 1;
      GatherAllSome(ones[..n]);
    }
  }

  /** What the first pass makes of each response. */
  function Passes(responses: seq<ResponseRecord>, dataset: seq<DatasetRecord>, qt: QuestionType,
                  flags: Flags, run: Run): (ones: seq<Pass>)
    ensures |ones| == |responses|
    ensures forall k | 0 <= k < |ones| :: PassInRange(ones[k]) && TasksOwned(ones[k])
    ensures !(qt == OEQ && flags.enableLlm) ==> forall k | 0 <= k < |ones| :: ones[k].1 == []
    ensures forall k | 0 <= k < |ones| :: FindRecord(dataset, responses[k].id).None? ==>
      ones[k] == (Some(Placeholder(responses[k].id)), [])
  {
    seq(|responses|, k requires 0 <= k < |responses| => FirstPassOne(responses[k], dataset, qt, flags, run))
  }

  /** The first pass over all responses, in order: the results and the judge
      tasks. */
  function FirstPass(responses: seq<ResponseRecord>, dataset: seq<DatasetRecord>, qt: QuestionType,
                     flags: Flags, run: Run): (r: (seq<ProblemResult>, seq<LlmTask>))
    ensures |r.0| <= |responses|
    ensures !(qt == OEQ && flags.enableLlm) ==> r.1 == []
  {
    Gather(Passes(responses, dataset, qt, flags, run))
  }

  /** Every score the first pass gives is a fraction in `[0, 1]`; every judge task
      belongs to a problem with a result; no tasks unless the judge is enabled for
      open-ended questions; and with no dataset record for any response, one
      placeholder per response. */
  lemma FirstPassShape(responses: seq<ResponseRecord>, dataset: seq<DatasetRecord>, qt: QuestionType,
                       flags: Flags, run: Run)
    ensures var r := FirstPass(responses, dataset, qt, flags, run);
      |r.0| <= |responses|
      && ScoresInRange(r.0)
      && (forall t | t in r.1 :: t.problem in Ids(r.0))
      && (!(qt == OEQ && flags.enableLlm) ==> r.1 == [])
      && ((forall k | 0 <= k < |responses| :: FindRecord(dataset, responses[k].id).None?) ==>
        r.0 == seq(|responses|, k requires 0 <= k < |responses| => Placeholder(responses[k].id)))
  {
    var ones := Passes(responses, dataset, qt, flags, run);
    GatherInRange(ones);
    GatherOwned(ones);
    if forall k | 0 <= k < |responses| :: FindRecord(dataset, responses[k].id).None? {
      GatherAllSome(ones);
    }
  }

  /** MCQ through `evaluate_responses` as written: every problem with an expected
      answer pairs `a` with `a`, runs the MCQ evaluator, and then the summary's
      read of `details['actual']` fails on that evaluator's own details. */
  lemma McqSummaryAlwaysFails(e: string, response: string, flags: Flags, run: Run)
    ensures var ev := EvaluateResponse([("a", e)], response, MCQ, flags, run);
      var s := ev.subResults[0].1;
      s.records != [] && s.records[0].kind == McqKind
      && McqEntryAsWritten(FirstOfKind(s.records, McqKind).value).Err?
  {
    var expected := [("a", e)];
    var x := ExtractedAnswers(MCQ, response);
    assert Keys(expected) == ["a"] && Keys(x) == ["a"];
    SameIdPaired(expected, x, "a");
  }

  /** The corrected summary reports what the MCQ evaluator read from both answers. */
  lemma McqSummaryReadsExtracted(e: string, response: string, flags: Flags, run: Run)
    ensures var ev := EvaluateResponse([("a", e)], response, MCQ, flags, run);
      var q := Summarise(MCQ, flags, "a", ev.subResults[0].1);
      var m := McqEvaluator.Evaluate(Some(e), McqEvaluator.ExtractMcqAnswer(Some(response)));
      q.evals.mcq == Some(McqEntry(FromBool(m.isCorrect), m.expected, m.extracted, None))
  {
    var expected := [("a", e)];
    var x := ExtractedAnswers(MCQ, response);
    assert Keys(expected) == ["a"] && Keys(x) == ["a"];
    SameIdPaired(expected, x, "a");
  }

  // ---------------------------------------------------------------------------
  // evaluate_responses: second pass, the LLM judge

  /** The judge: a verdict on an expected and an actual answer. */
  type Judge = (string, Option<string>) -> Judgement

  function TaskKey(t: LlmTask): (ProblemId, string) {
    (t.problem, t.subq)
  }

  predicate DistinctKeys(ts: seq<LlmTask>) {
    forall i, j | 0 <= i < j < |ts| :: TaskKey(ts[i]) != TaskKey(ts[j])
  }

  /** `unique_tasks[(problem_id, subq_id)] = task` over all tasks, then its values:
      one task per key, in the order keys first appear, each the last task queued
      under its key. */
  function DedupTasks(tasks: seq<LlmTask>): (r: seq<LlmTask>)
    ensures DistinctKeys(r)
    ensures forall i | 0 <= i < |r| :: r[i] in tasks
  {
    DedupKeyed(tasks);
    Values(FromPairs(KeyedTasks(tasks)))
  }

  /** Every kept task is stored under its own key. */
  lemma DedupKeyed(tasks: seq<LlmTask>)
    ensures var d := FromPairs(KeyedTasks(tasks));
      (forall i | 0 <= i < |d| :: d[i].0 == TaskKey(d[i].1) && d[i].1 in tasks)
      && DistinctKeys(Values(d))
      && forall i | 0 <= i < |Values(d)| :: Values(d)[i] in tasks
  {
    var pairs := KeyedTasks(tasks);
    var d := FromPairs(pairs);
    FromPairsAll(pairs, (p: ((ProblemId, string), LlmTask)) => p.0 == TaskKey(p.1) && p.1 in tasks);
    var r := Values(d);
    forall i, j | 0 <= i < j < |r| ensures TaskKey(r[i]) != TaskKey(r[j]) {
      assert Keys(d)[i] != Keys(d)[j];
    }
  }

  /** Every queued key keeps a task. */
  lemma DedupCovers(tasks: seq<LlmTask>, i: nat)
    requires i < |tasks|
    ensures exists j | 0 <= j < |DedupTasks(tasks)| :: TaskKey(DedupTasks(tasks)[j]) == TaskKey(tasks[i])
  {
    var pairs := KeyedTasks(tasks);
    var d := FromPairs(pairs);
    var r := DedupTasks(tasks);
    assert r == Values(d);
    var key := TaskKey(tasks[i]);
    assert Keys(pairs)[i] == key;
    FromPairsKeys(pairs, key);
    var j := IndexOf(d, key);
    assert d[j].0 == key;
    DedupKeyed(tasks);
    assert r[j] == d[j].1;
    assert TaskKey(r[j]) == key;
  }

  /** The task kept for a key is the last one queued under it. */
  lemma DedupLastWins(tasks: seq<LlmTask>)
    ensures var r := DedupTasks(tasks);
      forall i | 0 <= i < |tasks| :: TaskKey(tasks[i]) !in KeysOf(tasks[i + 1..]) ==> tasks[i] in r
  {
    var pairs := KeyedTasks(tasks);
    var d := FromPairs(pairs);
    var r := Values(d);
    forall i | 0 <= i < |tasks| && TaskKey(tasks[i]) !in KeysOf(tasks[i + 1..]) ensures tasks[i] in r {
      assert Keys(pairs[i + 1..]) == KeysOf(tasks[i + 1..]);
      FromPairsLastWins(pairs, i);
      assert r[IndexOf(d, TaskKey(tasks[i]))] == tasks[i];
    }
  }

  function KeysOf(ts: seq<LlmTask>): (ks: seq<(ProblemId, string)>)
    ensures |ks| == |ts| && forall i | 0 <= i < |ts| :: ks[i] == TaskKey(ts[i])
  {
    seq(|ts|, i requires 0 <= i < |ts| => TaskKey(ts[i]))
  }

  function KeyedTasks(ts: seq<LlmTask>): (ps: seq<((ProblemId, string), LlmTask)>)
    ensures |ps| == |ts| && forall i | 0 <= i < |ts| :: ps[i] == (TaskKey(ts[i]), ts[i])
  {
    seq(|ts|, i requires 0 <= i < |ts| => (TaskKey(ts[i]), ts[i]))
  }

  /** The judge run batch by batch, `parallelism` tasks at a time; the answers come
      back in task order. A parallelism of 0 fails on the batch count's division. */
  method JudgeInBatches(tasks: seq<LlmTask>, parallelism: nat, judge: Judge) returns (r: Option<seq<Judgement>>)
    ensures r.None? <==> parallelism == 0
    ensures r.Some? ==>
      |r.value| == |tasks|
      && forall i | 0 <= i < |tasks| :: r.value[i] == judge(tasks[i].expected, tasks[i].actual)
  {
    if parallelism == 0 {
      return None;
    }
    var total := |tasks|;
    var batches := (total + parallelism - 1) / parallelism;
    BatchesCover(total, parallelism);
    var all: seq<Judgement> := [];
    var b := 0;
    while b < batches
      invariant 0 <= b <= batches
      invariant |all| == if b * parallelism < total then b * parallelism else total
      invariant forall i | 0 <= i < |all| :: all[i] == judge(tasks[i].expected, tasks[i].actual)
    {
      var start := b * parallelism;
      BatchStart(total, parallelism, b);
      var end := if start + parallelism < total then start + parallelism else total;
      var batch := tasks[start..end];
      var results := seq(|batch|, i requires 0 <= i < |batch| => judge(batch[i].expected, batch[i].actual));
      all := all + results;
      assert (b + 1) * parallelism == start + parallelism;
      b := b + 1;
    }
    return Some(all);
  }

  /** The batches cover every task. */
  lemma BatchesCover(total: nat, p: nat)
    requires p > 0
    ensures ((total + p - 1) / p) * p >= total
  {
    var q := (total + p - 1) / p;
    assert q * p + (total + p - 1) % p == total + p - 1;
  }

  /** Every batch starts inside the task list. */
  lemma BatchStart(total: nat, p: nat, b: nat)
    requires p > 0 && b < (total + p - 1) / p
    ensures b * p < total
  {
    var q := (total + p - 1) / p;
    assert q * p + (total + p - 1) % p == total + p - 1;
    assert (b + 1) * p <= q * p by {
      MulMono(b + 1, q, p);
    }
  }

  lemma MulMono(a: nat, b: nat, p: nat)
    requires a <= b
    ensures a * p <= b * p
  {
  }

  /** The position of the first entry with id `id`, or the length when none has. */
  function FindFirst<T(==)>(ids: seq<T>, id: T): (k: nat)
    ensures k <= |ids|
    ensures k < |ids| ==> ids[k] == id
    ensures forall j | 0 <= j < k :: ids[j] != id
    decreases |ids|
  {
    if ids == [] then 0 else if ids[0] == id then 0 else 1 + FindFirst(ids[1..], id)
  }

  function SubqIds(qs: seq<SubqSummary>): (ids: seq<string>)
    ensures |ids| == |qs| && forall k | 0 <= k < |qs| :: ids[k] == qs[k].id
  {
    seq(|qs|, k requires 0 <= k < |qs| => qs[k].id)
  }

  /** The problem after the judge's verdict on sub-question `s`: that verdict
      replaces the provisional one, the correct count is taken again over all
      sub-questions and the score becomes its share of them; the total count is
      left as the first pass set it. */
  function Rescore(res: ProblemResult, s: nat, j: Judgement): (r: ProblemResult)
    requires s < |res.evaluation|
    ensures r.id == res.id && r.totalCount == res.totalCount
    ensures |r.evaluation| == |res.evaluation| && SubqIds(r.evaluation) == SubqIds(res.evaluation)
    ensures r.evaluation[s].verdict == j.verdict && r.evaluation[s].evals.llm == Some(EvalEntry(j.verdict, j.error))
    ensures forall t | 0 <= t < |r.evaluation| && t != s :: r.evaluation[t] == res.evaluation[t]
    ensures r.correctCount == CountVerdict(r.evaluation, Correct)
    ensures r.score == Some(Ratio(r.correctCount, |r.evaluation|)) && 0.0 <= r.score.value <= 1.0
  {
    var q := res.evaluation[s];
    var q' := q.(verdict := j.verdict, evals := q.evals.(llm := Some(EvalEntry(j.verdict, j.error))));
    var ev := res.evaluation[s := q'];
    var correct := CountVerdict(ev, Correct);
    res.(evaluation := ev, correctCount := correct, score := Some(Ratio(correct, |ev|)))
  }

  /** Writes one verdict back: into the first result with the task's problem id,
      and there into its first sub-question with the task's id; nothing changes
      when either is missing. */
  function ApplyJudgement(results: seq<ProblemResult>, t: LlmTask, j: Judgement): (r: seq<ProblemResult>)
    ensures |r| == |results| && Ids(r) == Ids(results)
    ensures forall k | 0 <= k < |r| :: |r[k].evaluation| == |results[k].evaluation|
    ensures forall k | 0 <= k < |r| ::
      r[k].totalCount == results[k].totalCount && SubqIds(r[k].evaluation) == SubqIds(results[k].evaluation)
    ensures ScoresInRange(results) ==> ScoresInRange(r)
  {
    var k := FindFirst(Ids(results), t.problem);
    if k == |results| then results
    else
      var s := FindFirst(SubqIds(results[k].evaluation), t.subq);
      if s == |results[k].evaluation| then results
      else
        var r := results[k := Rescore(results[k], s, j)];
        assert Ids(r) == Ids(results);
        r
  }

  /** Where `ApplyJudgement` writes: only into the first problem with the task's
      id, there only into its first sub-question with the task's id, and that
      sub-question takes the judge's verdict. */
  lemma JudgementWritten(results: seq<ProblemResult>, t: LlmTask, j: Judgement)
    ensures var r := ApplyJudgement(results, t, j);
      var k := FindFirst(Ids(results), t.problem);
      forall m | 0 <= m < |r| && m != k :: r[m] == results[m]
    ensures var r := ApplyJudgement(results, t, j);
      var k := FindFirst(Ids(results), t.problem);
      k < |results| ==>
        var s := FindFirst(SubqIds(results[k].evaluation), t.subq);
        forall u | 0 <= u < |r[k].evaluation| && u != s :: r[k].evaluation[u] == results[k].evaluation[u]
    ensures var r := ApplyJudgement(results, t, j);
      var k := FindFirst(Ids(results), t.problem);
      k < |results| && FindFirst(SubqIds(results[k].evaluation), t.subq) < |results[k].evaluation| ==>
        r[k].evaluation[FindFirst(SubqIds(results[k].evaluation), t.subq)].verdict == j.verdict
  {
  }

  /** All verdicts written back in task order. */
  function ApplyAll(results: seq<ProblemResult>, tasks: seq<LlmTask>, js: seq<Judgement>): (r: seq<ProblemResult>)
    requires |js| == |tasks|
    ensures |r| == |results| && Ids(r) == Ids(results)
    ensures forall k | 0 <= k < |r| ::
      r[k].totalCount == results[k].totalCount && SubqIds(r[k].evaluation) == SubqIds(results[k].evaluation)
    ensures ScoresInRange(results) ==> ScoresInRange(r)
    decreases |tasks|
  {
    if tasks == [] then results
    else
      var n := |tasks| - 1;
      ApplyJudgement(ApplyAll(results, tasks[..n], js[..n]), tasks[n], js[n])
  }

  /** The verdict of sub-question `sid` of problem `p`, found as `ApplyJudgement`
      finds it: in the first problem with that id, its first sub-question with
      that id; `None` when either is missing. */
  function VerdictAt(results: seq<ProblemResult>, p: ProblemId, sid: string): (v: Option<Verdict>)
    ensures v.Some? <==> Reaches(results, p, sid)
  {
    var k := FindFirst(Ids(results), p);
    if k == |results| then None
    else
      var s := FindFirst(SubqIds(results[k].evaluation), sid);
      if s == |results[k].evaluation| then None else Some(results[k].evaluation[s].verdict)
  }

  /** Sub-question `sid` of problem `p` is found in `results`. */
  predicate Reaches(results: seq<ProblemResult>, p: ProblemId, sid: string) {
    FindFirst(Ids(results), p) < |results|
    && FindFirst(SubqIds(results[FindFirst(Ids(results), p)].evaluation), sid)
      < |results[FindFirst(Ids(results), p)].evaluation|
  }

  /** With one task per key, every sub-question a task reaches ends with that
      task's verdict, whatever the order of the others. */
  lemma {:induction false} JudgedVerdictKept(results: seq<ProblemResult>, tasks: seq<LlmTask>, js: seq<Judgement>, i: nat)
    requires |js| == |tasks| && DistinctKeys(tasks) && i < |tasks|
    requires Reaches(results, tasks[i].problem, tasks[i].subq)
    ensures VerdictAt(ApplyAll(results, tasks, js), tasks[i].problem, tasks[i].subq) == Some(js[i].verdict)
    decreases |tasks|
  {
    var n := |tasks| - 1;
    if i < n {
      DistinctPrefix(tasks, n);
      assert tasks[..n][i] == tasks[i] && js[..n][i] == js[i];
      JudgedVerdictKept(results, tasks[..n], js[..n], i);
      EarlierKeyKept(results, tasks, js, i);
    } else {
      ReachesKept(results, tasks[..n], js[..n], tasks[n].problem, tasks[n].subq);
      LastKeptLast(results, tasks, js);
    }
  }

  /** With one task per key, the last task leaves an earlier task's sub-question
      as the tasks before it left it. */
  lemma EarlierKeyKept(results: seq<ProblemResult>, tasks: seq<LlmTask>, js: seq<Judgement>, i: nat)
    requires |js| == |tasks| && DistinctKeys(tasks) && i < |tasks| - 1
    ensures VerdictAt(ApplyAll(results, tasks, js), tasks[i].problem, tasks[i].subq)
      == VerdictAt(ApplyAll(results, tasks[..|tasks| - 1], js[..|tasks| - 1]), tasks[i].problem, tasks[i].subq)
  {
    assert TaskKey(tasks[i]) != TaskKey(tasks[|tasks| - 1]);
    KeptAfterLast(results, tasks, js, tasks[i].problem, tasks[i].subq);
  }

  /** The last verdict, for another key, leaves a sub-question as the ones before
      it left it. */
  lemma KeptAfterLast(results: seq<ProblemResult>, tasks: seq<LlmTask>, js: seq<Judgement>, p: ProblemId, sid: string)
    requires |js| == |tasks| && tasks != [] && (p, sid) != TaskKey(tasks[|tasks| - 1])
    ensures VerdictAt(ApplyAll(results, tasks, js), p, sid)
      == VerdictAt(ApplyAll(results, tasks[..|tasks| - 1], js[..|tasks| - 1]), p, sid)
  {
    var n := |tasks| - 1;
    KeptAfter(ApplyAll(results, tasks[..n], js[..n]), tasks[n], js[n], p, sid);
  }

  /** The last verdict, for a key the ones before it still reach, is the verdict
      its sub-question takes. */
  lemma LastKeptLast(results: seq<ProblemResult>, tasks: seq<LlmTask>, js: seq<Judgement>)
    requires |js| == |tasks| && tasks != []
    requires Reaches(ApplyAll(results, tasks[..|tasks| - 1], js[..|tasks| - 1]), tasks[|tasks| - 1].problem, tasks[|tasks| - 1].subq)
    ensures VerdictAt(ApplyAll(results, tasks, js), tasks[|tasks| - 1].problem, tasks[|tasks| - 1].subq) == Some(js[|tasks| - 1].verdict)
  {
    var n := |tasks| - 1;
    LastKept(ApplyAll(results, tasks[..n], js[..n]), tasks[n], js[n]);
  }

  /** Writing verdicts back finds the same sub-questions. */
  lemma ReachesKept(results: seq<ProblemResult>, tasks: seq<LlmTask>, js: seq<Judgement>, p: ProblemId, sid: string)
    requires |js| == |tasks| && Reaches(results, p, sid)
    ensures Reaches(ApplyAll(results, tasks, js), p, sid)
  {
    var r := ApplyAll(results, tasks, js);
    var k := FindFirst(Ids(results), p);
    assert SubqIds(r[k].evaluation) == SubqIds(results[k].evaluation);
  }

  /** A verdict for another key leaves a sub-question as it was. */
  lemma KeptAfter(mid: seq<ProblemResult>, t: LlmTask, j: Judgement, p: ProblemId, sid: string)
    requires (p, sid) != TaskKey(t)
    ensures VerdictAt(ApplyJudgement(mid, t, j), p, sid) == VerdictAt(mid, p, sid)
  {
    var r := ApplyJudgement(mid, t, j);
    var k := FindFirst(Ids(mid), p);
    if k < |mid| {
      assert SubqIds(r[k].evaluation) == SubqIds(mid[k].evaluation);
      if FindFirst(SubqIds(mid[k].evaluation), sid) < |mid[k].evaluation| {
        OtherTaskUntouched(mid, t, j, p, sid);
      }
    }
  }

  /** A verdict for a key that is reached is the verdict its sub-question takes. */
  lemma LastKept(mid: seq<ProblemResult>, t: LlmTask, j: Judgement)
    requires Reaches(mid, t.problem, t.subq)
    ensures VerdictAt(ApplyJudgement(mid, t, j), t.problem, t.subq) == Some(j.verdict)
  {
    var k := FindFirst(Ids(mid), t.problem);
    assert SubqIds(ApplyJudgement(mid, t, j)[k].evaluation) == SubqIds(mid[k].evaluation);
    JudgementWritten(mid, t, j);
  }

  lemma DistinctPrefix(tasks: seq<LlmTask>, n: nat)
    requires DistinctKeys(tasks) && n <= |tasks|
    ensures DistinctKeys(tasks[..n])
  {
    forall a, b | 0 <= a < b < n ensures TaskKey(tasks[..n][a]) != TaskKey(tasks[..n][b]) {
      assert tasks[..n][a] == tasks[a] && tasks[..n][b] == tasks[b];
    }
  }

  /** A verdict written for one key leaves the sub-question of every other key as
      it was. */
  lemma OtherTaskUntouched(results: seq<ProblemResult>, t: LlmTask, j: Judgement, p: ProblemId, sid: string)
    requires (p, sid) != TaskKey(t)
    requires FindFirst(Ids(results), p) < |results|
    requires var k := FindFirst(Ids(results), p);
      FindFirst(SubqIds(results[k].evaluation), sid) < |results[k].evaluation|
    ensures var k := FindFirst(Ids(results), p);
      var s := FindFirst(SubqIds(results[k].evaluation), sid);
      ApplyJudgement(results, t, j)[k].evaluation[s] == results[k].evaluation[s]
  {
    var k := FindFirst(Ids(results), p);
    JudgementWritten(results, t, j);
    if FindFirst(Ids(results), t.problem) == k {
      assert t.problem == p;
      var s := FindFirst(SubqIds(results[k].evaluation), sid);
      assert SubqIds(results[k].evaluation)[s] == sid;
    }
  }

  // ---------------------------------------------------------------------------
  // evaluate_responses: third pass, the statistics

  /** The summary written to `results.json`. */
  datatype Summary = Summary(totalQuestions: nat, averageScore: real,
                             quantity: Tally, expression: Tally, llm: Tally, mcq: Tally,
                             accuracy: Tally, pendingLlm: nat)

  /** How a problem counts in `accuracy_stats`: true for a positive score, false for
      zero, null while it has none. */
  function AccuracyVerdict(r: ProblemResult): (v: Verdict)
    ensures v.Undecided? <==> r.score.None?
    ensures v.Correct? <==> r.score.Some? && r.score.value > 0.0
  {
    match r.score
    case None => Undecided
    case Some(x) => if x > 0.0 then Correct else Incorrect
  }

  function AccuracyVerdicts(results: seq<ProblemResult>): (vs: seq<Verdict>)
    ensures |vs| == |results| && forall k | 0 <= k < |results| :: vs[k] == AccuracyVerdict(results[k])
  {
    seq(|results|, k requires 0 <= k < |results| => AccuracyVerdict(results[k]))
  }

  function ScoreOf(r: ProblemResult): real {
    match r.score
    case None => 0.0
    case Some(v) => v
  }

  /** The sum of the scores there are. */
  function ScoreSum(results: seq<ProblemResult>): (x: real)
    decreases |results|
  {
    if results == [] then 0.0
    else ScoreSum(results[..|results| - 1]) + ScoreOf(results[|results| - 1])
  }

  /** The sum of scores in `[0, 1]` is at most their number. */
  lemma {:induction false} ScoreSumBounds(results: seq<ProblemResult>)
    requires ScoresInRange(results)
    ensures 0.0 <= ScoreSum(results) <= Count(AccuracyVerdicts(results), Correct) as real
      + Count(AccuracyVerdicts(results), Incorrect) as real
    decreases |results|
  {
    if results != [] {
      var n := |results| - 1;
      assert AccuracyVerdicts(results[..n]) == AccuracyVerdicts(results)[..n];
      ScoreSumBounds(results[..n]);
    }
  }

  /** The evaluator verdicts of one kind a sub-question records. */
  function EntryVerdict(q: SubqSummary, kind: EvaluatorKind): (vs: seq<Verdict>)
    ensures |vs| <= 1
  {
    match kind
    case QuantityKind => if q.evals.quantity.Some? then [q.evals.quantity.value.verdict] else []
    case ExpressionKind => if q.evals.expression.Some? then [q.evals.expression.value.verdict] else []
    case LlmKind => if q.evals.llm.Some? then [q.evals.llm.value.verdict] else []
    case McqKind => if q.evals.mcq.Some? then [q.evals.mcq.value.verdict] else []
  }

  function SubqVerdicts(qs: seq<SubqSummary>, kind: EvaluatorKind): seq<Verdict>
    decreases |qs|
  {
    if qs == [] then [] else SubqVerdicts(qs[..|qs| - 1], kind) + EntryVerdict(qs[|qs| - 1], kind)
  }

  /** All verdicts of one evaluator kind, problem by problem, sub-question by
      sub-question. */
  function KindVerdicts(results: seq<ProblemResult>, kind: EvaluatorKind): seq<Verdict>
    decreases |results|
  {
    if results == [] then []
    else KindVerdicts(results[..|results| - 1], kind) + SubqVerdicts(results[|results| - 1].evaluation, kind)
  }

  /** Adding `us + vs` to a tally adds `us`, then `vs`. */
  lemma {:induction false} AddAllAppend(t: Tally, us: seq<Verdict>, vs: seq<Verdict>)
    ensures AddAll(t, us + vs) == AddAll(AddAll(t, us), vs)
    decreases |vs|
  {
    if vs != [] {
      var n := |vs| - 1;
      assert (us + vs)[..|us + vs| - 1] == us + vs[..n];
      AddAllAppend(t, us, vs[..n]);
    } else {
      assert us + vs == us;
    }
  }

  /** Adding verdicts one by one to an empty tally counts them. */
  lemma {:induction false} AddAllCounts(vs: seq<Verdict>)
    ensures AddAll(EmptyTally, vs) == TallyOf(vs)
    decreases |vs|
  {
    if vs != [] {
      AddAllCounts(vs[..|vs| - 1]);
    }
  }

  function AddAll(t: Tally, vs: seq<Verdict>): (r: Tally)
    ensures r.Total() == t.Total() + |vs|
    decreases |vs|
  {
    if vs == [] then t else AddAll(t, vs[..|vs| - 1]).Add(vs[|vs| - 1])
  }

  /** The counts of `evaluate_responses`' third pass. The average is over the
      problems that have a score. */
  method Statistics(results: seq<ProblemResult>) returns (s: Summary)
    requires ScoresInRange(results)
    ensures s.accuracy == TallyOf(AccuracyVerdicts(results))
    ensures s.totalQuestions == s.accuracy.trues + s.accuracy.falses
    ensures s.pendingLlm == s.accuracy.nulls
    ensures s.averageScore == Average(ScoreSum(results), s.totalQuestions)
    ensures 0.0 <= s.averageScore <= 1.0
    ensures s.quantity == TallyOf(KindVerdicts(results, QuantityKind))
    ensures s.expression == TallyOf(KindVerdicts(results, ExpressionKind))
    ensures s.llm == TallyOf(KindVerdicts(results, LlmKind))
    ensures s.mcq == TallyOf(KindVerdicts(results, McqKind))
  {
    var totalProblems, average, accuracy := AccuracySummary(results);
    var quantity := KindStatistics(results, QuantityKind);
    var expression := KindStatistics(results, ExpressionKind);
    var llm := KindStatistics(results, LlmKind);
    var mcq := KindStatistics(results, McqKind);
    s := Summary(totalProblems, average, quantity, expression, llm, mcq, accuracy, accuracy.nulls);
  }

  /** The number of scored problems, their average score and the accuracy tally. */
  method AccuracySummary(results: seq<ProblemResult>) returns (totalProblems: nat, average: real, accuracy: Tally)
    requires ScoresInRange(results)
    ensures accuracy == TallyOf(AccuracyVerdicts(results))
    ensures totalProblems == accuracy.trues + accuracy.falses
    ensures average == Average(ScoreSum(results), totalProblems)
    ensures 0.0 <= average <= 1.0
  {
    var totalScore;
    totalScore, totalProblems, accuracy := ScoreStatistics(results);
    AverageInRange(totalScore, totalProblems);
    average := Average(totalScore, totalProblems);
  }

  /** The sum and number of the scores there are, and the accuracy tally. */
  method ScoreStatistics(results: seq<ProblemResult>) returns (totalScore: real, totalProblems: nat, accuracy: Tally)
    requires ScoresInRange(results)
    ensures accuracy == TallyOf(AccuracyVerdicts(results))
    ensures totalScore == ScoreSum(results)
    ensures totalProblems == accuracy.trues + accuracy.falses
    ensures 0.0 <= totalScore <= totalProblems as real
  {
    totalScore, totalProblems, accuracy := 0.0, 0, EmptyTally;
    var k := 0;
    while k < |results|
      invariant 0 <= k <= |results|
      invariant totalScore == ScoreSum(results[..k])
      invariant accuracy == AddAll(EmptyTally, AccuracyVerdicts(results[..k]))
      invariant totalProblems == accuracy.trues + accuracy.falses
    {
      totalScore, totalProblems, accuracy := CountProblem(results, k, totalScore, totalProblems, accuracy);
      k := k + 1;
    }
    TakeAll(results);
    AddAllCounts(AccuracyVerdicts(results));
    ScoreSumBounds(results);
  }

  /** Adds problem `k` to the running sum, count and tally of the problems before it. */
  method CountProblem(results: seq<ProblemResult>, k: nat, totalScore: real, totalProblems: nat, accuracy: Tally)
    returns (totalScore': real, totalProblems': nat, accuracy': Tally)
    requires k < |results|
    requires totalScore == ScoreSum(results[..k])
    requires accuracy == AddAll(EmptyTally, AccuracyVerdicts(results[..k]))
    requires totalProblems == accuracy.trues + accuracy.falses
    ensures totalScore' == ScoreSum(results[..k + 1])
    ensures accuracy' == AddAll(EmptyTally, AccuracyVerdicts(results[..k + 1]))
    ensures totalProblems' == accuracy'.trues + accuracy'.falses
  {
    var r := results[k];
    StatisticsStep(results, k);
    totalScore', totalProblems' := totalScore, totalProblems;
    if r.score.Some? {
      totalScore' := totalScore + r.score.value;
      totalProblems' := totalProblems + 1;
    }
    accuracy' := accuracy.Add(AccuracyVerdict(r));
  }

  lemma TakeAll<T>(s: seq<T>)
    ensures s[..|s|] == s
  {
  }

  /** The tally of one evaluator kind's verdicts. */
  method KindStatistics(results: seq<ProblemResult>, kind: EvaluatorKind) returns (t: Tally)
    ensures t == TallyOf(KindVerdicts(results, kind))
  {
    t := EmptyTally;
    var k := 0;
    while k < |results|
      invariant 0 <= k <= |results|
      invariant t == AddAll(EmptyTally, KindVerdicts(results[..k], kind))
    {
      KindStep(results, k, kind);
      AddAllAppend(EmptyTally, KindVerdicts(results[..k], kind), SubqVerdicts(results[k].evaluation, kind));
      t := TallySubqs(t, results[k].evaluation, kind);
      k := k + 1;
    }
    TakeAll(results);
    AddAllCounts(KindVerdicts(results, kind));
  }

  /** `total_score / total_problems`, `0` with no problems. */
  function Average(sum: real, n: nat): (a: real)
    ensures n == 0 ==> a == 0.0
  {
    if n == 0 then 0.0 else sum / n as real
  }

  /** The average of `n` scores, each in `[0, 1]`, is in `[0, 1]` and `n` times it
      is their sum. */
  lemma AverageInRange(sum: real, n: nat)
    requires 0.0 <= sum <= n as real
    ensures 0.0 <= Average(sum, n) <= 1.0
    ensures n > 0 ==> Average(sum, n) * n as real == sum
  {
    if n > 0 {
      var a := sum / n as real;
      assert a * n as real == sum;
    }
  }

  lemma StatisticsStep(results: seq<ProblemResult>, k: nat)
    requires k < |results|
    ensures ScoreSum(results[..k + 1]) == ScoreSum(results[..k]) + ScoreOf(results[k])
    ensures AddAll(EmptyTally, AccuracyVerdicts(results[..k + 1]))
      == AddAll(EmptyTally, AccuracyVerdicts(results[..k])).Add(AccuracyVerdict(results[k]))
    ensures results[..k + 1][..k] == results[..k]
  {
    assert results[..k + 1][..k] == results[..k];
    var vs := AccuracyVerdicts(results[..k + 1]);
    assert vs[..k] == AccuracyVerdicts(results[..k]);
  }

  lemma AddAllStep(t: Tally, xs: seq<Verdict>, e: seq<Verdict>)
    requires |e| <= 1
    ensures AddAll(t, xs + e) == if e == [] then AddAll(t, xs) else AddAll(t, xs).Add(e[0])
  {
    if e == [] {
      assert xs + e == xs;
    } else {
      assert (xs + e)[..|xs|] == xs;
    }
  }

  /** The verdicts of the first `k + 1` problems: those of the first `k`, then the
      `k`-th problem's. */
  lemma KindStep(results: seq<ProblemResult>, k: nat, kind: EvaluatorKind)
    requires k < |results|
    ensures KindVerdicts(results[..k + 1], kind)
      == KindVerdicts(results[..k], kind) + SubqVerdicts(results[k].evaluation, kind)
  {
    assert results[..k + 1][..k] == results[..k];
  }

  /** Adds the verdicts of one problem's sub-questions to a running tally. */
  method TallySubqs(t: Tally, qs: seq<SubqSummary>, kind: EvaluatorKind) returns (t': Tally)
    ensures t' == AddAll(t, SubqVerdicts(qs, kind))
  {
    t' := t;
    var i := 0;
    while i < |qs|
      invariant 0 <= i <= |qs|
      invariant t' == AddAll(t, SubqVerdicts(qs[..i], kind))
    {
      assert qs[..i + 1][..i] == qs[..i];
      var e := EntryVerdict(qs[i], kind);
      AddAllStep(t, SubqVerdicts(qs[..i], kind), e);
      if e != [] {
        t' := t'.Add(e[0]);
      }
      i := i + 1;
    }
    assert qs[..i] == qs;
  }

  // ---------------------------------------------------------------------------
  // evaluate_responses: the three passes together

  /** The judge's second pass, when it runs: the queued tasks deduplicated, judged
      in batches and written back. `None` when the batch count divides by a
      parallelism of 0. */
  method SecondPass(results: seq<ProblemResult>, tasks: seq<LlmTask>, parallelism: nat, judge: Judge)
    returns (r: Option<seq<ProblemResult>>)
    requires ScoresInRange(results)
    ensures r.None? <==> parallelism == 0
    ensures r.Some? ==> Ids(r.value) == Ids(results) && ScoresInRange(r.value)
    ensures r.Some? ==> forall k | 0 <= k < |results| :: r.value[k].totalCount == results[k].totalCount
    ensures r.Some? ==> var unique := DedupTasks(tasks);
      forall i | 0 <= i < |unique| && Reaches(results, unique[i].problem, unique[i].subq) ::
        VerdictAt(r.value, unique[i].problem, unique[i].subq) == Some(judge(unique[i].expected, unique[i].actual).verdict)
  {
    var unique := DedupTasks(tasks);
    var judged := JudgeInBatches(unique, parallelism, judge);
    if judged.None? {
      return None;
    }
    var written := ApplyAll(results, unique, judged.value);
    forall i | 0 <= i < |unique| && Reaches(results, unique[i].problem, unique[i].subq)
      ensures VerdictAt(written, unique[i].problem, unique[i].subq) == Some(judge(unique[i].expected, unique[i].actual).verdict)
    {
      JudgedVerdictKept(results, unique, judged.value, i);
    }
    return Some(written);
  }

  /** `evaluate_responses` without its files: the first pass; the judge's pass for
      open-ended questions with the judge enabled and something queued; then the
      statistics over the final results. `None` only when the judge's pass is
      needed and the parallelism is 0. */
  method EvaluateResponses(responses: seq<ResponseRecord>, dataset: seq<DatasetRecord>, qt: QuestionType,
                           flags: Flags, run: Run, judge: Judge, parallelism: nat)
    returns (r: Option<(seq<ProblemResult>, Summary)>)
    ensures var first := FirstPass(responses, dataset, qt, flags, run);
      r.None? <==> first.1 != [] && parallelism == 0
    ensures var first := FirstPass(responses, dataset, qt, flags, run);
      r.Some? ==> Ids(r.value.0) == Ids(first.0) && ScoresInRange(r.value.0)
    ensures r.Some? && !(qt == OEQ && flags.enableLlm) ==> r.value.0 == FirstPass(responses, dataset, qt, flags, run).0
    ensures var first := FirstPass(responses, dataset, qt, flags, run);
      var unique := DedupTasks(first.1);
      r.Some? ==> forall i | 0 <= i < |unique| && Reaches(first.0, unique[i].problem, unique[i].subq) ::
        VerdictAt(r.value.0, unique[i].problem, unique[i].subq) == Some(judge(unique[i].expected, unique[i].actual).verdict)
    ensures r.Some? ==> r.value.1.accuracy == TallyOf(AccuracyVerdicts(r.value.0))
    ensures r.Some? ==> r.value.1.totalQuestions == r.value.1.accuracy.trues + r.value.1.accuracy.falses
    ensures r.Some? ==> 0.0 <= r.value.1.averageScore <= 1.0
  {
    var first := FirstPass(responses, dataset, qt, flags, run);
    FirstPassShape(responses, dataset, qt, flags, run);
    var results := first.0;
    if qt == OEQ && flags.enableLlm && first.1 != [] {
      var judged := SecondPass(first.0, first.1, parallelism, judge);
      if judged.None? {
        return None;
      }
      results := judged.value;
    }
    var summary := Statistics(results);
    return Some((results, summary));
  }
}
