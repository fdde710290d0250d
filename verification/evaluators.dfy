/** The evaluators `evaluate_response` lines up, put together as the `Run` the
    pipeline is given: the quantity and expression evaluators with their foreign
    parts, and the LLM judge as an oracle. */
module Evaluators {
  import opened Wrappers
  import opened Verdicts
  import opened Evaluate
  import QuantityEvaluator
  import ExpressionEvaluator
  import Text

  /** The foreign parts of the evaluators, and the LLM judge's `evaluate`. */
  datatype Backends = Backends(
    quantity: QuantityEvaluator.QuantityLib,
    expression: ExpressionEvaluator.ExpressionLib,
    judge: (string, Option<string>) -> Outcome)

  /** The text a gate sees: a missing answer fails both gates exactly as the
      empty text does (`if not latex_expr ...: return False`). */
  function TextOf(a: Option<string>): (t: string)
    ensures a.Some? ==> t == a.value
    ensures a.None? ==> t == []
  {
    if a.Some? then a.value else []
  }

  /** `evaluator.evaluate(expected, actual)` for the evaluators built with
      tolerance `tol`. The MCQ evaluator is not reached through `Run`. */
  function Dispatch(tol: real, b: Backends, kind: EvaluatorKind, e: string, a: Option<string>): Outcome {
    match kind
    case QuantityKind => Returned(QuantityEvaluator.Evaluate(e, TextOf(a), tol, b.quantity))
    case ExpressionKind => ExpressionEvaluator.Evaluate(e, TextOf(a), tol, b.expression)
    case LlmKind => b.judge(e, a)
    case McqKind => Returned(Decided(false))
  }

  function RunOf(tol: real, b: Backends): Run {
    (kind, e, a) => Dispatch(tol, b, kind, e, a)
  }

  /** An actual answer that passes neither gate is undecided (never wrong) for the
      quantity and expression evaluators. */
  lemma GatesGiveUndecided(tol: real, b: Backends, e: string, a: Option<string>, kind: EvaluatorKind)
    requires kind == QuantityKind || kind == ExpressionKind
    requires !QuantityEvaluator.IsValidQuantity(TextOf(a)) && !ExpressionEvaluator.IsValidLatex(TextOf(a))
    ensures Record(kind, e, a, RunOf(tol, b)).verdict == Undecided
  {
  }

  /** Without the LLM judge in the chain, an actual answer that passes neither
      gate is never accepted: every evaluator of the chain runs and each leaves an
      undecided record. */
  lemma InvalidAnswerNeverAccepted(flags: Flags, tol: real, b: Backends, e: string, a: Option<string>)
    requires !flags.enableLlm || flags.llmBatch
    requires !QuantityEvaluator.IsValidQuantity(TextOf(a)) && !ExpressionEvaluator.IsValidLatex(TextOf(a))
    ensures var r := RunChain(Chain(OEQ, flags), e, a, RunOf(tol, b));
      !r.1 && forall i | 0 <= i < |r.0| :: r.0[i].verdict == Undecided
  {
    var chain := Chain(OEQ, flags);
    forall i | 0 <= i < |chain|
      ensures Record(chain[i], e, a, RunOf(tol, b)).verdict == Undecided
    {
      assert chain[i] in chain;
      GatesGiveUndecided(tol, b, e, a, chain[i]);
    }
    ChainAccepts(chain, e, a, RunOf(tol, b));
  }

  /** The quantity gate is the narrower one: every text it admits passes the
      LaTeX gate, through the digit it must hold. */
  lemma QuantityGateWithinLatexGate(t: string)
    requires QuantityEvaluator.IsValidQuantity(t)
    ensures ExpressionEvaluator.IsValidLatex(t)
  {
    var i :| 0 <= i < |t| && Text.IsDigit(t[i]);
  }

  /** A missing answer fails both gates. */
  lemma MissingAnswerFailsGates()
    ensures !QuantityEvaluator.IsValidQuantity(TextOf(None))
    ensures !ExpressionEvaluator.IsValidLatex(TextOf(None))
  {
  }
}
