/** The tri-state verdict every evaluator reports (`True`, `False` or `None` in
    `is_correct`), and the true/false/null tallies the reports keep of them. */
module Verdicts {
  import opened Wrappers

  /** `True`, `False`, or `None` (undecided: the evaluator could not judge). */
  datatype Verdict = Correct | Incorrect | Undecided

  function FromBool(b: bool): (v: Verdict)
    ensures v.Correct? <==> b
    ensures !v.Undecided?
  {
    if b then Correct else Incorrect
  }

  /** An evaluator's answer: its verdict and the `error` text of its details. */
  datatype Judgement = Judgement(verdict: Verdict, error: Option<string>)

  /** `is_correct` with an `error` text: `None` (undecided) exactly when there is
      an error. */
  function Decided(b: bool): (j: Judgement)
    ensures j.verdict == FromBool(b) && j.error.None?
  {
    Judgement(FromBool(b), None)
  }

  function Failed(message: string): (j: Judgement)
    ensures j.verdict.Undecided? && j.error == Some(message)
  {
    Judgement(Undecided, Some(message))
  }

  /** What `evaluator.evaluate(expected, actual)` did: returned a judgement, or
      raised an exception with this message. */
  datatype Outcome = Returned(judgement: Judgement) | Raised(message: string)

  /** A `{'true': .., 'false': .., 'null': ..}` tally. */
  datatype Tally = Tally(trues: nat, falses: nat, nulls: nat)
  {
    function Total(): nat {
      trues + falses + nulls
    }

    /** Counts one more verdict, as `is True` / `is False` / otherwise does. */
    function Add(v: Verdict): (t: Tally)
      ensures t.Total() == Total() + 1
      ensures t.trues == trues + (if v.Correct? then 1 else 0)
      ensures t.falses == falses + (if v.Incorrect? then 1 else 0)
      ensures t.nulls == nulls + (if v.Undecided? then 1 else 0)
    {
      match v
      case Correct => Tally(trues + 1, falses, nulls)
      case Incorrect => Tally(trues, falses + 1, nulls)
      case Undecided => Tally(trues, falses, nulls + 1)
    }
  }

  const EmptyTally := Tally(0, 0, 0)

  /** The number of verdicts equal to `v`. */
  function Count(vs: seq<Verdict>, v: Verdict): (n: nat)
    ensures n <= |vs|
    decreases |vs|
  {
    if vs == [] then 0 else Count(vs[..|vs| - 1], v) + (if vs[|vs| - 1] == v then 1 else 0)
  }

  /** Tallies a list of verdicts one by one. */
  function TallyOf(vs: seq<Verdict>): (t: Tally)
    ensures t.Total() == |vs|
    ensures t.trues == Count(vs, Correct)
    ensures t.falses == Count(vs, Incorrect)
    ensures t.nulls == Count(vs, Undecided)
    decreases |vs|
  {
    if vs == [] then EmptyTally else TallyOf(vs[..|vs| - 1]).Add(vs[|vs| - 1])
  }

  /** The three counts add up to the number of verdicts. */
  lemma {:induction false} CountsPartition(vs: seq<Verdict>)
    ensures Count(vs, Correct) + Count(vs, Incorrect) + Count(vs, Undecided) == |vs|
    decreases |vs|
  {
    if vs != [] {
      CountsPartition(vs[..|vs| - 1]);
    }
  }

  lemma {:induction false} CountAppend(a: seq<Verdict>, b: seq<Verdict>, v: Verdict)
    ensures Count(a + b, v) == Count(a, v) + Count(b, v)
    decreases |b|
  {
    if b == [] {
      assert a + b == a;
    } else {
      assert (a + b)[..|a + b| - 1] == a + b[..|b| - 1];
      CountAppend(a, b[..|b| - 1], v);
    }
  }

  /** `correct / total` as the score of a problem, `0` when there is nothing to
      count. */
  function Ratio(correct: nat, total: nat): (r: real)
    ensures total == 0 ==> r == 0.0
    ensures total > 0 ==> r * total as real == correct as real
    ensures correct <= total ==> 0.0 <= r <= 1.0
  {
    if total == 0 then 0.0 else correct as real / total as real
  }
}
