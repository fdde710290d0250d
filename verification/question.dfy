/** The deterministic rules of the question generator: the seed a question instance
    starts from, granularity-scaled sampling, the bounded search for a variable set
    that satisfies the constraints, and the four options with their letter. Python's
    `random` is an oracle: a sample is given as a raw draw, an attempt's variables
    as a candidate, a shuffle as a permutation. */
module Question {
  import opened Wrappers
  import opened Text

  // ---------------------------------------------------------------------------
  // Seed derivation

  /** The seed of a question built without one. */
  const DefaultSeed: int := 100

  /** The seed `random` is seeded with, and whether the question keeps its default
      variables (the original question). */
  datatype Start = Start(seed: int, original: bool)

  /** `unique_id[1:]`: the id without its leading letter. */
  function IdNumberText(uniqueId: string): (t: string)
    ensures |uniqueId| > 0 ==> [uniqueId[0]] + t == uniqueId
    ensures |uniqueId| == 0 ==> t == []
  {
    if |uniqueId| == 0 then [] else uniqueId[1..]
  }

  /** `Question.__init__`: the base seed is the given one, or 100 for the original
      question; it is then raised by the square of `int(unique_id[1:])`. `None`
      stands for the `ValueError` of an id whose tail is not an integer. */
  function InitialSeed(uniqueId: string, seed: Option<int>): (r: Option<Start>)
    ensures r.Some? <==> ParsePyInt(IdNumberText(uniqueId)).Some?
    ensures r.Some? ==> (r.value.original <==> seed.None?)
    ensures r.Some? ==> (
      var n := ParsePyInt(IdNumberText(uniqueId)).value;
      r.value.seed == seed.GetOr(DefaultSeed) + Square(n)
      && r.value.seed >= seed.GetOr(DefaultSeed))
  {
    match ParsePyInt(IdNumberText(uniqueId)) {
      case None => None
      case Some(n) => Some(Start(seed.GetOr(DefaultSeed) + Square(n), seed.None?))
    }
  }

  /** `n**2`. */
  function Square(n: int): (s: nat)
    ensures s == n * n
  {
    SquareNonNegative(n);
    n * n
  }

  lemma SquareNonNegative(n: int)
    ensures n * n >= 0
  {
    if n < 0 {
      assert n * n == (-n) * (-n);
    }
  }

  /** The id of question `n` in instance `idx`: `q{n}_{idx}`. */
  function InstanceId(n: nat, idx: nat): (id: string)
    ensures IdNumberText(id) == NatToString(n) + "_" + NatToString(idx)
  {
    var id := "q" + NatToString(n) + "_" + NatToString(idx);
    assert id[1..] == NatToString(n) + "_" + NatToString(idx);
    id
  }

  /** `int()` reads the `_` of an instance id as a digit separator: the tail of
      `q{n}_{idx}` is the number whose digits are those of `n` followed by those of
      `idx`. */
  lemma UnderscoreGrouping(n: nat, idx: nat)
    ensures ParsePyInt(IdNumberText(InstanceId(n, idx))) == Some(Concatenated(n, idx) as int)
  {
    var a := NatToString(n);
    var b := NatToString(idx);
    assert IdNumberText(InstanceId(n, idx)) == a + "_" + b;
    GroupedParse(a, b);
  }

  /** The number written with the digits of `n` followed by those of `idx`. */
  function Concatenated(n: nat, idx: nat): (v: nat)
    ensures v == n * Pow10(|NatToString(idx)|) + idx
  {
    var a := NatToString(n);
    var b := NatToString(idx);
    DigitsValueAppend(a, b);
    DigitsValue(a + b)
  }

  /** `int(a + "_" + b)` for two digit strings reads the digits of both. */
  lemma GroupedParse(a: string, b: string)
    requires |a| > 0 && |b| > 0 && AllDigits(a) && AllDigits(b)
    ensures AllDigits(a + b)
    ensures ParsePyInt(a + "_" + b) == Some(DigitsValue(a + b) as int)
  {
    var s := a + "_" + b;
    assert s[0] == a[0] && s[|s| - 1] == b[|b| - 1];
    GroupedUnderscored(a, b);
    ParseUnsigned(s);
    GroupedRemove(a, b);
  }

  /** `int(s)` for digit groups without sign or surrounding space. */
  lemma ParseUnsigned(s: string)
    requires IsUnderscoredDigits(s)
    ensures ParsePyInt(s) == Some(DigitsValue(RemoveUnderscores(s)) as int)
  {
    StripNoSpace(s);
    assert s[0] != '-' && s[0] != '+';
  }

  lemma GroupedRemove(a: string, b: string)
    requires AllDigits(a) && AllDigits(b)
    ensures RemoveUnderscores(a + "_" + b) == a + b
  {
    var u := "_" + b;
    forall i | 0 <= i < |u|
      ensures IsDigit(u[i]) || u[i] == '_'
    {
      if i > 0 {
        assert u[i] == b[i - 1];
      }
    }
    RemoveUnderscoresAppend(a, u);
    assert u[1..] == b;
    assert a + "_" + b == a + u;
  }

  lemma GroupedUnderscored(a: string, b: string)
    requires |a| > 0 && |b| > 0 && AllDigits(a) && AllDigits(b)
    ensures IsUnderscoredDigits(a + "_" + b)
  {
    var s := a + "_" + b;
    forall i | 0 <= i < |s|
      ensures IsDigit(s[i]) || s[i] == '_'
    {
      if i > |a| {
        assert s[i] == b[i - |a| - 1];
      }
    }
    forall i | 0 <= i < |s| - 1
      ensures !(s[i] == '_' && s[i + 1] == '_')
    {
      if i == |a| {
        assert s[i + 1] == b[0];
      } else if i > |a| {
        assert s[i] == b[i - |a| - 1];
      }
    }
  }

  lemma {:induction false} RemoveUnderscoresAppend(x: string, y: string)
    requires forall i | 0 <= i < |x| :: IsDigit(x[i]) || x[i] == '_'
    requires forall i | 0 <= i < |y| :: IsDigit(y[i]) || y[i] == '_'
    ensures RemoveUnderscores(x + y) == RemoveUnderscores(x) + RemoveUnderscores(y)
    decreases |x|
  {
    if x == [] {
      assert x + y == y;
    } else {
      assert (x + y)[1..] == x[1..] + y;
      RemoveUnderscoresAppend(x[1..], y);
    }
  }

  lemma {:induction false} DigitsValueAppend(a: string, b: string)
    requires AllDigits(a) && AllDigits(b)
    ensures AllDigits(a + b)
    ensures DigitsValue(a + b) == DigitsValue(a) * Pow10(|b|) + DigitsValue(b)
    decreases |b|
  {
    if b == [] {
      assert a + b == a;
    } else {
      var b' := b[..|b| - 1];
      assert (a + b)[..|a + b| - 1] == a + b';
      DigitsValueAppend(a, b');
      assert DigitsValue(a) * Pow10(|b|) == DigitsValue(a) * Pow10(|b'|) * 10;
    }
  }

  // ---------------------------------------------------------------------------
  // Granularity-scaled sampling

  /** Python's `int(x)` on a float: truncation toward zero. */
  function Trunc(x: real): (k: int)
    ensures x >= 0.0 ==> 0 <= k && k as real <= x < k as real + 1.0
    ensures x < 0.0 ==> k <= 0 && k as real - 1.0 < x <= k as real
  {
    if x >= 0.0 then x.Floor else -((-x).Floor)
  }

  /** What `_generate_random_value` raises: a non-positive granularity, or the
      empty range `randint` refuses. */
  datatype SampleError = BadGranularity | EmptyRange(low: int, high: int)

  function Scaled(k: int, granularity: real): real {
    k as real * granularity
  }

  /** `random.randint(low, high)` for a raw draw of the generator. */
  function RandInt(low: int, high: int, draw: nat): (k: int)
    requires low <= high
    ensures low <= k <= high
  {
    low + draw % (high - low + 1)
  }

  /** `_generate_random_value` with `PRECISION == "preset"`: a random multiple of
      the granularity, whose factor lies between the truncated scaled bounds. */
  function Sample(low: real, high: real, granularity: real, draw: nat): (r: Result<real, SampleError>)
    ensures r == Err(BadGranularity) <==> granularity <= 0.0
    ensures r.Err? && granularity > 0.0 ==> Trunc(high / granularity) < Trunc(low / granularity)
    ensures r.Ok? ==> (
      granularity > 0.0
      && exists k: int | Trunc(low / granularity) <= k <= Trunc(high / granularity)
           :: r.value == Scaled(k, granularity))
  {
    if granularity <= 0.0 then Err(BadGranularity)
    else
      var lo := Trunc(low / granularity);
      var hi := Trunc(high / granularity);
      if lo > hi then Err(EmptyRange(lo, hi))
      else
        var k := RandInt(lo, hi, draw);
        Ok(Scaled(k, granularity))
  }

  /** When both bounds are multiples of the granularity, every sample lies between
      them. */
  lemma SampleWithinBounds(a: int, b: int, granularity: real, draw: nat)
    requires granularity > 0.0 && a <= b
    ensures Sample(Scaled(a, granularity), Scaled(b, granularity), granularity, draw).Ok?
    ensures (
      var v := Sample(Scaled(a, granularity), Scaled(b, granularity), granularity, draw).value;
      Scaled(a, granularity) <= v <= Scaled(b, granularity))
  {
    DivScaled(a, granularity);
    DivScaled(b, granularity);
    var k := RandInt(a, b, draw);
    ScaledMonotone(a, k, granularity);
    ScaledMonotone(k, b, granularity);
  }

  lemma DivScaled(a: int, g: real)
    requires g > 0.0
    ensures Trunc(Scaled(a, g) / g) == a
  {
    assert Scaled(a, g) / g == a as real;
  }

  lemma ScaledMonotone(j: int, k: int, g: real)
    requires j <= k && g > 0.0
    ensures Scaled(j, g) <= Scaled(k, g)
  {
    assert Scaled(k, g) - Scaled(j, g) == (k - j) as real * g;
  }

  /** A lower bound that is not a multiple of the granularity can be undershot:
      with bounds 0.5 and 1.0 and granularity 0.3 the factor ranges over 1..3, so
      0.3 can be drawn. */
  lemma SampleBelowLowerBound()
    ensures Sample(0.5, 1.0, 0.3, 0) == Ok(0.3)
  {
    assert 0.5 / 0.3 == 5.0 / 3.0;
    assert 1.0 / 0.3 == 10.0 / 3.0;
    assert Trunc(5.0 / 3.0) == 1;
    assert Trunc(10.0 / 3.0) == 3;
  }

  // ---------------------------------------------------------------------------
  // The bounded search for valid variables

  /** The number of attempts `_generate_valid_variables` makes. */
  const Attempts: nat := 1000

  /** The message of the `RuntimeError` raised when every attempt fails. It says
      100 although 1000 attempts are made. */
  const ExhaustedMessage: string := "Unable to generate valid variables after 100 attempts."

  /** How a search ends: the variables found and the attempt that found them, an
      exception that escaped (from generating an attempt's variables or from a
      custom constraint), or the `RuntimeError` after the last attempt. */
  datatype Generation<V> = Generated(vars: V, attempt: nat) | Raised(message: string) | Exhausted

  /** A custom constraint: it holds, fails, or raises. */
  type Constraint<!V, !A> = (V, A) -> Result<bool, string>

  /** `all(constraint(result, res) for constraint in custom_constraints)` from
      constraint `k` on: the constraints are called in order until one fails, and
      an exception from one escapes `all`. */
  function AllConstraints<V, A>(v: V, a: A, cs: seq<Constraint<V, A>>, k: nat): (r: Result<bool, string>)
    requires k <= |cs|
    ensures r == Ok(true) <==> forall j | k <= j < |cs| :: cs[j](v, a) == Ok(true)
    ensures r == Ok(false) ==> exists j | k <= j < |cs| ::
      cs[j](v, a) == Ok(false) && forall h | k <= h < j :: cs[h](v, a) == Ok(true)
    ensures r.Err? ==> exists j | k <= j < |cs| ::
      cs[j](v, a) == Err(r.error) && forall h | k <= h < j :: cs[h](v, a) == Ok(true)
    decreases |cs| - k
  {
    if k == |cs| then Ok(true)
    else
      match cs[k](v, a) {
        case Err(m) => Err(m)
        case Ok(b) => if b then AllConstraints(v, a, cs, k + 1) else Ok(false)
      }
  }

  /** `calculate(**result)` did not throw and every custom constraint holds. */
  predicate Accepted<V, A>(v: V, calculate: V -> Result<A, string>, constraints: seq<Constraint<V, A>>) {
    calculate(v).Ok? && AllConstraints(v, calculate(v).value, constraints, 0) == Ok(true)
  }

  /** Attempt `i` ends the search with the exception `m`: generating its
      variables raised `m`, or `calculate` went through and a constraint raised
      `m` before any constraint failed. */
  predicate RaisesAt<V, A>(i: nat, candidate: nat -> Result<V, string>,
                           calculate: V -> Result<A, string>, constraints: seq<Constraint<V, A>>, m: string) {
    candidate(i) == Err(m)
    || (candidate(i).Ok? && calculate(candidate(i).value).Ok?
        && AllConstraints(candidate(i).value, calculate(candidate(i).value).value, constraints, 0) == Err(m))
  }

  /** Attempt `i` rejected: its variables were generated, and `calculate` raised
      or a constraint failed before any raised. */
  predicate Rejected<V, A>(i: nat, candidate: nat -> Result<V, string>,
                           calculate: V -> Result<A, string>, constraints: seq<Constraint<V, A>>) {
    candidate(i).Ok?
    && (calculate(candidate(i).value).Err?
        || AllConstraints(candidate(i).value, calculate(candidate(i).value).value, constraints, 0) == Ok(false))
  }

  /** The search from attempt `i` on, as a recursive definition. */
  function SearchFrom<V, A>(i: nat, candidate: nat -> Result<V, string>,
                            calculate: V -> Result<A, string>, constraints: seq<Constraint<V, A>>): (g: Generation<V>)
    requires i <= Attempts
    ensures g.Generated? ==> (
      i <= g.attempt < Attempts && candidate(g.attempt) == Ok(g.vars)
      && Accepted(g.vars, calculate, constraints)
      && forall j | i <= j < g.attempt :: Rejected(j, candidate, calculate, constraints))
    ensures g.Raised? ==> exists j | i <= j < Attempts :: (
      RaisesAt(j, candidate, calculate, constraints, g.message)
      && forall j' | i <= j' < j :: Rejected(j', candidate, calculate, constraints))
    ensures g.Exhausted? <==> forall j | i <= j < Attempts :: Rejected(j, candidate, calculate, constraints)
    decreases Attempts - i
  {
    if i == Attempts then Exhausted
    else
      match candidate(i) {
        case Err(m) =>
          assert !Rejected(i, candidate, calculate, constraints);
          assert RaisesAt(i, candidate, calculate, constraints, m);
          Raised(m)
        case Ok(v) =>
          if calculate(v).Err? then SearchFrom(i + 1, candidate, calculate, constraints)
          else
            match AllConstraints(v, calculate(v).value, constraints, 0) {
              case Err(m) =>
                assert !Rejected(i, candidate, calculate, constraints);
                assert RaisesAt(i, candidate, calculate, constraints, m);
                Raised(m)
              case Ok(b) =>
                if b then
                  assert !Rejected(i, candidate, calculate, constraints);
                  Generated(v, i)
                else SearchFrom(i + 1, candidate, calculate, constraints)
            }
      }
  }

  /** `_generate_valid_variables`: attempt after attempt, the first accepted
      variable set; an exception while generating an attempt's variables or from
      a custom constraint escapes, one from `calculate` only skips the attempt. */
  method GenerateValid<V, A>(candidate: nat -> Result<V, string>,
                             calculate: V -> Result<A, string>, constraints: seq<Constraint<V, A>>)
      returns (g: Generation<V>)
    ensures g == SearchFrom(0, candidate, calculate, constraints)
    ensures g.Generated? ==> g.attempt < Attempts && Accepted(g.vars, calculate, constraints)
  {
    var i: nat := 0;
    while i < Attempts
      invariant i <= Attempts
      invariant SearchFrom(0, candidate, calculate, constraints) == SearchFrom(i, candidate, calculate, constraints)
    {
      match candidate(i) {
        case Err(m) =>
          return Raised(m);
        case Ok(v) =>
          var res := calculate(v);
          if res.Ok? {
            var verdict := AllConstraints(v, res.value, constraints, 0);
            if verdict.Err? {
              return Raised(verdict.error);
            } else if verdict.value {
              return Generated(v, i);
            }
          }
      }
      i := i + 1;
    }
    return Exhausted;
  }

  /** A constraint that raises does not skip the attempt: on the first attempt,
      with `calculate` going through, its exception ends the search. */
  lemma RaisingConstraintEscapes<V, A>(candidate: nat -> Result<V, string>, calculate: V -> Result<A, string>,
                                       constraints: seq<Constraint<V, A>>, k: nat, m: string)
    requires candidate(0).Ok? && calculate(candidate(0).value).Ok?
    requires k < |constraints|
    requires constraints[k](candidate(0).value, calculate(candidate(0).value).value) == Err(m)
    requires forall h | 0 <= h < k :: constraints[h](candidate(0).value, calculate(candidate(0).value).value) == Ok(true)
    ensures SearchFrom(0, candidate, calculate, constraints) == Raised(m)
  {
    var v := candidate(0).value;
    var a := calculate(v).value;
    RaisingConstraintFirst(v, a, constraints, 0, k, m);
  }

  lemma {:induction false} RaisingConstraintFirst<V, A>(v: V, a: A, cs: seq<Constraint<V, A>>, i: nat, k: nat, m: string)
    requires i <= k < |cs| && cs[k](v, a) == Err(m)
    requires forall h | i <= h < k :: cs[h](v, a) == Ok(true)
    ensures AllConstraints(v, a, cs, i) == Err(m)
    decreases k - i
  {
    if i < k {
      RaisingConstraintFirst(v, a, cs, i + 1, k, m);
    }
  }

  /** The search fails with the `RuntimeError` exactly when all 1000 attempts are
      generated and rejected. */
  lemma ExhaustedOnlyAfterAllAttempts<V, A>(candidate: nat -> Result<V, string>,
                                             calculate: V -> Result<A, string>, constraints: seq<Constraint<V, A>>)
    ensures SearchFrom(0, candidate, calculate, constraints).Exhausted?
        <==> forall j | 0 <= j < Attempts :: Rejected(j, candidate, calculate, constraints)
  {
  }

  // ---------------------------------------------------------------------------
  // Options

  /** The answer operations `options()` relies on, from `answer.py` (not part of
      this model): `str`, multiplication by an integer and `==`. */
  datatype AnswerOps<!A> = AnswerOps(show: A -> string, times: (A, nat) -> A, same: (A, A) -> bool)

  /** `_verify_distracted_answer`: the answer's text is not among the earlier
      options' texts. (Its other test, `str(answer) == 0`, compares a string with
      an integer and is never true.) */
  predicate Fresh<A>(earlier: seq<A>, x: A, show: A -> string) {
    forall k | 0 <= k < |earlier| :: show(earlier[k]) != show(x)
  }

  /** A distractor: the computed answer when it was computed and is fresh,
      otherwise the correct answer times `rate`. */
  function Distractor<A>(earlier: seq<A>, computed: Result<A, string>, correct: A, rate: nat, ops: AnswerOps<A>): (d: A)
    ensures (
      (computed.Ok? && Fresh(earlier, computed.value, ops.show) && d == computed.value)
      || (!(computed.Ok? && Fresh(earlier, computed.value, ops.show)) && d == ops.times(correct, rate)))
  {
    if computed.Ok? && Fresh(earlier, computed.value, ops.show) then computed.value else ops.times(correct, rate)
  }

  /** A shuffle of `n` positions: position `k` receives the element at `perm[k]`. */
  predicate IsPermutation(perm: seq<nat>, n: nat) {
    |perm| == n
    && (forall k | 0 <= k < n :: perm[k] < n)
    && (forall j, k | 0 <= j < k < n :: perm[j] != perm[k])
  }

  /** Four distinct positions below four hit every position. */
  lemma ShuffleHits(perm: seq<nat>, x: nat)
    requires IsPermutation(perm, 4) && x < 4
    ensures exists k | 0 <= k < 4 :: perm[k] == x
  {
    assert perm[0] < 4 && perm[1] < 4 && perm[2] < 4 && perm[3] < 4;
  }

  /** `options.index(correct_answer)`: `list.index` compares by identity first,
      so the position the correct answer itself was shuffled to stops the search,
      unless an earlier option compares equal to it. */
  function CorrectIndex<A>(shuffled: seq<A>, perm: seq<nat>, correct: A, same: (A, A) -> bool, k: nat): (i: nat)
    requires |perm| == |shuffled| && k <= |perm|
    requires exists j | k <= j < |perm| :: perm[j] == 0
    ensures k <= i < |shuffled| && (perm[i] == 0 || same(shuffled[i], correct))
    ensures forall j | k <= j < i :: perm[j] != 0 && !same(shuffled[j], correct)
    decreases |perm| - k
  {
    if perm[k] == 0 || same(shuffled[k], correct) then k
    else CorrectIndex(shuffled, perm, correct, same, k + 1)
  }

  /** The memoised result of `options()`: the four shuffled options and the
      letter of the correct one. */
  datatype SavedOptions<A> = SavedOptions(options: seq<A>, correctOption: char)

  /** The four options before the shuffle: correct, diffused (×2 fallback),
      confused (×3), random (×4). */
  function Unshuffled<A>(correct: A, diffused: Result<A, string>, confused: Result<A, string>,
                         random: A, ops: AnswerOps<A>): (opts: seq<A>)
    ensures |opts| == 4 && opts[0] == correct
  {
    var d := Distractor([correct], diffused, correct, 2, ops);
    var c := Distractor([correct, d], confused, correct, 3, ops);
    var r := Distractor([correct, d, c], Ok(random), correct, 4, ops);
    [correct, d, c, r]
  }

  /** `options()` when nothing is saved yet. `correct` is `self.answer()`;
      `diffused` is the diffused distractor's computation, the shuffle that gives
      up after 20 tries included, and `confused` the call of `self.answer` on the
      confused variables: an exception in either is caught. `scaling` is the
      exception, if any, from multiplying the confused variables by their factors,
      which runs outside the `try` and escapes; `random` is the random
      distractor's search and `calculate`, whose exception escapes, as does one
      from `self.answer()`. `perm` is the final `random.shuffle`. */
  function BuildOptions<A>(correct: Result<A, string>, diffused: Result<A, string>, scaling: Option<string>,
                           confused: Result<A, string>, random: Result<A, string>, perm: seq<nat>,
                           ops: AnswerOps<A>): (r: Result<SavedOptions<A>, string>)
    requires IsPermutation(perm, 4)
    ensures r.Err? <==> correct.Err? || scaling.Some? || random.Err?
    ensures correct.Err? ==> r == Err(correct.error)
    ensures correct.Ok? && scaling.Some? ==> r == Err(scaling.value)
    ensures correct.Ok? && scaling.None? && random.Err? ==> r == Err(random.error)
    ensures r.Ok? ==> (
      var opts := Unshuffled(correct.value, diffused, confused, random.value, ops);
      var shown := r.value.options;
      var letter := r.value.correctOption as int - 'A' as int;
      |shown| == 4
      && (forall k | 0 <= k < 4 :: shown[k] == opts[perm[k]])
      && 0 <= letter < 4
      && (perm[letter] == 0 || ops.same(shown[letter], correct.value))
      && forall j | 0 <= j < letter :: perm[j] != 0 && !ops.same(shown[j], correct.value))
  {
    if correct.Err? then Err(correct.error)
    else if scaling.Some? then Err(scaling.value)
    else if random.Err? then Err(random.error)
    else
      var opts := Unshuffled(correct.value, diffused, confused, random.value, ops);
      var shown := seq(4, k requires 0 <= k < 4 => opts[perm[k]]);
      ShuffleHits(perm, 0);
      var i := CorrectIndex(shown, perm, correct.value, ops.same, 0);
      Ok(SavedOptions(shown, ('A' as int + i) as char))
  }

  /** The correct answer is one of the shown options: under the correct letter
      sits the correct answer itself or one equal to it. */
  lemma CorrectLetterShowsCorrect<A>(correct: Result<A, string>, diffused: Result<A, string>, scaling: Option<string>,
                                     confused: Result<A, string>, random: Result<A, string>, perm: seq<nat>,
                                     ops: AnswerOps<A>)
    requires IsPermutation(perm, 4) && correct.Ok? && scaling.None? && random.Ok?
    requires forall x :: ops.same(x, x)
    ensures (
      var r := BuildOptions(correct, diffused, scaling, confused, random, perm, ops);
      r.Ok? && 'A' <= r.value.correctOption <= 'D'
      && ops.same(r.value.options[r.value.correctOption as int - 'A' as int], correct.value))
  {
  }

  /** The options as `int`s with Python's `str`, `*` and `==`. */
  function IntOps(): AnswerOps<int> {
    AnswerOps(IntToString, (a: int, n: nat) => a * n, (a: int, b: int) => a == b)
  }

  lemma ShowInjective(a: int, b: int)
    requires a != b
    ensures IntToString(a) != IntToString(b)
  {
    ParseIntToString(a);
    ParseIntToString(b);
  }

  /** A replacement is not checked again: with correct answer 1, a diffused
      answer 3 and a confused computation that throws, the confused option becomes
      1 × 3 and duplicates the diffused one. */
  lemma ReplacementNotRechecked()
    ensures (
      var r := BuildOptions(Ok(1), Ok(3), None, Err("confused"), Ok(5), [0, 1, 2, 3], IntOps());
      r.Ok? && r.value.options == [1, 3, 3, 5] && r.value.correctOption == 'A')
  {
    ShowInjective(1, 3);
    ShowInjective(1, 5);
    ShowInjective(3, 5);
    var ops := IntOps();
    assert Fresh([1], 3, ops.show);
    assert Distractor([1], Ok(3), 1, 2, ops) == 3;
    assert Distractor([1, 3], Err("confused"), 1, 3, ops) == 3;
    assert Fresh([1, 3, 3], 5, ops.show);
    assert Distractor([1, 3, 3], Ok(5), 1, 4, ops) == 5;
  }

  /** The state `options()` reads and writes: the seed and `saved_options`. */
  datatype QuestionState<A> = QuestionState(seed: int, saved: Option<SavedOptions<A>>)

  /** `options()`: the saved options when there are some; otherwise the freshly
      built ones, which are saved. `build` is what `BuildOptions` gives for this
      question. */
  function Options<A>(q: QuestionState<A>, build: Result<SavedOptions<A>, string>): (r: (QuestionState<A>, Result<SavedOptions<A>, string>))
    ensures q.saved.Some? ==> r == (q, Ok(q.saved.value))
    ensures q.saved.None? ==> r.1 == build && r.0.seed == q.seed
    ensures q.saved.None? && build.Ok? ==> r.0.saved == Some(build.value)
    ensures q.saved.None? && build.Err? ==> r.0 == q
  {
    match q.saved {
      case Some(s) => (q, Ok(s))
      case None =>
        match build {
          case Ok(s) => (q.(saved := Some(s)), Ok(s))
          case Err(m) => (q, Err(m))
        }
    }
  }

  /** `correct_option()`: the letter of the (memoised) options. */
  function CorrectOption<A>(q: QuestionState<A>, build: Result<SavedOptions<A>, string>): (r: Result<char, string>)
    ensures r.Ok? <==> Options(q, build).1.Ok?
    ensures r.Ok? ==> r.value == Options(q, build).1.value.correctOption
  {
    match Options(q, build).1 {
      case Ok(s) => Ok(s.correctOption)
      case Err(m) => Err(m)
    }
  }

  /** Once `options()` has returned, every later call returns the same options
      and changes nothing, whatever a fresh build would give: the option list
      and the correct letter of a question always agree. */
  lemma OptionsMemoised<A>(q: QuestionState<A>, first: Result<SavedOptions<A>, string>, later: Result<SavedOptions<A>, string>)
    requires Options(q, first).1.Ok?
    ensures (
      var (q1, r1) := Options(q, first);
      Options(q1, later) == (q1, r1)
      && CorrectOption(q1, later) == Ok(r1.value.correctOption))
  {
  }
}
