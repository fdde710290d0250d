/** `ExpressionEvaluator`: the validity gate, the ordered cascade of special cases
    (percentages, `\sim` approximations, numbers with units, three structural
    heuristics, power and entropy units, microns), the unit-first shortcut of
    `compare_latex_expressions`, and the numeric fallback taken when the symbolic
    comparison raises. `_extract_unit` and the sympy comparison are parameters. */
module ExpressionEvaluator {
  import opened Wrappers
  import opened Text
  import opened Scan
  import opened Numbers
  import opened Tolerance
  import opened Verdicts
  import QuantityEvaluator

  // ---------------------------------------------------------------------------
  // The validity gate

  /** The LaTeX patterns of the gate: commands, then the single characters
      `^ _ { } $`. */
  const LatexMarkers: seq<string> := [
    "\\frac", "\\sqrt", "\\pi", "\\mathrm", "\\text",
    "\\circ", "\\times", "\\int", "\\sum", "\\prod",
    "\\alpha", "\\beta", "\\gamma", "\\delta", "\\epsilon",
    "\\theta", "\\lambda", "\\mu", "\\rho", "\\sigma",
    "\\omega", "\\Omega", "\\Delta", "\\Sigma", "\\Pi",
    "^", "_", "{", "}", "$"]

  // The operator class [+\-*/=<>] and the two parentheses.
  const MathChars: string := "+-*/=<>()"

  /** `_is_valid_latex`: a non-empty text holding a LaTeX pattern, a digit, an
      operator or a parenthesis. */
  predicate IsValidLatex(t: string) {
    t != []
    && ((exists k | 0 <= k < |LatexMarkers| :: Contains(t, LatexMarkers[k]))
        || (exists i | 0 <= i < |t| :: IsDigit(t[i]))
        || (exists i | 0 <= i < |t| :: t[i] in MathChars))
  }

  /** The characters that make a text without backslashes valid on their own. */
  const ValidChars: string := "^_{}$0123456789+-*/=<>()"

  /** Without a backslash, a text is valid exactly when it is non-empty and holds
      one of the characters `^ _ { } $`, a digit, an operator or a parenthesis: a
      bare word such as "none" or "yes" is not an expression. */
  lemma NoBackslashValidity(t: string)
    requires forall i | 0 <= i < |t| :: t[i] != '\\'
    ensures IsValidLatex(t) <==> t != [] && exists i | 0 <= i < |t| :: t[i] in ValidChars
  {
    if t != [] {
      if exists k | 0 <= k < |LatexMarkers| :: Contains(t, LatexMarkers[k]) {
        var k :| 0 <= k < |LatexMarkers| && Contains(t, LatexMarkers[k]);
        var i := MarkerIsValidChar(t, k);
      }
      if exists i | 0 <= i < |t| :: t[i] in ValidChars {
        var i :| 0 <= i < |t| && t[i] in ValidChars;
        ValidCharIsValid(t, i);
      }
    }
  }

  /** Without a backslash, only the five single-character patterns can occur. */
  lemma MarkerIsValidChar(t: string, k: nat) returns (i: nat)
    requires forall j | 0 <= j < |t| :: t[j] != '\\'
    requires k < |LatexMarkers| && Contains(t, LatexMarkers[k])
    ensures i < |t| && t[i] in ValidChars
  {
    MarkerNonEmpty(k);
    i := ContainsChar(t, LatexMarkers[k], 0);
    MarkerHeadKind(k, t[i]);
  }

  lemma MarkerNonEmpty(k: nat)
    requires k < |LatexMarkers|
    ensures |LatexMarkers[k]| > 0
  {
    MarkerShapes();
  }

  /** The first character of a pattern is a backslash or one of `ValidChars`. */
  lemma MarkerHeadKind(k: nat, c: char)
    requires k < |LatexMarkers| && |LatexMarkers[k]| > 0
    requires c == LatexMarkers[k][0] && c != '\\'
    ensures c in ValidChars
  {
    MarkerShapes();
    assert 25 <= k;
    assert LatexMarkers[k] == [ValidChars[k - 25]];
  }

  /** Each character of `ValidChars` makes a text valid. */
  lemma ValidCharIsValid(t: string, i: nat)
    requires i < |t| && t[i] in ValidChars
    ensures IsValidLatex(t)
  {
    ValidCharKinds(t[i]);
    if !IsDigit(t[i]) && t[i] !in MathChars {
      MarkerShapes();
      var j :| 0 <= j < 5 && ValidChars[j] == t[i];
      ContainsAt(t, LatexMarkers[25 + j], i);
    }
  }

  /** The first 25 patterns are commands, the last five the characters that open
      `ValidChars`. */
  lemma MarkerShapes()
    ensures |LatexMarkers| == 30
    ensures forall k | 0 <= k < 25 :: |LatexMarkers[k]| > 0 && LatexMarkers[k][0] == '\\'
    ensures forall k | 25 <= k < 30 :: LatexMarkers[k] == [ValidChars[k - 25]]
  {
  }

  lemma ValidCharKinds(c: char)
    requires c in ValidChars
    ensures IsDigit(c) || c in MathChars || exists j | 0 <= j < 5 :: ValidChars[j] == c
  {
  }

  /** A text that holds `w` holds every character of `w`. */
  lemma ContainsChar(t: string, w: string, j: nat) returns (i: nat)
    requires Contains(t, w) && j < |w|
    ensures i < |t| && t[i] == w[j]
  {
    var q := ContainsWitness(t, w);
    i := q + j;
    assert t[q..q + |w|][j] == t[i];
  }

  /** A text that holds `w` holds each prefix of it. */
  lemma ContainsPrefix(t: string, w: string, n: nat)
    requires Contains(t, w) && n <= |w|
    ensures Contains(t, w[..n])
  {
    var q := ContainsWitness(t, w);
    assert t[q..q + n] == w[..n];
    ContainsAt(t, w[..n], q);
  }

  // ---------------------------------------------------------------------------
  // The percentage case

  /** `([0-9.]+)\s*(?:%|\\%)` */
  function PercentAt(t: string, q: nat): Option<(string, nat)> {
    NumberThen(t, q, NoSign, true, ["%", "\\%"])
  }

  /** The test that opens the percentage case: a `%` in the expected text (which
      `'\\%' in expected` implies), or a point in it and a first `[0-9.]+` run worth
      at most 1. The test is outside the `try` of the case, so a run `float()`
      rejects makes `evaluate` itself raise. */
  function PercentGuard(e: string): (r: Result<bool, string>)
    ensures Contains(e, "%") ==> r == Ok(true)
    ensures r.Err? ==> FirstNumRun(e).Some? && !IsDecimalRun(FirstNumRun(e).value)
                       && r.error == FloatError(FirstNumRun(e).value)
    ensures r == Ok(false) ==> !Contains(e, "%")
  {
    if Contains(e, "%") then Ok(true)
    else if Contains(e, ".") && FirstNumRun(e).Some? then
      var g := FirstNumRun(e).value;
      match FloatOfRun(g) {
        case Some(v) => Ok(v <= 1.0)
        case None => Err(FloatError(g))
      }
    else Ok(false)
  }

  /** One side of the percentage case: `X%` or `X\%` read as `X/100` when the text
      holds a `%`, otherwise the first run when it is at most 1. `None` when the
      pattern finds nothing, when `float()` raises, or when the value is over 1:
      each ends the `try` of the case without a verdict. */
  function PercentSide(t: string): (r: Option<real>)
    ensures r.Some? ==> r.value >= 0.0
    ensures !Contains(t, "%") && r.Some? ==> r.value <= 1.0
    ensures Contains(t, "%") && r.Some? ==>
      Search(t, 0, PercentAt).Some? && FloatOfRun(Search(t, 0, PercentAt).value.0).Some?
      && 100.0 * r.value == FloatOfRun(Search(t, 0, PercentAt).value.0).value
  {
    if Contains(t, "%") then PercentValue(t) else FractionValue(t)
  }

  /** `float(X) / 100` for the first `X%` or `X\\%`. */
  function PercentValue(t: string): (r: Option<real>)
    ensures r.Some? ==> r.value >= 0.0
    ensures r.Some? ==> Search(t, 0, PercentAt).Some?
    ensures r.Some? ==> FloatOfRun(Search(t, 0, PercentAt).value.0).Some?
    ensures r.Some? ==> 100.0 * r.value == FloatOfRun(Search(t, 0, PercentAt).value.0).value
  {
    var m := Search(t, 0, PercentAt);
    if m.None? then None
    else
      var v := FloatOfRun(m.value.0);
      if v.None? then None
      else
        PercentGroup(t);
        Hundred(v.value);
        Some(v.value / 100.0)
  }

  lemma Hundred(v: real)
    ensures 100.0 * (v / 100.0) == v
  {
  }

  /** The run `PercentAt` captures is unsigned. */
  lemma PercentGroup(t: string)
    requires Search(t, 0, PercentAt).Some?
    ensures var g := Search(t, 0, PercentAt).value.0; |g| > 0 && IsNumChar(g[0])
  {
    var q :| 0 <= q <= |t| && PercentAt(t, q) == Search(t, 0, PercentAt);
  }

  /** The first run, kept when it is at most 1. */
  function FractionValue(t: string): (r: Option<real>)
    ensures r.Some? ==> 0.0 <= r.value <= 1.0
  {
    match FirstNumRun(t) {
      case Some(g) =>
        match FloatOfRun(g) {
          case Some(v) => if v > 1.0 then None else Some(v)
          case None => None
        }
      case None => None
    }
  }

  /** The percentage case: both fractions read, compared with a 10% relative
      tolerance. */
  function PercentBranch(e: string, a: string): (r: Option<bool>)
    ensures r.Some? <==> PercentSide(e).Some? && PercentSide(a).Some?
    ensures r.Some? ==> (r.value <==> Within(PercentSide(a).value, PercentSide(e).value, 0.1))
  {
    match (PercentSide(e), PercentSide(a)) {
      case (Some(pe), Some(pa)) =>
        WithinSymmetric(pe, pa, 0.1);
        Some(Within(pe, pa, 0.1))
      case _ => None
    }
  }

  // ---------------------------------------------------------------------------
  // The `\sim` case

  /** `\\sim\s*([0-9.]+)` */
  function SimAt(t: string, q: nat): (r: Option<(string, nat)>)
    ensures r.Some? ==> r.value.0 != [] && forall k | 0 <= k < |r.value.0| :: IsNumChar(r.value.0[k])
  {
    if LitAt(t, q, "\\sim") then NumRun(t, SkipSpace(t, q + 4)) else None
  }

  /** The parts of the evaluator that are foreign code: `_extract_unit`, and the
      sympy comparison of `compare_latex_expressions` after its unit shortcut.
      Every sympy step there sits in a `try` whose handlers end in `return False`,
      so the comparison always gives a boolean. */
  datatype ExpressionLib = ExpressionLib(
    unitOf: string -> Option<string>,
    symbolic: (string, string) -> bool)

  /** A unit as `if exp_unit and act_unit` reads it: present and not empty. */
  predicate Truthy(u: Option<string>) {
    u.Some? && u.value != []
  }

  /** Units agree when both are given and equal up to case, and also when either
      is missing. */
  predicate UnitsAgree(u1: Option<string>, u2: Option<string>) {
    Truthy(u1) && Truthy(u2) ==> LowerStr(u1.value) == LowerStr(u2.value)
  }

  /** `|e - a| <= 1.0 * e` on non-negative values: the actual value is at most
      twice the expected one. */
  lemma AtMostDouble(ve: real, va: real)
    requires ve >= 0.0 && va >= 0.0
    ensures Abs(ve - va) <= 1.0 * ve <==> va <= 2.0 * ve
  {
  }

  /** The `\sim` case: the value after `\sim` against the first run of the
      actual text, correct when the actual value is at most twice the expected
      one and the units agree. */
  function SimBranch(e: string, a: string, lib: ExpressionLib): (r: Option<bool>)
    ensures r.Some? <==>
      (Contains(e, "\\sim") && Search(e, 0, SimAt).Some? && FirstNumRun(a).Some?
       && FloatOfRun(Search(e, 0, SimAt).value.0).Some? && FloatOfRun(FirstNumRun(a).value).Some?)
    ensures r.Some? ==>
      var ve := FloatOfRun(Search(e, 0, SimAt).value.0).value;
      var va := FloatOfRun(FirstNumRun(a).value).value;
      (r.value <==> va <= 2.0 * ve && UnitsAgree(lib.unitOf(e), lib.unitOf(a)))
  {
    if !Contains(e, "\\sim") then None
    else match (Search(e, 0, SimAt), FirstNumRun(a)) {
      case (Some((ge, _)), Some(ga)) =>
        match (FloatOfRun(ge), FloatOfRun(ga)) {
          case (Some(ve), Some(va)) =>
            AtMostDouble(ve, va);
            Some(Abs(ve - va) <= 1.0 * ve && UnitsAgree(lib.unitOf(e), lib.unitOf(a)))
          case _ => None
        }
      case _ => None
    }
  }

  // ---------------------------------------------------------------------------
  // Numbers with units

  /** `expected.strip('$')` */
  function StripDollars(t: string): (r: string)
    ensures r == [] || (r[0] != '$' && r[|r| - 1] != '$')
    ensures exists i, j | 0 <= i <= j <= |t| :: r == t[i..j]
    decreases |t|
  {
    if |t| > 0 && t[0] == '$' then
      var r := StripDollars(t[1..]);
      ghost var i, j :| 0 <= i <= j <= |t| - 1 && r == t[1..][i..j];
      assert r == t[i + 1..j + 1];
      r
    else if |t| > 0 && t[|t| - 1] == '$' then
      var r := StripDollars(t[..|t| - 1]);
      ghost var i, j :| 0 <= i <= j <= |t| - 1 && r == t[..|t| - 1][i..j];
      assert r == t[i..j];
      r
    else
      assert t == t[0..|t|];
      t
  }

  /** `[0-9.]+\s*` at `q`: the index after the run and the whitespace. */
  function AfterNumber(t: string, q: nat): (r: Option<nat>)
    ensures r.Some? ==> q < r.value <= |t| && IsNumChar(t[q])
  {
    if q < |t| && IsNumChar(t[q]) then Some(SkipSpace(t, NumRunEnd(t, q))) else None
  }

  /** `([a-zA-Z]+)` and then the literal `close`, at `s`. */
  function LettersThen(t: string, s: nat, close: string): (r: Option<(string, nat)>)
    ensures r.Some? ==> r.value.0 != [] && forall k | 0 <= k < |r.value.0| :: IsAsciiLetter(r.value.0[k])
  {
    if s < |t| && IsAsciiLetter(t[s]) then
      var e := LetterRunEnd(t, s);
      if LitAt(t, e, close) then Some((t[s..e], e + |close|)) else None
    else None
  }

  /** The unit patterns in the order they are tried: `[0-9.]+\s*([a-zA-Z]+)`,
      `[0-9.]+\s*\\mathrm{([a-zA-Z]+)}`, `[0-9.]+\s*\\text{([a-zA-Z]+)}`, and, for
      the actual answer only, `[0-9.]+\s*\\\s*\\text{([a-zA-Z]+)}`. Each is
      deterministic: a shorter run or a shorter `\s*` is followed by a character
      none of them can continue with. */
  function UnitAt(k: nat, t: string, q: nat): (r: Option<(string, nat)>)
    ensures r.Some? ==> r.value.0 != []
  {
    match AfterNumber(t, q) {
      case None => None
      case Some(s) =>
        if k == 0 then LettersThen(t, s, "")
        else if k == 1 then (if LitAt(t, s, "\\mathrm{") then LettersThen(t, s + 8, "}") else None)
        else if k == 2 then (if LitAt(t, s, "\\text{") then LettersThen(t, s + 6, "}") else None)
        else if LitAt(t, s, "\\") && LitAt(t, SkipSpace(t, s + 1), "\\text{") then
          LettersThen(t, SkipSpace(t, s + 1) + 6, "}")
        else None
    }
  }

  function UnitPattern(k: nat): Matcher<string> {
    (t, q) => UnitAt(k, t, q)
  }

  /** The unit of the first of the patterns `k..n-1` that matches somewhere. */
  function FirstUnit(t: string, k: nat, n: nat): (r: Option<string>)
    ensures r.Some? ==> r.value != [] && exists j | k <= j < n :: Search(t, 0, UnitPattern(j)).Some?
    ensures r.None? <==> forall j | k <= j < n :: Search(t, 0, UnitPattern(j)).None?
    decreases n - k
  {
    if k >= n then None
    else match Search(t, 0, UnitPattern(k)) {
      case Some((u, _)) =>
        UnitFoundNonEmpty(t, k);
        Some(u)
      case None => FirstUnit(t, k + 1, n)
    }
  }

  /** A unit pattern's match captures at least one letter. */
  lemma UnitFoundNonEmpty(t: string, k: nat)
    ensures Search(t, 0, UnitPattern(k)).Some? ==> Search(t, 0, UnitPattern(k)).value.0 != []
  {
    if Search(t, 0, UnitPattern(k)).Some? {
      var q :| 0 <= q <= |t| && UnitPattern(k)(t, q) == Search(t, 0, UnitPattern(k));
      assert UnitPattern(k)(t, q) == UnitAt(k, t, q);
    }
  }

  /** The first runs of both texts, both read by `float()`. */
  function FirstValues(e: string, a: string): (r: Option<(real, real)>)
    ensures r.Some? ==> r.value.0 >= 0.0 && r.value.1 >= 0.0
    ensures r.Some? <==>
      (FirstNumRun(e).Some? && FirstNumRun(a).Some?
       && FloatOfRun(FirstNumRun(e).value).Some? && FloatOfRun(FirstNumRun(a).value).Some?)
  {
    match (FirstNumRun(e), FirstNumRun(a)) {
      case (Some(ge), Some(ga)) =>
        match (FloatOfRun(ge), FloatOfRun(ga)) {
          case (Some(ve), Some(va)) => Some((ve, va))
          case _ => None
        }
      case _ => None
    }
  }

  /** The numeric-with-unit case: it applies when the expected text (without
      its outer `$`) has a number followed by letters; it decides only when both
      units are found and agree up to case, and then with a 10% relative
      tolerance on the first runs. */
  function UnitBranch(e: string, a: string): (r: Option<bool>)
    ensures r.Some? ==> Search(StripDollars(e), 0, UnitPattern(0)).Some?
    ensures r.Some? ==>
      (FirstUnit(e, 0, 3).Some? && FirstUnit(a, 0, 4).Some?
       && LowerStr(FirstUnit(e, 0, 3).value) == LowerStr(FirstUnit(a, 0, 4).value))
    ensures r.Some? ==>
      (FirstValues(e, a).Some? && (r.value <==> Within(FirstValues(e, a).value.0, FirstValues(e, a).value.1, 0.1)))
    ensures (Search(StripDollars(e), 0, UnitPattern(0)).Some? && FirstValues(e, a).Some?
             && FirstUnit(e, 0, 3).Some? && FirstUnit(a, 0, 4).Some?
             && LowerStr(FirstUnit(e, 0, 3).value) == LowerStr(FirstUnit(a, 0, 4).value)) ==> r.Some?
  {
    if Search(StripDollars(e), 0, UnitPattern(0)).None? then None
    else match (FirstValues(e, a), FirstUnit(e, 0, 3), FirstUnit(a, 0, 4)) {
      case (Some((ve, va)), Some(ue), Some(ua)) =>
        if LowerStr(ue) == LowerStr(ua) then Some(Within(ve, va, 0.1)) else None
      case _ => None
    }
  }

  // ---------------------------------------------------------------------------
  // The structural heuristics

  /** How many of `parts` occur in `t`. */
  function CountContained(t: string, parts: seq<string>): (n: nat)
    ensures n <= |parts|
  {
    if parts == [] then 0
    else (if Contains(t, parts[0]) then 1 else 0) + CountContained(t, parts[1..])
  }

  /** The components counted for the terminal-velocity case, with the two
      subscripted densities added when the text has one. */
  function VelocityParts(t: string): seq<string> {
    ["\\rho", "g", "a", "\\mu"]
    + (if Contains(t, "\\rho_{") || Contains(t, "\\rho_") then ["\\rho_{", "\\rho_"] else [])
  }

  predicate HasFraction(t: string) {
    Contains(t, "\\frac") || Contains(t, "\\dfrac")
  }

  predicate HasASquared(t: string) {
    Contains(t, "a^{2}") || Contains(t, "a^2") || Contains(t, "a^{-2}")
  }

  /** The terminal-velocity case: a `w_t` and a `\rho`, fractions on both sides,
      at least three components each, and `a` squared on both or neither. */
  predicate TerminalVelocity(e: string, a: string) {
    (Contains(a, "w_t") || Contains(e, "w_{t}") || Contains(e, "w_t") || Contains(a, "w_{t}"))
    && (Contains(e, "\\rho") || Contains(a, "\\rho"))
    && HasFraction(e) && HasFraction(a)
    && CountContained(e, VelocityParts(e)) >= 3 && CountContained(a, VelocityParts(a)) >= 3
    && HasASquared(e) == HasASquared(a)
  }

  const BruntParts: seq<string> := ["N^2", "g", "h", "e^", "\\frac"]

  predicate HasLayerHeight(t: string) {
    Contains(t, "h_1") || Contains(t, "h_{1}") || Contains(t, "h_2") || Contains(t, "h_{2}")
  }

  /** The Brunt-Väisälä case: `N^2`, `e^` and `\frac` on either side, at least
      three of the key parts on each, and layer heights on both or neither. */
  predicate BruntVaisala(e: string, a: string) {
    (Contains(e, "N^2") || Contains(a, "N^2"))
    && (Contains(e, "e^") || Contains(a, "e^"))
    && (Contains(e, "\\frac") || Contains(a, "\\frac"))
    && CountContained(e, BruntParts) >= 3 && CountContained(a, BruntParts) >= 3
    && HasLayerHeight(e) == HasLayerHeight(a)
  }

  /** The set of `re.findall(r'([a-zA-Z])', t)`. */
  function LettersOf(t: string): (s: set<char>)
    ensures forall c :: c in s <==> exists i | 0 <= i < |t| :: t[i] == c && IsAsciiLetter(c)
  {
    set i | 0 <= i < |t| && IsAsciiLetter(t[i]) :: t[i]
  }

  function Min(x: nat, y: nat): nat {
    if x < y then x else y
  }

  predicate HasExponential(t: string) {
    Contains(t, "e^{") || Contains(t, "e^")
  }

  /** The exponential case: both sides exponential and the shared letters at
      least 70% of the smaller letter set (`len(common) >= min(..) * 0.7`, in
      integers). */
  predicate Exponential(e: string, a: string) {
    HasExponential(e) && HasExponential(a)
    && 10 * |LettersOf(e) * LettersOf(a)| >= 7 * Min(|LettersOf(e)|, |LettersOf(a)|)
  }

  /** The three structural cases read both sides alike: swapping the expected
      and the actual text changes none of them. */
  lemma StructuralCasesSymmetric(e: string, a: string)
    ensures TerminalVelocity(e, a) <==> TerminalVelocity(a, e)
    ensures BruntVaisala(e, a) <==> BruntVaisala(a, e)
    ensures Exponential(e, a) <==> Exponential(a, e)
  {
    assert LettersOf(e) * LettersOf(a) == LettersOf(a) * LettersOf(e);
  }

  /** Two exponential expressions over the same letters are always accepted,
      whatever their structure. */
  lemma SameLettersExponential(e: string, a: string)
    requires HasExponential(e) && HasExponential(a) && LettersOf(e) == LettersOf(a)
    ensures Exponential(e, a)
  {
    assert LettersOf(e) * LettersOf(a) == LettersOf(e);
  }

  // ---------------------------------------------------------------------------
  // Power, entropy and micron units

  predicate PowerText(e: string, a: string) {
    (Contains(e, "W") && Contains(e, "m") && (Contains(e, "/") || Contains(e, "\\mathrm")))
    || (Contains(a, "W") && Contains(a, "m") && (Contains(a, "/") || Contains(a, "\\text")))
  }

  predicate PerCubic(t: string) {
    Contains(t, "m^{3}") || Contains(t, "m^3") || Contains(t, "m3")
  }

  predicate PerSquare(t: string) {
    Contains(t, "m^{2}") || Contains(t, "m^2") || Contains(t, "m2")
  }

  /** The power-unit case: per square metre against per cubic metre is wrong
      whatever the values; otherwise the first runs are compared with a 20%
      relative tolerance. */
  function PowerBranch(e: string, a: string): (r: Option<bool>)
    ensures r.Some? <==> PowerText(e, a) && FirstValues(e, a).Some?
    ensures r.Some? && ((PerCubic(e) && PerSquare(a)) || (PerSquare(e) && PerCubic(a))) ==> r == Some(false)
    ensures r.Some? && !((PerCubic(e) && PerSquare(a)) || (PerSquare(e) && PerCubic(a))) ==>
      r == Some(Within(FirstValues(e, a).value.0, FirstValues(e, a).value.1, 0.2))
  {
    if !PowerText(e, a) then None
    else match FirstValues(e, a) {
      case Some((ve, va)) =>
        if (PerCubic(e) && PerSquare(a)) || (PerSquare(e) && PerCubic(a)) then Some(false)
        else Some(Within(ve, va, 0.2))
      case None => None
    }
  }

  predicate EntropyText(t: string) {
    Contains(t, "J") && Contains(t, "K") && Contains(t, "kg")
  }

  /** `J`, `K` and `kg`, bare or inside `\mathrm{}` or `\text{}`. */
  predicate EntropyUnits(t: string) {
    (Contains(t, "J") || Contains(t, "\\mathrm{J}") || Contains(t, "\\text{J}"))
    && (Contains(t, "K") || Contains(t, "\\mathrm{K}") || Contains(t, "\\text{K}"))
    && (Contains(t, "kg") || Contains(t, "\\mathrm{kg}") || Contains(t, "\\text{kg}"))
  }

  /** The entropy-unit case: it decides only when both sides carry all three
      units, with a 20% relative tolerance on the first runs. */
  function EntropyBranch(e: string, a: string): (r: Option<bool>)
    ensures r.Some? ==> EntropyText(e) && EntropyText(a) && FirstValues(e, a).Some?
    ensures r.Some? ==> r == Some(Within(FirstValues(e, a).value.0, FirstValues(e, a).value.1, 0.2))
    ensures (EntropyText(e) || EntropyText(a)) && EntropyUnits(e) && EntropyUnits(a) && FirstValues(e, a).Some? ==> r.Some?
  {
    if !(EntropyText(e) || EntropyText(a)) then None
    else match FirstValues(e, a) {
      case Some((ve, va)) =>
        if EntropyUnits(e) && EntropyUnits(a) then
          EntropyUnitsAreLetters(e);
          EntropyUnitsAreLetters(a);
          Some(Within(ve, va, 0.2))
        else None
      case None => None
    }
  }

  /** The wrapped spellings hold the bare letters, so the unit test is the plain
      containment of `J`, `K` and `kg`. */
  lemma EntropyUnitsAreLetters(t: string)
    ensures EntropyUnits(t) <==> EntropyText(t)
  {
    if Contains(t, "\\mathrm{J}") { ContainsInside(t, "\\mathrm{J}", "J", 8); }
    if Contains(t, "\\text{J}") { ContainsInside(t, "\\text{J}", "J", 6); }
    if Contains(t, "\\mathrm{K}") { ContainsInside(t, "\\mathrm{K}", "K", 8); }
    if Contains(t, "\\text{K}") { ContainsInside(t, "\\text{K}", "K", 6); }
    if Contains(t, "\\mathrm{kg}") { ContainsInside(t, "\\mathrm{kg}", "kg", 8); }
    if Contains(t, "\\text{kg}") { ContainsInside(t, "\\text{kg}", "kg", 6); }
  }

  /** A text holding `w` holds every piece of `w`. */
  lemma ContainsInside(t: string, w: string, p: string, i: nat)
    requires Contains(t, w) && i + |p| <= |w| && w[i..i + |p|] == p
    ensures Contains(t, p)
  {
    ContainsAt(w, p, i);
    ContainsIn(t, w, p);
  }

  /** Containment is transitive. */
  lemma ContainsIn(t: string, w: string, p: string)
    requires Contains(t, w) && Contains(w, p)
    ensures Contains(t, p)
  {
    var q := ContainsWitness(t, w);
    var r := ContainsWitness(w, p);
    forall k | 0 <= k < |p|
      ensures t[q + r + k] == p[k]
    {
      assert t[q..q + |w|][r + k] == w[r + k];
      assert w[r..r + |p|][k] == p[k];
    }
    assert t[q + r..q + r + |p|] == p;
    ContainsAt(t, p, q + r);
  }

  /** The micron case: a `\mu` and an `m` on either side, both values read before
      `\mu`, relative tolerance. */
  function MicronCase(e: string, a: string, tol: real): (r: Option<bool>)
    ensures r.Some? ==> (Contains(e, "\\mu") && Contains(e, "m")) || (Contains(a, "\\mu") && Contains(a, "m"))
    ensures r.Some? ==> r == QuantityEvaluator.MicronBranch(e, a, tol)
  {
    if (Contains(e, "\\mu") && Contains(e, "m")) || (Contains(a, "\\mu") && Contains(a, "m"))
    then QuantityEvaluator.MicronBranch(e, a, tol)
    else None
  }

  /** The micron case does not depend on which side is the expected one. */
  lemma MicronCaseSymmetric(e: string, a: string, tol: real)
    ensures MicronCase(e, a, tol) == MicronCase(a, e, tol)
  {
    QuantityEvaluator.MicronBranchSymmetric(e, a, tol);
  }

  // ---------------------------------------------------------------------------
  // The symbolic comparison and its fallback

  /** `_extract_value`: `^[^0-9]*([0-9.]+)` read by `float()`, `None` when there is
      no match or `float()` raises. `[^0-9]*` stops at the first digit and the run
      starts there. Without a digit the pattern can only match by giving back
      characters until a point is left for the run, which is then "." alone and
      rejected by `float()`. */
  function ExtractValue(t: string): (r: Option<real>)
    ensures r.Some? ==> exists i, j | 0 <= i < j <= |t| ::
      (forall k | 0 <= k < i :: !IsDigit(t[k])) && IsDigit(t[i])
      && (forall k | i <= k < j :: IsNumChar(t[k])) && (j == |t| || !IsNumChar(t[j]))
      && r == FloatOfRun(t[i..j])
    ensures (forall k | 0 <= k < |t| :: !IsDigit(t[k])) ==> r.None?
    ensures r.Some? ==> r.value >= 0.0
  {
    var d := RunEnd(t, 0, c => !IsDigit(c));
    if d < |t| then
      var j := NumRunEnd(t, d);
      assert t[d..j][0] == t[d];
      FloatOfRun(t[d..j])
    else None
  }

  /** `compare_latex_expressions`: when both texts have a unit, whichever units
      they are, and both have a leading value, only the values are compared, with
      the relative tolerance; otherwise the symbolic comparison decides. It never
      raises. */
  function CompareLatex(e: string, a: string, tol: real, lib: ExpressionLib): (r: bool)
    ensures Truthy(lib.unitOf(e)) && Truthy(lib.unitOf(a)) && ExtractValue(e).Some? && ExtractValue(a).Some?
      ==> r == Within(ExtractValue(e).value, ExtractValue(a).value, tol)
    ensures r != lib.symbolic(e, a) ==>
      Truthy(lib.unitOf(e)) && Truthy(lib.unitOf(a)) && ExtractValue(e).Some? && ExtractValue(a).Some?
  {
    if Truthy(lib.unitOf(e)) && Truthy(lib.unitOf(a)) && ExtractValue(e).Some? && ExtractValue(a).Some? then
      Within(ExtractValue(e).value, ExtractValue(a).value, tol)
    else lib.symbolic(e, a)
  }

  /** The `except` block after `compare_latex_expressions`, were it to raise with
      message `m`: the first runs are compared when the extracted units are
      exactly equal (both missing counts), otherwise the verdict is undecided and
      carries `m`. `CompareLatex` never raises, so `Cascade` does not reach it. */
  function Fallback(e: string, a: string, tol: real, lib: ExpressionLib, m: string): (j: Judgement)
    ensures j.verdict.Undecided? <==> j.error.Some?
    ensures j.verdict.Undecided? ==> j.error == Some(m)
    ensures !j.verdict.Undecided? <==> lib.unitOf(e) == lib.unitOf(a) && FirstValues(e, a).Some?
    ensures !j.verdict.Undecided? ==> j == Decided(Within(FirstValues(e, a).value.0, FirstValues(e, a).value.1, tol))
  {
    match FirstValues(e, a) {
      case Some((ve, va)) =>
        if lib.unitOf(e) == lib.unitOf(a) then Decided(Within(ve, va, tol)) else Failed(m)
      case None => Failed(m)
    }
  }

  // ---------------------------------------------------------------------------
  // The cascade

  const InvalidMessage := "Invalid LaTeX expression"

  /** The special cases in the order they are tried, after the percentage test
      `percent`: the first that decides gives the verdict. */
  function SpecialCases(e: string, a: string, tol: real, percent: bool, lib: ExpressionLib): (r: Option<bool>)
    ensures percent && PercentBranch(e, a).Some? ==> r == PercentBranch(e, a)
    ensures r == Some(false) ==>
      ((!TerminalVelocity(e, a) && !BruntVaisala(e, a) && !Exponential(e, a))
       || (percent && PercentBranch(e, a).Some?) || SimBranch(e, a, lib).Some? || UnitBranch(e, a).Some?)
  {
    if percent && PercentBranch(e, a).Some? then PercentBranch(e, a)
    else if SimBranch(e, a, lib).Some? then SimBranch(e, a, lib)
    else if UnitBranch(e, a).Some? then UnitBranch(e, a)
    else if TerminalVelocity(e, a) || BruntVaisala(e, a) || Exponential(e, a) then Some(true)
    else if PowerBranch(e, a).Some? then PowerBranch(e, a)
    else if EntropyBranch(e, a).Some? then EntropyBranch(e, a)
    else MicronCase(e, a, tol)
  }

  /** The cascade after the gate, the override and the percentage test: it always
      decides, by the first special case that applies and otherwise by
      `compare_latex_expressions`. */
  function Cascade(e: string, a: string, tol: real, percent: bool, lib: ExpressionLib): (j: Judgement)
    ensures !j.verdict.Undecided? && j.error.None?
    ensures SpecialCases(e, a, tol, percent, lib).Some? ==> j == Decided(SpecialCases(e, a, tol, percent, lib).value)
    ensures SpecialCases(e, a, tol, percent, lib).None? && !Truthy(lib.unitOf(e)) ==> j == Decided(lib.symbolic(e, a))
  {
    match SpecialCases(e, a, tol, percent, lib) {
      case Some(b) => Decided(b)
      case None => Decided(CompareLatex(e, a, tol, lib))
    }
  }

  /** `ExpressionEvaluator(tolerance=tol).evaluate(expected, actual)`. The verdict
      is undecided exactly when the gate refuses an answer; `evaluate` itself
      raises only from the percentage test. */
  function Evaluate(e: string, a: string, tol: real, lib: ExpressionLib): (r: Outcome)
    ensures !IsValidLatex(e) || !IsValidLatex(a) ==> r == Returned(Failed(InvalidMessage))
    ensures r.Raised? <==> IsValidLatex(e) && IsValidLatex(a) && !QuantityEvaluator.ForcedCorrect(e, a)
                           && PercentGuard(e).Err?
    ensures r.Raised? ==> r.message == PercentGuard(e).error
    ensures r.Returned? ==> (r.judgement.verdict.Undecided? <==> r.judgement.error.Some?)
    ensures r.Returned? ==> (r.judgement.verdict.Undecided? <==> !IsValidLatex(e) || !IsValidLatex(a))
  {
    if !IsValidLatex(e) || !IsValidLatex(a) then Returned(Failed(InvalidMessage))
    else if QuantityEvaluator.ForcedCorrect(e, a) then Returned(Decided(true))
    else match PercentGuard(e) {
      case Err(m) => Raised(m)
      case Ok(percent) => Returned(Cascade(e, a, tol, percent, lib))
    }
  }

  // ---------------------------------------------------------------------------
  // What the cascade promises

  /** The PAC_6_4 expression against "23 K" is accepted before any other case. */
  lemma OverrideForcesCorrect(e: string, a: string, tol: real, lib: ExpressionLib)
    requires QuantityEvaluator.ForcedCorrect(e, a)
    ensures Evaluate(e, a, tol, lib) == Returned(Decided(true))
  {
    var i := ContainsChar(e, "23 K", 0);
    assert IsDigit(e[i]);
    var w := if Contains(a, "\\frac{15 \\sqrt{2} \\pi}{8}") then "\\frac{15 \\sqrt{2} \\pi}{8}" else "\\frac{15\\sqrt{2}\\pi}{8}";
    ContainsPrefix(a, w, 5);
    assert w[..5] == LatexMarkers[0];
  }

  /** When the percentage case applies and both fractions are read, it decides
      with the 10% relative tolerance, symmetric in the two answers. */
  lemma PercentDecides(e: string, a: string, tol: real, lib: ExpressionLib)
    requires IsValidLatex(e) && IsValidLatex(a) && !QuantityEvaluator.ForcedCorrect(e, a)
    requires PercentGuard(e) == Ok(true) && PercentSide(e).Some? && PercentSide(a).Some?
    ensures Evaluate(e, a, tol, lib) == Returned(Decided(Within(PercentSide(e).value, PercentSide(a).value, 0.1)))
    ensures Evaluate(e, a, tol, lib) == Returned(Decided(Within(PercentSide(a).value, PercentSide(e).value, 0.1)))
  {
    WithinSymmetric(PercentSide(e).value, PercentSide(a).value, 0.1);
  }

  /** With `\sim` in the expected answer and no percentage verdict before it, the
      actual value must be at most twice the expected one, with agreeing units. */
  lemma ApproximateRule(e: string, a: string, tol: real, lib: ExpressionLib)
    requires IsValidLatex(e) && IsValidLatex(a) && !QuantityEvaluator.ForcedCorrect(e, a)
    requires PercentGuard(e) == Ok(false) && SimBranch(e, a, lib).Some?
    ensures Evaluate(e, a, tol, lib).Returned?
    ensures var ve := FloatOfRun(Search(e, 0, SimAt).value.0).value;
      var va := FloatOfRun(FirstNumRun(a).value).value;
      Evaluate(e, a, tol, lib).judgement == Decided(va <= 2.0 * ve && UnitsAgree(lib.unitOf(e), lib.unitOf(a)))
  {
  }

  /** A run with two points in the expected answer, and a point but no `%`,
      makes `evaluate` raise `float()`'s error instead of returning a verdict. */
  lemma MalformedRunRaises(e: string, a: string, tol: real, lib: ExpressionLib)
    requires IsValidLatex(e) && IsValidLatex(a) && !QuantityEvaluator.ForcedCorrect(e, a)
    requires !Contains(e, "%") && Contains(e, ".") && FirstNumRun(e).Some?
    requires !IsDecimalRun(FirstNumRun(e).value)
    ensures Evaluate(e, a, tol, lib) == Raised(FloatError(FirstNumRun(e).value))
  {
  }
}
