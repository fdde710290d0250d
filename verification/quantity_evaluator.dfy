/** `QuantityEvaluator`: compares two answers as physical quantities. A validity
    gate comes first; then an ordered cascade of special cases (percentages on
    the raw text, micron values, one hand-written override, complex fractions,
    powers of ten in MW, then on the cleaned text temperatures, angles and
    percentages), and finally the generic comparison through the unit library.
    The first case that reaches a verdict returns it.

    The unit library, the LaTeX cleaner and the regular-expression readers for
    fractions, MW values, temperatures and angles are parameters (`QuantityLib`);
    the validity gate, the percentage reader and the tolerance logic are written
    out. */
module QuantityEvaluator {
  import opened Wrappers
  import opened Text
  import opened Scan
  import opened Numbers
  import opened Tolerance
  import opened Verdicts

  // ---------------------------------------------------------------------------
  // The validity gate

  /** `K\b`: the word `w` at `q`, not followed by a word character. */
  predicate WordAt(t: string, q: nat, w: string) {
    LitAt(t, q, w) && (q + |w| == |t| || !IsWordChar(t[q + |w|]))
  }

  predicate HasWord(t: string, w: string) {
    exists q | 0 <= q < |t| :: WordAt(t, q, w)
  }

  /** `\\mu\s*m` and `\\circ\s*C`: the literal `w`, spaces, then the character `c`. */
  predicate HasLitThenChar(t: string, w: string, c: char) {
    exists q | 0 <= q < |t| :: LitAt(t, q, w) && SkipSpace(t, q + |w|) < |t| && t[SkipSpace(t, q + |w|)] == c
  }

  /** `\\mathrm\{[A-Za-z]+\}` and `\\text\{[A-Za-z]+\}`: `w` then letters then `}`. */
  predicate HasBracedLetters(t: string, w: string) {
    exists q | 0 <= q < |t| :: LitAt(t, q, w)
      && LetterRunEnd(t, q + |w|) > q + |w| && LetterRunEnd(t, q + |w|) < |t| && t[LetterRunEnd(t, q + |w|)] == '}'
  }

  /** `[0-9]+\s*[A-Za-z]+`: a digit, optional whitespace, a letter. */
  predicate DigitThenLetter(t: string) {
    exists i | 0 <= i < |t| :: IsDigit(t[i]) && SkipSpace(t, i + 1) < |t| && IsAsciiLetter(t[SkipSpace(t, i + 1)])
  }

  predicate HasDigit(t: string) {
    exists i | 0 <= i < |t| :: IsDigit(t[i])
  }

  /** The unit words matched with a trailing `\b`. */
  const UnitWords: seq<string> := ["K", "kg", "m", "s", "J", "W", "N", "Pa", "mol", "L", "g", "A", "V"]

  /** The list of unit patterns of the gate. */
  predicate UnitPattern(t: string) {
    HasBracedLetters(t, "\\mathrm{") || HasBracedLetters(t, "\\text{") || DigitThenLetter(t)
    || HasLitThenChar(t, "\\mu", 'm') || HasLitThenChar(t, "\\circ", 'C') || Contains(t, "°C")
    || (exists k | 0 <= k < |UnitWords| :: HasWord(t, UnitWords[k]))
    || Contains(t, "%") || Contains(t, "\\%") || Contains(t, "deg")
  }

  // The class `[+\-*/=]`.
  predicate HasOperator(t: string) {
    exists i | 0 <= i < |t| :: t[i] in "+-*/="
  }

  const LatexMarkers: seq<string> := ["\\frac", "\\sqrt", "\\pi", "\\mathrm", "\\text", "\\circ", "\\times", "^", "_", "{", "}"]

  predicate HasLatexMarker(t: string) {
    exists k | 0 <= k < |LatexMarkers| :: Contains(t, LatexMarkers[k])
  }

  /** `^[0-9.]+$`. */
  predicate IsNumRun(t: string) {
    |t| > 0 && forall i | 0 <= i < |t| :: IsNumChar(t[i])
  }

  /** `_is_valid_quantity`: some digit, and then a unit pattern, an operator, a
      LaTeX marker, or nothing but digits and points once stripped. */
  predicate IsValidQuantity(t: string) {
    t != [] && HasDigit(t)
    && (UnitPattern(t) || HasOperator(t) || HasLatexMarker(t) || IsNumRun(Strip(t)))
  }

  /** A bare number such as "12.5" passes the gate, and digit-free text never does. */
  lemma BareNumberValid(t: string)
    requires IsNumRun(t) && HasDigit(t)
    ensures IsValidQuantity(t)
  {
    forall i | 0 <= i < |t| ensures !IsSpace(t[i]) {
      assert IsNumChar(t[i]);
    }
    StripNoSpace(t);
  }

  lemma DigitFreeInvalid(t: string)
    requires forall i | 0 <= i < |t| :: !IsDigit(t[i])
    ensures !IsValidQuantity(t)
  {
  }

  // ---------------------------------------------------------------------------
  // Percentages

  /** `(-?[0-9.]+)\s*%` */
  function PercentSign(t: string, q: nat): Option<(string, nat)> {
    NumberThen(t, q, OptionalMinus, true, ["%"])
  }

  /** `(-?[0-9.]+)\s*\\%` */
  function EscapedPercent(t: string, q: nat): Option<(string, nat)> {
    NumberThen(t, q, OptionalMinus, true, ["\\%"])
  }

  /** `(-?[0-9.]+)\s*\\(?:mathrm|text)\{\%\}` */
  function WordPercent(t: string, q: nat): Option<(string, nat)> {
    NumberThen(t, q, OptionalMinus, true, ["\\mathrm{%}", "\\text{%}"])
  }

  /** `(-[0-9.]+)%` */
  function NegativePercent(t: string, q: nat): Option<(string, nat)> {
    NumberThen(t, q, RequiredMinus, false, ["%"])
  }

  /** `float(run) / 100`. */
  function Hundredth(run: string): (r: Reading)
    ensures r.Reading? || r == Unreadable(run)
  {
    match FloatOfRun(run) {
      case Some(v) => Reading(v / 100.0)
      case None => Unreadable(run)
    }
  }

  /** The decimal form: with a point and no percent sign, the first
      `-?[0-9]+\.[0-9]+`, kept only when it lies in [0, 1]. */
  function DecimalFraction(t: string): (r: Option<real>)
    ensures r.Some? ==> 0.0 <= r.value <= 1.0
  {
    if Contains(t, ".") && !Contains(t, "%") && !Contains(t, "\\%") then
      match Search(t, 0, DecimalAt) {
        case Some((g, _)) =>
          DecimalParses(t, Search(t, 0, DecimalAt).value);
          var v := FloatOfRun(g).value;
          if 0.0 <= v <= 1.0 then Some(v) else None
        case None => None
      }
    else None
  }

  /** `_extract_percentage`: "X%" (also `\%`, `\mathrm{%}`, `\text{%}`) as X/100,
      else a decimal in [0, 1] unchanged, else a negative "-X%". */
  function ExtractPercentage(t: string): (r: Reading)
    ensures t == [] ==> r == NoReading
  {
    if t == [] then NoReading
    else match Search(t, 0, PercentSign) {
      case Some((g, _)) => Hundredth(g)
      case None => match Search(t, 0, EscapedPercent) {
        case Some((g, _)) => Hundredth(g)
        case None => match Search(t, 0, WordPercent) {
          case Some((g, _)) => Hundredth(g)
          case None => match DecimalFraction(t) {
            case Some(v) => Reading(v)
            case None => match Search(t, 0, NegativePercent) {
              case Some((g, _)) => Hundredth(g)
              case None => NoReading
            }
          }
        }
      }
    }
  }

  /** The group of the decimal pattern is always something `float()` reads. */
  lemma DecimalParses(t: string, m: (string, nat))
    requires exists q | 0 <= q <= |t| :: DecimalAt(t, q) == Some(m)
    ensures FloatOfRun(m.0).Some?
  {
    var q :| 0 <= q <= |t| && DecimalAt(t, q) == Some(m);
    DecimalGroupParses(t, q);
  }

  lemma DecimalGroupParses(t: string, q: nat)
    requires DecimalAt(t, q).Some?
    ensures FloatOfRun(DecimalAt(t, q).value.0).Some?
  {
    var b := if t[q] == '-' then q + 1 else q;
    var d := DigitRunEnd(t, b);
    var e := DigitRunEnd(t, d + 1);
    var g := t[q..e];
    assert DecimalAt(t, q).value.0 == g;
    DigitsPointDigits(t, b, d, e);
    assert t[b..e] == if t[q] == '-' then g[1..] else g;
  }

  /** Digits, a point, digits: a run `float()` reads. */
  lemma DigitsPointDigits(t: string, b: nat, d: nat, e: nat)
    requires b < d < e <= |t| && t[d] == '.'
    requires forall i | b <= i < d :: IsDigit(t[i])
    requires forall i | d < i < e :: IsDigit(t[i])
    ensures IsDecimalRun(t[b..e])
  {
    var body := t[b..e];
    var left := body[..d - b];
    var right := body[d - b + 1..];
    assert forall i | 0 <= i < |left| :: left[i] == t[b + i];
    assert forall i | 0 <= i < |right| :: right[i] == t[d + 1 + i];
    CountNone(left, '.');
    CountNone(right, '.');
    CountSplit(body, '.', d - b);
    assert forall i | 0 <= i < |body| :: body[i] == t[b + i];
    assert IsDigit(body[0]);
  }

  /** "n%" reads as n/100. */
  lemma PercentOfNatural(n: nat)
    ensures ExtractPercentage(NatToString(n) + "%") == Reading(n as real / 100.0)
  {
    var s := NatToString(n);
    assert IsNumRun(s) by {
      assert forall i | 0 <= i < |s| :: IsDigit(s[i]);
    }
    PercentSignAtStart(s);
    PercentSignFirst(s + "%", s);
    HundredthOfNatural(n);
  }

  lemma HundredthOfNatural(n: nat)
    ensures Hundredth(NatToString(n)) == Reading(n as real / 100.0)
  {
    FloatOfNatString(n);
  }

  /** A text that starts with a percentage reads as that percentage. */
  lemma PercentSignFirst(t: string, g: string)
    requires t != [] && PercentSign(t, 0).Some? && PercentSign(t, 0).value.0 == g
    ensures ExtractPercentage(t) == Hundredth(g)
  {
    assert Search(t, 0, PercentSign) == PercentSign(t, 0);
  }

  lemma PercentSignAtStart(s: string)
    requires IsNumRun(s)
    ensures PercentSign(s + "%", 0) == Some((s, |s| + 1))
  {
    var t := s + "%";
    assert t[..|s|] == s;
    assert forall i | 0 <= i < |s| :: t[i] == s[i];
    NumRunEndAt(t, 0, |s|);
    assert SkipSpace(t, |s|) == |s|;
    assert LitAt(t, |s|, ["%"][0]);
  }

  lemma {:induction false} NumRunEndAt(t: string, q: nat, e: nat)
    requires q <= e <= |t| && (forall i | q <= i < e :: IsNumChar(t[i])) && (e == |t| || !IsNumChar(t[e]))
    ensures NumRunEnd(t, q) == e
    decreases e - q
  {
    if q < e {
      NumRunEndAt(t, q + 1, e);
    }
  }

  /** Without a percent sign only the decimal form can read a value, and then it is
      a fraction in [0, 1]. */
  lemma NoPercentSign(t: string)
    requires !Contains(t, "%")
    ensures ExtractPercentage(t).NoReading? || (ExtractPercentage(t).Reading? && 0.0 <= ExtractPercentage(t).value <= 1.0)
  {
    PercentPatternsFail(t);
  }

  lemma PercentPatternsFail(t: string)
    requires !Contains(t, "%")
    ensures Search(t, 0, PercentSign).None? && Search(t, 0, EscapedPercent).None?
    ensures Search(t, 0, WordPercent).None? && Search(t, 0, NegativePercent).None?
  {
    assert Contains("%", "%") by { ContainsAt("%", "%", 0); }
    assert Contains("\\%", "%") by { ContainsAt("\\%", "%", 1); }
    assert Contains("\\mathrm{%}", "%") by { ContainsAt("\\mathrm{%}", "%", 8); }
    assert Contains("\\text{%}", "%") by { ContainsAt("\\text{%}", "%", 6); }
    forall q: nat | q <= |t|
      ensures PercentSign(t, q).None? && EscapedPercent(t, q).None?
      ensures WordPercent(t, q).None? && NegativePercent(t, q).None?
    {
      NeedsPercent(t, q, OptionalMinus, true, ["%"]);
      NeedsPercent(t, q, OptionalMinus, true, ["\\%"]);
      NeedsPercent(t, q, OptionalMinus, true, ["\\mathrm{%}", "\\text{%}"]);
      NeedsPercent(t, q, RequiredMinus, false, ["%"]);
    }
    SearchNoneAll(t, 0, PercentSign);
    SearchNoneAll(t, 0, EscapedPercent);
    SearchNoneAll(t, 0, WordPercent);
    SearchNoneAll(t, 0, NegativePercent);
  }

  /** A pattern whose every suffix holds a percent sign matches nowhere in a text
      without one. */
  lemma NeedsPercent(t: string, q: nat, sign: Sign, spaces: bool, suffixes: seq<string>)
    requires forall k | 0 <= k < |suffixes| :: Contains(suffixes[k], "%")
    requires !Contains(t, "%")
    ensures NumberThen(t, q, sign, spaces, suffixes).None?
  {
    if q < |t| {
      var b := if !sign.NoSign? && t[q] == '-' then q + 1 else q;
      if b < |t| && IsNumChar(t[b]) {
        var e := NumRunEnd(t, b);
        var s := if spaces then SkipSpace(t, e) else e;
        if FirstSuffix(t, s, suffixes).Some? {
          var k :| 0 <= k < |suffixes| && LitAt(t, s, suffixes[k]);
          LitContains(t, s, suffixes[k], "%");
          assert false;
        }
      }
    }
  }

  /** What occurs inside a literal found in `t` occurs in `t`. */
  lemma LitContains(t: string, s: nat, w: string, p: string)
    requires LitAt(t, s, w) && Contains(w, p)
    ensures Contains(t, p)
  {
    var j := ContainsWitness(w, p);
    forall i | 0 <= i < |p| ensures t[s + j + i] == p[i] {
      assert t[s..s + |w|][j + i] == w[j + i];
      assert w[j..j + |p|][i] == w[j + i];
    }
    assert t[s + j..s + j + |p|] == p;
    ContainsAt(t, p, s + j);
  }

  lemma {:induction false} SearchNoneAll<T>(t: string, p: nat, m: Matcher<T>)
    requires forall q: nat | p <= q <= |t| :: m(t, q).None?
    ensures Search(t, p, m).None?
    decreases |t| + 1 - p
  {
    if p <= |t| {
      SearchNoneAll(t, p + 1, m);
    }
  }

  /** The last step of the reader, `(-[0-9.]+)%`, never decides: wherever it
      matches, the first pattern `(-?[0-9.]+)\s*%` matches too. */
  lemma NegativePercentShadowed(t: string, q: nat)
    requires NegativePercent(t, q).Some?
    ensures Search(t, 0, PercentSign).Some?
  {
    var e := NumRunEnd(t, q + 1);
    assert t[e] == '%';
    assert SkipSpace(t, e) == e;
    assert PercentSign(t, q).Some?;
    SearchReaches(t, 0, q, PercentSign);
  }

  lemma {:induction false} SearchReaches<T>(t: string, p: nat, q: nat, m: Matcher<T>)
    requires p <= q <= |t| && m(t, q).Some?
    ensures Search(t, p, m).Some?
    decreases q - p
  {
    if p < q && m(t, p).None? {
      SearchReaches(t, p + 1, q, m);
    }
  }

  // ---------------------------------------------------------------------------
  // The comparison through the unit library

  /** A magnitude with the unit the library reports for it. */
  datatype Quantity = Quantity(magnitude: real, units: string)

  const Celsius := "degree_Celsius"
  const KelvinUnit := "kelvin"

  /** The parts of the evaluator that are foreign code: `clean_latex`,
      `latex_to_quantity` (with its `Err` for the exceptions it raises),
      `to_base_units`, and the regular-expression readers of the complex-fraction
      and MW branches (each `Some((expected, actual))` exactly when its branch gets
      as far as the comparison) and of temperatures and angles. */
  datatype QuantityLib = QuantityLib(
    clean: string -> string,
    parse: string -> Result<Quantity, string>,
    toBase: Quantity -> Result<Quantity, string>,
    fraction: (string, string) -> Option<(real, real)>,
    megawatts: (string, string) -> Option<(real, real)>,
    temperature: string -> Reading,
    angle: string -> Reading)

  /** A Celsius magnitude in kelvin, as `q.to('kelvin')` gives it. */
  function InKelvin(q: Quantity): real {
    if q.units == Celsius then Kelvin(q.magnitude) else q.magnitude
  }

  /** `compare_latex_quantities`: `None` when the library raises. */
  function CompareQuantities(l1: string, l2: string, tol: real, lib: QuantityLib): (r: Option<bool>)
    ensures lib.parse(l1).Err? || lib.parse(l2).Err? ==> r.None?
    ensures lib.parse(l1).Ok? && lib.parse(l2).Ok? ==>
      var q1 := lib.parse(l1).value;
      var q2 := lib.parse(l2).value;
      (q1.units == Celsius && q2.units == Celsius ==> r == Some(Within(Kelvin(q1.magnitude), Kelvin(q2.magnitude), tol)))
      && ({q1.units, q2.units} == {Celsius, KelvinUnit} ==> r == Some(Within(InKelvin(q1), InKelvin(q2), tol)))
    ensures r == Some(false) ==> lib.parse(l1).Ok? && lib.parse(l2).Ok?
  {
    match (lib.parse(l1), lib.parse(l2)) {
      case (Ok(q1), Ok(q2)) =>
        if q1.units == Celsius && q2.units == Celsius then
          Some(Within(Kelvin(q1.magnitude), Kelvin(q2.magnitude), tol))
        else if (q1.units == Celsius && q2.units == KelvinUnit) || (q1.units == KelvinUnit && q2.units == Celsius) then
          Some(Within(InKelvin(q1), InKelvin(q2), tol))
        else
          match (lib.toBase(q1), lib.toBase(q2)) {
            case (Ok(b1), Ok(b2)) =>
              if b1.units != b2.units then Some(false)
              else Some(Within(b1.magnitude, b2.magnitude, tol))
            case _ => None
          }
      case _ => None
    }
  }

  /** Outside temperatures, different base units are a `False`, never a `None`, and
      equal ones go to the relative check. */
  lemma BaseUnitsDecide(l1: string, l2: string, tol: real, lib: QuantityLib)
    requires lib.parse(l1).Ok? && lib.parse(l2).Ok?
    requires lib.parse(l1).value.units !in {Celsius, KelvinUnit} && lib.parse(l2).value.units !in {Celsius, KelvinUnit}
    requires lib.toBase(lib.parse(l1).value).Ok? && lib.toBase(lib.parse(l2).value).Ok?
    ensures var b1 := lib.toBase(lib.parse(l1).value).value;
      var b2 := lib.toBase(lib.parse(l2).value).value;
      CompareQuantities(l1, l2, tol, lib) == Some(b1.units == b2.units && Within(b1.magnitude, b2.magnitude, tol))
  {
  }

  // ---------------------------------------------------------------------------
  // The cascade

  const InvalidMessage := "Invalid quantity expression"
  const ComparisonMessage := "Error comparing quantities"

  /** `([0-9.]+)\s*\\mu` */
  function MicronAt(t: string, q: nat): Option<(string, nat)> {
    NumberThen(t, q, NoSign, true, ["\\mu"])
  }

  /** The micron branch: both values read before `\mu`, relative tolerance. A
      value `float()` rejects ends the branch without a verdict. */
  function MicronBranch(e: string, a: string, tol: real): (r: Option<bool>)
    ensures r.Some? ==> exists q | 0 <= q <= |e| :: MicronAt(e, q).Some?
    ensures r.Some? ==> exists q | 0 <= q <= |a| :: MicronAt(a, q).Some?
  {
    match (Search(e, 0, MicronAt), Search(a, 0, MicronAt)) {
      case (Some((ge, _)), Some((ga, _))) =>
        match (FloatOfRun(ge), FloatOfRun(ga)) {
          case (Some(ve), Some(va)) => Some(Within(ve, va, tol))
          case _ => None
        }
      case _ => None
    }
  }

  /** The micron branch reads both sides alike: swapping them changes nothing. */
  lemma MicronBranchSymmetric(e: string, a: string, tol: real)
    ensures MicronBranch(e, a, tol) == MicronBranch(a, e, tol)
  {
    match (Search(e, 0, MicronAt), Search(a, 0, MicronAt)) {
      case (Some((ge, _)), Some((ga, _))) =>
        match (FloatOfRun(ge), FloatOfRun(ga)) {
          case (Some(ve), Some(va)) => WithinSymmetric(ve, va, tol);
          case _ =>
        }
      case _ =>
    }
  }

  /** The expression `\frac{15 \sqrt{2} \pi}{8}` in kelvin against "23 K" is
      accepted by name. */
  predicate ForcedCorrect(e: string, a: string) {
    (Contains(a, "\\frac{15 \\sqrt{2} \\pi}{8}") || Contains(a, "\\frac{15\\sqrt{2}\\pi}{8}"))
    && (Contains(a, "K") || Contains(a, "\\text{K}"))
    && Contains(e, "23 K")
  }

  /** The cases on the raw text, up to the MW case: a judgement, or `None` to go on
      to the cleaned text. */
  function RawStage(e: string, a: string, tol: real, lib: QuantityLib): (r: Option<Judgement>)
    ensures r.Some? ==> (r.value.verdict.Undecided? <==> r.value.error.Some?)
  {
    if Contains(e, "%") && Contains(a, "%") && PercentStage(e, a, tol).Some? then
      PercentStage(e, a, tol)
    else if Contains(e, "\\mu") && Contains(e, "m") && Contains(a, "\\mu") && Contains(a, "m")
         && MicronBranch(e, a, tol).Some? then
      Some(Decided(MicronBranch(e, a, tol).value))
    else if ForcedCorrect(e, a) then
      Some(Decided(true))
    else if Contains(a, "\\frac") && (Contains(a, "\\pi") || Contains(a, "\\sqrt")) && lib.fraction(e, a).Some? then
      var (ve, va) := lib.fraction(e, a).value;
      Some(Decided(Within(va, ve, tol)))
    else if Contains(e, "MW") && (Contains(e, "10^") || Contains(e, "10")) && (Contains(a, "MW") || Contains(a, "W"))
         && lib.megawatts(e, a).Some? then
      var (ve, va) := lib.megawatts(e, a).value;
      Some(Decided(Within(ve, va, tol)))
    else None
  }

  /** The first percentage case, on the raw text: both read, relative tolerance;
      a run `float()` rejects raises, and the evaluator reports the exception. */
  function PercentStage(e: string, a: string, tol: real): (r: Option<Judgement>)
    ensures r.Some? ==> (r.value.verdict.Undecided? <==> r.value.error.Some?)
  {
    match (ExtractPercentage(e), ExtractPercentage(a)) {
      case (Unreadable(g), _) => Some(Failed(FloatError(g)))
      case (_, Unreadable(g)) => Some(Failed(FloatError(g)))
      case (Reading(pe), Reading(pa)) => Some(Decided(Within(pe, pa, tol)))
      case _ => None
    }
  }

  predicate TemperatureText(t: string) {
    Contains(t, "degC") || Contains(t, " C") || Contains(t, "°C") || Contains(t, "\\circ C")
  }

  predicate AngleText(t: string) {
    Contains(t, " deg") || Contains(t, "latitude") || Contains(t, "degrees")
  }

  predicate PercentText(ce: string, ca: string) {
    Contains(ce, "%") || Contains(ca, "%") || (Contains(ce, ".") && Contains(ca, "."))
  }

  /** Two readings taken one after the other: the first failure raises, both
      values give `Some`, anything else `None` with no failure. */
  function BothRead(x: Reading, y: Reading): (r: Result<Option<(real, real)>, string>)
    ensures r == Ok(None) ==> !x.Unreadable? && !y.Unreadable? && !(x.Reading? && y.Reading?)
    ensures r.Ok? && r.value.Some? ==> x == Reading(r.value.value.0) && y == Reading(r.value.value.1)
  {
    match (x, y) {
      case (Unreadable(g), _) => Err(FloatError(g))
      case (_, Unreadable(g)) => Err(FloatError(g))
      case (Reading(u), Reading(v)) => Ok(Some((u, v)))
      case _ => Ok(None)
    }
  }

  /** The temperature case: the Celsius magnitudes are compared, then again in
      kelvin, and the kelvin verdict replaces the first one when they differ. */
  function TemperatureVerdict(te: real, ta: real, tol: real): (b: bool)
    ensures b == Within(Kelvin(te), Kelvin(ta), tol)
  {
    var direct := Within(te, ta, tol);
    var inKelvin := Within(Kelvin(te), Kelvin(ta), tol);
    if direct != inKelvin then inKelvin else direct
  }

  /** The cases on the cleaned text, then the library comparison. */
  function CleanedStage(ce: string, ca: string, tol: real, lib: QuantityLib): (r: Judgement)
    ensures r.verdict.Undecided? <==> r.error.Some?
  {
    var temperature := if TemperatureText(ce) && TemperatureText(ca)
      then BothRead(lib.temperature(ce), lib.temperature(ca)) else Ok(None);
    var angle := if AngleText(ce) || AngleText(ca)
      then BothRead(lib.angle(ce), lib.angle(ca)) else Ok(None);
    var percent := if PercentText(ce, ca)
      then BothRead(ExtractPercentage(ce), ExtractPercentage(ca)) else Ok(None);
    match temperature {
      case Err(m) => Failed(m)
      case Ok(Some((te, ta))) => Decided(TemperatureVerdict(te, ta, tol))
      case Ok(None) =>
        match angle {
          case Err(m) => Failed(m)
          case Ok(Some((ge, ga))) => Decided(Within(ge, ga, tol))
          case Ok(None) =>
            match percent {
              case Err(m) => Failed(m)
              case Ok(Some((pe, pa))) => Decided(Abs(pe - pa) <= 0.15)
              case Ok(None) =>
                match CompareQuantities(ce, ca, tol, lib) {
                  case Some(b) => Decided(b)
                  case None => Failed(ComparisonMessage)
                }
            }
        }
    }
  }

  /** `QuantityEvaluator(tolerance=tol).evaluate(expected, actual)`. */
  function Evaluate(e: string, a: string, tol: real, lib: QuantityLib): (r: Judgement)
    ensures !IsValidQuantity(e) || !IsValidQuantity(a) ==> r == Failed(InvalidMessage)
    ensures r.verdict.Undecided? <==> r.error.Some?
  {
    if !IsValidQuantity(e) || !IsValidQuantity(a) then Failed(InvalidMessage)
    else match RawStage(e, a, tol, lib) {
      case Some(j) => j
      case None => CleanedStage(lib.clean(e), lib.clean(a), tol, lib)
    }
  }

  // ---------------------------------------------------------------------------
  // What the cascade promises

  /** Percentages on the raw text are decided by the relative check, before any
      other case. */
  lemma RawPercentDecides(e: string, a: string, tol: real, lib: QuantityLib)
    requires IsValidQuantity(e) && IsValidQuantity(a) && Contains(e, "%") && Contains(a, "%")
    requires ExtractPercentage(e).Reading? && ExtractPercentage(a).Reading?
    ensures Evaluate(e, a, tol, lib) == Decided(Within(ExtractPercentage(e).value, ExtractPercentage(a).value, tol))
  {
    var j := Decided(Within(ExtractPercentage(e).value, ExtractPercentage(a).value, tol));
    assert PercentStage(e, a, tol) == Some(j);
    assert RawStage(e, a, tol, lib) == Some(j);
  }

  /** The verdict of the raw percentage case does not depend on which side is the
      expected one. */
  lemma RawPercentSymmetric(e: string, a: string, tol: real, lib: QuantityLib)
    requires IsValidQuantity(e) && IsValidQuantity(a) && Contains(e, "%") && Contains(a, "%")
    requires ExtractPercentage(e).Reading? && ExtractPercentage(a).Reading?
    ensures Evaluate(e, a, tol, lib) == Evaluate(a, e, tol, lib)
  {
    RawPercentDecides(e, a, tol, lib);
    RawPercentDecides(a, e, tol, lib);
    WithinSymmetric(ExtractPercentage(e).value, ExtractPercentage(a).value, tol);
  }

  /** The override wins whenever the percentage and micron cases cannot apply. */
  lemma OverrideForcesCorrect(e: string, a: string, tol: real, lib: QuantityLib)
    requires IsValidQuantity(e) && IsValidQuantity(a) && ForcedCorrect(e, a)
    requires !Contains(e, "%") && !Contains(e, "\\mu")
    ensures Evaluate(e, a, tol, lib) == Judgement(Correct, None)
  {
  }

  /** Temperatures on the cleaned text: the verdict is the kelvin comparison. */
  lemma TemperatureInKelvin(ce: string, ca: string, tol: real, lib: QuantityLib)
    requires TemperatureText(ce) && TemperatureText(ca)
    requires lib.temperature(ce).Reading? && lib.temperature(ca).Reading?
    ensures CleanedStage(ce, ca, tol, lib)
      == Decided(Within(Kelvin(lib.temperature(ce).value), Kelvin(lib.temperature(ca).value), tol))
  {
  }

  /** The second percentage case uses an absolute tolerance of 0.15 on the
      fractions, once no temperature or angle case has applied. */
  lemma CleanedPercentAbsolute(ce: string, ca: string, tol: real, lib: QuantityLib)
    requires !(TemperatureText(ce) && TemperatureText(ca)) && !AngleText(ce) && !AngleText(ca)
    requires PercentText(ce, ca) && ExtractPercentage(ce).Reading? && ExtractPercentage(ca).Reading?
    ensures CleanedStage(ce, ca, tol, lib)
      == Decided(Abs(ExtractPercentage(ce).value - ExtractPercentage(ca).value) <= 0.15)
  {
  }

  /** With no special case applying, a library failure is undecided and a pair of
      different base units is a plain `False`. */
  lemma GenericComparison(ce: string, ca: string, tol: real, lib: QuantityLib)
    requires !(TemperatureText(ce) && TemperatureText(ca)) && !AngleText(ce) && !AngleText(ca) && !PercentText(ce, ca)
    ensures CompareQuantities(ce, ca, tol, lib).None? ==> CleanedStage(ce, ca, tol, lib) == Failed(ComparisonMessage)
    ensures CompareQuantities(ce, ca, tol, lib) == Some(false) ==> CleanedStage(ce, ca, tol, lib) == Judgement(Incorrect, None)
  {
  }

  /** "10%" against "11.4%": both raw texts hold a percent sign, so the relative
      5% check decides, and 0.114 is not within 5% of 0.1. (An absolute 0.15 is
      applied only in the later case on the cleaned text, which this pair never
      reaches.) */
  lemma TenAgainstElevenPointFour(lib: QuantityLib)
    ensures Evaluate("10%", "11.4%", DefaultTolerance, lib) == Judgement(Incorrect, None)
  {
    TenPercentReads();
    ElevenPointFourPercentReads();
    PercentTextValid("10%", 0, 2);
    PercentTextValid("11.4%", 0, 4);
    RawPercentDecides("10%", "11.4%", DefaultTolerance, lib);
    assert !Within(0.1, 0.114, DefaultTolerance) by {
      assert Abs(0.1 - 0.114) == 0.014;
      assert Max(Abs(0.1), Abs(0.114)) == 0.114;
    }
  }

  lemma TenPercentReads()
    ensures Contains("10%", "%") && ExtractPercentage("10%") == Reading(0.1)
  {
    assert IsNumRun("10");
    PercentSignAtStart("10");
    assert "10" + "%" == "10%";
    PercentSignFirst("10%", "10");
    Ten();
    ContainsAt("10%", "%", 2);
  }

  lemma Ten()
    ensures FloatOfRun("10") == Some(10.0)
  {
    var s := "10";
    assert CountChar(s, '.') == 0;
    assert IsDecimalRun(s);
    assert IndexOfChar(s, '.') == 2;
    assert s[..2] == "10";
    assert DigitsValue("10") == 10 by {
      assert "10"[..1] == "1";
    }
  }

  lemma ElevenPointFourPercentReads()
    ensures Contains("11.4%", "%") && ExtractPercentage("11.4%") == Reading(0.114)
  {
    assert IsNumRun("11.4");
    PercentSignAtStart("11.4");
    assert "11.4" + "%" == "11.4%";
    PercentSignFirst("11.4%", "11.4");
    ElevenPointFour();
    ContainsAt("11.4%", "%", 4);
  }

  lemma ElevenPointFour()
    ensures FloatOfRun("11.4") == Some(11.4)
  {
    var s := "11.4";
    assert CountChar(s, '.') == 1 by {
      assert CountChar(s[3..], '.') == 0;
    }
    assert IsDecimalRun(s);
    assert IndexOfChar(s, '.') == 2;
    assert s[..2] == "11" && s[3..] == "4";
    assert DigitsValue("11") == 11;
    assert DigitsValue("4") == 4;
  }

  /** A digit and a percent sign are enough for the gate. */
  lemma PercentTextValid(t: string, d: nat, p: nat)
    requires d < |t| && IsDigit(t[d]) && p < |t| && t[p] == '%'
    ensures IsValidQuantity(t)
  {
    assert t[p..p + 1] == "%";
    ContainsAt(t, "%", p);
  }
}
