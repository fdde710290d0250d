/** The comparison every numeric branch of the evaluators uses:
    `abs(x - y) <= tol * max(abs(x), abs(y))`, on magnitudes taken as reals. */
module Tolerance {

  function Abs(x: real): (r: real)
    ensures r >= 0.0
    ensures r == x || r == -x
  {
    if x < 0.0 then -x else x
  }

  function Max(x: real, y: real): (r: real)
    ensures r >= x && r >= y
    ensures r == x || r == y
  {
    if x < y then y else x
  }

  /** `diff <= tol * max_val`: `y` is within the relative tolerance `tol` of `x`. */
  predicate Within(x: real, y: real, tol: real) {
    Abs(x - y) <= tol * Max(Abs(x), Abs(y))
  }

  /** The default relative tolerance of the evaluators and the command line. */
  const DefaultTolerance: real := 0.05

  /** The relative check does not depend on which value is the expected one. */
  lemma WithinSymmetric(x: real, y: real, tol: real)
    ensures Within(x, y, tol) <==> Within(y, x, tol)
  {
    assert Abs(x - y) == Abs(y - x);
  }

  /** A value is within any non-negative tolerance of itself. */
  lemma WithinReflexive(x: real, tol: real)
    requires tol >= 0.0
    ensures Within(x, x, tol)
  {
    assert Abs(x - x) == 0.0;
    assert Max(Abs(x), Abs(x)) >= 0.0;
  }

  lemma MulPos(a: real, b: real)
    requires a > 0.0 && b > 0.0
    ensures a * b > 0.0
  {
  }

  lemma AbsScale(c: real, x: real)
    requires c > 0.0
    ensures Abs(c * x) == c * Abs(x)
  {
    if x < 0.0 {
      MulPos(c, -x);
      assert c * (-x) == -(c * x);
    } else if x > 0.0 {
      MulPos(c, x);
    }
  }

  lemma MaxScale(c: real, a: real, b: real)
    requires c > 0.0
    ensures Max(c * a, c * b) == c * Max(a, b)
  {
    if a < b {
      MulPos(c, b - a);
      assert c * b - c * a == c * (b - a);
    } else if b < a {
      MulPos(c, a - b);
      assert c * a - c * b == c * (a - b);
    }
  }

  /** Scaling both values by the same positive factor keeps the verdict: a change
      of units by a factor does not change the relative check. */
  lemma WithinScale(x: real, y: real, tol: real, c: real)
    requires c > 0.0
    ensures Within(c * x, c * y, tol) <==> Within(x, y, tol)
  {
    AbsDiffScale(c, x, y);
    MaxAbsScale(c, x, y);
    ScaleStep(c, x, y, tol);
  }

  lemma AbsDiffScale(c: real, x: real, y: real)
    requires c > 0.0
    ensures Abs(c * x - c * y) == c * Abs(x - y)
  {
    assert c * x - c * y == c * (x - y);
    AbsScale(c, x - y);
  }

  lemma MaxAbsScale(c: real, x: real, y: real)
    requires c > 0.0
    ensures Max(Abs(c * x), Abs(c * y)) == c * Max(Abs(x), Abs(y))
  {
    AbsScale(c, x);
    AbsScale(c, y);
    MaxScale(c, Abs(x), Abs(y));
  }

  lemma ScaleStep(c: real, x: real, y: real, tol: real)
    requires c > 0.0
    requires Abs(c * x - c * y) == c * Abs(x - y)
    requires Max(Abs(c * x), Abs(c * y)) == c * Max(Abs(x), Abs(y))
    ensures Within(c * x, c * y, tol) <==> Within(x, y, tol)
  {
    var d := Abs(x - y);
    var m := Max(Abs(x), Abs(y));
    assert tol * (c * m) == c * (tol * m);
    MulLeCancel(c, d, tol * m);
  }

  lemma MulLeCancel(c: real, a: real, b: real)
    requires c > 0.0
    ensures c * a <= c * b <==> a <= b
  {
    if a < b {
      MulPos(c, b - a);
      assert c * b - c * a == c * (b - a);
    } else if b < a {
      MulPos(c, a - b);
      assert c * a - c * b == c * (a - b);
    }
  }

  /** Celsius to Kelvin, as the unit library converts a `degC` magnitude. */
  function Kelvin(celsius: real): (k: real)
    ensures k - celsius == 273.15
  {
    celsius + 273.15
  }

  /** A shift of origin is not a scaling: 10 and 11 degrees Celsius are not within
      5% of each other, but their Kelvin values are. The temperature branches
      therefore do change verdicts when they prefer the Kelvin comparison. */
  lemma CelsiusAndKelvinDisagree()
    ensures !Within(10.0, 11.0, DefaultTolerance)
    ensures Within(Kelvin(10.0), Kelvin(11.0), DefaultTolerance)
  {
    assert Abs(10.0 - 11.0) == 1.0;
    assert Max(Abs(10.0), Abs(11.0)) == 11.0;
    assert Abs(Kelvin(10.0) - Kelvin(11.0)) == 1.0;
    assert Max(Abs(Kelvin(10.0)), Abs(Kelvin(11.0))) == 284.15;
  }
}
