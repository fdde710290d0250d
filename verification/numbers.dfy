/** The number-reading patterns the quantity and expression evaluators share: a run
    of `[0-9.]` with an optional or required minus sign and an optional literal
    after it, the `-?[0-9]+\.[0-9]+` decimal, and what `float()` makes of a run. */
module Numbers {
  import opened Wrappers
  import opened Text
  import opened Scan

  /** `-?` before the run, no sign, or a required `-`. */
  datatype Sign = NoSign | OptionalMinus | RequiredMinus

  /** The first of `suffixes` that occurs at `s`, as an alternation `(?:x|y)` tries
      them, and the index after it. */
  function FirstSuffix(t: string, s: nat, suffixes: seq<string>): (r: Option<nat>)
    ensures r.Some? ==> exists k | 0 <= k < |suffixes| :: LitAt(t, s, suffixes[k]) && r.value == s + |suffixes[k]|
    ensures r.None? <==> forall k | 0 <= k < |suffixes| :: !LitAt(t, s, suffixes[k])
    decreases |suffixes|
  {
    if suffixes == [] then None
    else if LitAt(t, s, suffixes[0]) then Some(s + |suffixes[0]|)
    else
      var r := FirstSuffix(t, s, suffixes[1..]);
      assert forall k | 1 <= k < |suffixes| :: suffixes[k] == suffixes[1..][k - 1];
      r
  }

  /** The pattern `(S[0-9.]+)\s*(?:x|y|…)` at `q`, capturing the signed run; with
      `spaces` false there is no `\s*`. The run is maximal: every suffix used
      starts with a character that is neither a digit, a point nor whitespace, so
      a shorter run or a shorter `\s*` cannot be followed by it. */
  function NumberThen(t: string, q: nat, sign: Sign, spaces: bool, suffixes: seq<string>): (r: Option<(string, nat)>)
    ensures r.Some? ==> q < r.value.1 <= |t|
    ensures r.Some? ==> var g := r.value.0;
      0 < |g| && q + |g| <= |t| && g == t[q..q + |g|]
      && (forall k | 0 <= k < |g| :: IsNumChar(g[k]) || (k == 0 && g[0] == '-' && !sign.NoSign?))
      && (sign.RequiredMinus? ==> g[0] == '-')
  {
    if q >= |t| then None
    else if sign.RequiredMinus? && t[q] != '-' then None
    else
      var b := if !sign.NoSign? && t[q] == '-' then q + 1 else q;
      if b < |t| && IsNumChar(t[b]) then
        var e := NumRunEnd(t, b);
        var s := if spaces then SkipSpace(t, e) else e;
        match FirstSuffix(t, s, suffixes) {
          case Some(k) =>
            assert s <= k <= |t|;
            Some((t[q..e], k))
          case None => None
        }
      else None
  }

  /** `([0-9.]+)`: a maximal run of digits and points. */
  function NumRun(t: string, q: nat): Option<(string, nat)> {
    NumberThen(t, q, NoSign, false, [""])
  }

  /** `re.search(r'([0-9.]+)', s).group(1)`: the first run of digits and points. */
  function FirstNumRun(t: string): (r: Option<string>)
    ensures r.Some? ==> |r.value| > 0 && forall k | 0 <= k < |r.value| :: IsNumChar(r.value[k])
  {
    match Search(t, 0, NumRun) {
      case Some((g, _)) => Some(g)
      case None => None
    }
  }

  /** There is a run exactly when some character is a digit or a point. */
  lemma FirstNumRunExists(t: string)
    ensures FirstNumRun(t).Some? <==> exists i | 0 <= i < |t| :: IsNumChar(t[i])
  {
    if i :| 0 <= i < |t| && IsNumChar(t[i]) {
      SearchFinds(t, 0, i);
    } else {
      SearchNone(t, 0);
    }
  }

  lemma {:induction false} SearchFinds(t: string, p: nat, i: nat)
    requires p <= i < |t| && IsNumChar(t[i])
    ensures Search(t, p, NumRun).Some?
    decreases i - p
  {
    if p == i {
      assert LitAt(t, NumRunEnd(t, i), [""][0]);
    } else if NumRun(t, p).None? {
      SearchFinds(t, p + 1, i);
    }
  }

  lemma {:induction false} SearchNone(t: string, p: nat)
    requires forall i | 0 <= i < |t| :: !IsNumChar(t[i])
    ensures Search(t, p, NumRun).None?
    decreases |t| + 1 - p
  {
    if p <= |t| {
      SearchNone(t, p + 1);
    }
  }

  /** `-?[0-9]+\.[0-9]+` at `q`: digits, one point, digits. */
  function DecimalAt(t: string, q: nat): (r: Option<(string, nat)>)
    ensures r.Some? ==> q < r.value.1 <= |t| && r.value.0 == t[q..r.value.1]
  {
    if q >= |t| then None
    else
      var b := if t[q] == '-' then q + 1 else q;
      var d := DigitRunEnd(t, b);
      if d > b && d < |t| && t[d] == '.' then
        var e := DigitRunEnd(t, d + 1);
        if e > d + 1 then Some((t[q..e], e)) else None
      else None
  }

  /** The message of the `ValueError` that `float()` raises on a run it cannot
      read, as `str(e)` shows it. */
  function FloatError(run: string): (m: string)
    ensures |m| > |run|
  {
    "could not convert string to float: '" + run + "'"
  }

  /** A value read by a pattern: no match, the value, or a match whose run
      `float()` rejects (which raises). */
  datatype Reading = NoReading | Reading(value: real) | Unreadable(run: string)
}
