/** Building blocks for the regular expressions of the evaluators. Every pattern the
    model reads concretely is written as a deterministic matcher at one position;
    `FindAll` then gives Python's `re.finditer`/`re.findall` semantics: the leftmost
    match, then the next search resumes where that match ended. */
module Scan {
  import opened Wrappers
  import opened Text

  /** A matcher: at a position, either no match, or the captured value and the index
      just past the match. */
  type Matcher<T> = (string, nat) -> Option<(T, nat)>

  /** The captures of all non-overlapping matches at or after `p`, left to right. */
  function FindAll<T>(t: string, p: nat, m: Matcher<T>): (r: seq<T>)
    decreases |t| + 1 - p
  {
    if p > |t| then []
    else match m(t, p) {
      case Some((x, e)) => [x] + FindAll(t, if e > p then e else p + 1, m)
      case None => FindAll(t, p + 1, m)
    }
  }

  /** `re.search`: the leftmost match at or after `p`. */
  function Search<T>(t: string, p: nat, m: Matcher<T>): (r: Option<(T, nat)>)
    ensures r.Some? ==> exists q | p <= q <= |t| :: m(t, q) == r
    decreases |t| + 1 - p
  {
    if p > |t| then None
    else if m(t, p).Some? then m(t, p)
    else Search(t, p + 1, m)
  }

  /** Some position at or after `p` matches. */
  predicate MatchesSomewhere<T>(t: string, p: nat, m: Matcher<T>) {
    exists q | p <= q <= |t| :: m(t, q).Some?
  }

  /** `findall` finds something exactly when the pattern matches somewhere. */
  lemma {:induction false} FindAllNonEmpty<T>(t: string, p: nat, m: Matcher<T>)
    ensures FindAll(t, p, m) != [] <==> MatchesSomewhere(t, p, m)
    decreases |t| + 1 - p
  {
    if p <= |t| && m(t, p).None? {
      FindAllNonEmpty(t, p + 1, m);
      if MatchesSomewhere(t, p, m) {
        var q :| p <= q <= |t| && m(t, q).Some?;
        assert q != p;
        assert MatchesSomewhere(t, p + 1, m);
      }
    }
  }

  /** `search` and `findall` agree on whether there is a match, and the search finds
      the first capture of `findall`. */
  lemma {:induction false} SearchIsFirst<T>(t: string, p: nat, m: Matcher<T>)
    ensures Search(t, p, m).Some? <==> FindAll(t, p, m) != []
    ensures Search(t, p, m).Some? ==> Search(t, p, m).value.0 == FindAll(t, p, m)[0]
    decreases |t| + 1 - p
  {
    if p <= |t| && m(t, p).None? {
      SearchIsFirst(t, p + 1, m);
    }
  }

  /** The last capture of `findall`, as `matches[-1]` reads it. */
  function Last<T>(xs: seq<T>): T
    requires xs != []
  {
    xs[|xs| - 1]
  }

  /** The index of the first character at or after `q` that is not whitespace
      (what a greedy `\s*` consumes). */
  function SkipSpace(t: string, q: nat): (r: nat)
    requires q <= |t|
    ensures q <= r <= |t|
    ensures forall k | q <= k < r :: IsSpace(t[k])
    ensures r < |t| ==> !IsSpace(t[r])
    decreases |t| - q
  {
    if q < |t| && IsSpace(t[q]) then SkipSpace(t, q + 1) else q
  }

  /** The end of the maximal run of `[0-9.]` starting at `q`. */
  function NumRunEnd(t: string, q: nat): (r: nat)
    requires q <= |t|
    ensures q <= r <= |t|
    ensures forall k | q <= k < r :: IsNumChar(t[k])
    ensures r < |t| ==> !IsNumChar(t[r])
    decreases |t| - q
  {
    if q < |t| && IsNumChar(t[q]) then NumRunEnd(t, q + 1) else q
  }

  /** The end of the maximal run of `[0-9]` starting at `q`. */
  function DigitRunEnd(t: string, q: nat): (r: nat)
    requires q <= |t|
    ensures q <= r <= |t|
    ensures forall k | q <= k < r :: IsDigit(t[k])
    ensures r < |t| ==> !IsDigit(t[r])
    decreases |t| - q
  {
    if q < |t| && IsDigit(t[q]) then DigitRunEnd(t, q + 1) else q
  }

  /** The end of the maximal run of `[A-Za-z]` starting at `q`. */
  function LetterRunEnd(t: string, q: nat): (r: nat)
    requires q <= |t|
    ensures q <= r <= |t|
    ensures forall k | q <= k < r :: IsAsciiLetter(t[k])
    ensures r < |t| ==> !IsAsciiLetter(t[r])
    decreases |t| - q
  {
    if q < |t| && IsAsciiLetter(t[q]) then LetterRunEnd(t, q + 1) else q
  }

  /** The text at `q` starts with `w`, ignoring the case of ASCII letters. */
  predicate WordAtCI(t: string, q: nat, w: string) {
    q + |w| <= |t| && LowerStr(t[q..q + |w|]) == LowerStr(w)
  }

  /** The literal `w` occurs at `q`. */
  predicate LitAt(t: string, q: nat, w: string) {
    q + |w| <= |t| && t[q..q + |w|] == w
  }

  lemma LitAtContains(t: string, q: nat, w: string)
    requires LitAt(t, q, w)
    ensures Contains(t, w)
  {
    ContainsAt(t, w, q);
  }

  lemma ContainsLitAt(t: string, w: string) returns (q: nat)
    requires Contains(t, w)
    ensures LitAt(t, q, w)
  {
    q := ContainsWitness(t, w);
  }

  /** The end of the maximal run of characters satisfying `member` from `q`. */
  function RunEnd(t: string, q: nat, member: char -> bool): (r: nat)
    requires q <= |t|
    ensures q <= r <= |t|
    ensures forall k | q <= k < r :: member(t[k])
    ensures r < |t| ==> !member(t[r])
    decreases |t| - q
  {
    if q < |t| && member(t[q]) then RunEnd(t, q + 1, member) else q
  }

  /** What an optional literal character `c?` consumes at `q`. */
  function OptChar(t: string, q: nat, c: char): (r: nat)
    requires q <= |t|
    ensures r == q || (q < |t| && r == q + 1 && t[q] == c)
    ensures q < |t| && t[q] == c ==> r == q + 1
    ensures r <= |t|
  {
    if q < |t| && t[q] == c then q + 1 else q
  }

  /** Where `findall` resumes after a match at `q` ending at `e`. */
  function Resume(q: nat, e: nat): nat {
    if e > q then e else q + 1
  }

  /** The last capture of `findall` comes from a match after which the pattern
      matches nowhere: a later match always replaces an earlier one. */
  lemma {:induction false} FindAllLast<T>(t: string, p: nat, m: Matcher<T>) returns (q: nat, e: nat)
    requires FindAll(t, p, m) != []
    ensures p <= q <= |t|
    ensures m(t, q) == Some((Last(FindAll(t, p, m)), e))
    ensures forall q' | Resume(q, e) <= q' <= |t| :: m(t, q').None?
    decreases |t| + 1 - p
  {
    match m(t, p) {
      case Some((x, e0)) =>
        var rest := FindAll(t, Resume(p, e0), m);
        if rest == [] {
          q, e := p, e0;
          FindAllNonEmpty(t, Resume(p, e0), m);
        } else {
          q, e := FindAllLast(t, Resume(p, e0), m);
        }
      case None =>
        q, e := FindAllLast(t, p + 1, m);
    }
  }
}
