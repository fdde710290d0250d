/** The answer-extraction helpers of the evaluator (src/evaluate/utils.py):
    brace-balanced `\boxed{...}` extraction, labelled boxed answers, sub-question
    labels, expected answers from a reference solution, and de-duplication of
    expected answers. */
module EvalUtils {
  import opened Wrappers
  import opened Text
  import opened Scan
  import opened Dicts
  import opened Sorting

  /** The seven characters `\boxed{` that open a boxed answer. */
  const BoxOpen: string := "\\boxed{"

  // ---------------------------------------------------------------------------
  // Brace depth

  function Delta(c: char): int {
    if c == '{' then 1 else if c == '}' then -1 else 0
  }

  /** Opening minus closing braces in `s`. */
  function Depth(s: string): int
    decreases |s|
  {
    if s == [] then 0 else Depth(s[..|s| - 1]) + Delta(s[|s| - 1])
  }

  /** Braces balance out, and no prefix closes more braces than it has opened. */
  predicate Balanced(s: string) {
    Depth(s) == 0 && forall m | 0 <= m <= |s| :: Depth(s[..m]) >= 0
  }

  lemma {:induction false} DepthCons(x: char, s: string)
    ensures Depth([x] + s) == Delta(x) + Depth(s)
    decreases |s|
  {
    if s != [] {
      assert ([x] + s)[..|s|] == [x] + s[..|s| - 1];
      DepthCons(x, s[..|s| - 1]);
    }
  }

  /** Scanning from `j` with `c` braces open, the index of the `}` that closes the
      outermost one, or `None` when the text ends first. */
  function MatchClose(t: string, j: nat, c: nat): (r: Option<nat>)
    requires c >= 1
    ensures r.Some? ==> j <= r.value < |t| && t[r.value] == '}'
    decreases |t| - j
  {
    if j >= |t| then None
    else if t[j] == '{' then MatchClose(t, j + 1, c + 1)
    else if t[j] == '}' then (if c == 1 then Some(j) else MatchClose(t, j + 1, c - 1))
    else MatchClose(t, j + 1, c)
  }

  /** What `MatchClose` finds: the text before the closing brace takes the depth from
      `c` down to one, and never below one on the way. */
  lemma {:induction false} MatchCloseDepth(t: string, j: nat, c: nat, k: nat)
    requires c >= 1 && MatchClose(t, j, c) == Some(k)
    ensures Depth(t[j..k]) == 1 - c
    ensures forall m | j <= m <= k :: c + Depth(t[j..m]) >= 1
    decreases |t| - j
  {
    if k == j {
      assert t[j..k] == [];
    } else {
      var c' := if t[j] == '{' then c + 1 else if t[j] == '}' then c - 1 else c;
      assert MatchClose(t, j + 1, c') == Some(k);
      MatchCloseDepth(t, j + 1, c', k);
      forall m | j + 1 <= m <= k
        ensures Depth(t[j..m]) == Delta(t[j]) + Depth(t[j + 1..m])
      {
        assert t[j..m] == [t[j]] + t[j + 1..m];
        DepthCons(t[j], t[j + 1..m]);
      }
      assert t[j..j] == [];
    }
  }

  /** The content of a box closed by `MatchClose` is balanced. */
  lemma BoxContentBalanced(t: string, j: nat, k: nat)
    requires MatchClose(t, j, 1) == Some(k)
    ensures Balanced(t[j..k])
  {
    MatchCloseDepth(t, j, 1, k);
    forall m | 0 <= m <= k - j ensures Depth(t[j..k][..m]) >= 0 {
      assert t[j..k][..m] == t[j..j + m];
    }
  }

  // ---------------------------------------------------------------------------
  // extract_boxed_content

  /** The box contents reported when the scan resumes at `i`: the content of the
      next `\boxed{` up to the brace that closes it, then those reported after
      that brace. An unterminated box ends the scan. */
  function BoxedFrom(t: string, i: nat): seq<string>
    decreases |t| + 1 - i
  {
    match NextBox(t, i)
    case None => []
    case Some((content, j)) => [content] + BoxedFrom(t, j)
  }

  /** The next box from `i` that closes: its content and the index after its
      closing brace. */
  function NextBox(t: string, i: nat): (r: Option<(string, nat)>)
    ensures r.Some? ==> i < r.value.1 <= |t|
  {
    if i > |t| then None
    else
      var b := Find(t, BoxOpen, i);
      if b < 0 then None
      else match MatchClose(t, b + |BoxOpen|, 1)
        case None => None
        case Some(k) => Some((t[b + |BoxOpen|..k], k + 1))
  }

  /** `extract_boxed_content(text)`. */
  function BoxedContents(t: string): seq<string> {
    BoxedFrom(t, 0)
  }

  /** Every reported content is brace-balanced: the scan resumes after each box
      closes, so a box nested inside an earlier one is never reported on its own. */
  lemma {:induction false} BoxedFromBalanced(t: string, i: nat)
    ensures forall n | 0 <= n < |BoxedFrom(t, i)| :: Balanced(BoxedFrom(t, i)[n])
    decreases |t| + 1 - i
  {
    match NextBox(t, i)
    case None =>
    case Some((content, j)) =>
      NextBoxBalanced(t, i);
      BoxedFromBalanced(t, j);
      var rest := BoxedFrom(t, j);
      assert BoxedFrom(t, i) == [content] + rest;
      forall n | 0 < n < |BoxedFrom(t, i)| ensures Balanced(BoxedFrom(t, i)[n]) {
        assert BoxedFrom(t, i)[n] == rest[n - 1];
      }
  }

  lemma NextBoxBalanced(t: string, i: nat)
    requires NextBox(t, i).Some?
    ensures Balanced(NextBox(t, i).value.0)
  {
    var b := Find(t, BoxOpen, i);
    var k := MatchClose(t, b + |BoxOpen|, 1).value;
    BoxContentBalanced(t, b + |BoxOpen|, k);
  }

  lemma BoxedContentsBalanced(t: string)
    ensures forall n | 0 <= n < |BoxedContents(t)| :: Balanced(BoxedContents(t)[n])
  {
    BoxedFromBalanced(t, 0);
  }

  /** A box that closes is reported, and the scan resumes after its closing brace. */
  lemma BoxedFromStep(t: string, i: nat, b: nat, e: nat)
    requires i <= |t| && Find(t, BoxOpen, i) == b as int && e >= 1 && MatchClose(t, b + |BoxOpen|, 1) == Some(e - 1)
    ensures b + |BoxOpen| <= e - 1 < |t|
    ensures BoxedFrom(t, i) == [t[b + |BoxOpen|..e - 1]] + BoxedFrom(t, e)
  {
    assert NextBox(t, i) == Some((t[b + |BoxOpen|..e - 1], e));
  }

  /** No box is reported once no `\boxed{` follows. */
  lemma BoxedFromNone(t: string, i: nat)
    requires i <= |t| && Find(t, BoxOpen, i) == -1
    ensures BoxedFrom(t, i) == []
  {
    assert NextBox(t, i).None?;
  }

  /** An unterminated box ends the scan. */
  lemma BoxedFromUnclosed(t: string, i: nat)
    requires i <= |t| && Find(t, BoxOpen, i) >= 0
    requires MatchClose(t, Find(t, BoxOpen, i) + |BoxOpen|, 1).None?
    ensures BoxedFrom(t, i) == []
  {
    assert NextBox(t, i).None?;
  }

  /** The inner walk of `extract_boxed_content`: from `contentStart` with one brace
      open, count braces until the count reaches zero or the text ends. */
  method WalkBraces(text: string, contentStart: nat) returns (contentEnd: nat, braceCount: nat)
    requires contentStart <= |text|
    ensures contentStart <= contentEnd <= |text|
    ensures braceCount == 0 ==> MatchClose(text, contentStart, 1) == Some(contentEnd - 1)
    ensures braceCount != 0 ==> MatchClose(text, contentStart, 1).None? && contentEnd == |text|
  {
    braceCount := 1;
    contentEnd := contentStart;
    while contentEnd < |text| && braceCount > 0
      invariant contentStart <= contentEnd <= |text|
      invariant braceCount > 0 ==> MatchClose(text, contentEnd, braceCount) == MatchClose(text, contentStart, 1)
      invariant braceCount == 0 ==> MatchClose(text, contentStart, 1) == Some(contentEnd - 1)
      decreases |text| - contentEnd
    {
      if text[contentEnd] == '{' {
        braceCount := braceCount + 1;
      } else if text[contentEnd] == '}' {
        braceCount := braceCount - 1;
      }
      contentEnd := contentEnd + 1;
    }
  }

  /** One round of the scan of `extract_boxed_content`: find the next `\boxed{`,
      walk forward counting braces until the count drops to zero or the text
      ends, and give the content when it closed together with the index the scan
      resumes at. When no `\boxed{` follows, the scan stops (`break`), which is
      resuming at the end of the text. */
  method ScanBox(text: string, i: nat) returns (box: Option<string>, next: nat)
    requires i < |text|
    ensures i < next <= |text|
    ensures box.Some? ==> BoxedFrom(text, i) == [box.value] + BoxedFrom(text, next)
    ensures box.None? ==> BoxedFrom(text, i) == [] && next == |text|
  {
    var start := Find(text, BoxOpen, i);
    if start == -1 {
      BoxedFromNone(text, i);
      return None, |text|;
    }
    assert i <= start;
    var contentStart := start + |BoxOpen|;
    var contentEnd, braceCount := WalkBraces(text, contentStart);
    assert i < contentEnd;
    if braceCount == 0 {
      BoxedFromStep(text, i, start, contentEnd);
      box := Some(text[contentStart..contentEnd - 1]);
    } else {
      BoxedFromUnclosed(text, i);
      box := None;
    }
    next := contentEnd;
  }

  /** `extract_boxed_content`: the scan repeated until it reaches the end of the
      text. */
  method ExtractBoxedContent(text: string) returns (results: seq<string>)
    ensures results == BoxedContents(text)
    ensures forall n | 0 <= n < |results| :: Balanced(results[n])
  {
    results := [];
    var i := 0;
    while i < |text|
      invariant 0 <= i <= |text|
      invariant results + BoxedFrom(text, i) == BoxedContents(text)
      decreases |text| - i
    {
      var box, next := ScanBox(text, i);
      if box.Some? {
        AppendAssoc(results, box.value, BoxedFrom(text, next));
        results := results + [box.value];
      } else {
        BoxedFromNone(text, next);
      }
      i := next;
    }
    BoxedFromNone(text, i);
    BoxedContentsBalanced(text);
  }

  lemma AppendAssoc(a: seq<string>, x: string, b: seq<string>)
    ensures (a + [x]) + b == a + ([x] + b)
  {
  }

  // ---------------------------------------------------------------------------
  // extract_boxed_answers

  /** The index after a greedy `[:\s]*` starting at `q`. */
  function SkipColonSpace(t: string, q: nat): (r: nat)
    requires q <= |t|
    ensures q <= r <= |t|
    decreases |t| - q
  {
    if q < |t| && (t[q] == ':' || IsSpace(t[q])) then SkipColonSpace(t, q + 1) else q
  }

  /** `(x)` at `p`, with `x` a letter. */
  predicate ParenLabelAt(t: string, p: nat) {
    p + 3 <= |t| && t[p] == '(' && IsAsciiLetter(t[p + 1]) && t[p + 2] == ')'
  }

  /** The pattern `\(([a-z])\)[:\s]*\\boxed{` with IGNORECASE; the capture is
      lower-cased as the caller does. */
  function BoxLabelAt(t: string, p: nat): (r: Option<(string, nat)>)
    ensures r.Some? ==> ParenLabelAt(t, p) && r.value.0 == [Lower(t[p + 1])] && r.value.1 > p
  {
    if ParenLabelAt(t, p) then
      var q := SkipColonSpace(t, p + 3);
      if LitAt(t, q, BoxOpen) then Some(([Lower(t[p + 1])], q + |BoxOpen|)) else None
    else None
  }

  /** The label positions of `extract_boxed_answers`, in document order. */
  function BoxLabels(t: string): seq<string> {
    FindAll(t, 0, BoxLabelAt)
  }

  /** `chr(97 + i)`, the id of the i-th unlabelled box. */
  function SeqLabel(i: nat): (s: string)
    ensures i < 26 ==> s == [('a' as int + i) as char]
    ensures 97 + i < 0xD800 ==> s == [(97 + i) as char]
    ensures 97 + i >= 0xD800 ==> |s| >= 2 && s[0] == '#' && s[1..] == IntToString(i)
  {
    if 97 + i < 0xD800 then [(97 + i) as char] else "#" + IntToString(i)
  }

  lemma SeqLabelInjective(i: nat, j: nat)
    requires i != j
    ensures SeqLabel(i) != SeqLabel(j)
  {
    if 97 + i >= 0xD800 && 97 + j >= 0xD800 {
      ParseIntToString(i);
      ParseIntToString(j);
    }
  }

  /** The label/answer assignments made when labels were found. */
  function LabelledPairs(labels: seq<string>, boxed: seq<string>): (ps: seq<(string, string)>)
    ensures |ps| == if |labels| < |boxed| then |labels| else |boxed|
    ensures forall i | 0 <= i < |ps| :: ps[i] == (labels[i], Strip(boxed[i]))
  {
    var n := if |labels| < |boxed| then |labels| else |boxed|;
    seq(n, i requires 0 <= i < n => (labels[i], Strip(boxed[i])))
  }

  /** `extract_boxed_answers(response)`: the boxed contents, stripped, keyed by the
      `(x)` labels in front of boxes when there are any, else by `a`, `b`, `c`, ... */
  function ExtractBoxedAnswers(response: string): (d: Dict<string, string>)
    ensures IsDict(d)
    ensures response == [] ==> d == [("a", "")]
    ensures response != [] && BoxedContents(response) == [] ==> d == []
    ensures response != [] && BoxedContents(response) != [] && BoxLabels(response) == [] ==>
      |d| == |BoxedContents(response)|
      && forall i | 0 <= i < |d| :: d[i] == (SeqLabel(i), Strip(BoxedContents(response)[i]))
    ensures response != [] && BoxedContents(response) != [] && BoxLabels(response) != [] ==>
      d == FromPairs(LabelledPairs(BoxLabels(response), BoxedContents(response)))
  {
    if response == [] then [("a", "")]
    else
      var boxed := BoxedContents(response);
      if boxed == [] then []
      else
        var labels := BoxLabels(response);
        if labels != [] then FromPairs(LabelledPairs(labels, boxed))
        else
          var d := seq(|boxed|, i requires 0 <= i < |boxed| => (SeqLabel(i), Strip(boxed[i])));
          assert IsDict(d) by {
            forall i, j | 0 <= i < j < |d| ensures Keys(d)[i] != Keys(d)[j] {
              SeqLabelInjective(i, j);
            }
          }
          d
  }

  /** With labels, the i-th label gets the i-th box unless the same label comes
      again later among the paired ones, in which case the later box wins. */
  lemma LabelledAnswer(response: string, i: nat)
    requires response != [] && BoxedContents(response) != []
    requires i < |BoxLabels(response)| && i < |BoxedContents(response)|
    requires BoxLabels(response)[i] !in BoxLabels(response)[i + 1..]
    ensures Get(ExtractBoxedAnswers(response), BoxLabels(response)[i]) == Some(Strip(BoxedContents(response)[i]))
  {
    var labels := BoxLabels(response);
    var ps := LabelledPairs(labels, BoxedContents(response));
    LabelledKeysAfter(labels, BoxedContents(response), i);
    FromPairsLastWins(ps, i);
  }

  /** A label not repeated after place `i` is not the key of a later pair. */
  lemma LabelledKeysAfter(labels: seq<string>, boxed: seq<string>, i: nat)
    requires i < |labels| && i < |boxed| && labels[i] !in labels[i + 1..]
    ensures var ps := LabelledPairs(labels, boxed);
      ps[i].0 == labels[i] && labels[i] !in Keys(ps[i + 1..])
  {
    var ps := LabelledPairs(labels, boxed);
    var later := Keys(ps[i + 1..]);
    forall j | 0 <= j < |later| ensures later[j] != labels[i] {
      assert later[j] == labels[i + 1..][j];
    }
  }

  // ---------------------------------------------------------------------------
  // extract_subquestions

  /** The five label patterns of `extract_subquestions`, all with IGNORECASE:
      `\(([a-z])\)`, `([a-z])\)`, `([a-z])\.`, `part\s+([a-z])`, `([a-z])\s*\)`. */
  function SubqPatternAt(kind: nat, t: string, p: nat): (r: Option<(char, nat)>)
    ensures r.Some? ==> IsAsciiLetter(r.value.0) && r.value.1 > p
  {
    if kind == 0 then
      if ParenLabelAt(t, p) then Some((t[p + 1], p + 3)) else None
    else if kind == 1 then
      if p + 2 <= |t| && IsAsciiLetter(t[p]) && t[p + 1] == ')' then Some((t[p], p + 2)) else None
    else if kind == 2 then
      if p + 2 <= |t| && IsAsciiLetter(t[p]) && t[p + 1] == '.' then Some((t[p], p + 2)) else None
    else if kind == 3 then
      if WordAtCI(t, p, "part") && p + 4 < |t| && IsSpace(t[p + 4]) then
        var q := SkipSpace(t, p + 4);
        if q < |t| && IsAsciiLetter(t[q]) then Some((t[q], q + 1)) else None
      else None
    else
      if p < |t| && IsAsciiLetter(t[p]) then
        var q := SkipSpace(t, p + 1);
        if q < |t| && t[q] == ')' then Some((t[p], q + 1)) else None
      else None
  }

  function SubqMatcher(kind: nat): Matcher<char> {
    (s, p) => SubqPatternAt(kind, s, p)
  }

  function SubqMatches(kind: nat, t: string): seq<char> {
    FindAll(t, 0, SubqMatcher(kind))
  }

  /** `r` lists the lower-cased letters of `cs` in the order of their first
      occurrences: each entry is seen first given the entries before it. */
  predicate FirstSeenOrder(cs: seq<char>, r: seq<string>) {
    forall j | 0 <= j < |r| :: SeenFirst(cs, r[..j], r[j])
  }

  /** `x` is the lower-cased letter at some `i` of `cs`, and every letter before
      `i` is already in `before`. */
  predicate SeenFirst(cs: seq<char>, before: seq<string>, x: string) {
    exists i | 0 <= i < |cs| :: x == [Lower(cs[i])] && forall h | 0 <= h < i :: [Lower(cs[h])] in before
  }

  /** Lower-cases the letters and keeps the first occurrence of each, in the
      order of those first occurrences. */
  function UniqueLower(cs: seq<char>): (r: seq<string>)
    ensures Distinct(r)
    ensures forall i | 0 <= i < |cs| :: [Lower(cs[i])] in r
    ensures FirstSeenOrder(cs, r)
    decreases |cs|
  {
    if cs == [] then []
    else
      var init := cs[..|cs| - 1];
      var r0 := UniqueLower(init);
      var x := [Lower(cs[|cs| - 1])];
      UniqueLowerStep(cs, init, r0);
      if x in r0 then r0 else r0 + [x]
  }

  /** The last letter keeps the letters distinct, listed and in first-seen order. */
  lemma UniqueLowerStep(cs: seq<char>, init: seq<char>, r: seq<string>)
    requires cs != [] && init == cs[..|cs| - 1]
    requires Distinct(r) && FirstSeenOrder(init, r)
    requires forall i | 0 <= i < |init| :: [Lower(init[i])] in r
    ensures var x := [Lower(cs[|cs| - 1])];
      var r' := if x in r then r else r + [x];
      Distinct(r') && (forall i | 0 <= i < |cs| :: [Lower(cs[i])] in r') && FirstSeenOrder(cs, r')
  {
    var x := [Lower(cs[|cs| - 1])];
    assert forall i | 0 <= i < |init| :: init[i] == cs[i];
    FirstSeenKeep(cs, r);
    if x !in r {
      FirstSeenAppend(cs, r);
      DistinctAppend(r, x);
    }
  }

  lemma DistinctAppend(r: seq<string>, x: string)
    requires Distinct(r) && x !in r
    ensures Distinct(r + [x])
  {
  }

  /** Letters seen first in `cs` minus its last letter are seen first in `cs`. */
  lemma FirstSeenKeep(cs: seq<char>, r: seq<string>)
    requires cs != [] && FirstSeenOrder(cs[..|cs| - 1], r)
    ensures FirstSeenOrder(cs, r)
  {
    forall j | 0 <= j < |r| ensures SeenFirst(cs, r[..j], r[j]) {
      SeenFirstLonger(cs, r[..j], r[j]);
    }
  }

  lemma SeenFirstLonger(cs: seq<char>, before: seq<string>, x: string)
    requires cs != [] && SeenFirst(cs[..|cs| - 1], before, x)
    ensures SeenFirst(cs, before, x)
  {
    var init := cs[..|cs| - 1];
    var i :| 0 <= i < |init| && x == [Lower(init[i])] && forall h | 0 <= h < i :: [Lower(init[h])] in before;
    assert forall h | 0 <= h < i :: init[h] == cs[h];
    assert init[i] == cs[i];
  }

  /** A new letter goes last, after every letter before it. */
  lemma FirstSeenAppend(cs: seq<char>, r: seq<string>)
    requires cs != [] && FirstSeenOrder(cs, r)
    requires forall h | 0 <= h < |cs| - 1 :: [Lower(cs[h])] in r
    ensures FirstSeenOrder(cs, r + [[Lower(cs[|cs| - 1])]])
  {
    var r' := r + [[Lower(cs[|cs| - 1])]];
    forall j | 0 <= j < |r'| ensures SeenFirst(cs, r'[..j], r'[j]) {
      if j < |r| {
        assert r'[..j] == r[..j] && r'[j] == r[j];
      } else {
        assert r'[..j] == r;
        assert r'[j] == [Lower(cs[|cs| - 1])];
      }
    }
  }

  /** Pattern `k` decides: it finds something and the patterns before it do not. */
  predicate DecidesAt(text: string, k: nat) {
    SubqMatches(k, text) != [] && forall h | 0 <= h < k :: SubqMatches(h, text) == []
  }

  /** `extract_subquestions(text)`: the labels found by the first pattern that
      matches anything, else `['a']`. */
  function ExtractSubquestions(text: string): (r: seq<string>)
    ensures r != [] && Distinct(r)
    ensures forall k | 0 <= k < 5 && DecidesAt(text, k) :: r == UniqueLower(SubqMatches(k, text))
    ensures (forall k | 0 <= k < 5 :: SubqMatches(k, text) == []) ==> r == ["a"]
  {
    var k := Decider(text, 0);
    if k < 5 then
      var r := UniqueLower(SubqMatches(k, text));
      assert SubqMatches(k, text)[0] in SubqMatches(k, text);
      r
    else ["a"]
  }

  /** Two `(x)` labels cannot overlap, so `findall` from any earlier position
      meets the label at `p`. */
  lemma {:induction false} ParenLabelFound(t: string, p0: nat, p: nat)
    requires p0 <= p && ParenLabelAt(t, p)
    ensures t[p + 1] in FindAll(t, p0, SubqMatcher(0))
    decreases p - p0
  {
    var m := SubqMatcher(0);
    if p0 == p {
      assert m(t, p) == Some((t[p + 1], p + 3));
    } else if m(t, p0).Some? {
      assert ParenLabelAt(t, p0);
      assert p0 + 3 <= p by {
        assert t[p] == '(' && !IsAsciiLetter('(') && ')' != '(';
      }
      ParenLabelFound(t, p0 + 3, p);
    } else {
      ParenLabelFound(t, p0 + 1, p);
    }
  }

  /** A `(x)` label anywhere in the text puts its lower-cased letter among the
      sub-questions. */
  lemma ParenLabelListed(text: string, p: nat)
    requires ParenLabelAt(text, p)
    ensures [Lower(text[p + 1])] in ExtractSubquestions(text)
  {
    ParenLabelFound(text, 0, p);
    var cs := SubqMatches(0, text);
    assert DecidesAt(text, 0);
    var i :| 0 <= i < |cs| && cs[i] == text[p + 1];
    assert [Lower(cs[i])] in UniqueLower(cs);
  }

  /** The `for pattern in patterns` loop from pattern `k` on: the first pattern
      that finds anything, 5 when none does. */
  function Decider(text: string, k: nat): (d: nat)
    requires k <= 5 && forall h | 0 <= h < k :: SubqMatches(h, text) == []
    ensures k <= d <= 5
    ensures d < 5 ==> DecidesAt(text, d)
    ensures d == 5 ==> forall h | 0 <= h < 5 :: SubqMatches(h, text) == []
    decreases 5 - k
  {
    if k == 5 then 5
    else if SubqMatches(k, text) != [] then k
    else Decider(text, k + 1)
  }

  // ---------------------------------------------------------------------------
  // extract_expected_answers

  /** The text from `q` on is whitespace only (`\s*$` holds at `q`). */
  predicate RestIsSpace(t: string, q: nat)
    requires q <= |t|
  {
    SkipSpace(t, q) == |t|
  }

  /** The lookahead `(?=\s*\([a-z]\)\s*|\s*$)` of the combined pattern. */
  predicate CombinedStop(t: string, q: nat)
    requires q <= |t|
  {
    ParenLabelAt(t, SkipSpace(t, q)) || RestIsSpace(t, q)
  }

  /** The first index at or after `q` where the lookahead holds (the end of the lazy
      `(.*?)`); it exists because the lookahead holds at the end of the text. */
  function CombinedBodyEnd(t: string, q: nat): (r: nat)
    requires q <= |t|
    ensures q <= r <= |t| && CombinedStop(t, r)
    ensures forall k | q <= k < r :: !CombinedStop(t, k)
    decreases |t| - q
  {
    if CombinedStop(t, q) then q else CombinedBodyEnd(t, q + 1)
  }

  /** `\(([a-z])\)\s*(.*?)(?=\s*\([a-z]\)\s*|\s*$)` with IGNORECASE and DOTALL. */
  function CombinedAt(t: string, p: nat): (r: Option<((string, string), nat)>)
    ensures r.Some? <==> ParenLabelAt(t, p)
    ensures r.Some? ==> r.value.1 > p && r.value.0.0 == [Lower(t[p + 1])]
  {
    if ParenLabelAt(t, p) then
      var bs := SkipSpace(t, p + 3);
      var q := CombinedBodyEnd(t, bs);
      Some((([Lower(t[p + 1])], t[bs..q]), q))
    else None
  }

  /** `part` or `question`, ignoring case. */
  predicate KeywordAt(t: string, q: nat) {
    WordAtCI(t, q, "part") || WordAtCI(t, q, "question")
  }

  function KeywordEnd(t: string, q: nat): (r: nat)
    requires KeywordAt(t, q)
    ensures r <= |t|
  {
    if WordAtCI(t, q, "part") then q + 4 else q + 8
  }

  /** After a keyword: `\s*\(?`, then the index of the `[a-z]` letter if there is one. */
  function PartLetterIndex(t: string, q: nat): (r: Option<nat>)
    requires q <= |t|
    ensures r.Some? ==> r.value < |t| && IsAsciiLetter(t[r.value])
  {
    var a := SkipSpace(t, q);
    var b := if a < |t| && t[a] == '(' then a + 1 else a;
    if b < |t| && IsAsciiLetter(t[b]) then Some(b) else None
  }

  /** The lookahead `(?=(?:part|question)\s*\(?[a-z]\)?[:\s]|$)` of the part pattern. */
  predicate PartStop(t: string, q: nat)
    requires q <= |t|
  {
    q == |t| || (q + 1 == |t| && t[q] == '\n')
    || (KeywordAt(t, q) && match PartLetterIndex(t, KeywordEnd(t, q))
        case None => false
        case Some(l) =>
          var c := if l + 1 < |t| && t[l + 1] == ')' then l + 2 else l + 1;
          c < |t| && (t[c] == ':' || IsSpace(t[c])))
  }

  function PartBodyEnd(t: string, q: nat): (r: nat)
    requires q <= |t|
    ensures q <= r <= |t| && PartStop(t, r)
    ensures forall k | q <= k < r :: !PartStop(t, k)
    decreases |t| - q
  {
    if PartStop(t, q) then q else PartBodyEnd(t, q + 1)
  }

  /** `(?:part|question)\s*\(?([a-z])\)?[:\s]*(.*?)(?=...)` with IGNORECASE and DOTALL. */
  function PartAt(t: string, p: nat): (r: Option<((string, string), nat)>)
    ensures r.Some? ==> r.value.1 > p && |r.value.0.0| == 1
  {
    if KeywordAt(t, p) then
      match PartLetterIndex(t, KeywordEnd(t, p))
      case None => None
      case Some(l) =>
        var c := if l + 1 < |t| && t[l + 1] == ')' then l + 2 else l + 1;
        var bs := SkipColonSpace(t, c);
        var q := PartBodyEnd(t, bs);
        Some((([Lower(t[l])], t[bs..q]), q))
    else None
  }

  /** `re.sub(r'[,.]$', '', s)` on a stripped answer: one trailing comma or period
      is dropped. */
  function DropTrailingPunct(s: string): (r: string)
    ensures r == s || (s != [] && (s[|s| - 1] == ',' || s[|s| - 1] == '.') && r == s[..|s| - 1])
  {
    if s != [] && (s[|s| - 1] == ',' || s[|s| - 1] == '.') then s[..|s| - 1] else s
  }

  function CombinedMatches(t: string): seq<(string, string)> {
    FindAll(t, 0, CombinedAt)
  }

  function PartMatches(t: string): seq<(string, string)> {
    FindAll(t, 0, PartAt)
  }

  /** `extract_expected_answers(text)`: the `(x) answer` pairs, else the `Part (x):`
      pairs, else the whole stripped text as sub-question `a`. */
  function ExtractExpectedAnswers(text: string): (d: Dict<string, string>)
    ensures IsDict(d) && d != []
    ensures forall i | 0 <= i < |d| :: |d[i].0| == 1
    ensures CombinedMatches(text) == [] && PartMatches(text) == [] ==> d == [("a", Strip(text))]
  {
    var combined := CombinedMatches(text);
    if combined != [] then
      FindAllCaptureSizes(text, 0);
      CombinedAnswers(combined)
    else
      var parts := PartMatches(text);
      if parts != [] then
        PartCaptureSizes(text, 0);
        PartAnswers(parts)
      else [("a", Strip(text))]
  }

  /** The `(x) answer` pairs, each answer stripped and without its trailing
      punctuation; a later pair for the same letter wins. */
  function CombinedAnswers(combined: seq<(string, string)>): (d: Dict<string, string>)
    requires combined != [] && forall i | 0 <= i < |combined| :: |combined[i].0| == 1
    ensures IsDict(d) && d != [] && forall i | 0 <= i < |d| :: |d[i].0| == 1
  {
    LetterDict(seq(|combined|, i requires 0 <= i < |combined| =>
      (combined[i].0, DropTrailingPunct(Strip(combined[i].1)))))
  }

  /** The `Part (x):` pairs, each answer stripped; a later pair for the same
      letter wins. */
  function PartAnswers(parts: seq<(string, string)>): (d: Dict<string, string>)
    requires parts != [] && forall i | 0 <= i < |parts| :: |parts[i].0| == 1
    ensures IsDict(d) && d != [] && forall i | 0 <= i < |d| :: |d[i].0| == 1
  {
    LetterDict(seq(|parts|, i requires 0 <= i < |parts| => (parts[i].0, Strip(parts[i].1))))
  }

  /** `dict(pairs)` for pairs keyed by single letters. */
  function LetterDict(pairs: seq<(string, string)>): (d: Dict<string, string>)
    requires pairs != [] && forall i | 0 <= i < |pairs| :: |pairs[i].0| == 1
    ensures IsDict(d) && d != [] && forall i | 0 <= i < |d| :: |d[i].0| == 1
  {
    FromPairsKeysFrom(pairs);
    FromPairs(pairs)
  }

  lemma {:induction false} FindAllCaptureSizes(t: string, p: nat)
    ensures forall i | 0 <= i < |FindAll(t, p, CombinedAt)| :: |FindAll(t, p, CombinedAt)[i].0| == 1
    decreases |t| + 1 - p
  {
    if p <= |t| {
      FindAllCaptureSizes(t, p + 1);
      if CombinedAt(t, p).Some? {
        FindAllCaptureSizes(t, CombinedAt(t, p).value.1);
      }
    }
  }

  lemma {:induction false} PartCaptureSizes(t: string, p: nat)
    ensures forall i | 0 <= i < |FindAll(t, p, PartAt)| :: |FindAll(t, p, PartAt)[i].0| == 1
    decreases |t| + 1 - p
  {
    if p <= |t| {
      PartCaptureSizes(t, p + 1);
      if PartAt(t, p).Some? {
        PartCaptureSizes(t, PartAt(t, p).value.1);
      }
    }
  }

  /** The second pattern of `extract_expected_answers`, for labelled answers, starts
      with `\(([a-z])\)` too, so it is tried only on texts with no `(x)` label at all
      and can never match there. */
  lemma LabeledPatternUnreachable(text: string)
    requires CombinedMatches(text) == []
    ensures forall p: nat :: !ParenLabelAt(text, p)
  {
    FindAllNonEmpty(text, 0, CombinedAt);
    forall p: nat ensures !ParenLabelAt(text, p) {
      if ParenLabelAt(text, p) {
        assert CombinedAt(text, p).Some?;
        assert MatchesSomewhere(text, 0, CombinedAt);
      }
    }
  }

  /** A text with an `(x)` label is always read by the combined pattern, whose keys
      are the lower-cased labels. */
  lemma LabelledTextUsesCombined(text: string, p: nat)
    requires ParenLabelAt(text, p)
    ensures CombinedMatches(text) != []
  {
    FindAllNonEmpty(text, 0, CombinedAt);
    assert CombinedAt(text, p).Some?;
  }

  // ---------------------------------------------------------------------------
  // deduplicate_expected_answers

  /** The distinct values of `vs`, in order of first occurrence. */
  function DistinctValues(vs: seq<string>): (r: seq<string>)
    ensures Distinct(r)
    ensures forall v :: v in r <==> v in vs
    decreases |vs|
  {
    if vs == [] then []
    else
      var r0 := DistinctValues(vs[..|vs| - 1]);
      assert vs == vs[..|vs| - 1] + [vs[|vs| - 1]];
      if vs[|vs| - 1] in r0 then r0 else r0 + [vs[|vs| - 1]]
  }

  /** The keys of `d` whose value is `v`, in insertion order. */
  function IdsWith(d: Dict<string, string>, v: string): seq<string>
    decreases |d|
  {
    if d == [] then []
    else
      var rest := IdsWith(d[1..], v);
      if d[0].1 == v then [d[0].0] + rest else rest
  }

  /** The ids with value `v` are exactly the keys paired with it, and there is
      one when some entry has the value. */
  lemma {:induction false} IdsWithMembers(d: Dict<string, string>, v: string)
    ensures forall k :: k in IdsWith(d, v) <==> (k, v) in d
    ensures v in Values(d) ==> IdsWith(d, v) != []
    decreases |d|
  {
    if d != [] {
      IdsWithMembers(d[1..], v);
      assert Values(d) == [d[0].1] + Values(d[1..]);
      assert forall x :: x in d <==> x == d[0] || x in d[1..];
    }
  }

  /** The id kept for value `v`: one of the keys paired with it. */
  function KeptFor(d: Dict<string, string>, v: string): (k: string)
    requires v in Values(d)
    ensures (k, v) in d
  {
    IdsWithMembers(d, v);
    KeepId(IdsWith(d, v))
  }

  /** The id kept for a group of ids sharing one answer. */
  function KeepId(ids: seq<string>): (k: string)
    requires ids != []
    ensures k in ids
    ensures "main" in ids ==> k == "main"
    ensures "main" !in ids ==> forall j | 0 <= j < |ids| :: StrLe(k, ids[j])
  {
    if |ids| == 1 then StrLeReflexive(ids[0]); ids[0]
    else if "main" in ids then "main"
    else MinString(ids)
  }

  /** The dictionary before the final renaming of a lone `main` to `a`. */
  function KeptPairs(d: Dict<string, string>): (r: Dict<string, string>)
    ensures Values(r) == DistinctValues(Values(d))
    ensures forall i | 0 <= i < |r| :: (r[i].0, r[i].1) in d
  {
    var vals := DistinctValues(Values(d));
    seq(|vals|, i requires 0 <= i < |vals| => (KeptFor(d, vals[i]), vals[i]))
  }

  /** `deduplicate_expected_answers(expected)`. */
  function DeduplicateExpectedAnswers(d: Dict<string, string>): (r: Dict<string, string>)
    ensures r == [] <==> d == []
    ensures Values(r) == DistinctValues(Values(d))
    ensures IsDict(d) ==> IsDict(r)
  {
    if d == [] then []
    else
      var kept := KeptPairs(d);
      assert d[0].1 in Values(d);
      assert |kept| > 0;
      KeptPairsDistinct(d);
      if |kept| == 1 && kept[0].0 == "main" then [("a", kept[0].1)] else kept
  }

  lemma KeptPairsDistinct(d: Dict<string, string>)
    ensures IsDict(d) ==> IsDict(KeptPairs(d))
  {
    var r := KeptPairs(d);
    if IsDict(d) {
      forall i, j | 0 <= i < j < |r| ensures Keys(r)[i] != Keys(r)[j] {
        assert Values(r)[i] != Values(r)[j];
        DictFunctional(d, (r[i].0, r[i].1), (r[j].0, r[j].1));
      }
    }
  }

  /** A dictionary maps a key to one value only. */
  lemma DictFunctional(d: Dict<string, string>, x: (string, string), y: (string, string))
    requires IsDict(d) && x in d && y in d
    ensures x.0 == y.0 ==> x.1 == y.1
  {
    var a :| 0 <= a < |d| && d[a] == x;
    var b :| 0 <= b < |d| && d[b] == y;
    assert Keys(d)[a] == x.0 && Keys(d)[b] == y.0;
  }

  /** Which id is kept for an answer: `main` when `main` carries it, otherwise the
      alphabetically first id carrying it; the kept id carries the answer in the
      input, except that a `main` left alone is renamed to `a`. */
  lemma DedupKeyChoice(d: Dict<string, string>, i: nat)
    requires IsDict(d) && i < |DeduplicateExpectedAnswers(d)|
    ensures var r := DeduplicateExpectedAnswers(d);
      var v := r[i].1;
      ((r[i].0, v) in d || (r == [("a", v)] && ("main", v) in d))
      && (("main", v) in d ==> if |r| == 1 then r == [("a", v)] else r[i].0 == "main")
      && (("main", v) !in d ==> forall k | (k, v) in d :: StrLe(r[i].0, k))
      && (|r| == 1 ==> r[0].0 != "main")
  {
    var kept := KeptPairs(d);
    var v := kept[i].1;
    var ids := IdsWith(d, v);
    IdsWithMembers(d, v);
    assert kept[i].0 == KeepId(ids);
  }

  /** Applying the de-duplication twice changes nothing. */
  lemma DedupIdempotent(d: Dict<string, string>)
    requires IsDict(d)
    ensures DeduplicateExpectedAnswers(DeduplicateExpectedAnswers(d)) == DeduplicateExpectedAnswers(d)
  {
    var r := DeduplicateExpectedAnswers(d);
    if r != [] {
      KeptPairsOfDistinct(r);
      if |r| == 1 {
        assert r[0].0 != "main";
      }
    }
  }

  /** A dictionary whose values are already distinct keeps every pair. */
  lemma KeptPairsOfDistinct(r: Dict<string, string>)
    requires Distinct(Values(r))
    ensures KeptPairs(r) == r
  {
    DistinctValuesOfDistinct(Values(r));
    var kept := KeptPairs(r);
    assert |kept| == |r|;
    forall i | 0 <= i < |r| ensures kept[i] == r[i] {
      assert kept[i].1 == r[i].1;
      forall j | 0 <= j < |r| && j != i ensures r[j].1 != r[i].1 {
        assert Values(r)[j] != Values(r)[i];
      }
      OnlyIdWith(r, i);
    }
  }

  lemma DistinctValuesOfDistinct(vs: seq<string>)
    requires Distinct(vs)
    ensures DistinctValues(vs) == vs
    decreases |vs|
  {
    if vs != [] {
      var init := vs[..|vs| - 1];
      DistinctInit(vs);
      DistinctValuesOfDistinct(init);
      assert DistinctValues(vs) == init + [vs[|vs| - 1]];
    }
  }

  lemma DistinctInit(vs: seq<string>)
    requires Distinct(vs) && vs != []
    ensures Distinct(vs[..|vs| - 1]) && vs[|vs| - 1] !in vs[..|vs| - 1]
  {
    var init := vs[..|vs| - 1];
    forall j | 0 <= j < |init| ensures init[j] != vs[|vs| - 1] {
      assert init[j] == vs[j];
    }
  }

  /** A value only entry `i` has is carried by its key alone. */
  lemma {:induction false} OnlyIdWith(r: Dict<string, string>, i: nat)
    requires i < |r| && forall j | 0 <= j < |r| && j != i :: r[j].1 != r[i].1
    ensures IdsWith(r, r[i].1) == [r[i].0]
    decreases |r|
  {
    var v := r[i].1;
    var tail := r[1..];
    if i == 0 {
      NoIdWith(tail, v);
    } else {
      assert tail[i - 1] == r[i];
      OnlyIdWith(tail, i - 1);
    }
  }



  lemma {:induction false} NoIdWith(r: Dict<string, string>, v: string)
    requires forall j | 0 <= j < |r| :: r[j].1 != v
    ensures IdsWith(r, v) == []
    decreases |r|
  {
    if r != [] {
      var tail := r[1..];
      assert forall j | 0 <= j < |tail| :: tail[j] == r[j + 1];
      NoIdWith(tail, v);
    }
  }

}
