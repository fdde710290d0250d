/** `MCQEvaluator`: reading a choice letter out of a model response, and judging a
    response against the expected letter.

    The seven regular expressions of `extract_mcq_answer` are written as
    deterministic matchers. Each one reads its pattern greedily; in these patterns
    every optional or repeated element is followed by an element whose first
    character it cannot consume, so the greedy reading is the one the backtracking
    engine finds, and the end of the match (where `finditer` resumes) is the same. */
module McqEvaluator {
  import opened Wrappers
  import opened Text
  import opened Scan

  /** One match: group 1 as the pattern captures it (the optional backslash of the
      fourth pattern, the letter for the others) and the choice letter itself. */
  datatype McqMatch = McqMatch(group1: Option<string>, letter: char)

  /** `[A-Da-d]`. */
  predicate IsChoice(c: char) {
    ('A' <= c <= 'D') || ('a' <= c <= 'd')
  }

  /** A class written like `[A,a]`: the comma is a member too. */
  predicate InClass(c: char, upper: char, lower: char) {
    c == upper || c == ',' || c == lower
  }

  /** `[\*\[\{]`. */
  predicate IsOpenDecor(c: char) {
    c == '*' || c == '[' || c == '{'
  }

  /** `[\*\[\}]`. */
  predicate IsCloseDecor(c: char) {
    c == '*' || c == '[' || c == '}'
  }

  /** `w` spelt with the comma classes: `[A,a][N,n]...` for the letters of `w`. */
  predicate WordAt(t: string, q: nat, w: string)
    requires forall i | 0 <= i < |w| :: 'A' <= w[i] <= 'Z'
  {
    q + |w| <= |t| && forall i | 0 <= i < |w| :: InClass(t[q + i], w[i], Lower(w[i]))
  }

  function SimpleMatch(c: char): McqMatch {
    McqMatch(Some([c]), c)
  }

  /** `:?\s*[\*\[\{]*:?\s*([A-Da-d])[\*\[\}]*`, the tail shared by the "Answer" and
      "Option" patterns. */
  function DecoratedChoice(t: string, q: nat): (r: Option<(McqMatch, nat)>)
    requires q <= |t|
    ensures r.Some? ==> IsChoice(r.value.0.letter) && r.value.0 == SimpleMatch(r.value.0.letter)
    ensures r.Some? ==> q < r.value.1 <= |t|
  {
    var q1 := OptChar(t, q, ':');
    var q2 := SkipSpace(t, q1);
    var q3 := RunEnd(t, q2, IsOpenDecor);
    var q4 := OptChar(t, q3, ':');
    var q5 := SkipSpace(t, q4);
    if q5 < |t| && IsChoice(t[q5]) then
      Some((SimpleMatch(t[q5]), RunEnd(t, q5 + 1, IsCloseDecor)))
    else None
  }

  /** Pattern 1, `[A,a][N,n][S,s][W,w][E,e][R,r]:?\s*[\*\[\{]*:?\s*([A-Da-d])[\*\[\}]*`. */
  function AnswerPattern(t: string, p: nat): Option<(McqMatch, nat)> {
    if p <= |t| && WordAt(t, p, "ANSWER") then DecoratedChoice(t, p + 6) else None
  }

  /** Pattern 2, `\\boxed\{([A-Da-d])\}`. */
  function BoxedPattern(t: string, p: nat): Option<(McqMatch, nat)> {
    if LitAt(t, p, "\\boxed{") && p + 8 < |t| && IsChoice(t[p + 7]) && t[p + 8] == '}' then
      Some((SimpleMatch(t[p + 7]), p + 9))
    else None
  }

  /** Pattern 3, `\\boxed\{\{([A-Da-d])\}\}`. */
  function DoubleBoxedPattern(t: string, p: nat): Option<(McqMatch, nat)> {
    if LitAt(t, p, "\\boxed{{") && p + 8 < |t| && IsChoice(t[p + 8]) && LitAt(t, p + 9, "}}") then
      Some((SimpleMatch(t[p + 8]), p + 11))
    else None
  }

  /** Pattern 4, `(\\)?boxed\{\{?\s*([A-Da-d])\s*\}?\}`: group 1 is the optional
      backslash, the letter is group 2. When a backslash is present but `boxed{` does
      not follow it, leaving the group out cannot help, since `boxed` would then have
      to start at the backslash. */
  function LooseBoxedPattern(t: string, p: nat): Option<(McqMatch, nat)> {
    if p > |t| then None
    else
      var slash := p < |t| && t[p] == '\\';
      var b := if slash then p + 1 else p;
      if !LitAt(t, b, "boxed{") then None
      else
        var q1 := OptChar(t, b + 6, '{');
        var q2 := SkipSpace(t, q1);
        if q2 < |t| && IsChoice(t[q2]) then
          var q3 := SkipSpace(t, q2 + 1);
          var g1 := if slash then Some("\\") else None;
          if LitAt(t, q3, "}}") then Some((McqMatch(g1, t[q2]), q3 + 2))
          else if LitAt(t, q3, "}") then Some((McqMatch(g1, t[q2]), q3 + 1))
          else None
        else None
  }

  /** Pattern 5, `[O,o][P,p][T,t][I,i][O,o][N,n][S,s]?` followed by the same tail as
      pattern 1. */
  function OptionPattern(t: string, p: nat): Option<(McqMatch, nat)> {
    if p <= |t| && WordAt(t, p, "OPTION") then
      var q := if p + 6 < |t| && InClass(t[p + 6], 'S', 's') then p + 7 else p + 6;
      DecoratedChoice(t, q)
    else None
  }

  /** Pattern 6, `\*\*[F,f]inal\s*[A,a]nswer\*\*:?\s*\\\[\s*\\boxed\{([A-Da-d])\}\s*\\\]`. */
  function FinalBracketPattern(t: string, p: nat): Option<(McqMatch, nat)> {
    if !(LitAt(t, p, "**") && p + 2 < |t| && InClass(t[p + 2], 'F', 'f') && LitAt(t, p + 3, "inal")) then None
    else
      var q1 := SkipSpace(t, p + 7);
      if !(q1 < |t| && InClass(t[q1], 'A', 'a') && LitAt(t, q1 + 1, "nswer**")) then None
      else
        var q2 := OptChar(t, q1 + 8, ':');
        var q3 := SkipSpace(t, q2);
        if !LitAt(t, q3, "\\[") then None
        else
          var q4 := SkipSpace(t, q3 + 2);
          if !(LitAt(t, q4, "\\boxed{") && q4 + 8 < |t| && IsChoice(t[q4 + 7]) && t[q4 + 8] == '}') then None
          else
            var q5 := SkipSpace(t, q4 + 9);
            if LitAt(t, q5, "\\]") then Some((SimpleMatch(t[q4 + 7]), q5 + 2)) else None
  }

  /** Pattern 7, `\*\*Final Answer\*\*:\s*\[\s*(?:\\?boxed\{)?\s*([A-Da-d])\s*\}?\s*\]`.
      Skipping the optional `boxed{` group where it is present leaves a `\` or the
      `b` of `boxed` to be read as the letter, and an `o` can never be followed by
      the closing part, so that alternative never succeeds. */
  function FinalListPattern(t: string, p: nat): Option<(McqMatch, nat)> {
    if !LitAt(t, p, "**Final Answer**:") then None
    else
      var q1 := SkipSpace(t, p + 17);
      if !LitAt(t, q1, "[") then None
      else
        var q2 := SkipSpace(t, q1 + 1);
        var q3 := if LitAt(t, q2, "\\boxed{") then q2 + 7 else if LitAt(t, q2, "boxed{") then q2 + 6 else q2;
        var q4 := SkipSpace(t, q3);
        if !(q4 < |t| && IsChoice(t[q4])) then None
        else
          var q5 := SkipSpace(t, q4 + 1);
          var q6 := OptChar(t, q5, '}');
          var q7 := SkipSpace(t, q6);
          if LitAt(t, q7, "]") then Some((SimpleMatch(t[q4]), q7 + 1)) else None
  }

  const PatternCount: nat := 7

  /** The patterns of `extract_mcq_answer`, in list order (0-based). */
  function Pattern(k: nat): Matcher<McqMatch>
    requires k < PatternCount
  {
    match k
    case 0 => AnswerPattern
    case 1 => BoxedPattern
    case 2 => DoubleBoxedPattern
    case 3 => LooseBoxedPattern
    case 4 => OptionPattern
    case 5 => FinalBracketPattern
    case _ => FinalListPattern
  }

  /** Every pattern captures a choice letter. */
  lemma PatternLetter(k: nat, t: string, p: nat)
    requires k < PatternCount
    ensures Pattern(k)(t, p).Some? ==> IsChoice(Pattern(k)(t, p).value.0.letter)
    ensures k != 3 && Pattern(k)(t, p).Some? ==>
      Pattern(k)(t, p).value.0 == SimpleMatch(Pattern(k)(t, p).value.0.letter)
  {
  }

  /** All matches of pattern `k` in the response, in order. */
  function Matches(t: string, k: nat): seq<McqMatch>
    requires k < PatternCount
  {
    FindAll(t, 0, Pattern(k))
  }

  lemma MatchesLetters(t: string, k: nat)
    requires k < PatternCount
    ensures forall i | 0 <= i < |Matches(t, k)| :: IsChoice(Matches(t, k)[i].letter)
    ensures k != 3 ==> forall i | 0 <= i < |Matches(t, k)| ::
      Matches(t, k)[i] == SimpleMatch(Matches(t, k)[i].letter)
  {
    forall x | x in Matches(t, k) ensures IsChoice(x.letter) && (k != 3 ==> x == SimpleMatch(x.letter)) {
      var q := FindAllCaptured(t, 0, Pattern(k), x);
      PatternLetter(k, t, q);
    }
  }

  /** Whatever `findall` returns was captured by a match at some position. */
  lemma {:induction false} FindAllCaptured(t: string, p: nat, m: Matcher<McqMatch>, x: McqMatch) returns (q: nat)
    requires x in FindAll(t, p, m)
    ensures p <= q <= |t| && m(t, q).Some? && m(t, q).value.0 == x
    decreases |t| + 1 - p
  {
    match m(t, p) {
      case Some((y, e)) =>
        if y == x {
          q := p;
        } else {
          q := FindAllCaptured(t, Resume(p, e), m, x);
        }
      case None =>
        q := FindAllCaptured(t, p + 1, m, x);
    }
  }

  // ---------------------------------------------------------------------------
  // extract_mcq_answer

  /** The loop over the patterns as written: the first pattern with any match
      decides, through group 1 of its last match. When that group did not take
      part in the match, `None.strip()` raises, the handler logs it and the next
      pattern is tried. */
  function CascadeAsWritten(t: string, k: nat): (r: Option<string>)
    requires k <= PatternCount
    decreases PatternCount - k
  {
    if k == PatternCount then None
    else
      var ms := Matches(t, k);
      if ms == [] then CascadeAsWritten(t, k + 1)
      else match Last(ms).group1 {
        case None => CascadeAsWritten(t, k + 1)
        case Some(g) => Some(UpperStr(Strip(g)))
      }
  }

  /** `extract_mcq_answer` as written. */
  function ExtractMcqAnswerAsWritten(response: Option<string>): (r: Option<string>)
    ensures response.None? || response == Some("") ==> r.None?
    ensures r.Some? ==> response.Some? && response.value != []
  {
    if response.None? || response.value == "" then None else CascadeAsWritten(response.value, 0)
  }

  /** As written, no match gives nothing, and a letter read is group 1 of the last
      match of some pattern, stripped and upper-cased, whatever that group holds. */
  lemma {:induction false} CascadeAsWrittenReads(t: string, k: nat)
    requires k <= PatternCount
    ensures (forall j | k <= j < PatternCount :: Matches(t, j) == []) ==> CascadeAsWritten(t, k).None?
    ensures CascadeAsWritten(t, k).Some? ==> exists j | k <= j < PatternCount ::
      && Matches(t, j) != [] && Last(Matches(t, j)).group1.Some?
      && CascadeAsWritten(t, k).value == UpperStr(Strip(Last(Matches(t, j)).group1.value))
    decreases PatternCount - k
  {
    if k < PatternCount {
      CascadeAsWrittenReads(t, k + 1);
    }
  }

  /** The choice letters, as `extract_mcq_answer` returns them. */
  predicate IsAnswerLetter(s: string) {
    s == "A" || s == "B" || s == "C" || s == "D"
  }

  lemma UpperChoice(c: char)
    requires IsChoice(c)
    ensures IsAnswerLetter([Upper(c)])
  {
  }

  /** The loop over the patterns reading the letter, which is what every pattern
      means to capture: group 2 for pattern 4, group 1 for the others. */
  function Cascade(t: string, k: nat): (r: Option<string>)
    requires k <= PatternCount
    ensures r.Some? ==> IsAnswerLetter(r.value)
    decreases PatternCount - k
  {
    if k == PatternCount then None
    else
      var ms := Matches(t, k);
      if ms == [] then Cascade(t, k + 1)
      else
        MatchesLetters(t, k);
        UpperChoice(Last(ms).letter);
        Some([Upper(Last(ms).letter)])
  }

  /** `extract_mcq_answer`, reading the letter of the fourth pattern. */
  function ExtractMcqAnswer(response: Option<string>): (r: Option<string>)
    ensures response.None? || response == Some("") ==> r.None?
    ensures r.Some? ==> IsAnswerLetter(r.value)
  {
    if response.None? || response.value == "" then None else Cascade(response.value, 0)
  }

  /** No pattern before `k` matches anywhere in `t`. */
  predicate NoEarlierMatch(t: string, k: nat)
    requires k <= PatternCount
  {
    forall j | 0 <= j < k :: Matches(t, j) == []
  }

  /** The first pattern with a match decides, with the letter of its last match. */
  lemma {:induction false} FirstPatternDecides(t: string, k: nat)
    requires k < PatternCount && NoEarlierMatch(t, k) && Matches(t, k) != []
    ensures Cascade(t, 0) == Some([Upper(Last(Matches(t, k)).letter)])
  {
    CascadeFrom(t, 0, k);
  }

  lemma {:induction false} CascadeFrom(t: string, i: nat, k: nat)
    requires i <= k < PatternCount && NoEarlierMatch(t, k) && Matches(t, k) != []
    ensures Cascade(t, i) == Some([Upper(Last(Matches(t, k)).letter)])
    decreases k - i
  {
    if i < k {
      assert Matches(t, i) == [];
      CascadeFrom(t, i + 1, k);
    }
  }

  /** A letter comes out exactly when some pattern matches somewhere. */
  lemma {:induction false} CascadeSomeIff(t: string, k: nat)
    requires k <= PatternCount
    ensures Cascade(t, k).Some? <==> exists j | k <= j < PatternCount :: Matches(t, j) != []
    decreases PatternCount - k
  {
    if k < PatternCount {
      CascadeSomeIff(t, k + 1);
    }
  }

  /** "Answer: X" anywhere in the response beats every other way of writing the
      choice, and the last such phrase wins. */
  lemma AnswerPhraseWins(t: string)
    requires t != [] && Matches(t, 0) != []
    ensures ExtractMcqAnswer(Some(t)) == Some([Upper(Last(Matches(t, 0)).letter)])
  {
    FirstPatternDecides(t, 0);
  }

  /** Which match the answer comes from: the last match of the deciding pattern,
      after which that pattern matches nowhere. */
  lemma LastMatchDecides(t: string, k: nat) returns (q: nat, e: nat)
    requires k < PatternCount && NoEarlierMatch(t, k) && Matches(t, k) != []
    ensures q <= |t| && Pattern(k)(t, q).Some? && Pattern(k)(t, q).value.1 == e
    ensures Cascade(t, 0) == Some([Upper(Pattern(k)(t, q).value.0.letter)])
    ensures forall q' | Resume(q, e) <= q' <= |t| :: Pattern(k)(t, q').None?
  {
    q, e := FindAllLast(t, 0, Pattern(k));
    FirstPatternDecides(t, k);
  }

  /** As written and corrected agree on every pattern but the fourth. */
  lemma {:induction false} AsWrittenAgrees(t: string, k: nat)
    requires k <= PatternCount
    requires k > 3 || Matches(t, 3) == []
    ensures CascadeAsWritten(t, k) == Cascade(t, k)
    decreases PatternCount - k
  {
    if k < PatternCount {
      var ms := Matches(t, k);
      if ms != [] {
        MatchesLetters(t, k);
        assert Last(ms) == SimpleMatch(Last(ms).letter);
        StripNoSpace([Last(ms).letter]);
        assert UpperStr([Last(ms).letter]) == [Upper(Last(ms).letter)];
      } else {
        AsWrittenAgrees(t, k + 1);
      }
    }
  }

  /** The discrepancy: `\boxed{ B }` escapes the first three patterns, and the fourth
      matches with its backslash group, so the letter read is a backslash. */
  lemma LooseBoxedReadsBackslash()
    ensures ExtractMcqAnswerAsWritten(Some("\\boxed{ B }")) == Some("\\")
    ensures ExtractMcqAnswer(Some("\\boxed{ B }")) == Some("B")
  {
    LooseBoxedAsWritten("\\boxed{ B }");
    LooseBoxedCorrected("\\boxed{ B }");
  }

  lemma LooseBoxedAsWritten(t: string)
    requires t == "\\boxed{ B }"
    ensures ExtractMcqAnswerAsWritten(Some(t)) == Some("\\")
  {
    NoCommaWordNoMatch(t, 0, "ANSWER");
    StrictBoxesMissSpacedLetter(t);
    SkipToFourth(t);
    SpacedBoxMatch(t);
    var g := Last(Matches(t, 3)).group1;
    assert g == Some("\\");
    StripNoSpace("\\");
    assert UpperStr(Strip("\\")) == "\\";
    assert CascadeAsWritten(t, 3) == Some(UpperStr(Strip(g.value)));
  }

  lemma LooseBoxedCorrected(t: string)
    requires t == "\\boxed{ B }"
    ensures ExtractMcqAnswer(Some(t)) == Some("B")
  {
    NoCommaWordNoMatch(t, 0, "ANSWER");
    StrictBoxesMissSpacedLetter(t);
    SpacedBoxMatch(t);
    SkipToFourth(t);
  }

  lemma SkipToFourth(t: string)
    requires Matches(t, 0) == [] && Matches(t, 1) == [] && Matches(t, 2) == []
    ensures CascadeAsWritten(t, 0) == CascadeAsWritten(t, 3)
    ensures Cascade(t, 0) == Cascade(t, 3)
  {
    assert CascadeAsWritten(t, 0) == CascadeAsWritten(t, 1) == CascadeAsWritten(t, 2);
    assert Cascade(t, 0) == Cascade(t, 1) == Cascade(t, 2);
  }

  lemma StrictBoxesMissSpacedLetter(t: string)
    requires t == "\\boxed{ B }"
    ensures Matches(t, 1) == [] && Matches(t, 2) == []
  {
    forall q | 0 <= q <= |t| ensures BoxedPattern(t, q).None? && DoubleBoxedPattern(t, q).None? {
    }
    FindAllNonEmpty(t, 0, Pattern(1));
    FindAllNonEmpty(t, 0, Pattern(2));
  }

  lemma SpacedBoxMatch(t: string)
    requires t == "\\boxed{ B }"
    ensures Matches(t, 3) == [McqMatch(Some("\\"), 'B')]
  {
    assert SkipSpace(t, 7) == 8;
    assert SkipSpace(t, 9) == 10;
    assert Pattern(3) == LooseBoxedPattern;
    assert LooseBoxedPattern(t, 0) == Some((McqMatch(Some("\\"), 'B'), 11));
    assert LooseBoxedPattern(t, 11).None?;
    assert FindAll(t, 11, Pattern(3)) == [];
  }

  /** The "Answer" pattern needs one of `A`, `,` or `a` to start at. */
  lemma NoCommaWordNoMatch(t: string, p: nat, w: string)
    requires w == "ANSWER"
    requires forall i | 0 <= i < |t| :: !InClass(t[i], 'A', 'a')
    ensures Matches(t, 0) == []
  {
    forall q | 0 <= q <= |t| ensures AnswerPattern(t, q).None? {
      if q < |t| {
        assert !InClass(t[q], w[0], Lower(w[0]));
      }
    }
    FindAllNonEmpty(t, 0, Pattern(0));
  }

  // ---------------------------------------------------------------------------
  // evaluate

  /** Python truthiness of an optional string. */
  predicate Truthy(s: Option<string>) {
    s.Some? && s.value != ""
  }

  /** The first of `A`, `B`, `C`, `D` in `s`. */
  function FirstChoiceLetter(s: string): (r: Option<char>)
    ensures r.Some? ==> r.value in "ABCD" && r.value in s
    ensures r.None? ==> forall i | 0 <= i < |s| :: s[i] !in "ABCD"
    decreases |s|
  {
    if s == [] then None
    else if s[0] in "ABCD" then Some(s[0])
    else FirstChoiceLetter(s[1..])
  }

  /** The answer read from the response: extraction for more than one character, the
      upper-cased character otherwise. */
  function ReadActual(actual: Option<string>): (r: Option<string>)
    ensures actual.None? ==> r.None?
    ensures actual.Some? && |actual.value| > 1 ==> r == ExtractMcqAnswer(actual)
    ensures actual.Some? && |actual.value| <= 1 ==> r == Some(UpperStr(actual.value))
  {
    match actual
    case None => None
    case Some(a) => if |a| > 1 then ExtractMcqAnswer(actual) else Some(UpperStr(a))
  }

  /** The expected letter: stripped and upper-cased; if still longer than one
      character, extraction, else the first of `A`..`D` in it, else left as is. */
  function ReadExpected(expected: Option<string>): (r: Option<string>)
    ensures expected.None? <==> r.None?
  {
    match expected
    case None => None
    case Some(x) =>
      var e := UpperStr(Strip(x));
      if |e| > 1 then
        var m := ExtractMcqAnswer(Some(e));
        if Truthy(m) then m
        else match FirstChoiceLetter(e) {
          case Some(c) => Some([c])
          case None => Some(e)
        }
      else Some(e)
  }

  /** The result of `evaluate`: the verdict, and the `details` it reports. */
  datatype McqResult = McqResult(isCorrect: bool, expected: Option<string>, extracted: Option<string>)

  /** The keys of the `details` dictionary `evaluate` returns. */
  const DetailKeys: seq<string> := ["evaluator", "expected", "extracted", "match", "error"]

  /** `MCQEvaluator.evaluate`: correct when both answers read are non-empty and
      equal; never undecided. */
  function Evaluate(expected: Option<string>, actual: Option<string>): (r: McqResult)
    ensures r.expected == ReadExpected(expected) && r.extracted == ReadActual(actual)
    ensures r.isCorrect <==> Truthy(r.extracted) && r.extracted == r.expected
  {
    var x := ReadActual(actual);
    var e := ReadExpected(expected);
    McqResult(Truthy(x) && Truthy(e) && x == e, e, x)
  }

  /** A single letter is judged against the expected letter without extraction,
      case-insensitively. */
  lemma SingleLetterVerdict(expected: char, actual: char)
    requires IsChoice(expected) && IsChoice(actual)
    ensures Evaluate(Some([expected]), Some([actual])).isCorrect <==> Upper(expected) == Upper(actual)
  {
    StripNoSpace([expected]);
    assert UpperStr([expected]) == [Upper(expected)];
    assert UpperStr([actual]) == [Upper(actual)];
  }

  /** A correct verdict on a response longer than one character always rests on one
      of the four letters. */
  lemma CorrectLongResponseIsLetter(expected: Option<string>, actual: string)
    requires |actual| > 1 && Evaluate(expected, Some(actual)).isCorrect
    ensures IsAnswerLetter(Evaluate(expected, Some(actual)).extracted.value)
  {
  }
}
