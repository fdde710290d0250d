/** The prompt an MCQ problem is posed with: the question, the options labelled
    `A.`, `B.`, … one per line, and the knowledge text when there is one. */
module McqPrompt {
  import opened Wrappers
  import opened Text

  /** `chr(65 + i)` is a Dafny character below the surrogate code points. */
  const MaxOptions: nat := 0xD800 - 65

  /** `chr(65 + i)`: `A` for the first option, `B` for the second, …. */
  function OptionLetter(i: nat): (c: char)
    requires i < MaxOptions
    ensures c as int == 65 + i
    ensures c != '\n'
  {
    (65 + i) as char
  }

  /** An option's line without its newline: `"B. " + option`. */
  function Labelled(i: nat, option: string): (l: string)
    requires i < MaxOptions
    ensures |l| == 3 + |option| && l[0] == OptionLetter(i) && l[1..3] == ". " && l[3..] == option
  {
    [OptionLetter(i)] + ". " + option
  }

  /** The options block from option `i` on: one labelled line per option. */
  function OptionsFrom(options: seq<string>, i: nat): string
    requires i <= |options| <= MaxOptions
    decreases |options| - i
  {
    if i == |options| then "" else Labelled(i, options[i]) + "\n" + OptionsFrom(options, i + 1)
  }

  /** `options_str`: empty when there are no options. */
  function OptionsBlock(options: seq<string>): (s: string)
    requires |options| <= MaxOptions
    ensures options == [] ==> s == ""
  {
    OptionsFrom(options, 0)
  }

  /** `if knowledge:`: present and non-empty. */
  predicate Truthy(knowledge: Option<string>) {
    knowledge.Some? && knowledge.value != []
  }

  const KnowledgeHeader: string := "\nKnowledge:\n"

  /** `MCQ.get_prompt`: the question, the options header and block, and the
      knowledge section only when the knowledge is truthy. A missing option list
      and an empty one both give an empty block. */
  function GetPrompt(question: string, options: seq<string>, knowledge: Option<string>): (p: string)
    requires |options| <= MaxOptions
    ensures (
      var head := "Question: " + question + "\nOptions:" + OptionsBlock(options);
      |head| <= |p| && p[..|head|] == head
      && (Truthy(knowledge) <==> |p| > |head|)
      && (Truthy(knowledge) ==> p[|head|..] == KnowledgeHeader + knowledge.value))
  {
    var head := "Question: " + question + "\nOptions:" + OptionsBlock(options);
    if Truthy(knowledge) then head + KnowledgeHeader + knowledge.value else head
  }

  /** The labelled lines of the options from option `i` on. */
  function Lines(options: seq<string>, i: nat): (ls: seq<string>)
    requires i <= |options| <= MaxOptions
    ensures |ls| == |options| - i
  {
    seq(|options| - i, k requires 0 <= k < |options| - i => Labelled(i + k, options[i + k]))
  }

  predicate NoNewlines(options: seq<string>) {
    forall k, j | 0 <= k < |options| && 0 <= j < |options[k]| :: options[k][j] != '\n'
  }

  /** The lines a reader gets back by splitting the options block at newlines:
      one labelled line per option, in order, then the empty text after the last
      newline. So each option can be read back from its line, under its letter. */
  lemma OptionsLines(options: seq<string>)
    requires |options| <= MaxOptions && NoNewlines(options)
    ensures Split(OptionsBlock(options), '\n') == Lines(options, 0) + [""]
  {
    OptionsFromLines(options, 0);
  }

  /** An options block read back: every line but the last (empty) one starts
      with its letter and `". "`, and the text after them gives the options again. */
  lemma OptionsRoundTrip(options: seq<string>)
    requires |options| <= MaxOptions && NoNewlines(options)
    ensures (
      var parts := Split(OptionsBlock(options), '\n');
      |parts| == |options| + 1 && parts[|options|] == ""
      && forall k | 0 <= k < |options| ::
           |parts[k]| >= 3 && parts[k][0] == OptionLetter(k) && parts[k][1..3] == ". " && parts[k][3..] == options[k])
  {
    OptionsLines(options);
    var parts := Split(OptionsBlock(options), '\n');
    forall k | 0 <= k < |options|
      ensures |parts[k]| >= 3 && parts[k][0] == OptionLetter(k) && parts[k][1..3] == ". " && parts[k][3..] == options[k]
    {
      assert parts[k] == Lines(options, 0)[k] == Labelled(k, options[k]);
    }
  }

  lemma {:induction false} OptionsFromLines(options: seq<string>, i: nat)
    requires i <= |options| <= MaxOptions && NoNewlines(options)
    ensures Split(OptionsFrom(options, i), '\n') == Lines(options, i) + [""]
    decreases |options| - i
  {
    if i == |options| {
      SplitNone("", '\n');
    } else {
      var l := Labelled(i, options[i]);
      var rest := OptionsFrom(options, i + 1);
      LabelledNoNewline(options, i);
      assert OptionsFrom(options, i) == l + ['\n'] + rest;
      SplitCons(l, rest, '\n');
      OptionsFromLines(options, i + 1);
      LinesCons(options, i);
    }
  }

  lemma LabelledNoNewline(options: seq<string>, i: nat)
    requires i < |options| <= MaxOptions && NoNewlines(options)
    ensures forall j | 0 <= j < |Labelled(i, options[i])| :: Labelled(i, options[i])[j] != '\n'
  {
    var l := Labelled(i, options[i]);
    forall j | 0 <= j < |l|
      ensures l[j] != '\n'
    {
      if j >= 3 {
        assert l[j] == l[3..][j - 3] == options[i][j - 3];
      }
    }
  }

  lemma LinesCons(options: seq<string>, i: nat)
    requires i < |options| <= MaxOptions
    ensures Lines(options, i) == [Labelled(i, options[i])] + Lines(options, i + 1)
  {
  }
}
