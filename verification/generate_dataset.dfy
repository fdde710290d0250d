/** The rules of the dataset generator's `main`: the instance range it accepts, the
    seed and id of every question instance, the order of the records and the
    question numbers of each dataset. */
module GenerateDataset {
  import opened Wrappers
  import opened Text
  import Question

  // ---------------------------------------------------------------------------
  // The instance range

  const NonEmptyMessage: string := "Instance range must be a non-empty string"
  const BlankMessage: string := "Instance range cannot be empty"
  const FormatMessage: string := "Instance range must be in format 'start-end', e.g., '1-10'"
  const IntegerMessage: string := "Instance range must contain valid integers"
  const StartMessage: string := "Start of range must be at least 1"
  const OrderMessage: string := "End of range must be greater than or equal to start"

  /** `validate_instance_range`: the two integers of `start-end`, or the message
      of the `ValueError` raised. The range is a string here; the source's check
      that it is one is not modelled. */
  function ValidateInstanceRange(range: string): (r: Result<(int, int), string>)
    ensures r.Ok? ==> (
      var parts := Split(range, '-');
      |parts| == 2
      && ParsePyInt(parts[0]) == Some(r.value.0)
      && ParsePyInt(parts[1]) == Some(r.value.1)
      && 1 <= r.value.0 <= r.value.1)
    ensures range == [] ==> r == Err(NonEmptyMessage)
    ensures range != [] && Strip(range) == [] ==> r == Err(BlankMessage)
    ensures Strip(range) != [] && CountChar(range, '-') != 1 ==> r == Err(FormatMessage)
    ensures Strip(range) != [] && |Split(range, '-')| == 2 ==> (
      var start := ParsePyInt(Split(range, '-')[0]);
      var end := ParsePyInt(Split(range, '-')[1]);
      && (start.None? || end.None? ==> r == Err(IntegerMessage))
      && (start.Some? && end.Some? && start.value < 1 ==> r == Err(StartMessage))
      && (start.Some? && end.Some? && 1 <= start.value && end.value < start.value ==> r == Err(OrderMessage))
      && (start.Some? && end.Some? && 1 <= start.value <= end.value ==> r == Ok((start.value, end.value))))
  {
    if range == [] then Err(NonEmptyMessage)
    else if Strip(range) == [] then Err(BlankMessage)
    else
      var parts := Split(range, '-');
      if |parts| != 2 then Err(FormatMessage)
      else
        match (ParsePyInt(parts[0]), ParsePyInt(parts[1])) {
          case (Some(start), Some(end)) =>
            if start < 1 then Err(StartMessage)
            else if end < start then Err(OrderMessage)
            else Ok((start, end))
          case _ => Err(IntegerMessage)
        }
  }

  /** Any range written `{start}-{end}` with `1 <= start <= end` is accepted and
      read back as written. */
  lemma RangeRoundTrip(start: nat, end: nat)
    requires 1 <= start <= end
    ensures ValidateInstanceRange(Written(start, end)) == Ok((start, end))
  {
    WrittenRange(start, end);
  }

  /** A range whose second number is below its first is refused: `5-3` is not
      accepted. */
  lemma ReversedRangeRefused(start: nat, end: nat)
    requires 1 <= end < start
    ensures ValidateInstanceRange(Written(start, end)) == Err(OrderMessage)
  {
    WrittenRange(start, end);
  }

  /** The range `{start}-{end}`. */
  function Written(start: nat, end: nat): string {
    NatToString(start) + "-" + NatToString(end)
  }

  /** How `validate_instance_range` reads a written range: not blank, two parts,
      each the integer written. */
  lemma WrittenRange(start: nat, end: nat)
    ensures Written(start, end) != [] && Strip(Written(start, end)) != []
    ensures Split(Written(start, end), '-') == [NatToString(start), NatToString(end)]
    ensures ParsePyInt(NatToString(start)) == Some(start as int)
    ensures ParsePyInt(NatToString(end)) == Some(end as int)
  {
    WrittenNotBlank(start, end);
    WrittenSplit(start, end);
    ParseNat(start);
    ParseNat(end);
  }

  lemma WrittenNotBlank(start: nat, end: nat)
    ensures Written(start, end) != [] && Strip(Written(start, end)) != []
  {
    var a := NatToString(start);
    var b := NatToString(end);
    var s := a + "-" + b;
    assert s[0] == a[0] && s[|s| - 1] == b[|b| - 1];
    StripNoSpace(s);
  }

  lemma WrittenSplit(start: nat, end: nat)
    ensures Split(Written(start, end), '-') == [NatToString(start), NatToString(end)]
  {
    var a := NatToString(start);
    var b := NatToString(end);
    NoMinusInDigits(a);
    NoMinusInDigits(b);
    SplitCons(a, b, '-');
    SplitNone(b, '-');
  }

  /** `int(str(n)) == n` for a natural number. */
  lemma ParseNat(n: nat)
    ensures ParsePyInt(NatToString(n)) == Some(n as int)
  {
    ParseIntToString(n);
  }

  lemma NoMinusInDigits(s: string)
    requires AllDigits(s)
    ensures forall j | 0 <= j < |s| :: s[j] != '-'
  {
  }

  // ---------------------------------------------------------------------------
  // Seeds and ids

  /** The seed instance `idx` is generated with: none for the first instance,
      which is the original question, and `999 + idx - 1` otherwise. */
  function InstanceSeed(idx: nat): (s: Option<int>)
    ensures s.None? <==> idx == 1
  {
    if idx == 1 then None else Some(999 + idx - 1)
  }

  /** The seed question `n` of instance `idx` is sampled with: the instance's base
      seed (100 for the original question) plus the square of the number the id
      `q{n}_{idx}` reads as. */
  lemma InstanceStart(n: nat, idx: nat)
    ensures (
      var start := Question.InitialSeed(Question.InstanceId(n, idx), InstanceSeed(idx));
      start.Some?
      && start.value.seed == InstanceBase(idx) + Question.Square(Question.Concatenated(n, idx))
      && (start.value.original <==> idx == 1))
  {
    var id := Question.InstanceId(n, idx);
    var v := Question.Concatenated(n, idx);
    Question.UnderscoreGrouping(n, idx);
    var start := Question.InitialSeed(id, InstanceSeed(idx));
    assert start.value.seed == InstanceBase(idx) + Question.Square(v);
  }

  /** The base seed of instance `idx`: 100 for the original question. */
  function InstanceBase(idx: nat): (b: int)
    ensures b == InstanceSeed(idx).GetOr(Question.DefaultSeed)
  {
    if idx == 1 then Question.DefaultSeed else 998 + idx
  }

  /** A record's id: `MCQ_{n}_{idx}`. */
  function RecordId(n: nat, idx: nat): string {
    "MCQ_" + NatToString(n) + "_" + NatToString(idx)
  }

  /** The sort key `(int(id.split("_")[2]), int(id.split("_")[1]))`; `None`
      stands for the exception an id without three integer parts raises. */
  function SortKey(id: string): (k: Option<(int, int)>)
    ensures k.Some? ==> |Split(id, '_')| >= 3
  {
    var parts := Split(id, '_');
    if |parts| < 3 then None
    else
      match (ParsePyInt(parts[2]), ParsePyInt(parts[1])) {
        case (Some(instance), Some(number)) => Some((instance, number))
        case _ => None
      }
  }

  /** A record's sort key is its instance, then its question number. */
  lemma SortKeyOfRecord(n: nat, idx: nat)
    ensures SortKey(RecordId(n, idx)) == Some((idx as int, n as int))
  {
    var a := NatToString(n);
    var b := NatToString(idx);
    NoUnderscoreInDigits(a);
    NoUnderscoreInDigits(b);
    assert RecordId(n, idx) == "MCQ" + ['_'] + (a + ['_'] + b);
    SplitCons("MCQ", a + ['_'] + b, '_');
    SplitCons(a, b, '_');
    SplitNone(b, '_');
    ParseIntToString(n);
    ParseIntToString(idx);
  }

  lemma NoUnderscoreInDigits(s: string)
    requires AllDigits(s)
    ensures forall j | 0 <= j < |s| :: s[j] != '_'
  {
  }

  /** The (question, instance) pairs in generation order: instance by instance,
      and within an instance the questions in the order given. */
  function Generated(numbers: seq<nat>, start: nat, end: nat): (g: seq<(nat, nat)>)
    ensures |g| == if start <= end then (end - start + 1) * |numbers| else 0
    ensures forall k | 0 <= k < |g| :: g[k].0 in numbers && start <= g[k].1 <= end
    decreases end + 1 - start
  {
    if start > end then []
    else
      var row := seq(|numbers|, j requires 0 <= j < |numbers| => (numbers[j], start));
      var rest := Generated(numbers, start + 1, end);
      assert |row + rest| == |numbers| + (if start + 1 <= end then (end - start) * |numbers| else 0);
      row + rest
  }

  predicate StrictlyIncreasing(xs: seq<nat>) {
    forall i, j | 0 <= i < j < |xs| :: xs[i] < xs[j]
  }

  /** `(instance, number)` compared as Python compares tuples. */
  predicate KeyLess(p: (nat, nat), q: (nat, nat)) {
    p.1 < q.1 || (p.1 == q.1 && p.0 < q.0)
  }

  predicate InKeyOrder(g: seq<(nat, nat)>) {
    forall i, j | 0 <= i < j < |g| :: KeyLess(g[i], g[j])
  }

  /** With the question numbers ascending, the records come out strictly
      increasing in the sort key, so the final stable sort keeps the generation
      order. */
  lemma {:induction false} GeneratedInKeyOrder(numbers: seq<nat>, start: nat, end: nat)
    requires StrictlyIncreasing(numbers)
    ensures InKeyOrder(Generated(numbers, start, end))
    decreases end + 1 - start
  {
    if start <= end {
      GeneratedInKeyOrder(numbers, start + 1, end);
      var g := Generated(numbers, start, end);
      var n := |numbers|;
      var rest := Generated(numbers, start + 1, end);
      var row := seq(n, j requires 0 <= j < n => (numbers[j], start));
      assert g == row + rest;
      assert InKeyOrder(rest);
      forall i, j | 0 <= i < j < |g|
        ensures KeyLess(g[i], g[j])
      {
        if j < n {
          assert g[i] == row[i] && g[j] == row[j];
          assert numbers[i] < numbers[j];
        } else if i < n {
          assert g[i] == row[i] && g[i].1 == start;
          assert g[j] == rest[j - n] && rest[j - n].1 >= start + 1;
        } else {
          assert g[i] == rest[i - n] && g[j] == rest[j - n];
          assert KeyLess(rest[i - n], rest[j - n]);
        }
      }
    }
  }

  // ---------------------------------------------------------------------------
  // Question numbers

  datatype Dataset = Main | Extra | Eph

  /** The main dataset's excluded question numbers. */
  const Excluded: seq<nat> := [5, 7, 33, 43, 44, 53, 54, 57, 58, 62, 68, 73, 78]

  /** `[i for i in range(lo, hi) if i not in excluded]`. */
  function RangeExcept(lo: nat, hi: nat, excluded: seq<nat>): (r: seq<nat>)
    ensures forall i :: i in r <==> lo <= i < hi && i !in excluded
    ensures StrictlyIncreasing(r)
    ensures forall k | 0 <= k < |r| :: lo <= r[k]
    decreases hi - lo
  {
    if lo >= hi then []
    else
      var rest := RangeExcept(lo + 1, hi, excluded);
      if lo in excluded then rest else [lo] + rest
  }

  /** `list(range(lo, hi))`. */
  function Range(lo: nat, hi: nat): (r: seq<nat>)
    ensures forall i :: i in r <==> lo <= i < hi
    ensures StrictlyIncreasing(r)
  {
    var n := if lo <= hi then hi - lo else 0;
    var r := seq(n, k requires 0 <= k < n => lo + k);
    assert |r| == n;
    assert forall i | lo <= i < hi :: i in r by {
      forall i | lo <= i < hi ensures i in r {
        assert 0 <= i - lo < n;
        assert r[i - lo] == i;
      }
    }
    r
  }

  /** The question numbers of a dataset. `Eph` has no branch: `question_numbers`
      is then unbound and its first use raises (`None`). */
  function QuestionNumbers(dataset: Dataset): (r: Option<seq<nat>>)
    ensures r.Some? <==> !dataset.Eph?
    ensures r.Some? ==> StrictlyIncreasing(r.value)
    ensures dataset.Main? ==> forall i :: i in r.value <==> 1 <= i <= 80 && i !in Excluded
    ensures dataset.Extra? ==> forall i :: i in r.value <==> 81 <= i <= 104
  {
    match dataset
    case Main => Some(RangeExcept(1, 81, Excluded))
    case Extra => Some(Range(81, 105))
    case Eph => None
  }
}
