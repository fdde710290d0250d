/** How the parallel generator shares its work: the GPU ids split into groups of
    nearly equal size, and the datasets spread over the groups by a greedy rule
    that keeps the groups' question counts close. */
module GpuParallel {
  import opened Wrappers
  import opened Text
  import opened Dicts
  import opened Sorting
  import opened Seqs

  // ---------------------------------------------------------------------------
  // GPU groups

  /** The errors `split_gpus` raises: the `ValueError` of an id that is not an
      integer, and the `ZeroDivisionError` of zero groups. */
  datatype GpuError = InvalidId(text: string) | NoGroups

  /** `[int(x.strip()) for x in parts]`, or the first part that is not an
      integer. */
  function ParseIds(parts: seq<string>): (r: Result<seq<int>, GpuError>)
    ensures r.Ok? ==> |r.value| == |parts| && forall k | 0 <= k < |parts| :: ParsePyInt(Strip(parts[k])) == Some(r.value[k])
    ensures r.Err? ==> r.error.InvalidId? && r.error.text in parts && ParsePyInt(Strip(r.error.text)).None?
  {
    Collect(seq(|parts|, k requires 0 <= k < |parts| => ParsePyInt(Strip(parts[k]))), parts)
  }

  /** The integers `values` read from `parts`, or the first part read as none. */
  function Collect(values: seq<Option<int>>, parts: seq<string>): (r: Result<seq<int>, GpuError>)
    requires |values| == |parts|
    ensures r.Ok? ==> |r.value| == |parts| && forall k | 0 <= k < |parts| :: values[k] == Some(r.value[k])
    ensures r.Err? ==> exists k | 0 <= k < |parts| :: values[k].None? && r.error == InvalidId(parts[k])
  {
    if parts == [] then Ok([])
    else
      match values[0]
      case None => Err(InvalidId(parts[0]))
      case Some(id) =>
        match Collect(values[1..], parts[1..])
        case Err(e) =>
          var k :| 0 <= k < |parts| - 1 && values[1..][k].None? && e == InvalidId(parts[1..][k]);
          assert values[k + 1].None? && e == InvalidId(parts[k + 1]);
          Err(e)
        case Ok(rest) =>
          assert forall k | 1 <= k < |parts| :: values[k] == values[1..][k - 1];
          Ok([id] + rest)
  }

  /** `gpu_ids`: the ids written in `gpu`, or `0 .. detected - 1` when none are
      written (`detected` stands for the number of GPUs the machine reports). */
  function GpuIds(gpu: string, detected: nat): (r: Result<seq<int>, GpuError>)
    ensures gpu == [] ==> r.Ok? && |r.value| == detected && forall k | 0 <= k < detected :: r.value[k] == k
    ensures gpu != [] && r.Ok? ==> |r.value| == |Split(gpu, ',')|
  {
    if gpu == [] then Ok(seq(detected, k => k)) else ParseIds(Split(gpu, ','))
  }

  /** The size of group `i` when `n` GPUs go to `g` groups: `n // g`, plus one
      for the first `n % g` groups. */
  function GroupSize(n: nat, g: nat, i: nat): nat
    requires g > 0
  {
    n / g + (if i < n % g then 1 else 0)
  }

  /** Where group `i` starts. */
  function GroupStart(n: nat, g: nat, i: nat): nat
    requires g > 0
  {
    i * (n / g) + (if i < n % g then i else n % g)
  }

  /** Each group starts where the one before it ends, and the last one ends at
      the end of the ids. */
  lemma GroupStartStep(n: nat, g: nat, i: nat)
    requires 0 <= i < g
    ensures GroupStart(n, g, i) + GroupSize(n, g, i) == GroupStart(n, g, i + 1)
    ensures GroupStart(n, g, i + 1) <= n
  {
    var q := n / g;
    var r := n % g;
    MulStep(i + 1, g, q);
    MulStep(i, g, q);
    assert n == g * q + r;
  }

  lemma GroupStartEnd(n: nat, g: nat)
    requires g > 0
    ensures GroupStart(n, g, g) == n
  {
    var q := n / g;
    var r := n % g;
    assert n == g * q + r;
  }

  lemma {:induction false} MulStep(i: nat, g: nat, q: nat)
    requires i <= g
    ensures i * q <= g * q
    ensures (i + 1) * q == i * q + q
    decreases g - i
  {
    if i < g {
      MulStep(i + 1, g, q);
    }
  }

  /** Where every group starts, and where the last one ends. */
  lemma Starts(n: nat, g: nat) returns (starts: seq<nat>)
    requires g > 0
    ensures |starts| == g + 1 && starts[0] == 0 && starts[g] == n
    ensures forall i {:trigger GroupSize(n, g, i)} | 0 <= i < g :: starts[i] + GroupSize(n, g, i) == starts[i + 1] <= n
  {
    starts := seq(g + 1, i requires 0 <= i <= g => GroupStart(n, g, i));
    forall i {:trigger GroupSize(n, g, i)} | 0 <= i < g
      ensures starts[i] + GroupSize(n, g, i) == starts[i + 1] <= n
    {
      GroupStartStep(n, g, i);
    }
    GroupStartEnd(n, g);
  }

  /** The loop of `split_gpus` over the groups: the ids cut into `g` consecutive
      groups, the first `n % g` of them one id longer. */
  method CutGroups(ids: seq<int>, g: nat) returns (groups: seq<seq<int>>)
    requires g > 0
    ensures |groups| == g
    ensures forall i | 0 <= i < g :: |groups[i]| == GroupSize(|ids|, g, i)
    ensures Flatten(groups) == ids
  {
    var n := |ids|;
    ghost var starts := Starts(n, g);
    groups := [];
    var start := 0;
    for i := 0 to g
      invariant |groups| == i
      invariant start == starts[i] && start <= n
      invariant forall k | 0 <= k < i :: |groups[k]| == GroupSize(n, g, k)
      invariant Flatten(groups) == ids[..start]
    {
      var end := start + GroupSize(n, g, i);
      FlattenAppend(groups, ids[start..end]);
      assert ids[..end] == ids[..start] + ids[start..end];
      groups := groups + [ids[start..end]];
      start := end;
    }
    assert ids[..n] == ids;
  }

  /** `','.join(str(x) for x in group)`. */
  function GroupText(group: seq<int>): string {
    Join(seq(|group|, k requires 0 <= k < |group| => IntToString(group[k])), ',')
  }

  /** A group's text reads back as the group: split at the commas, each piece is
      the integer of its GPU. */
  lemma GroupTextRoundTrip(group: seq<int>)
    requires group != []
    ensures var parts := Split(GroupText(group), ',');
      |parts| == |group| && forall k | 0 <= k < |group| :: ParsePyInt(parts[k]) == Some(group[k])
  {
    var texts := seq(|group|, k requires 0 <= k < |group| => IntToString(group[k]));
    forall k, i | 0 <= k < |texts| && 0 <= i < |texts[k]|
      ensures texts[k][i] != ','
    {
      NoCommaInInt(group[k], i);
    }
    JoinSplit(texts, ',');
    forall k | 0 <= k < |group|
      ensures ParsePyInt(texts[k]) == Some(group[k])
    {
      ParseIntToString(group[k]);
    }
  }

  lemma NoCommaInInt(n: int, i: nat)
    requires i < |IntToString(n)|
    ensures IntToString(n)[i] != ','
  {
    var d := NatToString(if n >= 0 then n else -n);
    assert forall j | 0 <= j < |d| :: IsDigit(d[j]);
    if n < 0 && i > 0 {
      assert IntToString(n)[i] == d[i - 1];
    }
  }

  /** What `split_gpus` gives for the ids `ids`: zero groups raise; otherwise
      there are as many groups as asked for but no more than there are ids, their
      sizes are `GroupSize`, read one after the other they give the ids back, and
      each text is its group written out. */
  predicate Grouped(ids: seq<int>, numGroups: nat, r: Result<seq<string>, GpuError>, groups: seq<seq<int>>) {
    var g := if |ids| < numGroups then |ids| else numGroups;
    && (r.Err? <==> g == 0)
    && (r.Err? ==> r.error == NoGroups)
    && (r.Ok? ==>
      |groups| == g && Flatten(groups) == ids
      && (forall i | 0 <= i < g :: |groups[i]| == GroupSize(|ids|, g, i))
      && |r.value| == g && forall i | 0 <= i < g :: r.value[i] == GroupText(groups[i]))
  }

  /** The part of `split_gpus` after the ids are known. */
  method GroupIds(ids: seq<int>, numGroups: nat) returns (r: Result<seq<string>, GpuError>, groups: seq<seq<int>>)
    ensures Grouped(ids, numGroups, r, groups)
  {
    var g := if |ids| < numGroups then |ids| else numGroups;
    if g == 0 {
      return Err(NoGroups), [];
    }
    groups := CutGroups(ids, g);
    var texts := seq(g, i requires 0 <= i < g => GroupText(groups[i]));
    r := Ok(texts);
  }

  /** `split_gpus`: the GPU groups as texts, with the id groups they are
      written from. No ids and no detected GPU give no groups; an id that is not
      an integer raises; otherwise the ids are grouped as `Grouped` says. */
  method SplitGpus(gpu: string, detected: nat, numGroups: nat)
      returns (r: Result<seq<string>, GpuError>, groups: seq<seq<int>>)
    ensures gpu == [] && detected == 0 ==> r == Ok([])
    ensures GpuIds(gpu, detected).Err? ==> r == Err(GpuIds(gpu, detected).error)
    ensures (gpu != [] || detected > 0) && GpuIds(gpu, detected).Ok? ==>
      Grouped(GpuIds(gpu, detected).value, numGroups, r, groups)
  {
    if gpu == [] && detected == 0 {
      return Ok([]), [];
    }
    var parsed := GpuIds(gpu, detected);
    if parsed.Err? {
      return Err(parsed.error), [];
    }
    r, groups := GroupIds(parsed.value, numGroups);
  }

  /** The sizes of any two groups differ by at most one, and no group is empty
      when there are no more groups than GPUs. */
  lemma GroupSizesBalanced(n: nat, g: nat, i: nat, j: nat)
    requires 0 < g <= n && i < g && j < g
    ensures 1 <= GroupSize(n, g, i)
    ensures GroupSize(n, g, i) <= GroupSize(n, g, j) + 1
    ensures i <= j ==> GroupSize(n, g, j) <= GroupSize(n, g, i)
  {
    assert n / g * g + n % g == n;
  }

  // ---------------------------------------------------------------------------
  // Dataset groups

  /** The predefined question counts, used when a dataset's file gives none. */
  const DatasetInfo: Dict<string, nat> := [
    ("MCQ/eph_1-10", 140), ("MCQ/extra_1-10", 100), ("MCQ/main_1-10", 670),
    ("OEQ/PAC", 113), ("OEQ/HHSWP", 208), ("OEQ/FPOP", 70)]

  /** The count used for a dataset whose file holds `counted` lines (0 also when
      it cannot be read): the lines, or the predefined count, or 0. */
  function DatasetCount(dataset: string, counted: nat): (c: nat)
    ensures counted > 0 ==> c == counted
    ensures counted == 0 && HasKey(DatasetInfo, dataset) ==> c == Get(DatasetInfo, dataset).value
    ensures counted == 0 && !HasKey(DatasetInfo, dataset) ==> c == 0
  {
    if counted > 0 then counted else Get(DatasetInfo, dataset).GetOr(0)
  }

  /** `dataset_counts`: one entry per distinct dataset, in first-seen order,
      holding that dataset's count. */
  function DatasetCounts(datasets: seq<string>, counted: string -> nat): (d: Dict<string, nat>)
    ensures IsDict(d)
    ensures forall x :: HasKey(d, x) <==> x in datasets
    ensures forall x | HasKey(d, x) :: Get(d, x) == Some(DatasetCount(x, counted(x)))
  {
    var f := (x: string) => DatasetCount(x, counted(x));
    var pairs := seq(|datasets|, i requires 0 <= i < |datasets| => (datasets[i], f(datasets[i])));
    var d := FromPairs(pairs);
    assert Keys(pairs) == datasets;
    assert forall x :: HasKey(d, x) <==> x in datasets by {
      forall x ensures HasKey(d, x) <==> x in datasets {
        FromPairsKeys(pairs, x);
      }
    }
    assert forall x | HasKey(d, x) :: Get(d, x) == Some(DatasetCount(x, counted(x))) by {
      forall x | HasKey(d, x) ensures Get(d, x) == Some(DatasetCount(x, counted(x))) {
        FromPairsKeyed(pairs, f, x);
      }
    }
    d
  }

  /** The count of an entry. */
  function Count(e: (string, nat)): int {
    e.1
  }

  /** `sorted(dataset_counts.items(), key=lambda x: x[1], reverse=True)`. */
  function SortedCounts(d: Dict<string, nat>): (s: seq<(string, nat)>)
    ensures SortedDescBy(s, Count)
    ensures multiset(s) == multiset(d)
  {
    SortDescBy(d, Count)
  }

  /** Datasets of equal count stay in first-seen order. */
  lemma SortedCountsStable(d: Dict<string, nat>)
    requires IsDict(d)
    ensures StableBy(SortedCounts(d), Count, FirstSeen(d))
  {
    forall i, j | 0 <= i < j < |d|
      ensures IndexOf(d, d[i].0) < IndexOf(d, d[j].0)
    {
      IndexOfEntry(d, i);
      IndexOfEntry(d, j);
    }
    SortDescByStable(d, Count, FirstSeen(d));
  }

  /** Where an entry's dataset was first seen. */
  function FirstSeen(d: Dict<string, nat>): ((string, nat)) -> int {
    (e: (string, nat)) => IndexOf(d, e.0)
  }

  lemma IndexOfEntry<V>(d: Dict<string, V>, i: nat)
    requires IsDict(d) && i < |d|
    ensures IndexOf(d, d[i].0) == i
  {
    var k := d[i].0;
    assert Keys(d)[i] == k;
    var j := IndexOf(d, k);
    assert j < |d| && Keys(d)[j] == k;
  }

  /** `group_counts.index(min(group_counts))`: the first of the smallest. */
  function MinIndex(xs: seq<int>): (i: nat)
    requires xs != []
    ensures i < |xs|
    ensures forall j | 0 <= j < |xs| :: xs[i] <= xs[j]
    ensures forall j | 0 <= j < i :: xs[j] > xs[i]
    decreases |xs|
  {
    if |xs| == 1 then 0
    else
      var m := |xs| - 1;
      var k := MinIndex(xs[..m]);
      if xs[m] < xs[k] then m else k
  }

  function Names(items: seq<(string, nat)>): (ns: seq<string>)
    ensures |ns| == |items|
    ensures forall k | 0 <= k < |items| :: ns[k] == items[k].0
  {
    seq(|items|, k requires 0 <= k < |items| => items[k].0)
  }

  /** The total count of the datasets of a group. */
  function GroupTotal(group: seq<string>, d: Dict<string, nat>): int
    decreases |group|
  {
    if group == [] then 0
    else GroupTotal(group[..|group| - 1], d) + Get(d, group[|group| - 1]).GetOr(0)
  }

  lemma GroupTotalAppend(group: seq<string>, name: string, d: Dict<string, nat>)
    ensures GroupTotal(group + [name], d) == GroupTotal(group, d) + Get(d, name).GetOr(0)
  {
    assert (group + [name])[..|group|] == group;
  }

  /** No total exceeds another by more than `bound`. */
  predicate Balanced(totals: seq<int>, bound: nat) {
    forall j, k | 0 <= j < |totals| && 0 <= k < |totals| :: totals[j] - totals[k] <= bound
  }

  /** Each total is the sum of its group's counts. */
  predicate Tallied(groups: seq<seq<string>>, totals: seq<int>, d: Dict<string, nat>) {
    |groups| == |totals| && forall k | 0 <= k < |totals| :: totals[k] == GroupTotal(groups[k], d)
  }

  /** Adding a count no larger than `bound` to a smallest total keeps the
      totals within `bound` of each other. */
  lemma BalanceStep(totals: seq<int>, idx: nat, count: nat, bound: nat)
    requires idx < |totals| && count <= bound && Balanced(totals, bound)
    requires forall j | 0 <= j < |totals| :: totals[idx] <= totals[j]
    ensures Balanced(totals[idx := totals[idx] + count], bound)
  {
  }

  lemma TallyStep(groups: seq<seq<string>>, totals: seq<int>, d: Dict<string, nat>, idx: nat, name: string, count: nat)
    requires Tallied(groups, totals, d) && idx < |totals| && Get(d, name) == Some(count)
    ensures Tallied(groups[idx := groups[idx] + [name]], totals[idx := totals[idx] + count], d)
  {
    GroupTotalAppend(groups[idx], name, d);
  }

  /** The greedy distribution: each dataset, in the order given, goes to the
      first group with the smallest total. Every dataset lands in one group,
      each group's total is the sum of its datasets' counts, and no total
      exceeds another by more than the largest count. */
  method Distribute(items: seq<(string, nat)>, d: Dict<string, nat>, numGroups: nat, bound: nat)
      returns (groups: seq<seq<string>>, totals: seq<int>)
    requires numGroups > 0
    requires forall k | 0 <= k < |items| :: Get(d, items[k].0) == Some(items[k].1) && items[k].1 <= bound
    ensures |groups| == numGroups && |totals| == numGroups
    ensures multiset(Flatten(groups)) == multiset(Names(items))
    ensures Tallied(groups, totals, d)
    ensures Balanced(totals, bound)
  {
    groups := EmptyGroups(numGroups);
    totals := seq(numGroups, _ => 0);
    EmptiesFlatten(numGroups);
    for i := 0 to |items|
      invariant |groups| == numGroups && |totals| == numGroups
      invariant multiset(Flatten(groups)) == multiset(Names(items[..i]))
      invariant Tallied(groups, totals, d)
      invariant Balanced(totals, bound)
    {
      var name := items[i].0;
      var count := items[i].1;
      var idx := MinIndex(totals);
      FlattenUpdate(groups, idx, name);
      TallyStep(groups, totals, d, idx, name, count);
      BalanceStep(totals, idx, count, bound);
      NamesStep(items, i);
      groups := groups[idx := groups[idx] + [name]];
      totals := totals[idx := totals[idx] + count];
    }
    assert items[..|items|] == items;
  }

  lemma NamesStep(items: seq<(string, nat)>, i: nat)
    requires i < |items|
    ensures multiset(Names(items[..i + 1])) == multiset(Names(items[..i])) + multiset{items[i].0}
  {
    assert Names(items[..i + 1]) == Names(items[..i]) + [items[i].0];
  }

  function EmptyGroups(n: nat): (gs: seq<seq<string>>)
    ensures |gs| == n && forall k | 0 <= k < n :: gs[k] == []
  {
    seq(n, _ => [])
  }

  lemma EmptiesFlatten(n: nat)
    ensures Flatten(EmptyGroups(n)) == []
  {
    if n > 0 {
      assert EmptyGroups(n)[..n - 1] == EmptyGroups(n - 1);
      EmptiesFlatten(n - 1);
    }
  }

  const EmptyMinMessage: string := "min() arg is an empty sequence"

  /** `question_type, dataset_name = dataset.split('/')` in `get_dataset_path`:
      the unpacking raises `ValueError` unless the name has exactly one '/'. */
  function PathError(dataset: string): (e: Option<string>)
    ensures e.None? <==> |Split(dataset, '/')| == 2
  {
    var n := |Split(dataset, '/')|;
    if n == 2 then None
    else if n < 2 then Some("not enough values to unpack (expected 2, got " + NatToString(n) + ")")
    else Some("too many values to unpack (expected 2)")
  }

  /** The error of the first dataset, in list order, whose path cannot be built:
      `FirstSome` and `PathErrors` state what it is. */
  function FirstPathError(datasets: seq<string>): Option<string> {
    FirstSome(PathErrors(datasets))
  }

  function PathErrors(datasets: seq<string>): (errs: seq<Option<string>>)
    ensures |errs| == |datasets| && forall k | 0 <= k < |datasets| :: errs[k] == PathError(datasets[k])
  {
    seq(|datasets|, k requires 0 <= k < |datasets| => PathError(datasets[k]))
  }

  /** The first present value of `xs`. */
  function FirstSome<T(==)>(xs: seq<Option<T>>): (e: Option<T>)
    ensures e.None? <==> forall k | 0 <= k < |xs| :: xs[k].None?
    ensures e.Some? ==> exists k | 0 <= k < |xs| :: e == xs[k] && forall h | 0 <= h < k :: xs[h].None?
  {
    if xs == [] then None
    else if xs[0].Some? then xs[0]
    else
      var e := FirstSome(xs[1..]);
      assert forall k | 1 <= k < |xs| :: xs[1..][k - 1] == xs[k];
      if e.Some? then
        var k :| 0 <= k < |xs| - 1 && e == xs[1..][k] && forall h | 0 <= h < k :: xs[1..][h].None?;
        assert e == xs[k + 1];
        e
      else e
  }

  /** A dataset name with exactly one '/' has a path. */
  lemma PathOfTypedName(kind: string, name: string)
    requires '/' !in kind && '/' !in name
    ensures PathError(kind + "/" + name).None?
  {
    SplitCons(kind, name, '/');
    SplitNone(name, '/');
  }

  /** `split_datasets`, with `counted` standing for the lines counted in each
      dataset's file. Every distinct dataset lands in exactly one of the
      `numGroups` groups and no other name appears; the groups' totals are the
      sums of their datasets' counts and differ by at most the largest count.
      A dataset name without exactly one '/' makes `get_dataset_path` raise
      first, in list order; otherwise zero groups raise once there is a dataset
      to place. */
  method SplitDatasets(datasets: seq<string>, numGroups: nat, counted: string -> nat)
      returns (r: Result<seq<seq<string>>, string>, totals: seq<int>)
    ensures FirstPathError(datasets).Some? ==> r == Err(FirstPathError(datasets).value)
    ensures FirstPathError(datasets).None? ==> (r.Err? <==> numGroups == 0 && datasets != [])
    ensures FirstPathError(datasets).None? && r.Err? ==> r.error == EmptyMinMessage
    ensures r.Ok? ==>
      var d := DatasetCounts(datasets, counted);
      |r.value| == numGroups && |totals| == numGroups
      && (forall x :: multiset(Flatten(r.value))[x] == if x in datasets then 1 else 0)
      && Tallied(r.value, totals, d)
      && Balanced(totals, MaxCount(d))
  {
    totals := [];
    var bad := FirstPathError(datasets);
    if bad.Some? {
      return Err(bad.value), totals;
    }
    var d := DatasetCounts(datasets, counted);
    if numGroups == 0 {
      if datasets == [] {
        return Ok([]), totals;
      }
      return Err(EmptyMinMessage), totals;
    }
    var items := SortedCounts(d);
    forall k | 0 <= k < |items|
      ensures Get(d, items[k].0) == Some(items[k].1) && items[k].1 <= MaxCount(d)
    {
      assert items[k] in multiset(d);
      var j :| 0 <= j < |d| && d[j] == items[k];
      GetAt(d, j);
      MaxCountBounds(d, j);
    }
    var groups;
    groups, totals := Distribute(items, d, numGroups, MaxCount(d));
    forall x
      ensures multiset(Flatten(groups))[x] == if x in datasets then 1 else 0
    {
      NamesOfCounts(datasets, counted, items, x);
    }
    r := Ok(groups);
  }

  /** The largest count of a dictionary, 0 for an empty one. */
  function MaxCount(d: Dict<string, nat>): (m: nat)
    decreases |d|
  {
    if d == [] then 0
    else
      var m := MaxCount(d[..|d| - 1]);
      if d[|d| - 1].1 > m then d[|d| - 1].1 else m
  }

  lemma {:induction false} MaxCountBounds(d: Dict<string, nat>, j: nat)
    requires j < |d|
    ensures d[j].1 <= MaxCount(d)
    decreases |d|
  {
    if j < |d| - 1 {
      MaxCountBounds(d[..|d| - 1], j);
    }
  }

  /** The names of the sorted entries are the distinct datasets, once each. */
  lemma NamesOfCounts(datasets: seq<string>, counted: string -> nat, items: seq<(string, nat)>, x: string)
    requires multiset(items) == multiset(DatasetCounts(datasets, counted))
    ensures multiset(Names(items))[x] == if x in datasets then 1 else 0
  {
    var d := DatasetCounts(datasets, counted);
    var pairs := seq(|datasets|, i requires 0 <= i < |datasets| =>
      (datasets[i], DatasetCount(datasets[i], counted(datasets[i]))));
    MultisetNames(items, d);
    FromPairsKeys(pairs, x);
    assert x in Keys(pairs) <==> x in datasets by {
      if x in datasets {
        var i :| 0 <= i < |datasets| && datasets[i] == x;
        assert Keys(pairs)[i] == x;
      }
    }
    DistinctCount(Keys(d), x);
    assert x in Keys(d) <==> HasKey(d, x);
  }

  function Name(e: (string, nat)): string {
    e.0
  }

  lemma MultisetNames(items: seq<(string, nat)>, d: Dict<string, nat>)
    requires multiset(items) == multiset(d)
    ensures multiset(Names(items)) == multiset(Keys(d))
  {
    MapPermutation(items, d, Name);
    assert Names(items) == Map(items, Name);
    assert Keys(d) == Map(d, Name);
  }

  lemma DistinctCount(xs: seq<string>, x: string)
    requires Distinct(xs)
    ensures multiset(xs)[x] == if x in xs then 1 else 0
  {
    if xs != [] {
      var n := |xs| - 1;
      assert xs == xs[..n] + [xs[n]];
      assert Distinct(xs[..n]);
      DistinctCount(xs[..n], x);
    }
  }
}
