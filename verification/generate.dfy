/** `process_problems` of the response generator: resuming from an earlier output
    file, the queue of problems still to answer, the batches, the record each
    reply becomes, the count of consecutive failed batches that stops a run, and
    the statistics written to the metadata. The model's replies are an oracle. */
module Generate {
  import opened Wrappers
  import opened Text
  import opened Dicts
  import opened Seqs

  // ---------------------------------------------------------------------------
  // Resuming

  /** A record of an output file, as far as this code reads it: its `id`, `error`
      and `response` keys, each possibly absent. */
  datatype Record = Record(id: Option<string>, error: Option<string>, response: Option<string>)

  /** A record kept on resuming: it has an id and a response and no error. */
  predicate Resumable(r: Record) {
    r.id.Some? && r.error.None? && r.response.Some?
  }

  /** The assignments `existing_responses[item['id']] = item` of the resuming
      loop, in file order. */
  function ResumablePairs(items: seq<Record>): (ps: seq<(string, Record)>)
    ensures forall i | 0 <= i < |ps| :: Resumable(ps[i].1) && ps[i].1.id == Some(ps[i].0)
    ensures forall i | 0 <= i < |ps| :: ps[i].1 in items
    ensures forall k | 0 <= k < |items| && Resumable(items[k]) :: (items[k].id.value, items[k]) in ps
  {
    if items == [] then []
    else
      var rest := ResumablePairs(items[1..]);
      assert forall k | 1 <= k < |items| :: items[k] == items[1..][k - 1];
      if Resumable(items[0]) then [(items[0].id.value, items[0])] + rest else rest
  }

  /** `existing_responses`: the records of the earlier output, by id. `None` is a
      missing file, or one whose reading raised: the run starts from scratch. */
  function Kept(existing: Option<seq<Record>>): (d: Dict<string, Record>)
    ensures IsDict(d)
    ensures existing.None? ==> d == []
  {
    if existing.None? then [] else FromPairs(ResumablePairs(existing.value))
  }

  /** A problem is kept on resuming exactly when the earlier output holds a record
      for its id with a response and no error; a record with an error is never
      kept, so its problem is answered again. */
  lemma KeptRecords(items: seq<Record>, key: string)
    ensures HasKey(Kept(Some(items)), key) <==>
      exists k | 0 <= k < |items| :: Resumable(items[k]) && items[k].id == Some(key)
    ensures HasKey(Kept(Some(items)), key) ==>
      var r := Get(Kept(Some(items)), key).value; Resumable(r) && r.id == Some(key) && r in items
  {
    var ps := ResumablePairs(items);
    var d := FromPairs(ps);
    FromPairsKeys(ps, key);
    if HasKey(d, key) {
      var i :| 0 <= i < |ps| && Keys(ps)[i] == key;
      assert ps[i].1 in items;
      var k :| 0 <= k < |items| && items[k] == ps[i].1;
      assert Resumable(items[k]) && items[k].id == Some(key);
      var P := (e: (string, Record)) => Resumable(e.1) && e.1.id == Some(e.0) && e.1 in items;
      FromPairsAll(ps, P);
      var j := IndexOf(d, key);
      assert P(d[j]);
    }
    if exists k | 0 <= k < |items| :: Resumable(items[k]) && items[k].id == Some(key) {
      var k :| 0 <= k < |items| && Resumable(items[k]) && items[k].id == Some(key);
      var i :| 0 <= i < |ps| && ps[i] == (key, items[k]);
      assert Keys(ps)[i] == key;
    }
  }

  // ---------------------------------------------------------------------------
  // The queue

  /** A problem, as far as the queue reads it: its `id` key, possibly absent. */
  datatype Problem = Problem(id: Option<string>)

  /** `problem.get('id', f"problem_{idx}")`. */
  function ProblemId(p: Problem, idx: nat): string {
    p.id.GetOr("problem_" + NatToString(idx))
  }

  /** The problems from index `i` on that still need an answer, as
      `(problem id, index)`, in problem order. */
  function QueueFrom(problems: seq<Problem>, kept: Dict<string, Record>, i: nat): (q: seq<(string, nat)>)
    requires i <= |problems|
    ensures forall k | 0 <= k < |q| ::
      i <= q[k].1 < |problems| && q[k].0 == ProblemId(problems[q[k].1], q[k].1) && !HasKey(kept, q[k].0)
    ensures forall k, l | 0 <= k < l < |q| :: q[k].1 < q[l].1
    decreases |problems| - i
  {
    if i == |problems| then []
    else
      var rest := QueueFrom(problems, kept, i + 1);
      var id := ProblemId(problems[i], i);
      if HasKey(kept, id) then rest
      else [(id, i)] + rest
  }

  /** No problem that needs an answer is left out of the queue. */
  lemma {:induction false} QueueFromComplete(problems: seq<Problem>, kept: Dict<string, Record>, i: nat, j: nat)
    requires i <= j < |problems| && !HasKey(kept, ProblemId(problems[j], j))
    ensures exists k | 0 <= k < |QueueFrom(problems, kept, i)| :: QueueFrom(problems, kept, i)[k].1 == j
    decreases |problems| - i
  {
    var q := QueueFrom(problems, kept, i);
    var rest := QueueFrom(problems, kept, i + 1);
    if j == i {
      assert q[0].1 == j;
    } else {
      QueueFromComplete(problems, kept, i + 1, j);
      var k :| 0 <= k < |rest| && rest[k].1 == j;
      if HasKey(kept, ProblemId(problems[i], i)) {
        assert q[k].1 == j;
      } else {
        assert q[k + 1].1 == j;
      }
    }
  }

  /** The ids of the problems still to answer (`problem_ids`). */
  function Queue(problems: seq<Problem>, kept: Dict<string, Record>): (ids: seq<string>)
    ensures forall k | 0 <= k < |ids| :: !HasKey(kept, ids[k])
  {
    var q := QueueFrom(problems, kept, 0);
    seq(|q|, k requires 0 <= k < |q| => q[k].0)
  }

  /** Every problem is either kept from the earlier output or queued, never both:
      a problem's id is queued exactly when it is not kept. */
  lemma QueuedUnlessKept(problems: seq<Problem>, kept: Dict<string, Record>, j: nat)
    requires j < |problems|
    ensures ProblemId(problems[j], j) in Queue(problems, kept) <==> !HasKey(kept, ProblemId(problems[j], j))
  {
    var q := QueueFrom(problems, kept, 0);
    var ids := Queue(problems, kept);
    if !HasKey(kept, ProblemId(problems[j], j)) {
      QueueFromComplete(problems, kept, 0, j);
      var k :| 0 <= k < |q| && q[k].1 == j;
      assert ids[k] == ProblemId(problems[j], j);
    }
  }

  // ---------------------------------------------------------------------------
  // Batches

  /** `num_batches = (len(questions_data) + batch_size - 1) // batch_size`; `None`
      is the `ZeroDivisionError` a batch size of 0 raises. */
  function NumBatches(n: nat, size: nat): (m: Option<nat>)
    ensures m.Some? <==> size > 0
    ensures m.Some? ==> m.value * size >= n
    ensures m.Some? && m.value > 0 ==> (m.value - 1) * size < n
    ensures m.Some? ==> (m.value == 0 <==> n == 0)
  {
    if size == 0 then None
    else
      var q := (n + size - 1) / size;
      var r := (n + size - 1) % size;
      assert q * size + r == n + size - 1;
      assert q > 0 ==> (q - 1) * size == q * size - size;
      Some(q)
  }

  /** How many queued problems the first `b` batches hold. */
  function Done(b: nat, size: nat, n: nat): (d: nat)
    ensures d <= n
  {
    if b * size < n then b * size else n
  }

  /** Batch `b` starts at `b * size` and ends `size` further on or at the end of
      the queue; it is never empty and never longer than `size`. */
  lemma BatchBounds(n: nat, size: nat, m: nat, b: nat)
    requires NumBatches(n, size) == Some(m) && b < m
    ensures Done(b, size, n) == b * size < n
    ensures Done(b + 1, size, n) == if b * size + size < n then b * size + size else n
    ensures Done(b, size, n) < Done(b + 1, size, n) <= Done(b, size, n) + size
  {
    BatchMulLe(b, m - 1, size);
    BatchMulSucc(b, size);
  }

  lemma BatchMulLe(a: nat, c: nat, k: nat)
    requires a <= c
    ensures a * k <= c * k
  {
    assert c * k == a * k + (c - a) * k;
  }

  lemma BatchMulSucc(a: nat, k: nat)
    ensures (a + 1) * k == a * k + k
  {
  }

  /** All `m` batches together hold the whole queue. */
  lemma BatchesDone(n: nat, size: nat, m: nat)
    requires NumBatches(n, size) == Some(m)
    ensures Done(m, size, n) == n
  {
  }

  /** `problem_ids[start_idx:end_idx]` of batch `b`. */
  function BatchIds(queue: seq<string>, size: nat, b: nat): seq<string> {
    queue[Done(b, size, |queue|)..Done(b + 1, size, |queue|)]
  }

  /** The batches from `b` on, one after the other. */
  function BatchesFrom(queue: seq<string>, size: nat, m: nat, b: nat): (bs: seq<seq<string>>)
    requires b <= m
    ensures |bs| == m - b
    decreases m - b
  {
    if b == m then [] else [BatchIds(queue, size, b)] + BatchesFrom(queue, size, m, b + 1)
  }

  /** The batches partition the queue: read one after the other they give back
      the queue, and each holds between 1 and `size` problems. */
  lemma {:induction false} BatchesPartition(queue: seq<string>, size: nat, m: nat, b: nat)
    requires NumBatches(|queue|, size) == Some(m) && b <= m
    ensures Flatten(BatchesFrom(queue, size, m, b)) == queue[Done(b, size, |queue|)..]
    ensures forall c | 0 <= c < m - b :: 1 <= |BatchesFrom(queue, size, m, b)[c]| <= size
    decreases m - b
  {
    var n := |queue|;
    if b == m {
      BatchesDone(n, size, m);
    } else {
      BatchBounds(n, size, m, b);
      BatchesPartition(queue, size, m, b + 1);
      var bs := BatchesFrom(queue, size, m, b);
      assert bs == [BatchIds(queue, size, b)] + BatchesFrom(queue, size, m, b + 1);
      FlattenCons(BatchIds(queue, size, b), BatchesFrom(queue, size, m, b + 1));
      assert queue[Done(b, size, n)..] == BatchIds(queue, size, b) + queue[Done(b + 1, size, n)..];
      forall c | 0 <= c < m - b
        ensures 1 <= |bs[c]| <= size
      {
        if c > 0 {
          assert bs[c] == BatchesFrom(queue, size, m, b + 1)[c - 1];
        }
      }
    }
  }

  // ---------------------------------------------------------------------------
  // Replies and records

  /** What the model gives for one problem: its `error` and `content` keys, each
      possibly absent. A call that raises gives a reply whose error is the
      exception's text. */
  datatype Reply = Reply(error: Option<string>, content: Option<string>)

  const NoResultMessage: string := "No result returned"

  /** The reply a batch with too few results is padded with. */
  const Placeholder: Reply := Reply(Some(NoResultMessage), Some("Error: " + NoResultMessage))

  const NoContent: string := "Error: No content returned"

  /** The batch's results padded with placeholders or truncated to one per
      problem of the batch. */
  function Fit(replies: seq<Reply>, k: nat): (r: seq<Reply>)
    ensures |r| == k
    ensures forall i | 0 <= i < k :: r[i] == if i < |replies| then replies[i] else Placeholder
  {
    if |replies| < k then replies + seq(k - |replies|, _ => Placeholder) else replies[..k]
  }

  /** Fitting is needed only once: fitted results are left alone, and a batch
      that returned one result per problem is used as returned. */
  lemma FitStable(replies: seq<Reply>, k: nat)
    ensures Fit(Fit(replies, k), k) == Fit(replies, k)
    ensures |replies| == k ==> Fit(replies, k) == replies
  {
  }

  /** The record a reply becomes for problem `id`: an error reply keeps its
      error and any content as the response; any other reply is a response, with
      a stand-in text when it has no content. */
  function ToRecord(id: string, reply: Reply): (r: Record)
    ensures r.id == Some(id)
    ensures r.error == reply.error
    ensures reply.error.Some? ==> r.response == reply.content
    ensures reply.error.None? ==> r.response.Some?
  {
    if reply.error.Some? then Record(Some(id), reply.error, reply.content)
    else Record(Some(id), None, Some(reply.content.GetOr(NoContent)))
  }

  /** A new record is kept by the next resumed run exactly when its reply had
      no error. */
  lemma RecordResumableIffNoError(id: string, reply: Reply)
    ensures Resumable(ToRecord(id, reply)) <==> reply.error.None?
  {
  }

  /** One record per problem id, from the replies in order. */
  function Records(ids: seq<string>, replies: seq<Reply>): (rs: seq<Record>)
    requires |replies| == |ids|
    ensures |rs| == |ids|
    ensures forall k | 0 <= k < |ids| :: rs[k] == ToRecord(ids[k], replies[k])
  {
    seq(|ids|, k requires 0 <= k < |ids| => ToRecord(ids[k], replies[k]))
  }

  const BatchFailedPrefix: string := "Batch processing failed: "

  /** The records of a batch whose call raised `e`, with the fallback disabled. */
  function FailedBatch(ids: seq<string>, e: string): (rs: seq<Record>)
    ensures |rs| == |ids|
    ensures forall k | 0 <= k < |ids| :: rs[k].id == Some(ids[k]) && rs[k].error == Some(BatchFailedPrefix + e)
  {
    seq(|ids|, k requires 0 <= k < |ids| => Record(Some(ids[k]), Some(BatchFailedPrefix + e), None))
  }

  /** `all('error' in resp for resp in batch_responses)`: true of no records. */
  predicate AllFailed(rs: seq<Record>) {
    forall k | 0 <= k < |rs| :: rs[k].error.Some?
  }

  // ---------------------------------------------------------------------------
  // One batch

  const MaxConsecutiveFailures: nat := 4

  /** The termination rule: four consecutive failed batches, within the first
      four batches. */
  predicate Terminates(failures: nat, b: nat) {
    failures >= MaxConsecutiveFailures && b < MaxConsecutiveFailures
  }

  /** The count grows by at most one per batch, so the rule can fire only at the
      fourth batch (index 3), on exactly four consecutive failures. */
  lemma TerminatesOnlyAtFourth(failures: nat, b: nat)
    requires failures <= b + 1
    ensures Terminates(failures, b) <==> b == 3 && failures == 4
  {
  }

  function TerminationMessage(failures: nat): string {
    "Terminating after " + NatToString(failures) + " consecutive batch failures. The model appears to be consistently failing."
  }

  /** What the model does with batch `b`: the batch call's results or the text of
      the exception it raises, and the reply of the individual call for the
      batch's `k`-th problem should the run fall back to those. */
  datatype Outcome = Outcome(batch: Result<seq<Reply>, string>, individual: nat -> Reply)

  /** The records so far and the count of consecutive failed batches. */
  datatype Run = Run(responses: seq<Record>, failures: nat)

  /** After a batch: the run goes on, or a `RuntimeError` stops it. */
  datatype BatchEnd = Continue(run: Run) | Stop(message: string, run: Run)

  /** The records of a batch appended, and the consecutive-failure count
      updated: one more when every record of the batch failed, 0 otherwise. */
  function Tally(run: Run, rs: seq<Record>, b: nat): (s: BatchEnd)
    ensures s.run.responses == run.responses + rs
    ensures s.run.failures == if AllFailed(rs) then run.failures + 1 else 0
    ensures s.Stop? <==> Terminates(s.run.failures, b)
    ensures s.Stop? ==> s.message == TerminationMessage(s.run.failures)
  {
    var all := run.responses + rs;
    if AllFailed(rs) then
      var c := run.failures + 1;
      if Terminates(c, b) then Stop(TerminationMessage(c), Run(all, c)) else Continue(Run(all, c))
    else Continue(Run(all, 0))
  }

  function Individual(ids: seq<string>, outcome: Outcome): (rs: seq<Record>)
    ensures |rs| == |ids|
  {
    Records(ids, seq(|ids|, k requires 0 <= k < |ids| => outcome.individual(k)))
  }

  /** The `except` branch: error records for the whole batch when the fallback
      is disabled, otherwise one individual call per problem. */
  function Recover(run: Run, ids: seq<string>, outcome: Outcome, e: string, b: nat, noFallback: bool): (s: BatchEnd)
    ensures |s.run.responses| == |run.responses| + |ids|
    ensures s.run.responses[..|run.responses|] == run.responses
    ensures forall k | 0 <= k < |ids| :: s.run.responses[|run.responses| + k].id == Some(ids[k])
    ensures s.run.failures == if AllFailed(s.run.responses[|run.responses|..]) then run.failures + 1 else 0
    ensures s.Stop? <==> Terminates(s.run.failures, b)
    ensures s.Stop? ==> s.message == TerminationMessage(s.run.failures)
  {
    var rs := Recovered(ids, outcome, e, noFallback);
    TallyAppends(run, rs, ids, b);
    Tally(run, rs, b)
  }

  /** The records the `except` branch makes: the batch's error for every problem
      with the fallback disabled, otherwise each problem's individual reply. */
  function Recovered(ids: seq<string>, outcome: Outcome, e: string, noFallback: bool): (rs: seq<Record>)
    ensures |rs| == |ids| && forall k | 0 <= k < |ids| :: rs[k].id == Some(ids[k])
  {
    if noFallback then FailedBatch(ids, e) else Individual(ids, outcome)
  }

  /** Tallying one record per problem of the batch appends them after the run's
      records, in order, and counts the failure from those records alone. */
  lemma TallyAppends(run: Run, rs: seq<Record>, ids: seq<string>, b: nat)
    requires |rs| == |ids| && forall k | 0 <= k < |ids| :: rs[k].id == Some(ids[k])
    ensures var s := Tally(run, rs, b);
      |s.run.responses| == |run.responses| + |ids|
      && s.run.responses[..|run.responses|] == run.responses
      && (forall k | 0 <= k < |ids| :: s.run.responses[|run.responses| + k].id == Some(ids[k]))
      && s.run.failures == (if AllFailed(s.run.responses[|run.responses|..]) then run.failures + 1 else 0)
  {
    var s := Tally(run, rs, b);
    assert s.run.responses[|run.responses|..] == rs;
    assert s.run.responses[..|run.responses|] == run.responses;
  }

  /** One batch as the source runs it. The `RuntimeError` that should end the run
      is raised inside the `try` and caught by its own `except`, which handles the
      batch a second time. The batch is recorded once or twice, its first records
      name its problems in order, the count can grow by two only on the way to a
      stop, and the step is the intended one whenever the intended one goes on. */
  function StepAsWritten(run: Run, ids: seq<string>, outcome: Outcome, b: nat, noFallback: bool): (s: BatchEnd)
    ensures |s.run.responses| == |run.responses| + |ids| || |s.run.responses| == |run.responses| + 2 * |ids|
    ensures s.run.responses[..|run.responses|] == run.responses
    ensures forall k | 0 <= k < |ids| :: s.run.responses[|run.responses| + k].id == Some(ids[k])
    ensures s.Stop? <==> Terminates(s.run.failures, b)
    ensures s.Stop? ==> s.message == TerminationMessage(s.run.failures)
    ensures s.run.failures == 0 || s.run.failures == run.failures + 1
            || (s.Stop? && s.run.failures == run.failures + 2)
  {
    var s := Step(run, ids, outcome, b, noFallback);
    if outcome.batch.Ok? && s.Stop? then
      var t := Recover(s.run, ids, outcome, s.message, b, noFallback);
      SecondRecordsKeepFirst(run.responses, s.run.responses, t.run.responses, ids);
      t
    else s
  }

  /** The step as written is the intended step whenever the intended one goes on. */
  lemma AsWrittenAgreesOnContinue(run: Run, ids: seq<string>, outcome: Outcome, b: nat, noFallback: bool)
    ensures Step(run, ids, outcome, b, noFallback).Continue? ==>
      StepAsWritten(run, ids, outcome, b, noFallback) == Step(run, ids, outcome, b, noFallback)
  {
  }

  /** Records appended after the batch's first records leave those in place. */
  lemma SecondRecordsKeepFirst(r0: seq<Record>, r1: seq<Record>, r2: seq<Record>, ids: seq<string>)
    requires |r1| == |r0| + |ids| && r1[..|r0|] == r0
    requires forall k | 0 <= k < |ids| :: r1[|r0| + k].id == Some(ids[k])
    requires |r2| == |r1| + |ids| && r2[..|r1|] == r1
    ensures r2[..|r0|] == r0
    ensures forall k | 0 <= k < |ids| :: r2[|r0| + k].id == Some(ids[k])
  {
    assert r2[..|r0|] == r2[..|r1|][..|r0|];
    forall k | 0 <= k < |ids| ensures r2[|r0| + k].id == Some(ids[k]) {
      assert r2[|r0| + k] == r2[..|r1|][|r0| + k];
    }
  }

  /** One batch, with the termination leaving the `try` as intended: every
      problem of the batch gets exactly one record, in order; the count grows by
      one when all of them failed and is 0 otherwise; the run stops exactly when
      the termination rule holds. */
  function Step(run: Run, ids: seq<string>, outcome: Outcome, b: nat, noFallback: bool): (s: BatchEnd)
    ensures |s.run.responses| == |run.responses| + |ids|
    ensures s.run.responses[..|run.responses|] == run.responses
    ensures forall k | 0 <= k < |ids| :: s.run.responses[|run.responses| + k].id == Some(ids[k])
    ensures s.run.failures == if AllFailed(s.run.responses[|run.responses|..]) then run.failures + 1 else 0
    ensures s.Stop? <==> Terminates(s.run.failures, b)
    ensures s.Stop? ==> s.message == TerminationMessage(s.run.failures)
  {
    match outcome.batch
    case Err(e) => Recover(run, ids, outcome, e, b, noFallback)
    case Ok(replies) =>
      var rs := Records(ids, Fit(replies, |ids|));
      var s := Tally(run, rs, b);
      assert s.run.responses[|run.responses|..] == rs;
      s
  }

  /** As written, a batch whose results all failed and which reaches the
      termination rule is recorded twice: every problem of the batch gets one
      record from the batch call and another from the `except` branch. */
  lemma AsWrittenRecordsBatchTwice(run: Run, ids: seq<string>, outcome: Outcome, b: nat, noFallback: bool)
    requires outcome.batch.Ok?
    requires AllFailed(Records(ids, Fit(outcome.batch.value, |ids|)))
    requires Terminates(run.failures + 1, b)
    ensures IdsOf(StepAsWritten(run, ids, outcome, b, noFallback).run.responses)
      == IdsOf(run.responses) + Named(ids) + Named(ids)
  {
    var rs := Records(ids, Fit(outcome.batch.value, |ids|));
    var again := Recovered(ids, outcome, TerminationMessage(run.failures + 1), noFallback);
    AsWrittenResponses(run, ids, outcome, b, noFallback);
    IdsOfAppend(run.responses + rs, again);
    IdsOfAppend(run.responses, rs);
    IdsOfNamed(rs, ids);
    IdsOfNamed(again, ids);
  }

  /** The ids of a run's records, in order. */
  function IdsOf(rs: seq<Record>): (r: seq<Option<string>>)
    ensures |r| == |rs| && forall k | 0 <= k < |rs| :: r[k] == rs[k].id
  {
    seq(|rs|, k requires 0 <= k < |rs| => rs[k].id)
  }

  /** One record id per problem id. */
  function Named(ids: seq<string>): (r: seq<Option<string>>)
    ensures |r| == |ids| && forall k | 0 <= k < |ids| :: r[k] == Some(ids[k])
  {
    seq(|ids|, k requires 0 <= k < |ids| => Some(ids[k]))
  }

  lemma IdsOfAppend(a: seq<Record>, c: seq<Record>)
    ensures IdsOf(a + c) == IdsOf(a) + IdsOf(c)
  {
    assert forall k | 0 <= k < |a + c| :: IdsOf(a + c)[k] == (IdsOf(a) + IdsOf(c))[k];
  }

  lemma IdsOfNamed(rs: seq<Record>, ids: seq<string>)
    requires |rs| == |ids| && forall k | 0 <= k < |ids| :: rs[k].id == Some(ids[k])
    ensures IdsOf(rs) == Named(ids)
  {
  }

  /** The records a batch that fails and terminates leaves, as written: the
      batch's records, then the `except` branch's. */
  lemma AsWrittenResponses(run: Run, ids: seq<string>, outcome: Outcome, b: nat, noFallback: bool)
    requires outcome.batch.Ok?
    requires AllFailed(Records(ids, Fit(outcome.batch.value, |ids|)))
    requires Terminates(run.failures + 1, b)
    ensures StepAsWritten(run, ids, outcome, b, noFallback).run.responses
      == run.responses + Records(ids, Fit(outcome.batch.value, |ids|))
        + Recovered(ids, outcome, TerminationMessage(run.failures + 1), noFallback)
  {
    var s := Tally(run, Records(ids, Fit(outcome.batch.value, |ids|)), b);
    assert s.Stop? && s.message == TerminationMessage(run.failures + 1);
  }

  /** The fourth failed batch with the fallback enabled, as written: the
      termination is caught, the problem is answered again individually, and the
      run goes on with two records for the problem; the intended step stops. */
  lemma StopSwallowedByFallback(p: string, e: string, answer: string, outcome: Outcome)
    requires outcome.batch == Ok([Reply(Some(e), None)])
    requires outcome.individual(0) == Reply(None, Some(answer))
    ensures
      var failed := Record(Some(p), Some(e), None);
      StepAsWritten(Run([], 3), [p], outcome, 3, false)
        == Continue(Run([failed, Record(Some(p), None, Some(answer))], 0))
      && Step(Run([], 3), [p], outcome, 3, false) == Stop(TerminationMessage(4), Run([failed], 4))
  {
    SwallowedStepContinues(p, e, answer, outcome);
    var _ := FourthFailure(p, e, outcome);
  }

  lemma SwallowedStepContinues(p: string, e: string, answer: string, outcome: Outcome)
    requires outcome.batch == Ok([Reply(Some(e), None)])
    requires outcome.individual(0) == Reply(None, Some(answer))
    ensures StepAsWritten(Run([], 3), [p], outcome, 3, false)
      == Continue(Run([Record(Some(p), Some(e), None), Record(Some(p), None, Some(answer))], 0))
  {
    FourthFailureCaught(p, e, outcome);
    AnsweredAfterFourth(p, e, answer, outcome);
  }

  /** The fourth failure as written: the `except` branch takes the stopped run. */
  lemma FourthFailureCaught(p: string, e: string, outcome: Outcome)
    requires outcome.batch == Ok([Reply(Some(e), None)])
    ensures StepAsWritten(Run([], 3), [p], outcome, 3, false)
      == Recover(Run([Record(Some(p), Some(e), None)], 4), [p], outcome, TerminationMessage(4), 3, false)
  {
    var _ := FourthFailure(p, e, outcome);
    AsWrittenOnStop(Run([], 3), [p], outcome, 3, false);
  }

  /** The `except` branch after the fourth failure, the individual call answering. */
  lemma AnsweredAfterFourth(p: string, e: string, answer: string, outcome: Outcome)
    requires outcome.individual(0) == Reply(None, Some(answer))
    ensures Recover(Run([Record(Some(p), Some(e), None)], 4), [p], outcome, TerminationMessage(4), 3, false)
      == Continue(Run([Record(Some(p), Some(e), None), Record(Some(p), None, Some(answer))], 0))
  {
    var failed := Record(Some(p), Some(e), None);
    var _ := AnsweredAgain(Run([failed], 4), p, answer, outcome, TerminationMessage(4));
    assert [failed] + [Record(Some(p), None, Some(answer))] == [failed, Record(Some(p), None, Some(answer))];
  }

  /** Where the intended step stops after a batch call that returned, the step
      as written takes the `except` branch on the stopped run. */
  lemma AsWrittenOnStop(run: Run, ids: seq<string>, outcome: Outcome, b: nat, noFallback: bool)
    requires outcome.batch.Ok? && Step(run, ids, outcome, b, noFallback).Stop?
    ensures var s := Step(run, ids, outcome, b, noFallback);
      StepAsWritten(run, ids, outcome, b, noFallback) == Recover(s.run, ids, outcome, s.message, b, noFallback)
  {
  }

  /** The fallback answering the problem again after a failure. */
  lemma AnsweredAgain(run: Run, p: string, answer: string, outcome: Outcome, message: string) returns (t: BatchEnd)
    requires outcome.individual(0) == Reply(None, Some(answer))
    ensures t == Recover(run, [p], outcome, message, 3, false)
    ensures t == Continue(Run(run.responses + [Record(Some(p), None, Some(answer))], 0))
  {
    var again := Recovered([p], outcome, message, false);
    assert again == [Record(Some(p), None, Some(answer))];
    assert !AllFailed(again) by { assert again[0].error.None?; }
    t := Tally(run, again, 3);
    assert t.Continue? && t.run.failures == 0;
  }

  /** The fourth consecutive failure: the batch of one problem whose reply is
      an error. */
  lemma FourthFailure(p: string, e: string, outcome: Outcome) returns (s: BatchEnd)
    requires outcome.batch == Ok([Reply(Some(e), None)])
    ensures s == Tally(Run([], 3), Records([p], Fit([Reply(Some(e), None)], 1)), 3)
    ensures s == Stop(TerminationMessage(4), Run([Record(Some(p), Some(e), None)], 4))
    ensures Step(Run([], 3), [p], outcome, 3, false) == s
    ensures Step(Run([], 3), [p], outcome, 3, true) == s
  {
    var reply := Reply(Some(e), None);
    assert Fit([reply], 1) == [reply];
    var rs := Records([p], [reply]);
    assert rs == [Record(Some(p), Some(e), None)];
    s := Tally(Run([], 3), rs, 3);
  }

  /** The fourth failed batch with the fallback disabled, as written: the
      termination is caught, the batch is recorded a second time as failed, and
      the run stops reporting five consecutive failures instead of four. */
  lemma StopRecountedWithoutFallback(p: string, e: string, outcome: Outcome)
    requires outcome.batch == Ok([Reply(Some(e), None)])
    ensures
      var s := StepAsWritten(Run([], 3), [p], outcome, 3, true);
      s.Stop? && s.run.failures == 5 && s.message == TerminationMessage(5) && |s.run.responses| == 2
  {
    var s := FourthFailure(p, e, outcome);
    var again := Recovered([p], outcome, s.message, true);
    assert Recover(s.run, [p], outcome, s.message, 3, true) == Tally(s.run, again, 3);
  }

  // ---------------------------------------------------------------------------
  // The batch loop

  /** The run from batch `b` on, with the step that ended it and that step's
      batch (`m` when every batch ran). */
  function ProcessFrom(queue: seq<string>, size: nat, m: nat, outcomes: nat -> Outcome, noFallback: bool, b: nat, run: Run): (r: (BatchEnd, nat))
    requires NumBatches(|queue|, size) == Some(m) && b <= m
    ensures b <= r.1 <= m
    ensures r.0.Continue? <==> r.1 == m
    decreases m - b
  {
    if b == m then (Continue(run), m)
    else
      var s := Step(run, BatchIds(queue, size, b), outcomes(b), b, noFallback);
      if s.Stop? then (s, b) else ProcessFrom(queue, size, m, outcomes, noFallback, b + 1, s.run)
  }

  /** `responses` holds the records `start`, then one record for each of the
      first `count` queued problems, in queue order. */
  predicate Covers(responses: seq<Record>, start: seq<Record>, queue: seq<string>, count: nat) {
    count <= |queue| && |responses| == |start| + count && responses[..|start|] == start
    && forall k | 0 <= k < count :: responses[|start| + k].id == Some(queue[k])
  }

  /** Every record after the first `from` records made after `start` failed. */
  predicate FailedFrom(responses: seq<Record>, start: nat, from: nat) {
    forall k | start + from <= k < |responses| :: responses[k].error.Some?
  }

  /** The state of the loop before batch `b`: the first `b` batches have their
      records, and the batches counted as consecutive failures made only failed
      records. */
  predicate Progress(queue: seq<string>, size: nat, start: seq<Record>, b: nat, run: Run) {
    Covers(run.responses, start, queue, Done(b, size, |queue|))
    && run.failures <= b
    && FailedFrom(run.responses, |start|, Done(b - run.failures, size, |queue|))
  }

  lemma CoversStep(queue: seq<string>, size: nat, m: nat, start: seq<Record>, b: nat, run: Run, s: BatchEnd)
    requires NumBatches(|queue|, size) == Some(m) && b < m
    requires Covers(run.responses, start, queue, Done(b, size, |queue|))
    requires |s.run.responses| == |run.responses| + |BatchIds(queue, size, b)|
    requires s.run.responses[..|run.responses|] == run.responses
    requires forall k | 0 <= k < |BatchIds(queue, size, b)| ::
      s.run.responses[|run.responses| + k].id == Some(BatchIds(queue, size, b)[k])
    ensures Covers(s.run.responses, start, queue, Done(b + 1, size, |queue|))
  {
    var n := |queue|;
    BatchBounds(n, size, m, b);
    var ids := BatchIds(queue, size, b);
    var rs := s.run.responses;
    var len := |run.responses|;
    forall k | 0 <= k < Done(b + 1, size, n)
      ensures rs[|start| + k].id == Some(queue[k])
    {
      if k < Done(b, size, n) {
        assert rs[|start| + k] == rs[..len][|start| + k];
      } else {
        assert ids[k - Done(b, size, n)] == queue[k];
      }
    }
    assert rs[..|start|] == rs[..len][..|start|];
  }

  lemma FailedStepFrom(len: nat, from: nat, run: Run, s: BatchEnd)
    requires len + from <= |run.responses| <= |s.run.responses|
    requires s.run.responses[..|run.responses|] == run.responses
    requires FailedFrom(run.responses, len, from)
    requires AllFailed(s.run.responses[|run.responses|..])
    ensures FailedFrom(s.run.responses, len, from)
  {
    var old_len := |run.responses|;
    forall k | len + from <= k < |s.run.responses|
      ensures s.run.responses[k].error.Some?
    {
      if k < old_len {
        assert s.run.responses[k] == s.run.responses[..old_len][k];
      } else {
        assert s.run.responses[k] == s.run.responses[old_len..][k - old_len];
      }
    }
  }

  /** One batch keeps the loop's state, and the termination rule can only fire at
      the fourth batch, after four failed batches. */
  lemma StepProgress(queue: seq<string>, size: nat, m: nat, start: seq<Record>, b: nat, run: Run, outcome: Outcome, noFallback: bool)
    requires NumBatches(|queue|, size) == Some(m) && b < m
    requires Progress(queue, size, start, b, run)
    ensures var s := Step(run, BatchIds(queue, size, b), outcome, b, noFallback);
      && (s.Continue? ==> Progress(queue, size, start, b + 1, s.run))
      && (s.Stop? ==>
        b == 3 && s.run.failures == 4 && s.message == TerminationMessage(4)
        && Covers(s.run.responses, start, queue, Done(4, size, |queue|))
        && FailedFrom(s.run.responses, |start|, 0))
  {
    var n := |queue|;
    var s := Step(run, BatchIds(queue, size, b), outcome, b, noFallback);
    CoversStep(queue, size, m, start, b, run, s);
    if s.run.failures > 0 {
      FailedStepFrom(|start|, Done(b - run.failures, size, n), run, s);
      assert b + 1 - s.run.failures == b - run.failures;
    }
  }

  /** How a run can end: a run that goes through gave every queued problem
      exactly one record, in queue order, after the kept records; a run that
      stops did so at the fourth batch, after four failed batches, every record
      it made failed, and it answered exactly the first four batches. */
  predicate RunEnded(queue: seq<string>, size: nat, start: seq<Record>, s: BatchEnd, last: nat) {
    (s.Continue? ==> Covers(s.run.responses, start, queue, |queue|))
    && (s.Stop? ==>
      last == 3 && s.run.failures == 4 && s.message == TerminationMessage(4)
      && Covers(s.run.responses, start, queue, Done(4, size, |queue|))
      && FailedFrom(s.run.responses, |start|, 0))
  }

  /** The batch loop. A run that goes through gives every queued problem exactly
      one record, in queue order, after the kept records. A run can only stop
      at the fourth batch, after four failed batches: every record it made
      failed, and it answered exactly the first four batches. */
  method ProcessBatches(queue: seq<string>, size: nat, outcomes: nat -> Outcome, noFallback: bool, start: seq<Record>)
      returns (s: BatchEnd, last: nat)
    requires size > 0
    ensures (s, last) == ProcessFrom(queue, size, NumBatches(|queue|, size).value, outcomes, noFallback, 0, Run(start, 0))
    ensures RunEnded(queue, size, start, s, last)
  {
    var m := NumBatches(|queue|, size).value;
    ProcessFromProgress(queue, size, m, outcomes, noFallback, start, 0, Run(start, 0));
    s, last := BatchLoop(queue, size, m, outcomes, noFallback, start);
  }

  /** The `for` loop over the batches, left at the first step that stops. */
  method BatchLoop(queue: seq<string>, size: nat, m: nat, outcomes: nat -> Outcome, noFallback: bool, start: seq<Record>)
      returns (s: BatchEnd, last: nat)
    requires NumBatches(|queue|, size) == Some(m)
    ensures (s, last) == ProcessFrom(queue, size, m, outcomes, noFallback, 0, Run(start, 0))
  {
    var run := Run(start, 0);
    var b := 0;
    while b < m
      invariant b <= m
      invariant ProcessFrom(queue, size, m, outcomes, noFallback, b, run)
        == ProcessFrom(queue, size, m, outcomes, noFallback, 0, Run(start, 0))
    {
      var step := Step(run, BatchIds(queue, size, b), outcomes(b), b, noFallback);
      if step.Stop? {
        s, last := step, b;
        return;
      }
      run := step.run;
      b := b + 1;
    }
    s, last := Continue(run), m;
  }

  /** The run from a batch whose state the loop keeps: it covers the rest of the
      queue when it goes through, and stops only as the termination rule allows. */
  lemma {:induction false} ProcessFromProgress(queue: seq<string>, size: nat, m: nat, outcomes: nat -> Outcome,
                                               noFallback: bool, start: seq<Record>, b: nat, run: Run)
    requires NumBatches(|queue|, size) == Some(m) && b <= m
    requires Progress(queue, size, start, b, run)
    ensures var r := ProcessFrom(queue, size, m, outcomes, noFallback, b, run);
      RunEnded(queue, size, start, r.0, r.1)
    decreases m - b
  {
    if b == m {
      BatchesDone(|queue|, size, m);
    } else {
      StepProgress(queue, size, m, start, b, run, outcomes(b), noFallback);
      var s := Step(run, BatchIds(queue, size, b), outcomes(b), b, noFallback);
      if s.Continue? {
        ProcessFromProgress(queue, size, m, outcomes, noFallback, start, b + 1, s.run);
      }
    }
  }

  // ---------------------------------------------------------------------------
  // The batch loop as the source runs it

  /** `responses` holds the records `start`, then records among which the one at
      `at[k]` is for the `k`-th queued problem. */
  predicate Answered(responses: seq<Record>, start: seq<Record>, queue: seq<string>, at: seq<nat>) {
    |at| <= |queue| && |start| + |at| <= |responses|
    && (forall i | 0 <= i < |start| :: responses[i] == start[i])
    && forall k | 0 <= k < |at| :: |start| <= at[k] < |responses| && responses[at[k]].id == Some(queue[k])
  }

  /** The indices `from`, `from + 1`, ... of `n` consecutive records. */
  function Indices(from: nat, n: nat): (r: seq<nat>)
    ensures |r| == n && forall i | 0 <= i < n :: r[i] == from + i
  {
    seq(n, i requires 0 <= i < n => from + i)
  }

  /** Records for the problems `queue[|at|..e]`, in order after those of `run`,
      extend the answered part of the queue to `e`. */
  lemma AnsweredExtends(queue: seq<string>, start: seq<Record>, at: seq<nat>, e: nat, ids: seq<string>, run: Run, s: BatchEnd)
    requires |at| <= e <= |queue| && ids == queue[|at|..e]
    requires Answered(run.responses, start, queue, at)
    requires |run.responses| + |ids| <= |s.run.responses|
    requires s.run.responses[..|run.responses|] == run.responses
    requires forall k | 0 <= k < |ids| :: s.run.responses[|run.responses| + k].id == Some(ids[k])
    ensures Answered(s.run.responses, start, queue, at + Indices(|run.responses|, |ids|))
  {
    var rs := s.run.responses;
    var len := |run.responses|;
    var d := |at|;
    var at' := at + Indices(len, |ids|);
    forall k | 0 <= k < |at'|
      ensures |start| <= at'[k] < |rs| && rs[at'[k]].id == Some(queue[k])
    {
      if k < d {
        assert at'[k] == at[k];
        assert rs[at[k]] == rs[..len][at[k]];
      } else {
        assert at'[k] == len + (k - d);
        assert ids[k - d] == queue[k];
      }
    }
    forall i | 0 <= i < |start|
      ensures rs[i] == start[i]
    {
      assert rs[i] == rs[..len][i];
    }
  }

  /** One pass of the loop body as written: the batch `queue[|at|..e]`, `size`
      problems or the rest of the queue, is taken by `StepAsWritten`, and every
      problem of the queue up to its end has a record. */
  method BatchAsWritten(queue: seq<string>, size: nat, start: seq<Record>, b: nat, at: seq<nat>, run: Run,
                        outcome: Outcome, noFallback: bool)
      returns (step: BatchEnd, at': seq<nat>)
    requires size > 0 && |at| < |queue|
    requires Answered(run.responses, start, queue, at)
    requires run.failures < MaxConsecutiveFailures || b >= MaxConsecutiveFailures
    ensures |at'| == if |at| + size < |queue| then |at| + size else |queue|
    ensures step == StepAsWritten(run, queue[|at|..|at'|], outcome, b, noFallback)
    ensures Answered(step.run.responses, start, queue, at')
    ensures step.Continue? ==> step.run.failures < MaxConsecutiveFailures || b + 1 >= MaxConsecutiveFailures
    ensures step.Stop? ==> b < MaxConsecutiveFailures && (step.run.failures == 4 || step.run.failures == 5)
                           && step.message == TerminationMessage(step.run.failures)
  {
    var e := if |at| + size < |queue| then |at| + size else |queue|;
    var ids := queue[|at|..e];
    step := StepAsWritten(run, ids, outcome, b, noFallback);
    at' := at + Indices(|run.responses|, |ids|);
    assert Answered(step.run.responses, start, queue, at') by {
      AnsweredExtends(queue, start, at, e, ids, run, step);
    }
    assert step.Continue? ==> step.run.failures < MaxConsecutiveFailures || b + 1 >= MaxConsecutiveFailures by {
      AsWrittenCount(run, ids, outcome, b, noFallback);
    }
    assert step.Stop? ==> b < MaxConsecutiveFailures && (step.run.failures == 4 || step.run.failures == 5)
                          && step.message == TerminationMessage(step.run.failures) by {
      AsWrittenCount(run, ids, outcome, b, noFallback);
    }
  }

  /** The batch loop as the source runs it, each batch taken by `StepAsWritten`:
      batch `b` holds the `size` problems from `b * size` on, or the rest of the
      queue. Every problem of every batch it ran has a record, found at `at`; a
      run that goes through has one for every queued problem, and a run that
      stops does so within the first four batches, reporting four or five
      consecutive failures. */
  method BatchLoopAsWritten(queue: seq<string>, size: nat, outcomes: nat -> Outcome, noFallback: bool, start: seq<Record>)
      returns (s: BatchEnd, last: nat, at: seq<nat>)
    requires size > 0
    ensures Answered(s.run.responses, start, queue, at)
    ensures s.Continue? ==> |at| == |queue|
    ensures s.Stop? ==>
      last < MaxConsecutiveFailures && |at| > 0
      && (s.run.failures == 4 || s.run.failures == 5)
      && s.message == TerminationMessage(s.run.failures)
  {
    var run := Run(start, 0);
    var b := 0;
    at := [];
    while |at| < |queue|
      invariant Answered(run.responses, start, queue, at)
      invariant run.failures < MaxConsecutiveFailures || b >= MaxConsecutiveFailures
      decreases |queue| - |at|
    {
      var step, at' := BatchAsWritten(queue, size, start, b, at, run, outcomes(b), noFallback);
      if step.Stop? {
        s, last, at := step, b, at';
        return;
      }
      run, at := step.run, at';
      b := b + 1;
    }
    s, last := Continue(run), b;
  }

  /** The failure count across one step as written: a step that goes on keeps it
      below four within the first four batches; a step that stops does so within
      them, reporting four or five failures. */
  lemma AsWrittenCount(run: Run, ids: seq<string>, outcome: Outcome, b: nat, noFallback: bool)
    requires run.failures < MaxConsecutiveFailures || b >= MaxConsecutiveFailures
    ensures var s := StepAsWritten(run, ids, outcome, b, noFallback);
      && (s.Continue? ==> s.run.failures < MaxConsecutiveFailures || b + 1 >= MaxConsecutiveFailures)
      && (s.Stop? ==> b < MaxConsecutiveFailures && (s.run.failures == 4 || s.run.failures == 5)
                      && s.message == TerminationMessage(s.run.failures))
  {
  }

  // ---------------------------------------------------------------------------
  // Statistics and the whole run

  /** `'id' in resp and 'response' in resp and 'error' not in resp`. */
  predicate Succeeded(r: Record) {
    r.id.Some? && r.response.Some? && r.error.None?
  }

  /** `'id' in resp and 'error' in resp`. */
  predicate Errored(r: Record) {
    r.id.Some? && r.error.Some?
  }

  function CountSucceeded(rs: seq<Record>): (n: nat)
    ensures n <= |rs|
  {
    if rs == [] then 0 else (if Succeeded(rs[0]) then 1 else 0) + CountSucceeded(rs[1..])
  }

  function CountErrored(rs: seq<Record>): (n: nat)
    ensures n <= |rs|
  {
    if rs == [] then 0 else (if Errored(rs[0]) then 1 else 0) + CountErrored(rs[1..])
  }

  /** No record counts both as a success and as an error. */
  lemma {:induction false} CountsDisjoint(rs: seq<Record>)
    ensures CountSucceeded(rs) + CountErrored(rs) <= |rs|
  {
    if rs != [] {
      CountsDisjoint(rs[1..]);
    }
  }

  /** `successful / total * 100`: 100 exactly when every problem succeeded. */
  function Percentage(part: nat, total: nat): (p: real)
    requires total > 0
    ensures 0.0 <= p
    ensures p == 100.0 <==> part == total
    ensures part <= total ==> p <= 100.0
  {
    var ratio := part as real / total as real;
    assert ratio * total as real == part as real;
    ratio * 100.0
  }

  /** The statistics of the metadata. The completion is not rounded here. */
  datatype Statistics = Statistics(
    total: nat, successful: nat, errors: nat, missing: int,
    completion: real, processed: nat, remaining: int)

  /** `calculate_statistics` for the records `all`, of which `kept` came from
      the earlier output, with `total` problems of which `queued` were queued. */
  function Stats(all: seq<Record>, kept: nat, total: nat, queued: nat): (s: Statistics)
    ensures s.successful + s.errors <= |all|
    ensures s.missing == total - |all|
    ensures total == 0 ==> s.completion == 0.0
    ensures total > 0 ==> (0.0 <= s.completion && (s.completion == 100.0 <==> s.successful == total))
    ensures s.successful <= total ==> s.completion <= 100.0
    ensures s.remaining == queued - (|all| - kept)
  {
    CountsDisjoint(all);
    var successful := CountSucceeded(all);
    var completion := if total > 0 then Percentage(successful, total) else 0.0;
    Statistics(total, successful, CountErrored(all), total - |all|, completion, queued, queued - (|all| - kept))
  }

  /** How `process_problems` ends: the kept records alone, as a list, when there
      is nothing to do; the records with the statistics after the last batch; or
      the `RuntimeError` of the termination rule. */
  datatype Ending =
    | NothingToDo(responses: seq<Record>)
    | Finished(responses: seq<Record>, statistics: Statistics)
    | Terminated(message: string, responses: seq<Record>)

  const ZeroDivisionMessage: string := "integer division or modulo by zero"

  /** `process_problems`: `existing` is the earlier output (`None` when there is
      none or it cannot be read). It ends early with the kept records when every
      problem is kept, raises `ZeroDivisionError` for a batch size of 0, and
      otherwise runs the batches after the kept records; a run that goes through
      has a record for every queued problem and none remaining. */
  method ProcessProblems(existing: Option<seq<Record>>, problems: seq<Problem>, size: nat,
                         outcomes: nat -> Outcome, noFallback: bool)
      returns (r: Result<Ending, string>)
    ensures var queue := Queue(problems, Kept(existing));
      && (queue == [] <==> r == Ok(NothingToDo(Values(Kept(existing)))))
      && (r.Err? <==> queue != [] && size == 0)
      && (r.Err? ==> r.error == ZeroDivisionMessage)
    ensures r.Ok? && r.value.Finished? ==>
      var queue := Queue(problems, Kept(existing));
      Covers(r.value.responses, Values(Kept(existing)), queue, |queue|)
      && r.value.statistics.remaining == 0
      && r.value.statistics.processed == |queue|
      && r.value.statistics.total == |problems|
    ensures r.Ok? && r.value.Terminated? ==> r.value.message == TerminationMessage(4)
  {
    var kept := Kept(existing);
    var queue := Queue(problems, kept);
    if queue == [] {
      return Ok(NothingToDo(Values(kept)));
    }
    if size == 0 {
      return Err(ZeroDivisionMessage);
    }
    var start := Values(kept);
    var s, last := ProcessBatches(queue, size, outcomes, noFallback, start);
    if s.Stop? {
      return Ok(Terminated(s.message, s.run.responses));
    }
    var stats := Stats(s.run.responses, |start|, |problems|, |queue|);
    return Ok(Finished(s.run.responses, stats));
  }

  /** `process_problems` as the source runs it, with `StepAsWritten`. A run that
      goes through has a record for every queued problem and may hold more
      records than it queued, so the remaining count can go below zero; a run
      that stops reports four or five consecutive failures. */
  method ProcessProblemsAsWritten(existing: Option<seq<Record>>, problems: seq<Problem>, size: nat,
                                  outcomes: nat -> Outcome, noFallback: bool)
      returns (r: Result<Ending, string>, at: seq<nat>)
    ensures var queue := Queue(problems, Kept(existing));
      && (queue == [] <==> r == Ok(NothingToDo(Values(Kept(existing)))))
      && (r.Err? <==> queue != [] && size == 0)
      && (r.Err? ==> r.error == ZeroDivisionMessage)
    ensures r.Ok? && r.value.Finished? ==>
      var queue := Queue(problems, Kept(existing));
      |at| == |queue| && Answered(r.value.responses, Values(Kept(existing)), queue, at)
      && r.value.statistics.remaining <= 0
      && r.value.statistics.processed == |queue|
      && r.value.statistics.total == |problems|
    ensures r.Ok? && r.value.Terminated? ==>
      r.value.message == TerminationMessage(4) || r.value.message == TerminationMessage(5)
  {
    var kept := Kept(existing);
    var queue := Queue(problems, kept);
    at := [];
    if queue == [] {
      return Ok(NothingToDo(Values(kept))), at;
    }
    if size == 0 {
      return Err(ZeroDivisionMessage), at;
    }
    var start := Values(kept);
    var s, last;
    s, last, at := BatchLoopAsWritten(queue, size, outcomes, noFallback, start);
    if s.Stop? {
      return Ok(Terminated(s.message, s.run.responses)), at;
    }
    var stats := Stats(s.run.responses, |start|, |problems|, |queue|);
    return Ok(Finished(s.run.responses, stats)), at;
  }
}
