/** How both `evaluate_response` functions pair expected sub-answers with the
    answers read from a response: first by identical sub-question id, then the
    expected ids left over, sorted, take the extracted answers whose ids are not
    expected ids, also sorted, position by position. */
module Pairing {
  import opened Wrappers
  import opened Dicts
  import opened Sorting

  /** The ids of `ids` that satisfy `keep`, in order. */
  function Filter(ids: seq<string>, keep: string -> bool): (r: seq<string>)
    ensures forall x :: x in r <==> x in ids && keep(x)
    ensures |r| <= |ids|
    ensures Distinct(ids) ==> Distinct(r)
    decreases |ids|
  {
    if ids == [] then []
    else
      var rest := Filter(ids[1..], keep);
      assert forall x :: x in ids <==> x == ids[0] || x in ids[1..];
      if keep(ids[0]) then [ids[0]] + rest else rest
  }

  /** The first step: every expected id that is also an extracted id takes that
      answer, in the order of the expected answers. */
  function ById<A>(expectedIds: seq<string>, extracted: Dict<string, A>): (m: Dict<string, A>)
    ensures forall i | 0 <= i < |m| :: m[i].0 in expectedIds && HasKey(extracted, m[i].0)
    ensures forall i | 0 <= i < |m| :: Get(extracted, m[i].0) == Some(m[i].1)
    ensures forall x | x in expectedIds && HasKey(extracted, x) :: HasKey(m, x)
    decreases |expectedIds|
  {
    if expectedIds == [] then []
    else
      var rest := ById(expectedIds[1..], extracted);
      var x := expectedIds[0];
      assert forall y :: y in expectedIds <==> y == x || y in expectedIds[1..];
      match Get(extracted, x) {
        case Some(a) =>
          var m := [(x, a)] + rest;
          assert Keys(m) == [x] + Keys(rest);
          assert forall y | y in expectedIds && HasKey(extracted, y) :: HasKey(m, y) by {
            forall y | y in expectedIds && HasKey(extracted, y) ensures HasKey(m, y) {
              if y != x {
                assert HasKey(rest, y);
              }
            }
          }
          m
        case None =>
          assert forall y | y in expectedIds && HasKey(extracted, y) :: y in expectedIds[1..];
          rest
      }
  }

  /** With distinct expected ids, the id step pairs each id at most once. */
  lemma {:induction false} ByIdIsDict<A>(expectedIds: seq<string>, extracted: Dict<string, A>)
    requires Distinct(expectedIds)
    ensures IsDict(ById(expectedIds, extracted))
    decreases |expectedIds|
  {
    if expectedIds != [] {
      var x := expectedIds[0];
      var rest := ById(expectedIds[1..], extracted);
      ByIdIsDict(expectedIds[1..], extracted);
      if HasKey(extracted, x) {
        var head := [(x, Get(extracted, x).value)];
        assert ById(expectedIds, extracted) == head + rest;
        assert x !in Keys(rest) by {
          forall i | 0 <= i < |rest| ensures rest[i].0 != x {
            assert rest[i].0 in expectedIds[1..];
          }
        }
        KeysAppend(head, rest);
        assert Keys(head) == [x];
        DistinctCons(x, Keys(rest));
      }
    }
  }

  /** The second step: the i-th leftover expected id takes the answer of the i-th
      leftover extracted id, while both lists last. */
  function Positional<A>(unmatchedExpected: seq<string>, unmatchedExtracted: seq<string>,
                         extracted: Dict<string, A>): (m: Dict<string, A>)
    requires forall x | x in unmatchedExtracted :: HasKey(extracted, x)
    ensures |m| == if |unmatchedExpected| < |unmatchedExtracted| then |unmatchedExpected| else |unmatchedExtracted|
    ensures forall i | 0 <= i < |m| ::
      m[i].0 == unmatchedExpected[i] && Get(extracted, unmatchedExtracted[i]) == Some(m[i].1)
  {
    var n := if |unmatchedExpected| < |unmatchedExtracted| then |unmatchedExpected| else |unmatchedExtracted|;
    seq(n, i requires 0 <= i < n => (unmatchedExpected[i], Get(extracted, unmatchedExtracted[i]).value))
  }

  /** The expected ids no id match served, sorted. */
  function UnmatchedExpected<A>(expected: Dict<string, string>, extracted: Dict<string, A>): seq<string> {
    var byId := ById(Keys(expected), extracted);
    SortStrings(Filter(Keys(expected), x => !HasKey(byId, x)))
  }

  /** The extracted ids that are not expected ids, sorted. */
  function UnmatchedExtracted<A>(expected: Dict<string, string>, extracted: Dict<string, A>): (r: seq<string>)
    ensures forall x | x in r :: HasKey(extracted, x) && !HasKey(expected, x)
  {
    var r := SortStrings(Filter(Keys(extracted), x => !HasKey(expected, x)));
    assert forall x | x in r :: x in multiset(r);
    r
  }

  /** `answer_mapping`: the id matches, then the positional matches. */
  function MapAnswers<A>(expected: Dict<string, string>, extracted: Dict<string, A>): (m: Dict<string, A>)
    requires IsDict(expected)
    ensures IsDict(m)
    ensures forall i | 0 <= i < |m| :: HasKey(expected, m[i].0)
  {
    var byId := ById(Keys(expected), extracted);
    var ue := UnmatchedExpected(expected, extracted);
    var pos := Positional(ue, UnmatchedExtracted(expected, extracted), extracted);
    LeftoversDistinct(expected, extracted);
    ByIdIsDict(Keys(expected), extracted);
    JoinDistinct(byId, pos, ue, expected);
    byId + pos
  }

  /** The leftover expected ids are distinct expected ids that the id step did not
      serve. */
  lemma LeftoversDistinct<A>(expected: Dict<string, string>, extracted: Dict<string, A>)
    requires IsDict(expected)
    ensures var ue := UnmatchedExpected(expected, extracted);
      Distinct(ue)
      && forall x | x in ue :: HasKey(expected, x) && !HasKey(ById(Keys(expected), extracted), x)
  {
    var byId := ById(Keys(expected), extracted);
    var f := Filter(Keys(expected), x => !HasKey(byId, x));
    SortedKeysDistinct(f);
  }

  lemma JoinDistinct<A>(byId: Dict<string, A>, pos: Dict<string, A>, ue: seq<string>, expected: Dict<string, string>)
    requires IsDict(byId) && Distinct(ue) && |pos| <= |ue|
    requires forall i | 0 <= i < |byId| :: HasKey(expected, byId[i].0)
    requires forall i | 0 <= i < |pos| :: pos[i].0 == ue[i]
    requires forall x | x in ue :: HasKey(expected, x) && !HasKey(byId, x)
    ensures IsDict(byId + pos)
    ensures forall i | 0 <= i < |byId + pos| :: HasKey(expected, (byId + pos)[i].0)
  {
    var m := byId + pos;
    assert Keys(m) == Keys(byId) + Keys(pos);
    forall i, j | 0 <= i < j < |m| ensures Keys(m)[i] != Keys(m)[j] {
      if i < |byId| && j >= |byId| {
        assert Keys(byId)[i] == m[i].0;
        assert m[j].0 == ue[j - |byId|];
      } else if i >= |byId| {
        assert m[i].0 == ue[i - |byId|] && m[j].0 == ue[j - |byId|];
      }
    }
    forall i | 0 <= i < |m| ensures HasKey(expected, m[i].0) {
      if i >= |byId| {
        assert m[i].0 == ue[i - |byId|];
      }
    }
  }

  /** Sorting keeps the elements, and keeps them distinct. */
  lemma SortedKeysDistinct(xs: seq<string>)
    requires Distinct(xs)
    ensures Distinct(SortStrings(xs))
    ensures forall x :: x in SortStrings(xs) <==> x in xs
  {
    var r := SortStrings(xs);
    assert forall x :: x in r <==> x in multiset(r);
    assert forall x :: x in xs <==> x in multiset(xs);
    forall x | x in r ensures multiset(r)[x] == 1 {
      DistinctCountAtMostOne(xs, x);
    }
    DistinctByCount(r);
  }

  lemma {:induction false} DistinctByCount(ys: seq<string>)
    requires forall x | x in ys :: multiset(ys)[x] == 1
    ensures Distinct(ys)
    decreases |ys|
  {
    if ys != [] {
      var rest := ys[1..];
      assert ys == [ys[0]] + rest;
      assert multiset(ys) == multiset{ys[0]} + multiset(rest);
      assert ys[0] !in rest by {
        assert ys[0] in ys;
        assert multiset(rest)[ys[0]] == 0;
      }
      forall x | x in rest ensures multiset(rest)[x] == 1 {
        assert x in ys;
      }
      DistinctByCount(rest);
      forall i, j | 0 <= i < j < |ys| ensures ys[i] != ys[j] {
        if i == 0 {
          assert ys[j] == rest[j - 1];
        } else {
          assert ys[i] == rest[i - 1] && ys[j] == rest[j - 1];
        }
      }
    }
  }

  lemma {:induction false} DistinctCountAtMostOne(xs: seq<string>, x: string)
    requires Distinct(xs)
    ensures multiset(xs)[x] <= 1
    decreases |xs|
  {
    if xs != [] {
      DistinctCountAtMostOne(xs[1..], x);
      assert xs == [xs[0]] + xs[1..];
      if xs[0] == x {
        assert x !in xs[1..];
      }
    }
  }

  /** An id answered by the response is paired with that answer. */
  lemma SameIdPaired<A>(expected: Dict<string, string>, extracted: Dict<string, A>, x: string)
    requires IsDict(expected) && HasKey(expected, x) && HasKey(extracted, x)
    ensures Get(MapAnswers(expected, extracted), x) == Get(extracted, x)
  {
    var byId := ById(Keys(expected), extracted);
    var m := MapAnswers(expected, extracted);
    assert HasKey(byId, x);
    var i := IndexOf(byId, x);
    assert m[i] == byId[i];
    GetAtFirst(m, i);
  }

  /** The value of the first entry with a key is the one `Get` reads. */
  lemma GetAtFirst<A>(d: Dict<string, A>, i: nat)
    requires IsDict(d) && i < |d|
    ensures Get(d, d[i].0) == Some(d[i].1)
  {
    GetAt(d, i);
  }

  /** An expected id the response does not answer by name: it is paired exactly
      when its place among the sorted leftovers is within the number of leftover
      extracted ids, and then with the extracted answer in that place. */
  lemma LeftoverPaired<A>(expected: Dict<string, string>, extracted: Dict<string, A>, i: nat)
    requires IsDict(expected) && i < |UnmatchedExpected(expected, extracted)|
    ensures var x := UnmatchedExpected(expected, extracted)[i];
      var ux := UnmatchedExtracted(expected, extracted);
      HasKey(expected, x) && !HasKey(extracted, x)
      && (HasKey(MapAnswers(expected, extracted), x) <==> i < |ux|)
      && (i < |ux| ==> Get(MapAnswers(expected, extracted), x) == Get(extracted, ux[i]))
  {
    var ue := UnmatchedExpected(expected, extracted);
    var ux := UnmatchedExtracted(expected, extracted);
    LeftoversDistinct(expected, extracted);
    var x := ue[i];
    assert x in ue;
    UnservedNotExtracted(expected, extracted, x);
    if i < |ux| {
      LeftoverTaken(expected, extracted, i);
    } else {
      LeftoverUntaken(expected, extracted, i);
    }
  }

  /** An expected id the id step did not serve is not an extracted id. */
  lemma UnservedNotExtracted<A>(expected: Dict<string, string>, extracted: Dict<string, A>, x: string)
    requires x in Keys(expected) && !HasKey(ById(Keys(expected), extracted), x)
    ensures !HasKey(extracted, x)
  {
  }

  /** The leftover in a place the extracted leftovers reach is paired with the
      extracted answer in that place. */
  lemma LeftoverTaken<A>(expected: Dict<string, string>, extracted: Dict<string, A>, i: nat)
    requires IsDict(expected) && i < |UnmatchedExpected(expected, extracted)|
    requires i < |UnmatchedExtracted(expected, extracted)|
    ensures Get(MapAnswers(expected, extracted), UnmatchedExpected(expected, extracted)[i])
      == Get(extracted, UnmatchedExtracted(expected, extracted)[i])
  {
    var byId := ById(Keys(expected), extracted);
    var ue := UnmatchedExpected(expected, extracted);
    var ux := UnmatchedExtracted(expected, extracted);
    var pos := Positional(ue, ux, extracted);
    var m := MapAnswers(expected, extracted);
    assert m == byId + pos;
    assert pos[i].0 == ue[i] && Get(extracted, ux[i]) == Some(pos[i].1);
    GetInSecond(byId, pos, i);
  }

  /** An entry of the second part of a dictionary is the one `Get` reads. */
  lemma GetInSecond<A>(a: Dict<string, A>, b: Dict<string, A>, j: nat)
    requires IsDict(a + b) && j < |b|
    ensures Get(a + b, b[j].0) == Some(b[j].1)
  {
    assert (a + b)[|a| + j] == b[j];
    GetAt(a + b, |a| + j);
  }

  /** The leftover in a place past the extracted leftovers is not paired. */
  lemma LeftoverUntaken<A>(expected: Dict<string, string>, extracted: Dict<string, A>, i: nat)
    requires IsDict(expected) && i < |UnmatchedExpected(expected, extracted)|
    requires i >= |UnmatchedExtracted(expected, extracted)|
    ensures !HasKey(MapAnswers(expected, extracted), UnmatchedExpected(expected, extracted)[i])
  {
    var byId := ById(Keys(expected), extracted);
    var ue := UnmatchedExpected(expected, extracted);
    var ux := UnmatchedExtracted(expected, extracted);
    var pos := Positional(ue, ux, extracted);
    var m := MapAnswers(expected, extracted);
    LeftoversDistinct(expected, extracted);
    assert ue[i] in ue;
    assert m == byId + pos;
    KeysAppend(byId, pos);
    PositionalKeys(ue, ux, extracted);
    NotInPrefix(ue, i, |pos|);
  }

  lemma KeysAppend<A>(a: Dict<string, A>, b: Dict<string, A>)
    ensures Keys(a + b) == Keys(a) + Keys(b)
  {
    assert forall k | 0 <= k < |a + b| :: Keys(a + b)[k] == (Keys(a) + Keys(b))[k];
  }

  /** The positional pairs take the leftover expected ids in order. */
  lemma PositionalKeys<A>(ue: seq<string>, ux: seq<string>, extracted: Dict<string, A>)
    requires forall x | x in ux :: HasKey(extracted, x)
    ensures Keys(Positional(ue, ux, extracted)) == ue[..|Positional(ue, ux, extracted)|]
  {
  }

  /** A distinct sequence does not repeat a later element earlier. */
  lemma NotInPrefix(xs: seq<string>, i: nat, n: nat)
    requires Distinct(xs) && n <= i < |xs|
    ensures xs[i] !in xs[..n]
  {
    forall j | 0 <= j < n ensures xs[..n][j] != xs[i] {
      assert xs[..n][j] == xs[j];
    }
  }

  lemma DistinctCons(x: string, xs: seq<string>)
    requires Distinct(xs) && x !in xs
    ensures Distinct([x] + xs)
  {
    var ys := [x] + xs;
    forall i, j | 0 <= i < j < |ys| ensures ys[i] != ys[j] {
      assert ys[j] == xs[j - 1];
      if i > 0 {
        assert ys[i] == xs[i - 1];
      }
    }
  }
}
