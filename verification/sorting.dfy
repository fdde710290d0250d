/** Python's ordering of strings (lexicographic by code point, a proper prefix
    first), `sorted()` of a list of strings, `min()` of one, and `sorted(key=...)`
    with a descending integer key, which Python guarantees to be stable. */
module Sorting {

  /** `a <= b` on Python strings. */
  predicate StrLe(a: string, b: string)
    decreases |a|
  {
    if a == [] then true
    else if b == [] then false
    else if a[0] != b[0] then a[0] < b[0]
    else StrLe(a[1..], b[1..])
  }

  lemma {:induction false} StrLeTotal(a: string, b: string)
    ensures StrLe(a, b) || StrLe(b, a)
    decreases |a|
  {
    if a != [] && b != [] && a[0] == b[0] {
      StrLeTotal(a[1..], b[1..]);
    }
  }

  lemma {:induction false} StrLeAntisymmetric(a: string, b: string)
    requires StrLe(a, b) && StrLe(b, a)
    ensures a == b
    decreases |a|
  {
    if a != [] && b != [] {
      StrLeAntisymmetric(a[1..], b[1..]);
      assert a == [a[0]] + a[1..] && b == [b[0]] + b[1..];
    }
  }

  lemma {:induction false} StrLeTransitive(a: string, b: string, c: string)
    requires StrLe(a, b) && StrLe(b, c)
    ensures StrLe(a, c)
    decreases |a|
  {
    if a != [] && b != [] && c != [] && a[0] == b[0] && b[0] == c[0] {
      StrLeTransitive(a[1..], b[1..], c[1..]);
    }
  }

  lemma StrLeReflexive(a: string)
    ensures StrLe(a, a)
  {
  }

  predicate SortedStrings(xs: seq<string>) {
    forall i, j | 0 <= i < j < |xs| :: StrLe(xs[i], xs[j])
  }

  /** Every element of `xs` is at least `y`. */
  predicate LowerBound(y: string, xs: seq<string>) {
    forall k | 0 <= k < |xs| :: StrLe(y, xs[k])
  }

  lemma LowerBoundPerm(y: string, a: seq<string>, b: seq<string>)
    requires multiset(a) == multiset(b) && LowerBound(y, b)
    ensures LowerBound(y, a)
  {
    forall k | 0 <= k < |a| ensures StrLe(y, a[k]) {
      assert a[k] in multiset(b);
      var m :| 0 <= m < |b| && b[m] == a[k];
    }
  }

  /** Inserts `x` into the sorted `xs` after every element that is not greater. */
  function Insert(x: string, xs: seq<string>): (r: seq<string>)
    requires SortedStrings(xs)
    ensures SortedStrings(r)
    ensures multiset(r) == multiset(xs) + multiset{x}
    decreases |xs|
  {
    if xs == [] then [x]
    else if StrLe(xs[0], x) then
      var rest := Insert(x, xs[1..]);
      assert LowerBound(xs[0], xs[1..] + [x]);
      LowerBoundPerm(xs[0], rest, xs[1..] + [x]);
      SortedCons(xs[0], rest);
      ConsMultiset(xs, rest, x);
      [xs[0]] + rest
    else
      StrLeTotal(xs[0], x);
      assert LowerBound(x, xs) by {
        forall k | 0 <= k < |xs| ensures StrLe(x, xs[k]) {
          if k > 0 {
            StrLeTransitive(x, xs[0], xs[k]);
          }
        }
      }
      [x] + xs
  }

  lemma SortedCons(h: string, rest: seq<string>)
    requires SortedStrings(rest) && LowerBound(h, rest)
    ensures SortedStrings([h] + rest)
  {
    var r := [h] + rest;
    forall i, j | 0 <= i < j < |r| ensures StrLe(r[i], r[j]) {
      assert r[j] == rest[j - 1];
      if i > 0 { assert r[i] == rest[i - 1]; }
    }
  }

  /** `sorted(xs)` for a list of strings. */
  function SortStrings(xs: seq<string>): (r: seq<string>)
    ensures SortedStrings(r)
    ensures multiset(r) == multiset(xs)
    ensures |r| == |xs|
    decreases |xs|
  {
    if xs == [] then []
    else
      assert xs == xs[..|xs| - 1] + [xs[|xs| - 1]];
      var r := Insert(xs[|xs| - 1], SortStrings(xs[..|xs| - 1]));
      assert |r| == |multiset(r)| == |multiset(xs)| == |xs|;
      r
  }

  /** `min(xs)`, equivalently `sorted(xs)[0]`, for a non-empty list of strings. */
  function MinString(xs: seq<string>): (m: string)
    requires xs != []
    ensures m in xs
    ensures forall k | 0 <= k < |xs| :: StrLe(m, xs[k])
    decreases |xs|
  {
    if |xs| == 1 then StrLeReflexive(xs[0]); xs[0]
    else
      var m := MinString(xs[1..]);
      StrLeTotal(xs[0], m);
      if StrLe(xs[0], m) then
        assert forall k | 1 <= k < |xs| :: StrLe(xs[0], xs[k]) by {
          forall k | 1 <= k < |xs| ensures StrLe(xs[0], xs[k]) {
            assert xs[k] == xs[1..][k - 1];
            StrLeTransitive(xs[0], m, xs[k]);
          }
        }
        StrLeReflexive(xs[0]);
        xs[0]
      else
        assert forall k | 1 <= k < |xs| :: StrLe(m, xs[k]) by {
          forall k | 1 <= k < |xs| ensures StrLe(m, xs[k]) {
            assert xs[k] == xs[1..][k - 1];
          }
        }
        m
  }

  /** A sorted sequence starts with its minimum. */
  lemma SortedHeadIsMin(xs: seq<string>)
    requires xs != []
    ensures SortStrings(xs)[0] == MinString(xs)
  {
    var r := SortStrings(xs);
    var m := MinString(xs);
    assert m in multiset(r);
    var j :| 0 <= j < |r| && r[j] == m;
    assert StrLe(r[0], m);
    assert r[0] in multiset(xs);
    var k :| 0 <= k < |xs| && xs[k] == r[0];
    assert StrLe(m, r[0]);
    StrLeAntisymmetric(r[0], m);
  }

  // ---------------------------------------------------------------------------
  // Stable sort by a descending integer key

  predicate SortedDescBy<T>(xs: seq<T>, key: T -> int) {
    forall i, j | 0 <= i < j < |xs| :: key(xs[i]) >= key(xs[j])
  }

  /** Inserts `x` after every element whose key is not smaller, so elements with
      equal keys keep their relative order. */
  function InsertDesc<T>(x: T, xs: seq<T>, key: T -> int): (r: seq<T>)
    requires SortedDescBy(xs, key)
    ensures SortedDescBy(r, key)
    ensures multiset(r) == multiset(xs) + multiset{x}
    ensures |r| == |xs| + 1
    decreases |xs|
  {
    if xs == [] then [x]
    else if key(xs[0]) >= key(x) then
      var rest := InsertDesc(x, xs[1..], key);
      assert forall k | 0 <= k < |rest| :: key(xs[0]) >= key(rest[k]) by {
        forall k | 0 <= k < |rest| ensures key(xs[0]) >= key(rest[k]) {
          if rest[k] != x {
            var m := IndexInPerm(rest, xs[1..], x, k);
            assert xs[m + 1] == rest[k];
          }
        }
      }
      SortedDescCons(xs[0], rest, key);
      ConsMultiset(xs, rest, x);
      [xs[0]] + rest
    else
      assert forall k | 0 <= k < |xs| :: key(x) >= key(xs[k]);
      SortedDescCons(x, xs, key);
      [x] + xs
  }

  lemma SortedDescCons<T>(h: T, rest: seq<T>, key: T -> int)
    requires SortedDescBy(rest, key) && forall k | 0 <= k < |rest| :: key(h) >= key(rest[k])
    ensures SortedDescBy([h] + rest, key)
  {
    var r := [h] + rest;
    forall i, j | 0 <= i < j < |r| ensures key(r[i]) >= key(r[j]) {
      assert r[j] == rest[j - 1];
      if i > 0 { assert r[i] == rest[i - 1]; }
    }
  }

  /** Putting back the head of `xs` in front of a permutation of its tail with
      `x` added. */
  lemma ConsMultiset<T>(xs: seq<T>, rest: seq<T>, x: T)
    requires xs != [] && multiset(rest) == multiset(xs[1..]) + multiset{x}
    ensures multiset([xs[0]] + rest) == multiset(xs) + multiset{x}
  {
    assert xs == [xs[0]] + xs[1..];
  }

  /** An element of `a` other than the one added to `b` sits somewhere in `b`. */
  lemma IndexInPerm<T>(a: seq<T>, b: seq<T>, x: T, k: nat) returns (m: nat)
    requires multiset(a) == multiset(b) + multiset{x} && k < |a| && a[k] != x
    ensures m < |b| && b[m] == a[k]
  {
    assert a[k] in multiset(a);
    assert a[k] in multiset(b);
    m :| 0 <= m < |b| && b[m] == a[k];
  }

  /** An element of `a` sits somewhere in a permutation `b` of it. */
  lemma IndexInSame<T>(a: seq<T>, b: seq<T>, k: nat) returns (m: nat)
    requires multiset(a) == multiset(b) && k < |a|
    ensures m < |b| && b[m] == a[k]
  {
    assert a[k] in multiset(a);
    assert a[k] in multiset(b);
    m :| 0 <= m < |b| && b[m] == a[k];
  }

  /** `sorted(xs, key=key, reverse=True)`: descending by key, stable. */
  function SortDescBy<T>(xs: seq<T>, key: T -> int): (r: seq<T>)
    ensures SortedDescBy(r, key)
    ensures multiset(r) == multiset(xs)
    ensures |r| == |xs|
    decreases |xs|
  {
    if xs == [] then []
    else
      assert xs == xs[..|xs| - 1] + [xs[|xs| - 1]];
      InsertDesc(xs[|xs| - 1], SortDescBy(xs[..|xs| - 1], key), key)
  }

  /** Elements with equal keys come in increasing `pos`. */
  predicate StableBy<T>(xs: seq<T>, key: T -> int, pos: T -> int) {
    forall i, j | 0 <= i < j < |xs| && key(xs[i]) == key(xs[j]) :: pos(xs[i]) < pos(xs[j])
  }

  lemma StableCons<T>(h: T, rest: seq<T>, key: T -> int, pos: T -> int)
    requires StableBy(rest, key, pos)
    requires forall k | 0 <= k < |rest| && key(h) == key(rest[k]) :: pos(h) < pos(rest[k])
    ensures StableBy([h] + rest, key, pos)
  {
    var r := [h] + rest;
    forall i, j | 0 <= i < j < |r| && key(r[i]) == key(r[j])
      ensures pos(r[i]) < pos(r[j])
    {
      if i > 0 {
        assert r[i] == rest[i - 1] && r[j] == rest[j - 1];
      } else {
        assert r[j] == rest[j - 1];
      }
    }
  }

  lemma {:induction false} InsertDescStable<T>(x: T, xs: seq<T>, key: T -> int, pos: T -> int)
    requires SortedDescBy(xs, key) && StableBy(xs, key, pos)
    requires forall k | 0 <= k < |xs| :: pos(xs[k]) < pos(x)
    ensures StableBy(InsertDesc(x, xs, key), key, pos)
    decreases |xs|
  {
    if xs != [] && key(xs[0]) >= key(x) {
      var tail := xs[1..];
      assert forall k | 0 <= k < |tail| :: tail[k] == xs[k + 1];
      InsertDescStable(x, tail, key, pos);
      var rest := InsertDesc(x, tail, key);
      assert InsertDesc(x, xs, key) == [xs[0]] + rest;
      forall k | 0 <= k < |rest| && key(xs[0]) == key(rest[k])
        ensures pos(xs[0]) < pos(rest[k])
      {
        var y := rest[k];
        if y != x {
          var m := IndexInPerm(rest, tail, x, k);
          assert xs[m + 1] == y;
        }
      }
      StableCons(xs[0], rest, key, pos);
    } else if xs != [] {
      assert InsertDesc(x, xs, key) == [x] + xs;
      StableCons(x, xs, key, pos);
    }
  }

  /** `sorted` is stable: elements with equal keys keep their order. Here the
      order is given by `pos`, increasing along the input. */
  lemma {:induction false} SortDescByStable<T>(xs: seq<T>, key: T -> int, pos: T -> int)
    requires forall i, j | 0 <= i < j < |xs| :: pos(xs[i]) < pos(xs[j])
    ensures StableBy(SortDescBy(xs, key), key, pos)
    decreases |xs|
  {
    if xs != [] {
      var n := |xs| - 1;
      var prefix := xs[..n];
      SortDescByStable(prefix, key, pos);
      var sorted := SortDescBy(prefix, key);
      forall k | 0 <= k < |sorted|
        ensures pos(sorted[k]) < pos(xs[n])
      {
        var m := IndexInSame(sorted, prefix, k);
      }
      InsertDescStable(xs[n], sorted, key, pos);
    }
  }
}
