/** Sequences of sequences. */
module Seqs {
  /** The sequences one after the other. */
  function Flatten<T>(xss: seq<seq<T>>): (r: seq<T>)
    decreases |xss|
  {
    if xss == [] then [] else Flatten(xss[..|xss| - 1]) + xss[|xss| - 1]
  }

  lemma FlattenAppend<T>(xss: seq<seq<T>>, xs: seq<T>)
    ensures Flatten(xss + [xs]) == Flatten(xss) + xs
  {
    assert (xss + [xs])[..|xss|] == xss;
  }

  lemma {:induction false} FlattenCons<T>(xs: seq<T>, xss: seq<seq<T>>)
    ensures Flatten([xs] + xss) == xs + Flatten(xss)
    decreases |xss|
  {
    if xss != [] {
      var m := |xss| - 1;
      assert ([xs] + xss)[..m + 1] == [xs] + xss[..m];
      FlattenCons(xs, xss[..m]);
    }
  }

  /** Appending `x` to the sequence at `i` adds `x` to the flattened elements. */
  lemma {:induction false} FlattenUpdate<T>(xss: seq<seq<T>>, i: nat, x: T)
    requires i < |xss|
    ensures multiset(Flatten(xss[i := xss[i] + [x]])) == multiset(Flatten(xss)) + multiset{x}
    decreases |xss|
  {
    var n := |xss| - 1;
    var yss := xss[i := xss[i] + [x]];
    assert Flatten(yss) == Flatten(yss[..n]) + yss[n];
    assert Flatten(xss) == Flatten(xss[..n]) + xss[n];
    if i < n {
      assert yss[..n] == xss[..n][i := xss[i] + [x]];
      FlattenUpdate(xss[..n], i, x);
      assert yss[n] == xss[n];
    } else {
      assert yss[..n] == xss[..n];
    }
  }

  function Map<A, B>(xs: seq<A>, f: A -> B): (ys: seq<B>)
    ensures |ys| == |xs| && forall k | 0 <= k < |xs| :: ys[k] == f(xs[k])
  {
    seq(|xs|, k requires 0 <= k < |xs| => f(xs[k]))
  }

  /** Rearranging a sequence rearranges its image the same way. */
  lemma {:induction false} MapPermutation<A, B>(a: seq<A>, b: seq<A>, f: A -> B)
    requires multiset(a) == multiset(b)
    ensures multiset(Map(a, f)) == multiset(Map(b, f))
    decreases |a|
  {
    if a != [] {
      var n := |a| - 1;
      var x := a[n];
      assert x in multiset(a);
      var j :| 0 <= j < |b| && b[j] == x;
      var rest := b[..j] + b[j + 1..];
      RemoveAt(a, n);
      RemoveAt(b, j);
      assert a[..n] + a[n + 1..] == a[..n];
      MapPermutation(a[..n], rest, f);
      MapRemoveAt(a, n, f);
      MapRemoveAt(b, j, f);
    }
  }

  lemma RemoveAt<T>(b: seq<T>, j: nat)
    requires j < |b|
    ensures multiset(b[..j] + b[j + 1..]) == multiset(b) - multiset{b[j]}
  {
    assert b == b[..j] + [b[j]] + b[j + 1..];
  }

  lemma MapConcat<A, B>(a: seq<A>, b: seq<A>, f: A -> B)
    ensures Map(a + b, f) == Map(a, f) + Map(b, f)
  {
  }

  lemma MapRemoveAt<A, B>(b: seq<A>, j: nat, f: A -> B)
    requires j < |b|
    ensures multiset(Map(b, f)) == multiset(Map(b[..j] + b[j + 1..], f)) + multiset{f(b[j])}
  {
    assert b == b[..j] + [b[j]] + b[j + 1..];
    MapConcat(b[..j] + [b[j]], b[j + 1..], f);
    MapConcat(b[..j], [b[j]], f);
    MapConcat(b[..j], b[j + 1..], f);
  }
}
