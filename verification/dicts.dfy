/** Python dictionaries, which remember insertion order. A dictionary is a sequence
    of key/value pairs with distinct keys, in the order the keys were first inserted;
    assigning to an existing key replaces its value but keeps its position. */
module Dicts {
  import opened Wrappers

  type Dict<K, V> = seq<(K, V)>

  function Keys<K, V>(d: Dict<K, V>): (ks: seq<K>)
    ensures |ks| == |d|
    ensures forall i | 0 <= i < |d| :: ks[i] == d[i].0
  {
    seq(|d|, i requires 0 <= i < |d| => d[i].0)
  }

  function Values<K, V>(d: Dict<K, V>): (vs: seq<V>)
    ensures |vs| == |d|
    ensures forall i | 0 <= i < |d| :: vs[i] == d[i].1
  {
    seq(|d|, i requires 0 <= i < |d| => d[i].1)
  }

  /** No key appears twice. */
  predicate Distinct<T(==)>(xs: seq<T>) {
    forall i, j | 0 <= i < j < |xs| :: xs[i] != xs[j]
  }

  predicate IsDict<K(==), V>(d: Dict<K, V>) {
    Distinct(Keys(d))
  }

  predicate HasKey<K(==), V>(d: Dict<K, V>, k: K) {
    k in Keys(d)
  }

  /** The position of key `k`, or `|d|` when it is absent. */
  function IndexOf<K(==), V>(d: Dict<K, V>, k: K): (i: nat)
    ensures i <= |d|
    ensures i < |d| ==> d[i].0 == k
    ensures forall j | 0 <= j < i :: d[j].0 != k
    ensures i == |d| <==> !HasKey(d, k)
    decreases |d|
  {
    if d == [] then 0
    else if d[0].0 == k then 0
    else
      var i := 1 + IndexOf(d[1..], k);
      assert Keys(d) == [d[0].0] + Keys(d[1..]);
      i
  }

  /** `d.get(k)`. */
  function Get<K(==), V>(d: Dict<K, V>, k: K): (r: Option<V>)
    ensures r.Some? <==> HasKey(d, k)
    ensures r.Some? ==> d[IndexOf(d, k)] == (k, r.value)
  {
    var i := IndexOf(d, k);
    if i < |d| then Some(d[i].1) else None
  }

  lemma GetAt<K, V>(d: Dict<K, V>, i: nat)
    requires IsDict(d) && i < |d|
    ensures Get(d, d[i].0) == Some(d[i].1)
  {
    assert Keys(d)[i] == d[i].0;
  }

  /** `d[k] = v`. */
  function Set<K(==,!new), V>(d: Dict<K, V>, k: K, v: V): (r: Dict<K, V>)
    ensures HasKey(d, k) ==> |r| == |d| && Keys(r) == Keys(d)
    ensures !HasKey(d, k) ==> r == d + [(k, v)]
    ensures forall i | 0 <= i < |d| && d[i].0 != k :: r[i] == d[i]
    ensures IsDict(d) ==> IsDict(r)
    ensures Get(r, k) == Some(v)
    ensures forall k' | k' != k :: Get(r, k') == Get(d, k')
  {
    var i := IndexOf(d, k);
    if i < |d| then
      var r := d[i := (k, v)];
      assert Keys(r) == Keys(d);
      assert forall k' | k' != k :: IndexOf(r, k') == IndexOf(d, k') by {
        forall k' | k' != k ensures IndexOf(r, k') == IndexOf(d, k') {
          IndexSame(d, r, k');
        }
      }
      r
    else
      var r := d + [(k, v)];
      assert Keys(r) == Keys(d) + [k];
      assert forall k' | k' != k :: Get(r, k') == Get(d, k') by {
        forall k' | k' != k ensures Get(r, k') == Get(d, k') {
          IndexAppend(d, k, v, k');
        }
      }
      r
  }

  /** Assigning an existing key replaces its entry in place. */
  lemma SetExisting<K(!new), V>(d: Dict<K, V>, k: K, v: V)
    requires HasKey(d, k)
    ensures Set(d, k, v) == d[IndexOf(d, k) := (k, v)]
  {
  }

  lemma IndexSame<K, V>(d: Dict<K, V>, r: Dict<K, V>, k: K)
    requires Keys(r) == Keys(d)
    ensures IndexOf(r, k) == IndexOf(d, k)
    decreases |d|
  {
    assert |r| == |d|;
    if d != [] && d[0].0 != k {
      assert Keys(r[1..]) == Keys(r)[1..] == Keys(d)[1..] == Keys(d[1..]);
      IndexSame(d[1..], r[1..], k);
    }
  }

  lemma IndexAppend<K, V>(d: Dict<K, V>, k: K, v: V, k2: K)
    requires k2 != k
    ensures HasKey(d + [(k, v)], k2) == HasKey(d, k2)
    ensures HasKey(d, k2) ==> IndexOf(d + [(k, v)], k2) == IndexOf(d, k2)
    decreases |d|
  {
    assert Keys(d + [(k, v)]) == Keys(d) + [k];
    if d != [] && d[0].0 != k2 {
      assert (d + [(k, v)])[1..] == d[1..] + [(k, v)];
      assert Keys(d) == [d[0].0] + Keys(d[1..]);
      IndexAppend(d[1..], k, v, k2);
    }
  }

  /** A dictionary built by assigning the pairs one after the other, as
      `for k, v in pairs: d[k] = v` does: the first position and the last value of
      every key win. */
  function FromPairs<K(==,!new), V>(pairs: seq<(K, V)>): (d: Dict<K, V>)
    ensures IsDict(d)
    decreases |pairs|
  {
    if pairs == [] then []
    else Set(FromPairs(pairs[..|pairs| - 1]), pairs[|pairs| - 1].0, pairs[|pairs| - 1].1)
  }

  /** The keys of `FromPairs(pairs)` are exactly the keys assigned. */
  lemma {:induction false} FromPairsKeys<K(!new), V>(pairs: seq<(K, V)>, k: K)
    ensures HasKey(FromPairs(pairs), k) <==> k in Keys(pairs)
    decreases |pairs|
  {
    if pairs != [] {
      var n := |pairs| - 1;
      FromPairsKeys(pairs[..n], k);
      assert Keys(pairs) == Keys(pairs[..n]) + [pairs[n].0];
      if k != pairs[n].0 {
        assert Get(FromPairs(pairs), k) == Get(FromPairs(pairs[..n]), k);
      }
    }
  }

  lemma FromPairsStep<K(!new), V>(pairs: seq<(K, V)>, k: K)
    requires pairs != []
    ensures k == pairs[|pairs| - 1].0 ==> Get(FromPairs(pairs), k) == Some(pairs[|pairs| - 1].1)
    ensures k != pairs[|pairs| - 1].0 ==> Get(FromPairs(pairs), k) == Get(FromPairs(pairs[..|pairs| - 1]), k)
  {
  }

  /** The value `FromPairs` keeps for a key is the one assigned last. */
  lemma FromPairsLastWins<K(!new), V>(pairs: seq<(K, V)>, i: nat)
    requires i < |pairs|
    requires pairs[i].0 !in Keys(pairs[i + 1..])
    ensures Get(FromPairs(pairs), pairs[i].0) == Some(pairs[i].1)
  {
    forall j | i < j < |pairs| ensures pairs[j].0 != pairs[i].0 {
      assert Keys(pairs[i + 1..])[j - i - 1] == pairs[j].0;
    }
    LastAssigned(pairs, i);
    FromPairsGet(pairs, pairs[i].0);
  }

  /** The value assigned last to `k`, if any. */
  function LastValue<K(==), V>(pairs: seq<(K, V)>, k: K): Option<V>
    decreases |pairs|
  {
    if pairs == [] then None
    else if pairs[|pairs| - 1].0 == k then Some(pairs[|pairs| - 1].1)
    else LastValue(pairs[..|pairs| - 1], k)
  }

  lemma {:induction false} FromPairsGet<K(!new), V>(pairs: seq<(K, V)>, k: K)
    ensures Get(FromPairs(pairs), k) == LastValue(pairs, k)
    decreases |pairs|
  {
    if pairs != [] {
      FromPairsGet(pairs[..|pairs| - 1], k);
      FromPairsStep(pairs, k);
    }
  }

  /** When every value assigned is a function of its key, `FromPairs` keeps
      that value for each of its keys. */
  lemma {:induction false} FromPairsKeyed<K(!new), V>(pairs: seq<(K, V)>, f: K -> V, k: K)
    requires forall i | 0 <= i < |pairs| :: pairs[i].1 == f(pairs[i].0)
    ensures HasKey(FromPairs(pairs), k) ==> Get(FromPairs(pairs), k) == Some(f(k))
    decreases |pairs|
  {
    if pairs != [] {
      FromPairsKeyed(pairs[..|pairs| - 1], f, k);
      FromPairsStep(pairs, k);
    }
  }

  lemma {:induction false} LastAssigned<K(!new), V>(pairs: seq<(K, V)>, i: nat)
    requires i < |pairs|
    requires forall j | i < j < |pairs| :: pairs[j].0 != pairs[i].0
    ensures LastValue(pairs, pairs[i].0) == Some(pairs[i].1)
    decreases |pairs|
  {
    var n := |pairs| - 1;
    if i < n {
      var prefix := pairs[..n];
      assert forall j | i < j < |prefix| :: prefix[j] == pairs[j];
      LastAssigned(prefix, i);
    }
  }

  /** Every key of `FromPairs(pairs)` is a key assigned in `pairs`. */
  lemma FromPairsKeysFrom<K(!new), V>(pairs: seq<(K, V)>)
    ensures forall i | 0 <= i < |FromPairs(pairs)| :: FromPairs(pairs)[i].0 in Keys(pairs)
  {
    var d := FromPairs(pairs);
    forall i | 0 <= i < |d| ensures d[i].0 in Keys(pairs) {
      assert Keys(d)[i] == d[i].0;
      FromPairsKeys(pairs, d[i].0);
    }
  }

  /** A property every assigned pair has, every entry of `FromPairs(pairs)` has. */
  lemma {:induction false} FromPairsAll<K(!new), V>(pairs: seq<(K, V)>, P: ((K, V)) -> bool)
    requires forall i | 0 <= i < |pairs| :: P(pairs[i])
    ensures forall i | 0 <= i < |FromPairs(pairs)| :: P(FromPairs(pairs)[i])
    decreases |pairs|
  {
    if pairs != [] {
      var n := |pairs| - 1;
      var d := FromPairs(pairs[..n]);
      FromPairsAll(pairs[..n], P);
      var (k, v) := pairs[n];
      var r := Set(d, k, v);
      assert r == FromPairs(pairs);
      if HasKey(d, k) {
        forall i | 0 <= i < |r| ensures P(r[i]) {
          if d[i].0 != k {
            assert r[i] == d[i];
          } else {
            assert Keys(r)[i] == k;
            var j := IndexOf(r, k);
            assert j == i;
          }
        }
      }
    }
  }

  // ---------------------------------------------------------------------------
  // Sums over the values

  /** The sum of `f` over the values, in insertion order. */
  function SumOf<K, V>(d: Dict<K, V>, f: V -> nat): nat
    decreases |d|
  {
    if d == [] then 0 else SumOf(d[..|d| - 1], f) + f(d[|d| - 1].1)
  }

  /** Replacing one entry changes the sum by the difference of the two values. */
  lemma {:induction false} SumOfUpdate<K, V>(d: Dict<K, V>, f: V -> nat, j: nat, x: (K, V))
    requires j < |d|
    ensures SumOf(d[j := x], f) == SumOf(d, f) - f(d[j].1) + f(x.1)
    decreases |d|
  {
    var n := |d| - 1;
    if j < n {
      assert d[j := x][..n] == d[..n][j := x];
      SumOfUpdate(d[..n], f, j, x);
    } else {
      assert d[j := x][..n] == d[..n];
    }
  }

  /** Appending an entry adds its value to the sum. */
  lemma SumOfAppend<K, V>(d: Dict<K, V>, f: V -> nat, x: (K, V))
    ensures SumOf(d + [x], f) == SumOf(d, f) + f(x.1)
  {
    assert (d + [x])[..|d|] == d;
  }
}
