/** The collection operations the Swift code uses: `compactMap`, and `values.reduce(0, +)` / `values.max()` on dictionaries. */
module Collections {
  import opened Wrappers

  /** Swift's `compactMap`: apply `f` and keep the non-nil results, in order. */
  function CompactMap<A, B>(xs: seq<A>, f: A -> Option<B>): (r: seq<B>)
    ensures |r| <= |xs|
  {
    if xs == [] then []
    else if f(xs[0]).Some? then [f(xs[0]).value] + CompactMap(xs[1..], f)
    else CompactMap(xs[1..], f)
  }

  /** How many elements `f` maps to a value. */
  function CountSome<A, B>(xs: seq<A>, f: A -> Option<B>): nat
  {
    if xs == [] then 0 else (if f(xs[0]).Some? then 1 else 0) + CountSome(xs[1..], f)
  }

  /** Exactly the elements that map to a value survive. */
  lemma {:induction false} CompactMapLength<A, B>(xs: seq<A>, f: A -> Option<B>)
    ensures |CompactMap(xs, f)| == CountSome(xs, f)
    ensures |CompactMap(xs, f)| == |xs| <==> forall i | 0 <= i < |xs| :: f(xs[i]).Some?
  {
    if xs != [] {
      CompactMapLength(xs[1..], f);
      assert forall i | 1 <= i < |xs| :: xs[i] == xs[1..][i - 1];
    }
  }

  /** compactMap works element by element: the survivors of a concatenation are the survivors of each part, in order. */
  lemma {:induction false} CompactMapAppend<A, B>(xs: seq<A>, ys: seq<A>, f: A -> Option<B>)
    ensures CompactMap(xs + ys, f) == CompactMap(xs, f) + CompactMap(ys, f)
  {
    if xs == [] {
      assert xs + ys == ys;
    } else {
      assert (xs + ys)[1..] == xs[1..] + ys;
      CompactMapAppend(xs[1..], ys, f);
    }
  }

  /** Every survivor comes from some input element. */
  lemma {:induction false} CompactMapOrigin<A, B>(xs: seq<A>, f: A -> Option<B>, y: B)
    requires y in CompactMap(xs, f)
    ensures exists i | 0 <= i < |xs| :: f(xs[i]) == Some(y)
  {
    if f(xs[0]).Some? && y == f(xs[0]).value {
      assert f(xs[0]) == Some(y);
    } else {
      CompactMapOrigin(xs[1..], f, y);
      var i :| 0 <= i < |xs[1..]| && f(xs[1..][i]) == Some(y);
      assert f(xs[i + 1]) == Some(y);
    }
  }

  /** Every element that maps to a value contributes it. */
  lemma {:induction false} CompactMapKeeps<A, B>(xs: seq<A>, f: A -> Option<B>, i: nat)
    requires i < |xs| && f(xs[i]).Some?
    ensures f(xs[i]).value in CompactMap(xs, f)
  {
    if i > 0 {
      CompactMapKeeps(xs[1..], f, i - 1);
    }
  }

  /** An arbitrary but fixed key of a non-empty key set. */
  ghost function Pick<K>(keys: set<K>): (k: K)
    requires keys != {}
    ensures k in keys
  {
    var k :| k in keys; k
  }

  /** `dictionary.values.reduce(0, +)`: the sum of the values over all keys (duplicate values all count). */
  ghost function Sum<K>(m: map<K, int>): int
    decreases |m|
  {
    if m == map[] then 0
    else
      var k := Pick(m.Keys);
      m[k] + Sum(m - {k})
  }

  /** The sum does not depend on which key is taken first. */
  lemma {:induction false} SumRemove<K>(m: map<K, int>, k: K)
    requires k in m
    ensures Sum(m) == m[k] + Sum(m - {k})
    decreases |m|
  {
    var j := Pick(m.Keys);
    if j != k {
      SumRemove(m - {j}, k);
      SumRemove(m - {k}, j);
      assert m - {j} - {k} == m - {k} - {j};
    }
  }

  /** Sums of non-negative values are non-negative. */
  lemma {:induction false} SumNonNegative<K>(m: map<K, int>)
    requires forall k | k in m :: m[k] >= 0
    ensures Sum(m) >= 0
    decreases |m|
  {
    if m != map[] {
      SumNonNegative(m - {Pick(m.Keys)});
    }
  }

  /** The store's `FieldValue.increment(1)` on one key: a missing key counts as zero. */
  function Increment<K>(m: map<K, int>, k: K): (m': map<K, int>)
    ensures m'.Keys == m.Keys + {k}
  {
    m[k := (if k in m then m[k] else 0) + 1]
  }

  /** Incrementing one key raises the sum of all values by exactly one. */
  lemma IncrementSum<K>(m: map<K, int>, k: K)
    ensures Sum(Increment(m, k)) == Sum(m) + 1
  {
    var m' := Increment(m, k);
    SumRemove(m', k);
    assert m' - {k} == m - {k};
    if k in m {
      SumRemove(m, k);
    } else {
      assert m - {k} == m;
    }
  }

  /** `dictionary.values.max()`, defined only on a non-empty dictionary. */
  ghost function MaxValue<K>(m: map<K, int>): (r: int)
    requires m != map[]
    ensures exists k | k in m :: m[k] == r
    ensures forall k | k in m :: m[k] <= r
    decreases |m|
  {
    var k := Pick(m.Keys);
    assert forall j | j in m && j != k :: j in m - {k} && (m - {k})[j] == m[j];
    if m - {k} == map[] then
      m[k]
    else
      var rest := MaxValue(m - {k});
      if m[k] >= rest then m[k] else rest
  }

  /** With non-negative values the sum is non-negative and no single value exceeds it. */
  lemma SumBounds<K>(m: map<K, int>)
    ensures (forall k | k in m :: m[k] >= 0) ==> 0 <= Sum(m) && (m != map[] ==> MaxValue(m) <= Sum(m))
  {
    if forall k | k in m :: m[k] >= 0 {
      SumNonNegative(m);
      if m != map[] {
        MaxValueAtMostSum(m);
      }
    }
  }

  /** With non-negative values, no single value exceeds the sum. */
  lemma {:induction false} MaxValueAtMostSum<K>(m: map<K, int>)
    requires m != map[]
    requires forall k | k in m :: m[k] >= 0
    ensures MaxValue(m) <= Sum(m)
  {
    var k :| k in m && m[k] == MaxValue(m);
    SumRemove(m, k);
    SumNonNegative(m - {k});
  }
}
