/** Swift integer and floating-point conversions whose semantics differ from Dafny's. */
module Numerics {

  /** Swift's `Int(x)` for a finite Double: truncation toward zero, not rounding. */
  function TruncToInt(x: real): (n: int)
    ensures x >= 0.0 ==> 0 <= n && n as real <= x < n as real + 1.0
    ensures x < 0.0 ==> n <= 0 && n as real - 1.0 < x <= n as real
  {
    if x >= 0.0 then x.Floor else -((-x).Floor)
  }

  /** Truncation toward zero is monotone. */
  lemma TruncMonotone(x: real, y: real)
    requires x <= y
    ensures TruncToInt(x) <= TruncToInt(y)
  {
  }

  /** Truncating a whole number gives that number back. */
  lemma TruncOfInt(i: int)
    ensures TruncToInt(i as real) == i
  {
  }

  /** Swift's `a / b` on Int: the quotient truncated toward zero (Dafny's `/` is Euclidean). */
  function Quotient(a: int, b: int): (q: int)
    requires b > 0
    ensures a >= 0 ==> q * b <= a < q * b + b
    ensures a < 0 ==> q * b - b < a <= q * b
  {
    if a >= 0 then a / b else -((-a) / b)
  }

  /** The smallest element of a non-empty sequence (Swift's `min()!`). */
  function MinOf(s: seq<int>): (m: int)
    requires s != []
    ensures m in s
    ensures forall i | 0 <= i < |s| :: m <= s[i]
  {
    if |s| == 1 then s[0]
    else
      var rest := MinOf(s[1..]);
      if s[0] <= rest then s[0] else rest
  }

  /** The largest element of a non-empty sequence (Swift's `max()!`). */
  function MaxOf(s: seq<int>): (m: int)
    requires s != []
    ensures m in s
    ensures forall i | 0 <= i < |s| :: s[i] <= m
  {
    if |s| == 1 then s[0]
    else
      var rest := MaxOf(s[1..]);
      if s[0] >= rest then s[0] else rest
  }

  /** The sum of a sequence of integers (Swift's `reduce(0, +)`). */
  function SumOf(s: seq<int>): int
  {
    if s == [] then 0 else s[0] + SumOf(s[1..])
  }

  /** A sum lies between length times the minimum and length times the maximum. */
  lemma {:induction false} SumBetweenMinAndMax(s: seq<int>)
    requires s != []
    ensures |s| * MinOf(s) <= SumOf(s) <= |s| * MaxOf(s)
  {
    if |s| > 1 {
      var n, lo, hi := |s| - 1, MinOf(s), MaxOf(s);
      var restLo, restHi := MinOf(s[1..]), MaxOf(s[1..]);
      SumBetweenMinAndMax(s[1..]);
      assert restLo in s && restHi in s;
      MulMonotone(n, lo, restLo);
      MulMonotone(n, restHi, hi);
      MulSucc(n, lo);
      MulSucc(n, hi);
    }
  }

  lemma MulSucc(n: nat, a: int)
    ensures (n + 1) * a == a + n * a
  {
  }

  lemma MulMonotone(k: nat, a: int, b: int)
    requires a <= b
    ensures k * a <= k * b
  {
  }
}
