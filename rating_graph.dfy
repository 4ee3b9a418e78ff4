/** The rating chart's y-axis ticks (RatingGraphView.swift). */
module RatingGraph {
  import opened Numerics

  const Step: int := 100
  const DefaultTicks: seq<int> := [800, 900, 1000, 1100, 1200]

  /** `stride(from:through:by: 100)`: `from`, `from + 100`, ... up to and including `through`. */
  function Stride(from: int, through: int): (r: seq<int>)
    ensures from > through ==> r == []
    decreases through - from
  {
    if from > through then [] else [from] + Stride(from + Step, through)
  }

  /** A stride ascends in steps of exactly 100 from its start and has one value per step that fits. */
  lemma {:induction false} StrideShape(from: int, through: int)
    requires from <= through
    ensures |Stride(from, through)| == (through - from) / Step + 1
    ensures forall i | 0 <= i < |Stride(from, through)| :: Stride(from, through)[i] == from + i * Step
    decreases through - from
  {
    if from + Step <= through {
      StrideShape(from + Step, through);
    }
  }

  /** A stride between multiples of 100 ends exactly at `through`. */
  lemma StrideLast(from: int, through: int)
    requires from <= through && from % Step == 0 && through % Step == 0
    ensures |Stride(from, through)| > 0
    ensures Stride(from, through)[|Stride(from, through)| - 1] == through
  {
    StrideShape(from, through);
    var k := (through - from) / Step;
    assert through - from == k * Step;
  }

  /** The ratings charted: the second component of each history point. */
  function Ratings(history: seq<(real, int)>): (rs: seq<int>)
    ensures |rs| == |history|
    ensures forall i | 0 <= i < |history| :: rs[i] == history[i].1
  {
    seq(|history|, i requires 0 <= i < |history| => history[i].1)
  }

  /**
   * `yAxisValues` as written: the defaults for an empty history; otherwise the minimum and one step
   * past the maximum, each divided by 100 with Swift's truncating `/` and multiplied back.
   */
  function YAxisValues(history: seq<(real, int)>): (ticks: seq<int>)
    ensures history == [] ==> ticks == DefaultTicks
  {
    if history == [] then DefaultTicks
    else
      var rs := Ratings(history);
      Stride(Quotient(MinOf(rs), Step) * Step, Quotient(MaxOf(rs) + Step, Step) * Step)
  }

  /**
   * For non-negative ratings the axis starts at a multiple of 100 at or below the lowest rating,
   * ends at a multiple of 100 above the highest, ascends by 100, and so spans every rating.
   */
  lemma AxisCoversNonNegativeRatings(history: seq<(real, int)>)
    requires history != []
    requires forall i | 0 <= i < |history| :: history[i].1 >= 0
    ensures var ticks := YAxisValues(history);
      && ticks != []
      && ticks[0] % Step == 0 && ticks[|ticks| - 1] % Step == 0
      && ticks[0] <= MinOf(Ratings(history)) && MaxOf(Ratings(history)) < ticks[|ticks| - 1]
      && (forall i | 0 <= i < |ticks| - 1 :: ticks[i + 1] == ticks[i] + Step)
      && |ticks| == (ticks[|ticks| - 1] - ticks[0]) / Step + 1
      && (forall i | 0 <= i < |history| :: ticks[0] <= history[i].1 <= ticks[|ticks| - 1])
  {
    var rs := Ratings(history);
    var lo, hi := MinOf(rs), MaxOf(rs);
    assert lo in rs;
    var first, last := Quotient(lo, Step) * Step, Quotient(hi + Step, Step) * Step;
    AxisEnds(lo, hi);
    assert YAxisValues(history) == Stride(first, last);
    StrideShape(first, last);
    StrideLast(first, last);
    forall i | 0 <= i < |history|
      ensures first <= history[i].1 <= last
    {
      assert rs[i] == history[i].1;
    }
  }

  /** For non-negative ratings truncation is floor: the ends are multiples of 100 around the ratings. */
  lemma AxisEnds(lo: int, hi: int)
    requires 0 <= lo <= hi
    ensures Quotient(lo, Step) * Step % Step == 0 && Quotient(hi + Step, Step) * Step % Step == 0
    ensures Quotient(lo, Step) * Step <= lo && hi < Quotient(hi + Step, Step) * Step
  {
  }

  /** A negative rating can fall below the axis: truncation rounds a negative minimum up, not down. */
  lemma NegativeRatingOffAxis()
    ensures YAxisValues([(0.0, -21)]) == [0]
    ensures -21 < YAxisValues([(0.0, -21)])[0]
  {
    assert Ratings([(0.0, -21)]) == [-21];
    assert Quotient(-21, Step) == 0;
    assert Quotient(-21 + Step, Step) == 0;
  }

  /** The axis the "round down to nearest hundred" intent describes: floor division at both ends. */
  function FlooredYAxisValues(history: seq<(real, int)>): (ticks: seq<int>)
    ensures history == [] ==> ticks == DefaultTicks
    ensures history != [] ==> ticks != []
  {
    if history == [] then DefaultTicks
    else
      var rs := Ratings(history);
      assert MinOf(rs) / Step * Step <= MinOf(rs) <= MaxOf(rs) < (MaxOf(rs) + Step) / Step * Step;
      Stride(MinOf(rs) / Step * Step, (MaxOf(rs) + Step) / Step * Step)
  }

  /** With floor division every rating, negative or not, lies on the axis. */
  lemma FlooredAxisCoversRatings(history: seq<(real, int)>)
    requires history != []
    ensures var ticks := FlooredYAxisValues(history);
      && ticks[0] % Step == 0 && ticks[|ticks| - 1] % Step == 0
      && (forall i | 0 <= i < |ticks| - 1 :: ticks[i + 1] == ticks[i] + Step)
      && (forall i | 0 <= i < |history| :: ticks[0] <= history[i].1 < ticks[|ticks| - 1])
  {
    var rs := Ratings(history);
    var lo, hi := MinOf(rs), MaxOf(rs);
    assert lo in rs;
    var first, last := lo / Step * Step, (hi + Step) / Step * Step;
    FlooredEnds(lo, hi);
    assert FlooredYAxisValues(history) == Stride(first, last);
    StrideShape(first, last);
    StrideLast(first, last);
    forall i | 0 <= i < |history|
      ensures first <= history[i].1 < last
    {
      assert rs[i] == history[i].1;
    }
  }

  /** Floor division puts the ends at multiples of 100 around any ratings. */
  lemma FlooredEnds(lo: int, hi: int)
    requires lo <= hi
    ensures lo / Step * Step % Step == 0 && (hi + Step) / Step * Step % Step == 0
    ensures lo / Step * Step <= lo && hi < (hi + Step) / Step * Step
  {
  }

  /** The two axes agree whenever every rating is non-negative. */
  lemma FlooredAgreesOnNonNegative(history: seq<(real, int)>)
    requires forall i | 0 <= i < |history| :: history[i].1 >= 0
    ensures FlooredYAxisValues(history) == YAxisValues(history)
  {
    if history != [] {
      var rs := Ratings(history);
      assert MinOf(rs) in rs;
    }
  }
}
