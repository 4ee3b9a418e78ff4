/**
 * The skill-rating update applied after each finished game (GameView's `calculateNewRating`,
 * and the same formula inline in `updateRating`), and the prior rating it starts from.
 */
module Rating {
  import opened Wrappers
  import opened Document
  import opened Numerics
  import GameRecords

  const DefaultRating: int := 1000
  const KFactor: real := 32.0
  const BaselineScore: real := 0.5
  /** Seconds allowed per letter before the time score reaches zero. */
  const SecondsPerLetter: real := 5.0

  function Max(a: real, b: real): real { if a >= b then a else b }

  /** `max(0, 1 - solveTime / maxTime)` with `maxTime = wordLength * 5`. */
  function TimeScore(solveTime: real, wordLength: nat): (s: real)
    requires wordLength > 0
    ensures 0.0 <= s
    ensures solveTime >= 0.0 ==> s <= 1.0
    ensures solveTime >= wordLength as real * SecondsPerLetter ==> s == 0.0
  {
    Max(0.0, 1.0 - solveTime / (wordLength as real * SecondsPerLetter))
  }

  /** `max(0, 1 - (attempts - 1) / 5)`. */
  function AttemptScore(attempts: int): (s: real)
    ensures 0.0 <= s
    ensures attempts >= 1 ==> s <= 1.0
    ensures attempts == 1 ==> s == 1.0
    ensures attempts >= 6 ==> s == 0.0
  {
    Max(0.0, 1.0 - (attempts - 1) as real / 5.0)
  }

  function SuccessBonus(success: bool): real
  {
    if success then 1.0 else -0.5
  }

  /** `K * (performance - baseline)`, before it is added to the prior rating. */
  function RatingDelta(success: bool, solveTime: real, attempts: int, wordLength: nat): (d: real)
    requires wordLength > 0
    ensures solveTime >= 0.0 && attempts >= 1 && success ==> 16.0 <= d <= 48.0
    ensures solveTime >= 0.0 && attempts >= 1 && !success ==> -32.0 <= d <= 0.0
  {
    var average := (TimeScore(solveTime, wordLength) + AttemptScore(attempts)) / 2.0;
    KFactor * (average + SuccessBonus(success) - BaselineScore)
  }

  /** `Int(Double(lastRating) + delta)`: truncated toward zero, not rounded. */
  function NewRating(lastRating: int, success: bool, solveTime: real, attempts: int, wordLength: nat): (r: int)
    requires wordLength > 0
    ensures var x := lastRating as real + RatingDelta(success, solveTime, attempts, wordLength);
      && (x >= 0.0 ==> r as real <= x < r as real + 1.0)
      && (x < 0.0 ==> r as real - 1.0 < x <= r as real)
  {
    TruncToInt(lastRating as real + RatingDelta(success, solveTime, attempts, wordLength))
  }

  /** A win raises the rating by 16 to 48 points; a loss lowers it by 0 to 32. */
  lemma NewRatingBounds(lastRating: int, success: bool, solveTime: real, attempts: int, wordLength: nat)
    requires wordLength > 0
    ensures solveTime >= 0.0 && attempts >= 1 && success ==>
      lastRating + 16 <= NewRating(lastRating, success, solveTime, attempts, wordLength) <= lastRating + 48
    ensures solveTime >= 0.0 && attempts >= 1 && !success ==>
      lastRating - 32 <= NewRating(lastRating, success, solveTime, attempts, wordLength) <= lastRating
  {
    var x := lastRating as real + RatingDelta(success, solveTime, attempts, wordLength);
    if solveTime < 0.0 || attempts < 1 {
    } else if success {
      TruncMonotone((lastRating + 16) as real, x);
      TruncMonotone(x, (lastRating + 48) as real);
      TruncOfInt(lastRating + 16);
      TruncOfInt(lastRating + 48);
    } else {
      TruncMonotone((lastRating - 32) as real, x);
      TruncMonotone(x, lastRating as real);
      TruncOfInt(lastRating - 32);
      TruncOfInt(lastRating);
    }
  }

  /**
   * A loss is always rated as six attempts, which score nothing, so it costs 16 to 32 points:
   * 16 when the time score is full, 32 when it is zero.
   */
  lemma SixAttemptLoss(lastRating: int, solveTime: real, wordLength: nat)
    requires wordLength > 0
    ensures solveTime >= 0.0 ==> lastRating - 32 <= NewRating(lastRating, false, solveTime, 6, wordLength) <= lastRating - 16
  {
    if solveTime >= 0.0 {
      var x := lastRating as real + RatingDelta(false, solveTime, 6, wordLength);
      assert x == (lastRating - 32) as real + 16.0 * TimeScore(solveTime, wordLength);
      TruncMonotone((lastRating - 32) as real, x);
      TruncMonotone(x, (lastRating - 16) as real);
      TruncOfInt(lastRating - 32);
      TruncOfInt(lastRating - 16);
    }
  }

  /** Solving faster, or in fewer attempts, never gives a lower rating. */
  lemma NewRatingMonotone(lastRating: int, success: bool, t1: real, t2: real, a1: int, a2: int, wordLength: nat)
    requires wordLength > 0 && t1 <= t2 && a1 <= a2
    ensures NewRating(lastRating, success, t2, a2, wordLength) <= NewRating(lastRating, success, t1, a1, wordLength)
  {
    var len := wordLength as real * SecondsPerLetter;
    assert t1 / len <= t2 / len;
    TruncMonotone(lastRating as real + RatingDelta(success, t2, a2, wordLength),
                  lastRating as real + RatingDelta(success, t1, a1, wordLength));
  }

  /** A win always rates higher than a loss with the same time and attempts. */
  lemma WinBeatsLoss(lastRating: int, solveTime: real, attempts: int, wordLength: nat)
    requires wordLength > 0 && solveTime >= 0.0 && attempts >= 1
    ensures NewRating(lastRating, false, solveTime, attempts, wordLength) < NewRating(lastRating, true, solveTime, attempts, wordLength)
  {
    NewRatingBounds(lastRating, false, solveTime, attempts, wordLength);
    NewRatingBounds(lastRating, true, solveTime, attempts, wordLength);
  }

  /** Worked examples: a 10-second first-try win on a 4-letter word from 1000, and a 6-attempt loss from 1040. */
  lemma WorkedExamples()
    ensures NewRating(1000, true, 10.0, 1, 4) == 1040
    ensures NewRating(1040, false, 30.0, 6, 4) == 1008
  {
    assert TimeScore(10.0, 4) == 0.5;
    assert TimeScore(30.0, 4) == 0.0;
  }

  /** Truncation, not rounding: +37.6 gives 1037 and -26.4 from 5 gives -21. */
  lemma TruncationExamples()
    ensures NewRating(1000, true, 13.0, 1, 4) == 1037
    ensures NewRating(5, false, 13.0, 6, 4) == -21
  {
    assert TimeScore(13.0, 4) == 0.35;
    assert RatingDelta(true, 13.0, 1, 4) == 37.6;
    assert RatingDelta(false, 13.0, 6, 4) == -26.4;
  }

  /**
   * `getLastRating`: the `rating` of the last `ratingHistory` entry, read `as? Int`; 1000 when
   * there is no document, no well-formed history, an empty history, or no such rating.
   */
  function LastRating(data: Option<Fields>): (r: int)
    ensures data.None? ==> r == DefaultRating
    ensures data.Some? && AsRecords(Get(data.value, "ratingHistory")).None? ==> r == DefaultRating
    ensures data.Some? && AsRecords(Get(data.value, "ratingHistory")) == Some([]) ==> r == DefaultRating
  {
    match data
    case None => DefaultRating
    case Some(fields) =>
      match AsRecords(Get(fields, "ratingHistory"))
      case None => DefaultRating
      case Some(history) =>
        if history == [] then DefaultRating
        else AsInt(Get(history[|history| - 1], "rating")).GetOr(DefaultRating)
  }

  /** After the store appends a rating record, the next game starts from exactly that rating. */
  lemma LastRatingAfterSave(fields: Fields, history: seq<Value>, rating: int, success: bool, solveTime: real,
                            attempts: int, word: string, timestamp: real)
    requires AsRecords(Some(VArray(history))).Some?
    requires VMap(GameRecords.RatingDetail(rating, success, solveTime, attempts, word, timestamp)) !in history
    ensures
      var detail := VMap(GameRecords.RatingDetail(rating, success, solveTime, attempts, word, timestamp));
      LastRating(Some(fields["ratingHistory" := VArray(ArrayUnion(history, detail))])) == rating
  {
    var detail := VMap(GameRecords.RatingDetail(rating, success, solveTime, attempts, word, timestamp));
    var items := ArrayUnion(history, detail);
    assert items == history + [detail];
    assert items[|items| - 1] == detail;
  }
}
