/**
 * The profile screen's view model (ProfileViewModel.swift): turning the player's document into a
 * `User`, and the statistics shown from it.
 */
module Profile {
  import opened Wrappers
  import opened Document
  import opened Numerics
  import opened Collections
  import opened Records
  import GameRecords

  const UnknownEmail: string := "Unknown Email"
  const UnknownName: string := "Unknown Name"

  /** One `solvedDetails` entry, or nothing when `word`, `solveTime`, `attempts` or `timestamp` is missing or mistyped. */
  function ParseSolveDetail(detail: Fields): (r: Option<SolveDetail>)
    ensures r.Some? <==>
      && AsString(Get(detail, "word")).Some? && AsDouble(Get(detail, "solveTime")).Some?
      && AsInt(Get(detail, "attempts")).Some? && AsTimestamp(Get(detail, "timestamp")).Some?
  {
    match (AsString(Get(detail, "word")), AsDouble(Get(detail, "solveTime")),
           AsInt(Get(detail, "attempts")), AsTimestamp(Get(detail, "timestamp")))
    case (Some(word), Some(solveTime), Some(attempts), Some(timestamp)) =>
      Some(SolveDetail(word, solveTime, attempts, timestamp))
    case _ => None
  }

  /** One `ratingHistory` entry, or nothing when any of its six fields is missing or mistyped. */
  function ParseRatingEntry(entry: Fields): (r: Option<RatingEntry>)
    ensures r.Some? <==>
      && AsInt(Get(entry, "attempts")).Some? && AsDouble(Get(entry, "rating")).Some?
      && AsDouble(Get(entry, "solveTime")).Some? && AsBool(Get(entry, "success")).Some?
      && AsTimestamp(Get(entry, "timestamp")).Some? && AsString(Get(entry, "word")).Some?
  {
    match (AsInt(Get(entry, "attempts")), AsDouble(Get(entry, "rating")), AsDouble(Get(entry, "solveTime")),
           AsBool(Get(entry, "success")), AsTimestamp(Get(entry, "timestamp")), AsString(Get(entry, "word")))
    case (Some(attempts), Some(rating), Some(solveTime), Some(success), Some(timestamp), Some(word)) =>
      Some(RatingEntry(attempts, rating, solveTime, success, timestamp, word))
    case _ => None
  }

  /** The raw entries of an array-of-dictionaries field, or none when it is missing or mistyped. */
  function RawEntries(data: Fields, key: string): seq<Fields>
  {
    AsRecords(Get(data, key)).GetOr([])
  }

  /** `parseUserData`: missing scalars take defaults; malformed list entries are dropped. */
  function ParseUserData(id: string, data: Fields): (u: User)
    ensures u.id == id
    ensures u.email == AsString(Get(data, "email")).GetOr(UnknownEmail)
    ensures u.name == AsString(Get(data, "name")).GetOr(UnknownName)
    ensures u.failedAttempts == AsInt(Get(data, "failedAttempts")).GetOr(0)
    ensures u.dailySolveCount == AsIntMap(Get(data, "dailySolveCount")).GetOr(map[])
    ensures |u.solvedDetails| <= |RawEntries(data, "solvedDetails")|
    ensures |u.ratingHistory| <= |RawEntries(data, "ratingHistory")|
  {
    User(
      id,
      AsString(Get(data, "email")).GetOr(UnknownEmail),
      AsString(Get(data, "name")).GetOr(UnknownName),
      CompactMap(RawEntries(data, "solvedDetails"), ParseSolveDetail),
      AsIntMap(Get(data, "dailySolveCount")).GetOr(map[]),
      CompactMap(RawEntries(data, "ratingHistory"), ParseRatingEntry),
      AsInt(Get(data, "failedAttempts")).GetOr(0))
  }

  /** An empty document gives the defaults and empty histories. */
  lemma ParseEmptyDocument(id: string)
    ensures ParseUserData(id, map[]) == User(id, UnknownEmail, UnknownName, [], map[], [], 0)
  {
  }

  /**
   * Malformed entries are dropped and the rest kept: the parsed lists hold exactly as many entries
   * as are well-formed, and nothing is dropped when every entry is well-formed.
   */
  lemma MalformedEntriesDropped(id: string, data: Fields)
    ensures |ParseUserData(id, data).solvedDetails| == CountSome(RawEntries(data, "solvedDetails"), ParseSolveDetail)
    ensures |ParseUserData(id, data).ratingHistory| == CountSome(RawEntries(data, "ratingHistory"), ParseRatingEntry)
    ensures (forall i | 0 <= i < |RawEntries(data, "solvedDetails")| :: ParseSolveDetail(RawEntries(data, "solvedDetails")[i]).Some?)
            ==> |ParseUserData(id, data).solvedDetails| == |RawEntries(data, "solvedDetails")|
    ensures (forall i | 0 <= i < |RawEntries(data, "ratingHistory")| :: ParseRatingEntry(RawEntries(data, "ratingHistory")[i]).Some?)
            ==> |ParseUserData(id, data).ratingHistory| == |RawEntries(data, "ratingHistory")|
  {
    CompactMapLength(RawEntries(data, "solvedDetails"), ParseSolveDetail);
    CompactMapLength(RawEntries(data, "ratingHistory"), ParseRatingEntry);
  }

  /** What GameView writes on a win reads back unchanged. */
  lemma SolvedDetailRoundTrip(word: string, solveTime: real, attempts: int, timestamp: real)
    ensures ParseSolveDetail(GameRecords.SolvedDetailRecord(word, solveTime, attempts, timestamp))
            == Some(SolveDetail(word, solveTime, attempts, timestamp))
  {
  }

  /** What GameView writes as a rating record reads back, the Int rating widened to Double. */
  lemma RatingDetailRoundTrip(rating: int, success: bool, solveTime: real, attempts: int, word: string, timestamp: real)
    ensures ParseRatingEntry(GameRecords.RatingDetail(rating, success, solveTime, attempts, word, timestamp))
            == Some(RatingEntry(attempts, rating as real, solveTime, success, timestamp, word))
  {
  }

  /** Appending a win's record to a well-formed `solvedDetails` adds exactly that solve at the end of the parsed list. */
  lemma ParseAfterSolve(id: string, data: Fields, word: string, solveTime: real, attempts: int, timestamp: real)
    requires AsRecords(Get(data, "solvedDetails")).Some?
    ensures
      var record := GameRecords.SolvedDetailRecord(word, solveTime, attempts, timestamp);
      var data' := data["solvedDetails" := VArray(Get(data, "solvedDetails").value.items + [VMap(record)])];
      ParseUserData(id, data').solvedDetails == ParseUserData(id, data).solvedDetails + [SolveDetail(word, solveTime, attempts, timestamp)]
  {
    var record := GameRecords.SolvedDetailRecord(word, solveTime, attempts, timestamp);
    var items := Get(data, "solvedDetails").value.items;
    var data' := data["solvedDetails" := VArray(items + [VMap(record)])];
    assert RawEntries(data', "solvedDetails") == RawEntries(data, "solvedDetails") + [record];
    CompactMapAppend(RawEntries(data, "solvedDetails"), [record], ParseSolveDetail);
    assert CompactMap([record], ParseSolveDetail) == [SolveDetail(word, solveTime, attempts, timestamp)];
  }

  // ----- Statistics -----

  /** `totalGamesPlayed`: wins plus recorded failures. */
  function TotalGamesPlayed(u: User): (n: int)
    ensures u.failedAttempts >= 0 ==> n >= |u.solvedDetails|
  {
    |u.solvedDetails| + u.failedAttempts
  }

  /** Each finished game counts once: a recorded win or a recorded failure adds exactly one game. */
  lemma EachGameCountsOnce(u: User, d: SolveDetail)
    ensures TotalGamesPlayed(u.(solvedDetails := u.solvedDetails + [d])) == TotalGamesPlayed(u) + 1
    ensures TotalGamesPlayed(u.(failedAttempts := u.failedAttempts + 1)) == TotalGamesPlayed(u) + 1
  {
  }

  /** `winPercentage`: wins over games, times 100; 0 when no game was played. */
  function WinPercentage(u: User): (p: real)
    ensures TotalGamesPlayed(u) <= 0 ==> p == 0.0
    ensures TotalGamesPlayed(u) > 0 ==> p * TotalGamesPlayed(u) as real == 100.0 * |u.solvedDetails| as real
    ensures u.failedAttempts >= 0 ==> 0.0 <= p <= 100.0
    ensures u.failedAttempts == 0 && |u.solvedDetails| > 0 ==> p == 100.0
  {
    var wins := |u.solvedDetails|;
    var total := TotalGamesPlayed(u);
    if total > 0 then (wins as real / total as real) * 100.0 else 0.0
  }

  /** `longestStreak`: despite its name, the largest single-day solve count, or 0. */
  ghost function LongestStreak(u: User): (n: int)
    ensures u.dailySolveCount == map[] ==> n == 0
    ensures u.dailySolveCount != map[] ==> exists day | day in u.dailySolveCount :: u.dailySolveCount[day] == n
    ensures forall day | day in u.dailySolveCount :: u.dailySolveCount[day] <= n
  {
    if u.dailySolveCount == map[] then 0 else MaxValue(u.dailySolveCount)
  }

  /** The attempts of each recorded solve. */
  function Attempts(u: User): (a: seq<int>)
    ensures |a| == |u.solvedDetails|
  {
    seq(|u.solvedDetails|, i requires 0 <= i < |u.solvedDetails| => u.solvedDetails[i].attempts)
  }

  /** `averageAttempts`: the mean attempts over recorded solves, or 0 with none. */
  function AverageAttempts(u: User): (avg: real)
    ensures u.solvedDetails == [] ==> avg == 0.0
    ensures u.solvedDetails != [] ==> avg * |u.solvedDetails| as real == SumOf(Attempts(u)) as real
  {
    if u.solvedDetails == [] then 0.0
    else SumOf(Attempts(u)) as real / |u.solvedDetails| as real
  }

  /** The mean lies between the fewest and the most attempts. */
  lemma AverageBetweenMinAndMax(u: User)
    requires u.solvedDetails != []
    ensures MinOf(Attempts(u)) as real <= AverageAttempts(u) <= MaxOf(Attempts(u)) as real
  {
    MeanBetweenMinAndMax(Attempts(u));
  }

  lemma MeanBetweenMinAndMax(a: seq<int>)
    requires a != []
    ensures MinOf(a) as real <= SumOf(a) as real / |a| as real <= MaxOf(a) as real
  {
    SumBetweenMinAndMax(a);
    MeanBounds(SumOf(a), |a|, MinOf(a), MaxOf(a));
  }

  lemma MeanBounds(total: int, n: int, lo: int, hi: int)
    requires n > 0 && n * lo <= total <= n * hi
    ensures lo as real <= total as real / n as real <= hi as real
  {
    assert (n * lo) as real == n as real * lo as real;
    assert (n * hi) as real == n as real * hi as real;
    DivBounds(total as real, n as real, lo as real, hi as real);
  }

  lemma DivBounds(s: real, n: real, lo: real, hi: real)
    requires n > 0.0 && n * lo <= s <= n * hi
    ensures lo <= s / n <= hi
  {
    var q := s / n;
    assert s == n * q;
    assert n * (q - lo) >= 0.0;
    assert n * (hi - q) >= 0.0;
  }

  /** `ratingHistory`: (date, rating) pairs in order, each rating truncated to Int toward zero. */
  function RatingHistory(u: User): (h: seq<(real, int)>)
    ensures |h| == |u.ratingHistory|
    ensures forall i | 0 <= i < |h| :: h[i] == (u.ratingHistory[i].timestamp, TruncToInt(u.ratingHistory[i].rating))
  {
    seq(|u.ratingHistory|, i requires 0 <= i < |u.ratingHistory| =>
      (u.ratingHistory[i].timestamp, TruncToInt(u.ratingHistory[i].rating)))
  }

  /** Ratings GameView wrote as Ints are charted exactly as written. */
  lemma WrittenRatingsChartedExactly(u: User, ratings: seq<int>)
    requires |ratings| == |u.ratingHistory|
    requires forall i | 0 <= i < |ratings| :: u.ratingHistory[i].rating == ratings[i] as real
    ensures forall i | 0 <= i < |ratings| :: RatingHistory(u)[i].1 == ratings[i]
  {
    forall i | 0 <= i < |ratings|
      ensures RatingHistory(u)[i].1 == ratings[i]
    {
      TruncOfInt(ratings[i]);
    }
  }
}
