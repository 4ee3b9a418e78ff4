/**
 * The leaderboard (LeaderboardView.swift): each player's document aggregated into a `Player`
 * with a weighted score, and the players shown in non-increasing order of that score.
 */
module Leaderboard {
  import opened Wrappers
  import opened Document
  import opened Collections
  import GameRecords

  /** A leaderboard row. `fastestSolveTime` is kept as the number the app formats for display. */
  datatype Player = Player(id: string, name: string, solvedWords: seq<string>, fastestSolveTime: real, accuracy: real, rating: real)

  const MaxSolveTime: real := 300.0
  const MaxSolves: real := 100.0
  const MaxStreakDays: real := 30.0
  const MaxFailures: real := 50.0

  // ----- Score -----

  function MinReal(a: real, b: real): real
  {
    if a <= b then a else b
  }

  /** The time component: 1 for an instant solve, falling linearly to 0 at five minutes and beyond. */
  function TimeScore(fastestTime: real): (t: real)
    ensures fastestTime >= 0.0 ==> 0.0 <= t <= 1.0
    ensures fastestTime >= MaxSolveTime ==> t == 0.0
    ensures fastestTime == 0.0 ==> t == 1.0
  {
    1.0 - MinReal(fastestTime / MaxSolveTime, 1.0)
  }

  /** A slower best time never scores more. */
  lemma TimeScoreMonotone(fastest: real, later: real)
    requires fastest <= later
    ensures TimeScore(later) <= TimeScore(fastest)
  {
  }

  /** `calculateRating`: a weighted sum of normalised solves, speed, accuracy and daily activity, less a failure penalty. */
  function CalculateRating(solvedCount: int, fastestTime: real, accuracy: real, consistency: int, failedAttempts: int): (s: real)
    ensures solvedCount >= 0 && fastestTime >= 0.0 && accuracy >= 0.0 && consistency >= 0
            ==> s >= -(failedAttempts as real) / MaxFailures
    ensures solvedCount == 100 && fastestTime == 0.0 && accuracy == 1.0 && consistency == 30 && failedAttempts == 0
            ==> s == 1.0
  {
    (solvedCount as real / MaxSolves) * 0.4
      + TimeScore(fastestTime) * 0.3
      + accuracy * 0.2
      + (consistency as real / MaxStreakDays) * 0.1
      - failedAttempts as real / MaxFailures
  }

  /**
   * More solves, a faster best time, higher accuracy, more daily activity and fewer failures never
   * lower the score (each argument alone is the special case where the others are equal).
   */
  lemma ScoreMonotone(solved: int, fastest: real, accuracy: real, consistency: int, failed: int,
                      solved': int, fastest': real, accuracy': real, consistency': int, failed': int)
    requires solved <= solved' && fastest' <= fastest && accuracy <= accuracy'
    requires consistency <= consistency' && failed' <= failed
    ensures CalculateRating(solved, fastest, accuracy, consistency, failed)
            <= CalculateRating(solved', fastest', accuracy', consistency', failed')
  {
    TimeScoreMonotone(fastest', fastest);
  }

  /** Each extra failure costs exactly 1/50, and each extra solve is worth exactly 0.4/100. */
  lemma ScoreSteps(solved: int, fastest: real, accuracy: real, consistency: int, failed: int)
    ensures CalculateRating(solved, fastest, accuracy, consistency, failed + 1)
            == CalculateRating(solved, fastest, accuracy, consistency, failed) - 1.0 / MaxFailures
    ensures CalculateRating(solved + 1, fastest, accuracy, consistency, failed)
            == CalculateRating(solved, fastest, accuracy, consistency, failed) + 0.4 / MaxSolves
  {
  }

  /** With non-negative inputs the score is at most solves/250 + 0.5 + consistency/300. */
  lemma ScoreUpperBound(solved: int, fastest: real, accuracy: real, consistency: int, failed: int)
    requires fastest >= 0.0 && accuracy <= 1.0 && failed >= 0
    ensures CalculateRating(solved, fastest, accuracy, consistency, failed)
            <= solved as real * 0.004 + 0.5 + consistency as real / 300.0
  {
  }

  // ----- Aggregation of one document -----

  /** `$0["word"] as? String` on one solved entry. */
  function EntryWord(entry: Fields): Option<string>
  {
    AsString(Get(entry, "word"))
  }

  /** `$0["solveTime"] as? Double` on one solved entry. */
  function EntrySolveTime(entry: Fields): Option<real>
  {
    AsDouble(Get(entry, "solveTime"))
  }

  /** `min()` of a non-empty list. */
  function MinOfReals(s: seq<real>): (m: real)
    requires s != []
    ensures m in s
    ensures forall i | 0 <= i < |s| :: m <= s[i]
  {
    if |s| == 1 then s[0] else MinReal(s[0], MinOfReals(s[1..]))
  }

  /** The best solve time, or 0 when none is recorded. */
  function FastestSolveTime(times: seq<real>): (t: real)
    ensures times == [] ==> t == 0.0
    ensures times != [] ==> t in times && forall i | 0 <= i < |times| :: t <= times[i]
  {
    if times == [] then 0.0 else MinOfReals(times)
  }

  /**
   * Wins over wins plus failures, or 0 when no solve time is recorded. The app divides in
   * floating point; the model requires a non-zero denominator where it divides.
   */
  function Accuracy(solvedCount: nat, failedAttempts: int, hasTimes: bool): (a: real)
    requires hasTimes ==> solvedCount + failedAttempts != 0
    ensures !hasTimes ==> a == 0.0
    ensures hasTimes ==> a * (solvedCount + failedAttempts) as real == solvedCount as real
    ensures failedAttempts >= 0 ==> 0.0 <= a <= 1.0
    ensures hasTimes && failedAttempts == 0 ==> a == 1.0
  {
    if !hasTimes then 0.0 else solvedCount as real / (solvedCount + failedAttempts) as real
  }

  /** The sum of all daily solve counts, or 0 when the map is missing or mistyped. */
  ghost function Consistency(data: Fields): (c: int)
    ensures AsIntMap(Get(data, "dailySolveCount")).None? ==> c == 0
    ensures var counts := AsIntMap(Get(data, "dailySolveCount")).GetOr(map[]);
      (forall day | day in counts :: counts[day] >= 0) ==> 0 <= c && (counts != map[] ==> MaxValue(counts) <= c)
  {
    var counts := AsIntMap(Get(data, "dailySolveCount")).GetOr(map[]);
    SumBounds(counts);
    Sum(counts)
  }

  /** A document the leaderboard reads: it has a name, a solved list, a failure count and a user id. */
  predicate WellFormed(data: Fields)
    ensures WellFormed(data) ==> "name" in data && "solvedDetails" in data && "failedAttempts" in data
    ensures WellFormed(data) ==> "userId" in data && data["userId"].VString?
  {
    && AsString(Get(data, "name")).Some?
    && AsRecords(Get(data, "solvedDetails")).Some?
    && AsInt(Get(data, "failedAttempts")).Some?
    && AsString(Get(data, "userId")).Some?
  }

  /** The accuracy of a well-formed document is a number: its denominator is non-zero whenever it is used. */
  predicate AccuracyDefined(data: Fields)
  {
    WellFormed(data) ==>
      var details := AsRecords(Get(data, "solvedDetails")).value;
      CompactMap(details, EntrySolveTime) != [] ==>
        |CompactMap(details, EntryWord)| + AsInt(Get(data, "failedAttempts")).value != 0
  }

  /** The `compactMap` closure of the snapshot listener: one document to one player, or none. */
  ghost function PlayerOf(data: Fields): (r: Option<Player>)
    requires AccuracyDefined(data)
    ensures r.Some? <==> WellFormed(data)
    ensures r.Some? ==>
      && r.value.id == AsString(Get(data, "userId")).value
      && r.value.name == AsString(Get(data, "name")).value
      && r.value.solvedWords == CompactMap(AsRecords(Get(data, "solvedDetails")).value, EntryWord)
  {
    if !WellFormed(data) then None
    else
      var name := AsString(Get(data, "name")).value;
      var details := AsRecords(Get(data, "solvedDetails")).value;
      var failed := AsInt(Get(data, "failedAttempts")).value;
      var userId := AsString(Get(data, "userId")).value;
      var words := CompactMap(details, EntryWord);
      var times := CompactMap(details, EntrySolveTime);
      var fastest := FastestSolveTime(times);
      var accuracy := Accuracy(|words|, failed, times != []);
      Some(Player(userId, name, words, fastest, accuracy,
                  CalculateRating(|words|, fastest, accuracy, Consistency(data), failed)))
  }

  /** Every document of the snapshot, in order, to the players it yields. */
  ghost function Players(docs: seq<Fields>): (ps: seq<Player>)
    requires forall i | 0 <= i < |docs| :: AccuracyDefined(docs[i])
    ensures |ps| <= |docs|
  {
    if docs == [] then []
    else
      (if WellFormed(docs[0]) then [PlayerOf(docs[0]).value] else []) + Players(docs[1..])
  }

  /** A well-formed document yields exactly one player, in place; any other yields none. */
  lemma {:induction false} PlayersAppend(docs: seq<Fields>, doc: Fields)
    requires forall i | 0 <= i < |docs| :: AccuracyDefined(docs[i])
    requires AccuracyDefined(doc)
    ensures forall i | 0 <= i < |docs + [doc]| :: AccuracyDefined((docs + [doc])[i])
    ensures Players(docs + [doc]) == Players(docs) + (if WellFormed(doc) then [PlayerOf(doc).value] else [])
  {
    if docs != [] {
      assert (docs + [doc])[1..] == docs[1..] + [doc];
      PlayersAppend(docs[1..], doc);
    }
  }

  /** Every player comes from some document of the snapshot. */
  lemma {:induction false} PlayerOrigin(docs: seq<Fields>, p: Player)
    requires forall i | 0 <= i < |docs| :: AccuracyDefined(docs[i])
    requires p in Players(docs)
    ensures exists i | 0 <= i < |docs| :: PlayerOf(docs[i]) == Some(p)
  {
    if WellFormed(docs[0]) && p == PlayerOf(docs[0]).value {
      assert PlayerOf(docs[0]) == Some(p);
    } else {
      assert p in Players(docs[1..]);
      PlayerOrigin(docs[1..], p);
      var i :| 0 <= i < |docs[1..]| && PlayerOf(docs[1..][i]) == Some(p);
      assert PlayerOf(docs[i + 1]) == Some(p);
    }
  }

  /** No document is dropped exactly when every document is well-formed. */
  lemma {:induction false} PlayersKeepAll(docs: seq<Fields>)
    requires forall i | 0 <= i < |docs| :: AccuracyDefined(docs[i])
    ensures (forall i | 0 <= i < |docs| :: WellFormed(docs[i])) <==> |Players(docs)| == |docs|
  {
    if docs != [] {
      PlayersKeepAll(docs[1..]);
      assert forall i | 1 <= i < |docs| :: docs[i] == docs[1..][i - 1];
    }
  }

  /** A player with no history has no solves, a fastest time of 0 and accuracy 0, and scores exactly 0.3. */
  lemma NewPlayerScore(data: Fields)
    requires WellFormed(data)
    requires AsRecords(Get(data, "solvedDetails")).value == []
    requires AsInt(Get(data, "failedAttempts")).value == 0
    requires AsIntMap(Get(data, "dailySolveCount")).GetOr(map[]) == map[]
    ensures AccuracyDefined(data)
    ensures PlayerOf(data).value.fastestSolveTime == 0.0 && PlayerOf(data).value.accuracy == 0.0
    ensures PlayerOf(data).value.rating == 0.3
  {
  }

  /**
   * The document the app writes at sign-up names the player's id `id`, not `userId`, so the
   * leaderboard drops it: no player appears for it.
   */
  lemma SignUpDocumentDropped(uid: string, email: string, name: string, now: real)
    ensures var doc := GameRecords.SignUpDocument(uid, email, name, now);
      AccuracyDefined(doc) && !WellFormed(doc) && PlayerOf(doc) == None
  {
  }

  /** A snapshot of documents none of which has a `userId` key gives an empty leaderboard. */
  lemma {:induction false} NoUserIdNoPlayers(docs: seq<Fields>)
    requires forall i | 0 <= i < |docs| :: "userId" !in docs[i]
    ensures forall i | 0 <= i < |docs| :: AccuracyDefined(docs[i])
    ensures Players(docs) == []
  {
    if docs != [] {
      NoUserIdNoPlayers(docs[1..]);
    }
  }

  /** A solved game's `dailySolveCount` increment raises the player's consistency by exactly one. */
  lemma ConsistencyAfterSolve(data: Fields, today: string)
    requires AsIntMap(Get(data, "dailySolveCount")).Some?
    ensures var counts := AsIntMap(Get(data, "dailySolveCount")).value;
      var data' := data["dailySolveCount" := VMap(map k | k in Increment(counts, today) :: VInt(Increment(counts, today)[k]))];
      Consistency(data') == Consistency(data) + 1
  {
    var counts := AsIntMap(Get(data, "dailySolveCount")).value;
    var counts' := Increment(counts, today);
    var data' := data["dailySolveCount" := VMap(map k | k in counts' :: VInt(counts'[k]))];
    var fields := map k | k in counts' :: VInt(counts'[k]);
    assert forall k | k in fields :: AsInt(Some(fields[k])) == Some(counts'[k]);
    assert (map k | k in fields :: AsInt(Some(fields[k])).value) == counts';
    IncrementSum(counts, today);
  }

  // ----- Display order -----

  /** Non-increasing in rating. */
  predicate Descending(ps: seq<Player>)
  {
    forall i, j | 0 <= i < j < |ps| :: ps[i].rating >= ps[j].rating
  }

  /** Place one player into a ranking, ahead of every lower-rated player. */
  function Insert(p: Player, ps: seq<Player>): (r: seq<Player>)
    requires Descending(ps)
    ensures Descending(r)
    ensures multiset(r) == multiset(ps) + multiset{p}
  {
    if ps == [] || p.rating >= ps[0].rating then
      DescendingCons(p, ps);
      [p] + ps
    else
      var rest := Insert(p, ps[1..]);
      assert ps == [ps[0]] + ps[1..];
      HeadOutranks(ps[0], p, ps[1..], rest);
      DescendingCons(ps[0], rest);
      [ps[0]] + rest
  }

  /** A player rated at least `p` and every player of `ps` is rated at least every player of a permutation of both. */
  lemma HeadOutranks(head: Player, p: Player, ps: seq<Player>, rest: seq<Player>)
    requires head.rating >= p.rating
    requires forall q | q in ps :: head.rating >= q.rating
    requires multiset(rest) == multiset(ps) + multiset{p}
    ensures forall q | q in rest :: head.rating >= q.rating
  {
    forall q | q in rest
      ensures head.rating >= q.rating
    {
      assert q in multiset(rest);
      assert q == p || q in multiset(ps);
    }
  }

  /** A player rated at least every player of a ranking may head it. */
  lemma DescendingCons(p: Player, ps: seq<Player>)
    requires Descending(ps)
    requires forall q | q in ps :: p.rating >= q.rating
    ensures Descending([p] + ps)
  {
    assert forall j | 1 <= j <= |ps| :: ([p] + ps)[j] == ps[j - 1];
  }

  /** `players.sorted(by: { $0.rating > $1.rating })`: the same players, highest score first. */
  function SortByRating(ps: seq<Player>): (r: seq<Player>)
    ensures Descending(r)
    ensures multiset(r) == multiset(ps)
  {
    if ps == [] then []
    else
      assert ps == [ps[0]] + ps[1..];
      Insert(ps[0], SortByRating(ps[1..]))
  }
}
