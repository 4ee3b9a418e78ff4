/**
 * The dictionaries the app writes to a player's document: the one created at sign-up, and the
 * records GameView appends after a game ends.
 */
module GameRecords {
  import opened Document

  /** One element of `solvedDetails`, written on a win (GameView.swift `storeSolvedWordAndTimeInDatabase`). */
  function SolvedDetailRecord(word: string, solveTime: real, attempts: int, timestamp: real): (r: Fields)
    ensures r.Keys == {"word", "solveTime", "timestamp", "attempts"}
  {
    map["word" := VString(word), "solveTime" := VDouble(solveTime),
        "timestamp" := VTimestamp(timestamp), "attempts" := VInt(attempts)]
  }

  /** One element of `ratingHistory` (GameView.swift `createRatingDetail`); the rating is stored as an Int. */
  function RatingDetail(rating: int, success: bool, solveTime: real, attempts: int, word: string, timestamp: real): (r: Fields)
    ensures r.Keys == {"rating", "timestamp", "word", "success", "solveTime", "attempts"}
  {
    map["rating" := VInt(rating), "timestamp" := VTimestamp(timestamp), "word" := VString(word),
        "success" := VBool(success), "solveTime" := VDouble(solveTime), "attempts" := VInt(attempts)]
  }

  /**
   * The player document written at sign-up (AuthenticationView.swift): it names the player's id
   * `id`, starts every history empty except for one 1000.0 rating entry, and has no `userId` key.
   */
  function SignUpDocument(uid: string, email: string, name: string, now: real): (r: Fields)
    ensures r.Keys == {"id", "email", "name", "solvedDetails", "dailySolveCount", "ratingHistory", "failedAttempts", "createdAt"}
    ensures "userId" !in r
    ensures r["solvedDetails"] == VArray([]) && r["dailySolveCount"] == VMap(map[]) && r["failedAttempts"] == VInt(0)
  {
    var initialRating := map["rating" := VDouble(1000.0), "attempts" := VInt(0), "solveTime" := VDouble(0.0),
                             "success" := VBool(true), "timestamp" := VTimestamp(now), "word" := VString("N/A")];
    map["id" := VString(uid), "email" := VString(email), "name" := VString(name),
        "solvedDetails" := VArray([]), "dailySolveCount" := VMap(map[]),
        "ratingHistory" := VArray([VMap(initialRating)]), "failedAttempts" := VInt(0),
        "createdAt" := VTimestamp(now)]
  }
}
