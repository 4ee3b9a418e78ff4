/** The app's plain record types (User.swift, CommunityPost.swift). Dates are seconds. */
module Records {

  datatype SolveDetail = SolveDetail(word: string, solveTime: real, attempts: int, timestamp: real)

  /** One rating-history entry (the Swift struct `rating`). */
  datatype RatingEntry = RatingEntry(attempts: int, rating: real, solveTime: real, success: bool, timestamp: real, word: string)

  datatype User = User(
    id: string,
    email: string,
    name: string,
    solvedDetails: seq<SolveDetail>,
    dailySolveCount: map<string, int>,
    ratingHistory: seq<RatingEntry>,
    failedAttempts: int)

  datatype CommunityPost = CommunityPost(id: string, username: string, message: string, timestamp: real)

  datatype Comment = Comment(id: string, username: string, message: string, timestamp: real)
}
