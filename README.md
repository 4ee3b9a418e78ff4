# Word game core, in Dafny

A model of the logic inside a SwiftUI word-guessing game (a Wordle clone backed by a document
store), with proofs of what that logic guarantees. The game shows a six-row grid; the player types
letters, deletes them, and submits a row; submitted rows are coloured green, yellow or grey; a win
or a loss updates a skill rating and the player's statistics, which feed a profile screen and a
leaderboard.

What is modelled, module by module:

- `Game` — the guess-entry state machine of `GameView` as a class `Session` whose fields are the
  view's state (`guesses`, `currentRow`, `currentCol`, `currentGuess`, `message`,
  `firstAttemptTime`, `isFirstGuessMade`, `wordToGuess`). Key handling, submission, grid reset, the
  arrival of a new word, and the tile colour of each cell. The session invariant `Valid` (cursor
  bounds, `|currentGuess| == currentCol`, submitted rows full, later rows blank) is kept by every
  method.
- `Tiles` — the tile colouring rule the game uses (naive containment), and the count-aware rule of
  standard Wordle as a reference, with lemmas saying where they agree and where they differ.
- `WordBank` — choosing the next word: the catalogue's words, upper-cased, minus the words the player
  already solved, compared case-insensitively.
- `Rating` — the rating update after a game and the prior rating it starts from.
- `Leaderboard` — turning each player document into a leaderboard row with a weighted score, and
  ordering the rows.
- `Profile` — parsing the player document into a `User` and the profile statistics (games played,
  win percentage, "longest streak", average attempts, rating history). The profile view and its
  view model contain word-for-word copies of this code; both are modelled by the same members.
- `Heatmap` — the column-major layout of a year of dates into a 14 × 27 grid.
- `RatingGraph` — the y-axis ticks of the rating chart.
- `DictionaryUtil` — the `compactMapKeys` dictionary extension.
- Support: `Document` (document-store values and Swift's `as?` casts, including NSNumber bridging:
  an integer reads as a Double and a whole-valued double reads as an Int), `GameRecords` (the
  dictionaries the game writes to the store), `Records` (the plain record types), `Numerics`
  (Swift's truncating `Int(Double)` and truncating integer `/`), `Letters` (upper-casing),
  `Collections` (`compactMap`, dictionary sum and maximum), `Wrappers` (`Option`).

Three consequences of the code that are easy to get wrong:

- Guessing "LLAMA" against "ALARM" colours the tiles yellow, green, green, yellow, yellow. The second
  L is in place and therefore green; the first L and both A's are yellow (`Tiles.LlamaAlarmExample`).
- A leaderboard player with no solves, no failures and no daily counts scores 0.3, not 0: the
  fastest time defaults to 0.0, which earns the full time component (`Leaderboard.NewPlayerScore`).
- The leaderboard reads the player's id from the key `userId`
  (final/LeaderboardView.swift:66), but the only document the app creates, at sign-up, stores it
  under `id` (final/AuthenticationView.swift:166-175), and no later write adds `userId`. Every
  document the app itself creates is therefore left off the leaderboard
  (`Leaderboard.SignUpDocumentDropped`, `Leaderboard.NoUserIdNoPlayers`).

The store's effects appear as transformations of documents. A win appends a record to
`solvedDetails` and increments that day's `dailySolveCount`. A loss increments `failedAttempts`.
Every finished game appends a record to `ratingHistory`. Lemmas state what those writes do to what
the profile, the leaderboard and the next game read back.

## Model

| member | source | states |
|---|---|---|
| Game.EmptyGrid | final/GameView.swift:291 | six rows of `width` cells, every cell empty |
| Game.Session.constructor | final/GameView.swift:6-15 | the initial view state: no word, empty grid, cursor at the origin, no first-attempt time; the session invariant holds |
| Game.Session.HandleKeyPress | final/GameView.swift:132-152 | a letter is stored upper-cased at the cursor, appended to the guess, and the column advances, only while the row has room; DEL clears the previous cell, drops the last letter and steps back, only when the column is positive; ENTER submits a full row and otherwise only sets "Not enough letters!"; in every other case nothing changes; a letter after the last row is rejected with the state unchanged; the session invariant is kept |
| Game.Session.SubmitGuess | final/GameView.swift:154-196 | an incomplete row or a seventh row changes only `message`; the first submission records the time; a guess equal to the word ignoring case is a win with attempts = row + 1 in [1, 6] and leaves row and column as they were; otherwise the row advances, the cursor and guess are cleared, and reaching row 6 is a loss that reveals the word and reports 6 attempts for the rating update; a missed row is then coloured by the tile rule applied to the guess; the session invariant is kept |
| Game.Session.TypeThenDelete | final/GameView.swift:139-150 | typing a letter and then pressing DEL restores every field of the session |
| Game.Session.BackgroundColor | final/GameView.swift:199-212 | cells of rows not yet submitted are clear; every cell of a submitted row is coloured, by the tile rule against the upper-cased word |
| Game.Session.SetupGuessesGrid | final/GameView.swift:290-296 | a blank grid of the word's width, cursor, guess and message reset, the word and first-attempt time untouched |
| Game.Session.ReceiveWords | final/GameView.swift:264-284 | an empty catalogue changes nothing; when no unsolved word remains only the message becomes "No new words available!"; otherwise the chosen word is one of the candidates and the grid, cursor and first-attempt time are reset |
| Tiles.LetterColor | final/GameView.swift:203-211 | never clear; green iff the target holds the letter at that column; yellow iff it does not but holds it elsewhere; grey iff the letter is absent |
| Tiles.EvaluateRow | final/GameView.swift:199-212 | one colour per position, each the tile rule for that letter and column |
| Tiles.CountAwareRefinesNaive | final/GameView.swift:205-210 | the game's rule and the count-aware rule agree on greens, and every count-aware yellow is a yellow of the game's rule |
| Tiles.NaiveExactOnDistinctLetters | final/GameView.swift:205-210 | for a guess without repeated letters the game's rule equals the count-aware rule |
| Tiles.RepeatedLetterExample | final/GameView.swift:205-210 | "EEEE" against "TIME" gives three yellows and a green; the count-aware rule gives three greys |
| Tiles.LlamaAlarmExample | final/GameView.swift:205-210 | "LLAMA" against "ALARM" gives yellow, green, green, yellow, yellow; the count-aware rule makes the first L grey |
| WordBank.SolvedWords | final/GameView.swift:250-254 | no solved words without a document; every solved word is upper-case |
| WordBank.Candidates | final/GameView.swift:251-273 | at most one candidate per catalogue document; every candidate is upper-case and not a solved word; with no solved words the candidates are all catalogue words, in order |
| WordBank.Unsolved | final/GameView.swift:270-273 | a word is kept exactly when it is in the list and not among the solved words |
| WordBank.CandidateOrigin | final/GameView.swift:251-273 | every candidate is upper-case, is the upper-cased word of some catalogue document, and is not a solved word |
| WordBank.SolvedWordExcluded | final/GameView.swift:252-273 | a catalogue word equal to a solved word up to letter case is never offered |
| WordBank.UnsolvedWordOffered | final/GameView.swift:270-273 | every catalogue word not yet solved is offered |
| WordBank.SeedCatalogue | final/ContentView.swift:45-46 | one catalogue document per seed word |
| WordBank.FreshPlayerGetsSeedWords | final/ContentView.swift:45-46 | a player with no solved words, whether without a document or with an empty solved list, is offered every seed word, upper-cased |
| WordBank.SignedUpPlayerGetsSeedWords | final/AuthenticationView.swift:166-175 | a player whose document is still the one written at sign-up is offered every seed word, upper-cased |
| Game.RatingUpdate | final/GameView.swift:171-192 | a finished game, won or lost, yields a new rating and no other outcome does; a win in 1 or more attempts raises the rating by 16 to 48 points, and a loss, rated as 6 attempts, lowers it by 16 to 32 |
| Rating.NewRating | final/GameView.swift:366-421 | the new rating is the previous rating plus the rating delta, truncated toward zero by `Int(_:)` (the inline formula of `updateRating` at lines 366-380 and `calculateNewRating` at 404-421 are the same computation) |
| Rating.SixAttemptLoss | final/GameView.swift:192 | a loss, which the game always rates as 6 attempts, costs between 16 and 32 points for any non-negative solve time |
| Rating.TimeScore | final/GameView.swift:405-407 | the time score is in [0, 1] for a non-negative time, and 0 once the time reaches 5 seconds per letter |
| Rating.AttemptScore | final/GameView.swift:408 | the attempt score is in [0, 1] for at least one attempt, 1 for a first-try solve, 0 from six attempts on |
| Rating.RatingDelta | final/GameView.swift:409-418 | before truncation a win changes the rating by +16 to +48 and a loss by −32 to 0 |
| Rating.NewRatingBounds | final/GameView.swift:404-421 | after truncation a win raises the rating by 16 to 48 points and a loss lowers it by 0 to 32 |
| Rating.NewRatingMonotone | final/GameView.swift:404-421 | a faster solve, or one in fewer attempts, never rates lower |
| Rating.WinBeatsLoss | final/GameView.swift:404-421 | a win always rates strictly higher than a loss with the same time and attempts |
| Rating.WorkedExamples | final/GameView.swift:404-421 | 1000, a 4-letter word solved first try in 10 s, gives 1040; 1040 and a 6-attempt loss in 30 s gives 1008 |
| Rating.TruncationExamples | final/GameView.swift:419-420 | the new rating is truncated toward zero: 1037.6 gives 1037 and −21.4 gives −21 |
| Rating.LastRating | final/GameView.swift:396-402 | 1000 when there is no document, no well-formed history, or an empty history |
| Rating.LastRatingAfterSave | final/GameView.swift:437-440 | after a rating record is appended to the history, the next game starts from exactly that rating |
| GameRecords.SolvedDetailRecord | final/GameView.swift:310-315 | a solve record has exactly the keys word, solveTime, timestamp and attempts |
| GameRecords.SignUpDocument | final/AuthenticationView.swift:157-175 | the sign-up document has exactly the keys id, email, name, solvedDetails, dailySolveCount, ratingHistory, failedAttempts and createdAt, with empty solves and daily counts and no failures; it has no `userId` |
| GameRecords.RatingDetail | final/GameView.swift:424-435 | a rating record has exactly the keys rating, timestamp, word, success, solveTime and attempts |
| Document.ArrayUnion | final/GameView.swift:322 | the store's array union contains the new element, appended at the end unless an equal one is already there |
| Numerics.TruncToInt | final/GameView.swift:420 | `Int(x)` lies within one of `x` on the side of zero |
| Numerics.Quotient | final/components/RatingGraphView.swift:22-23 | Swift's integer `/` by a positive divisor rounds toward zero on both signs |
| Collections.IncrementSum | final/GameView.swift:323 | incrementing one key of a count dictionary raises the sum of its values by exactly one |
| Leaderboard.TimeScore | final/LeaderboardView.swift:99-101 | the time component is in [0, 1] for a non-negative time, 0 from 300 s on, 1 for an instant solve |
| Leaderboard.CalculateRating | final/LeaderboardView.swift:98-107 | with non-negative solves, best time, accuracy and consistency the score is at least −failures / 50; 100 solves, an instant best time, full accuracy and 30 daily solves with no failures score exactly 1 |
| Leaderboard.TimeScoreMonotone | final/LeaderboardView.swift:101 | a slower best time never earns a larger time component |
| Leaderboard.ScoreMonotone | final/LeaderboardView.swift:98-107 | the score never decreases with more solves, a faster best time, higher accuracy or more daily activity, or with fewer failures |
| Leaderboard.ScoreSteps | final/LeaderboardView.swift:100-106 | each failure costs exactly 1/50 and each solve is worth exactly 0.4/100 |
| Leaderboard.ScoreUpperBound | final/LeaderboardView.swift:98-107 | with non-negative inputs and accuracy at most 1, the score is at most solves × 0.004 + 0.5 + consistency / 300 |
| Leaderboard.MinOfReals | final/LeaderboardView.swift:73 | the minimum is one of the times and no time is smaller |
| Leaderboard.FastestSolveTime | final/LeaderboardView.swift:72-73 | 0 without solve times, otherwise the smallest of them |
| Leaderboard.Accuracy | final/LeaderboardView.swift:74 | 0 without solve times; otherwise accuracy × (wins + failures) = wins, in [0, 1] for non-negative failures, and 1 without failures |
| Leaderboard.WellFormed | final/LeaderboardView.swift:62-69 | a document the leaderboard accepts has the keys name, solvedDetails, failedAttempts and userId, the last a string |
| Leaderboard.Consistency | final/LeaderboardView.swift:75-76 | 0 when the daily counts are missing or mistyped; with non-negative counts it is non-negative and at least the largest single-day count (the profile's "longest streak") |
| Leaderboard.PlayerOf | final/LeaderboardView.swift:60-94 | a document yields a player exactly when it has a name, a solved list, a failure count and a user id, with those values and the words of its solved entries |
| Leaderboard.Players | final/LeaderboardView.swift:60-94 | at most one player per document |
| Leaderboard.PlayersAppend | final/LeaderboardView.swift:60-69 | one more document yields exactly its own player at the end, or nothing when it is malformed |
| Leaderboard.PlayerOrigin | final/LeaderboardView.swift:60-94 | every player comes from some document of the snapshot |
| Leaderboard.PlayersKeepAll | final/LeaderboardView.swift:60-69 | no document is dropped exactly when every document has a name, a solved list, a failure count and a user id |
| Leaderboard.SignUpDocumentDropped | final/AuthenticationView.swift:166-175 | the document written at sign-up yields no leaderboard player, because it has `id` but no `userId` |
| Leaderboard.NoUserIdNoPlayers | final/LeaderboardView.swift:60-69 | a snapshot in which no document has a `userId` gives an empty leaderboard |
| Leaderboard.NewPlayerScore | final/LeaderboardView.swift:72-84 | a player with no solves, no failures and a missing or empty daily-count map has fastest time 0, accuracy 0 and score 0.3 |
| Leaderboard.ConsistencyAfterSolve | final/LeaderboardView.swift:75-76 | the daily-count increment a win writes raises the player's consistency by exactly one |
| Leaderboard.Insert | final/LeaderboardView.swift:35 | inserting into a ranking keeps it non-increasing in score and adds exactly that player |
| Leaderboard.SortByRating | final/LeaderboardView.swift:35 | the displayed order is non-increasing in score and is a permutation of the players |
| Profile.ParseSolveDetail | final/ViewModels/ProfileViewModel.swift:102-108 | a solved entry parses exactly when its word, solve time, attempts and timestamp are present and well-typed; the profile view repeats this code verbatim at final/ProfileView.swift:127-133 |
| Profile.ParseRatingEntry | final/ViewModels/ProfileViewModel.swift:110-118 | a rating entry parses exactly when all six of its fields are present and well-typed; the profile view repeats this code verbatim at final/ProfileView.swift:135-143 |
| Profile.ParseUserData | final/ViewModels/ProfileViewModel.swift:97-123 | email, name and failure count fall back to "Unknown Email", "Unknown Name" and 0; the daily counts to an empty map; the parsed lists are no longer than the stored ones; the profile view repeats this code verbatim at final/ProfileView.swift:122-148 |
| Profile.ParseEmptyDocument | final/ProfileView.swift:122-148 | an empty document parses to the defaults with empty histories (the same parser is at final/ViewModels/ProfileViewModel.swift:97-123) |
| Profile.MalformedEntriesDropped | final/ProfileView.swift:127-143 | the parsed lists hold exactly as many entries as are well-formed, and all entries when all are well-formed |
| Profile.SolvedDetailRoundTrip | final/ViewModels/ProfileViewModel.swift:102-108 | the solve record the game writes parses back to the same word, time, attempts and timestamp |
| Profile.RatingDetailRoundTrip | final/ViewModels/ProfileViewModel.swift:110-118 | the rating record the game writes, with its Int rating, parses back with the rating widened to Double |
| Profile.ParseAfterSolve | final/ViewModels/ProfileViewModel.swift:102-108 | after a win's record is appended to a well-formed list, the profile shows the earlier solves followed by exactly that solve |
| Profile.TotalGamesPlayed | final/ViewModels/ProfileViewModel.swift:127-129 | with non-negative failures, games played is at least the number of solves; the profile view repeats this code verbatim at final/ProfileView.swift:151-153 |
| Profile.EachGameCountsOnce | final/ProfileView.swift:151-153 | one more recorded win, or one more recorded failure, adds exactly one game |
| Profile.WinPercentage | final/ViewModels/ProfileViewModel.swift:131-135 | 0 when no game was played; otherwise percentage × games = 100 × wins, in [0, 100] for non-negative failures, and exactly 100 with no failures and at least one win; the profile view repeats this code verbatim at final/ProfileView.swift:155-159 |
| Profile.LongestStreak | final/ViewModels/ProfileViewModel.swift:137-139 | 0 for no daily counts; otherwise the value of some day, and no day's count is larger; the profile view repeats this code verbatim at final/ProfileView.swift:161-164 |
| Profile.AverageAttempts | final/ViewModels/ProfileViewModel.swift:141-145 | 0 without solves; otherwise average × solves = total attempts; the profile view repeats this code verbatim at final/ProfileView.swift:166-170 |
| Profile.AverageBetweenMinAndMax | final/ProfileView.swift:166-170 | the mean lies between the fewest and the most attempts |
| Profile.RatingHistory | final/ViewModels/ProfileViewModel.swift:151-153 | same length and order as the stored history, each rating truncated toward zero; the profile view repeats this code verbatim at final/ProfileView.swift:176-178 |
| Profile.WrittenRatingsChartedExactly | final/ProfileView.swift:176-178 | ratings the game wrote as integers are charted exactly as written |
| Heatmap.GenerateGrid | final/components/HeatmapView.swift:44-54 | `rows` rows of `columns` cells; the cell at row r, column c holds the date at index c × rows + r when there is one and is empty otherwise |
| Heatmap.IndexInjective | final/components/HeatmapView.swift:46-50 | two different cells never receive the same index, so no cell is written twice |
| Heatmap.DatePlaced | final/components/HeatmapView.swift:46-50 | date i is shown at row i mod rows, column i div rows, whenever that column exists |
| Heatmap.DateBeyondGrid | final/components/HeatmapView.swift:48-49 | a date has a column exactly when its index is below rows × columns |
| Heatmap.EmptyCells | final/components/HeatmapView.swift:45-50 | a cell is empty exactly when its index is past the last date |
| Heatmap.YearLayout | final/components/HeatmapView.swift:18-22 | with 365 dates in 14 rows of 27 columns every date is shown and the empty cells are rows 1 to 13 of the last column |
| RatingGraph.StrideShape | final/components/RatingGraphView.swift:25 | the stride starts at `from`, ascends by exactly 100, and has (through − from) / 100 + 1 values |
| RatingGraph.YAxisValues | final/components/RatingGraphView.swift:15-19 | an empty history gives 800, 900, 1000, 1100, 1200 |
| RatingGraph.AxisCoversNonNegativeRatings | final/components/RatingGraphView.swift:15-25 | for non-negative ratings the ticks start at a multiple of 100 at or below the lowest rating, end at a multiple of 100 above the highest, ascend by 100, number (last − first) / 100 + 1, and span every rating |
| RatingGraph.NegativeRatingOffAxis | final/components/RatingGraphView.swift:22 | a history of one rating of −21 gives the single tick 0, above the rating |
| RatingGraph.FlooredYAxisValues | final/components/RatingGraphView.swift:22-23 | the axis with floor division: the defaults for an empty history, at least one tick otherwise |
| RatingGraph.FlooredAxisCoversRatings | final/components/RatingGraphView.swift:21-25 | with floor division every rating, negative or not, lies between the first and last tick |
| RatingGraph.FlooredAgreesOnNonNegative | final/components/RatingGraphView.swift:22-23 | the floored axis equals the app's axis whenever no rating is negative |
| DictionaryUtil.CompactMapKeys | final/utility/dictionary.swift:9-17 | the new keys are exactly the non-nil images of the old keys; each value is the value of some old key mapped to it; the result is no larger than the input; an injective transform keeps every value at its new key, and one that also never returns nil keeps the size; a transform that always returns nil gives an empty dictionary |

## Findings

| source | as written | input that shows it | evidently intended | confidence | as-written member | corrected member |
|---|---|---|---|---|---|---|
| final/components/RatingGraphView.swift:22 | `(minRating / step) * step` with Swift's truncating `/`, under the comment "round down to nearest hundred" | a rating history whose only rating is −21 (reachable: a loss from 5 gives −21) yields the ticks [0], so the point is drawn below the axis | round down (floor division), so the first tick is at or below every rating | medium, not executed | RatingGraph.NegativeRatingOffAxis | RatingGraph.FlooredYAxisValues |

## Left out

- Document-store and authentication I/O: loading the player document, fetching the word catalogue, writing solves, failures and ratings, the leaderboard's snapshot listener, logging out, and seeding the catalogue. The model takes the documents as parameters. The writes appear as document transformations in `Profile.ParseAfterSolve`, `Rating.LastRatingAfterSave`, `Leaderboard.ConsistencyAfterSolve` and `Profile.EachGameCountsOnce`.
- Game.Session.SubmitGuess: the store writes and the rating update it triggers are reported through its `Outcome` (the attempts and solve time of a win or a loss) rather than performed; `Game.RatingUpdate` turns that outcome into the new rating. The rating update runs asynchronously in the app and reads the word length when it completes; the model passes the word length as a parameter.
- Game.Session.ReceiveWords: `randomElement()` is replaced by a `pick` parameter, so any candidate may be chosen.
- The clock (`Date()`) is a `now` parameter. Timestamps are seconds as `real`. Calendar days (`startOfDay`, the heatmap's year of dates, the day keys of `dailySolveCount`) are arbitrary values of a type parameter or arbitrary strings.
- Game.Session.HandleKeyPress: a letter key after the last row makes the app index a seventh grid row and trap. The model rejects that key with `RowOutOfRange` and changes nothing.
- Game.Session.HandleKeyPress: a key is one character, so `Character(key.uppercased())` trapping on a key whose upper case is longer is not modelled.
- Letters.Upper: upper-cases ASCII letters only; Swift's `uppercased()` follows Unicode.
- Document.AsBool, Document.AsInt: NSNumber bridging between booleans and integers is not modelled. In the app a stored `1` also reads `as? Bool` as true, and a stored boolean reads `as? Int` as 0 or 1; the model reads each only as its own type. Nothing the app writes is read across these two types.
- Doubles are exact reals. NaN, infinities and rounding are not modelled.
- Leaderboard.Accuracy: requires a non-zero denominator where it divides. When a document has solve times but wins plus failures is 0, the app produces NaN or infinity.
- Leaderboard.PlayerOf: requires that same condition (`AccuracyDefined`), and so does Leaderboard.Players.
- `String(format:)` formatting of solve times is left out. The leaderboard keeps the fastest time as a number.
- Leaderboard.SortByRating: Swift's `sorted(by:)` does not promise an order among equal scores, and neither does the model; it promises only the non-increasing order and the permutation.
- DictionaryUtil.CompactMapKeys: when two keys map to the same new key, the app keeps the value of whichever key its hash order visits last. The model promises only that the value belongs to one of them.
- Heatmap.GenerateGrid: requires at least one row when there are dates, since the app's `index % rows` would trap on zero rows.
- Heatmap.YearLayout: characterises the 13 empty cells (rows 1 to 13 of the last column) but does not count them.
- The game view's `solved` word list, which it loads from the player document but never consults when choosing a word.
- The community feed, post details, authentication screens, dictionary lookup (a network request and audio playback), the commented-out drawer, and all rendering. The record types of users, posts and comments are mirrored as datatypes in `Records`.
