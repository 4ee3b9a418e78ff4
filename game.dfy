/**
 * The guess-entry state machine of GameView: a 6-row grid of optional letters, the cursor
 * (`currentRow`, `currentCol`), the typed `currentGuess`, the status `message`, and the time of
 * the first submitted guess. Store writes, rating fetches and the asynchronous word fetch are
 * outside; `SubmitGuess` reports what the view would then hand to them.
 */
module Game {
  import opened Wrappers
  import opened Document
  import opened Letters
  import opened Tiles
  import WordBank
  import Rating

  /** The number of guess rows. */
  const Rows: nat := 6

  const NotEnoughLetters: string := "Not enough letters!"
  const NoMoreGuesses: string := "No more guesses!"
  const Congratulations: string := "Congratulations! You guessed it!"
  const GameOverPrefix: string := "Game Over! Word was "
  const NoNewWords: string := "No new words available!"

  /** An on-screen key: ENTER, DEL, or a letter key. */
  datatype Key = Enter | Delete | Letter(c: char)

  /** What a key press or a submission did. */
  datatype Outcome =
    | Ignored                             // the key had no effect
    | Typed                               // a letter was written
    | Erased                              // the last letter was removed
    | Incomplete                          // "Not enough letters!"
    | Exhausted                           // "No more guesses!"
    | Won(attempts: int, solveTime: real) // the view then records the solve and a successful rating update
    | Missed                              // the row was wrong; the next row is open
    | Lost(attempts: int, solveTime: real) // the view then records a failure and a rating update with these attempts
    | RowOutOfRange                       // a letter after the last row: Swift indexes guesses[6] and traps

  /** `Array(repeating: Array(repeating: nil, count: width), count: 6)`. */
  function EmptyGrid(width: nat): (g: seq<seq<Option<char>>>)
    ensures |g| == Rows
    ensures forall r | 0 <= r < Rows :: |g[r]| == width
    ensures forall r, c | 0 <= r < Rows && 0 <= c < width :: g[r][c] == None
  {
    seq(Rows, _ => seq(width, _ => None))
  }

  /** `firstAttemptTime != nil ? now - firstAttemptTime! : 0`. */
  function ElapsedSince(first: Option<real>, now: real): real
  {
    match first
    case Some(t) => now - t
    case None => 0.0
  }

  /**
   * The rating `updateRating` stores after a finished game, from the player's previous rating:
   * a win is rated with its attempts and time, a loss with the attempts it reports. Any other
   * outcome leaves the rating alone.
   */
  function RatingUpdate(lastRating: int, outcome: Outcome, wordLength: nat): (r: Option<int>)
    requires wordLength > 0
    ensures r.Some? <==> outcome.Won? || outcome.Lost?
    ensures outcome.Won? && outcome.solveTime >= 0.0 && outcome.attempts >= 1 ==>
      lastRating + 16 <= r.value <= lastRating + 48
    ensures outcome.Lost? && outcome.solveTime >= 0.0 && outcome.attempts == Rows ==>
      lastRating - 32 <= r.value <= lastRating - 16
  {
    match outcome
    case Won(attempts, solveTime) =>
      Rating.NewRatingBounds(lastRating, true, solveTime, attempts, wordLength);
      Some(Rating.NewRating(lastRating, true, solveTime, attempts, wordLength))
    case Lost(attempts, solveTime) =>
      Rating.SixAttemptLoss(lastRating, solveTime, wordLength);
      Some(Rating.NewRating(lastRating, false, solveTime, attempts, wordLength))
    case _ => None
  }

  class Session {
    var currentGuess: string
    var guesses: seq<seq<Option<char>>>
    var wordToGuess: string
    var currentRow: int
    var currentCol: int
    var message: string
    var firstAttemptTime: Option<real>
    var isFirstGuessMade: bool

    /**
     * The session invariant. Before a word arrives the grid is empty; afterwards it has six rows
     * of the word's width, submitted rows are full, the current row holds exactly `currentGuess`,
     * and later rows are blank.
     */
    ghost predicate Valid()
      reads this
    {
      && 0 <= currentRow <= Rows
      && 0 <= currentCol <= |wordToGuess|
      && |currentGuess| == currentCol
      && (currentRow == Rows ==> currentCol == 0)
      && (isFirstGuessMade <==> firstAttemptTime.Some?)
      && (guesses == [] ==> wordToGuess == "")
      && (guesses != [] ==> GridValid())
    }

    ghost predicate GridValid()
      reads this
      requires 0 <= currentRow <= Rows && 0 <= currentCol <= |wordToGuess| && |currentGuess| == currentCol
    {
      && |guesses| == Rows
      && (forall r | 0 <= r < Rows :: |guesses[r]| == |wordToGuess|)
      && (forall r, c | 0 <= r < currentRow && 0 <= c < |wordToGuess| :: guesses[r][c].Some?)
      && (forall r, c | currentRow < r < Rows && 0 <= c < |wordToGuess| :: guesses[r][c] == None)
      && (currentRow < Rows ==>
            forall c | 0 <= c < |wordToGuess| ::
              guesses[currentRow][c] == if c < currentCol then Some(currentGuess[c]) else None)
    }

    /** Everything but `message` is as before. */
    twostate predicate SessionUnchanged()
      reads this
    {
      && guesses == old(guesses) && wordToGuess == old(wordToGuess)
      && currentRow == old(currentRow) && currentCol == old(currentCol) && currentGuess == old(currentGuess)
      && firstAttemptTime == old(firstAttemptTime) && isFirstGuessMade == old(isFirstGuessMade)
    }

    /** The effect of `submitGuess`: its two guards, then a win, a miss, or a miss on the last row (a loss). */
    twostate predicate Submitted(now: real, outcome: Outcome)
      reads this
    {
      if old(currentCol) != |old(wordToGuess)| then
        outcome == Incomplete && message == NotEnoughLetters && SessionUnchanged()
      else if old(currentRow) >= Rows then
        outcome == Exhausted && message == NoMoreGuesses && SessionUnchanged()
      else
        && guesses == old(guesses) && wordToGuess == old(wordToGuess)
        && isFirstGuessMade
        && firstAttemptTime == (if old(isFirstGuessMade) then old(firstAttemptTime) else Some(now))
        && if UpperStr(old(currentGuess)) == UpperStr(old(wordToGuess)) then
             && outcome == Won(old(currentRow) + 1, ElapsedSince(firstAttemptTime, now))
             && currentRow == old(currentRow) && currentCol == old(currentCol) && currentGuess == old(currentGuess)
             && message == Congratulations
           else
             && currentRow == old(currentRow) + 1 && currentCol == 0 && currentGuess == ""
             && if currentRow == Rows then
                  outcome == Lost(Rows, ElapsedSince(firstAttemptTime, now)) && message == GameOverPrefix + wordToGuess
                else
                  outcome == Missed && message == old(message)
    }

    /** The view's initial state: no word yet, an empty grid. */
    constructor()
      ensures Valid()
      ensures currentGuess == "" && guesses == [] && wordToGuess == ""
      ensures currentRow == 0 && currentCol == 0 && message == ""
      ensures firstAttemptTime == None && !isFirstGuessMade
    {
      currentGuess := "";
      guesses := [];
      wordToGuess := "";
      currentRow := 0;
      currentCol := 0;
      message := "";
      firstAttemptTime := None;
      isFirstGuessMade := false;
    }

    /** `handleKeyPress`. */
    method HandleKeyPress(key: Key, now: real) returns (outcome: Outcome)
      requires Valid()
      modifies this
      ensures Valid()
      ensures key.Letter? && old(currentCol) < |old(wordToGuess)| && old(currentRow) < Rows ==>
        && outcome == Typed
        && guesses == old(guesses)[old(currentRow) := old(guesses)[old(currentRow)][old(currentCol) := Some(Upper(key.c))]]
        && currentGuess == old(currentGuess) + [Upper(key.c)]
        && currentCol == old(currentCol) + 1
        && currentRow == old(currentRow) && wordToGuess == old(wordToGuess) && message == old(message)
        && firstAttemptTime == old(firstAttemptTime) && isFirstGuessMade == old(isFirstGuessMade)
      ensures key.Letter? && old(currentCol) < |old(wordToGuess)| && old(currentRow) >= Rows ==>
        outcome == RowOutOfRange && unchanged(this)
      ensures key.Letter? && old(currentCol) >= |old(wordToGuess)| ==> outcome == Ignored && unchanged(this)
      ensures key.Delete? && old(currentCol) > 0 ==>
        && outcome == Erased
        && currentCol == old(currentCol) - 1
        && guesses == old(guesses)[old(currentRow) := old(guesses)[old(currentRow)][currentCol := None]]
        && currentGuess == old(currentGuess)[..currentCol]
        && currentRow == old(currentRow) && wordToGuess == old(wordToGuess) && message == old(message)
        && firstAttemptTime == old(firstAttemptTime) && isFirstGuessMade == old(isFirstGuessMade)
      ensures key.Delete? && old(currentCol) == 0 ==> outcome == Ignored && unchanged(this)
      ensures key.Enter? && |old(currentGuess)| != |old(wordToGuess)| ==>
        outcome == Incomplete && message == NotEnoughLetters && SessionUnchanged()
      ensures key.Enter? && |old(currentGuess)| == |old(wordToGuess)| ==> Submitted(now, outcome)
    {
      match key
      case Enter =>
        if |currentGuess| == |wordToGuess| {
          outcome := SubmitGuess(now);
        } else {
          message := NotEnoughLetters;
          outcome := Incomplete;
        }
      case Delete =>
        if currentCol > 0 {
          currentCol := currentCol - 1;
          guesses := guesses[currentRow := guesses[currentRow][currentCol := None]];
          currentGuess := currentGuess[..|currentGuess| - 1];
          outcome := Erased;
        } else {
          outcome := Ignored;
        }
      case Letter(c) =>
        if currentCol < |wordToGuess| {
          if currentRow >= Rows {
            outcome := RowOutOfRange;
          } else {
            guesses := guesses[currentRow := guesses[currentRow][currentCol := Some(Upper(c))]];
            currentGuess := currentGuess + [Upper(c)];
            currentCol := currentCol + 1;
            outcome := Typed;
          }
        } else {
          outcome := Ignored;
        }
    }

    /** `submitGuess`: a win keeps the row and column, so the full row stays on screen until a new word arrives. */
    method SubmitGuess(now: real) returns (outcome: Outcome)
      requires Valid()
      modifies this
      ensures Valid()
      ensures Submitted(now, outcome)
      ensures outcome.Won? ==> 1 <= outcome.attempts <= Rows
      ensures outcome.Lost? ==> currentRow == Rows && outcome.attempts == Rows
      ensures (outcome.Missed? || outcome.Lost?) && guesses != [] ==>
        forall c | 0 <= c < |wordToGuess| ::
          BackgroundColor(old(currentRow), c) == EvaluateRow(old(currentGuess), UpperStr(wordToGuess))[c]
    {
      if currentCol != |wordToGuess| {
        message := NotEnoughLetters;
        return Incomplete;
      }
      if currentRow >= Rows {
        message := NoMoreGuesses;
        return Exhausted;
      }
      if !isFirstGuessMade {
        firstAttemptTime := Some(now);
        isFirstGuessMade := true;
      }
      if UpperStr(currentGuess) == UpperStr(wordToGuess) {
        message := Congratulations;
        outcome := Won(currentRow + 1, ElapsedSince(firstAttemptTime, now));
      } else {
        currentRow := currentRow + 1;
        currentCol := 0;
        currentGuess := "";
        if currentRow == Rows {
          message := GameOverPrefix + wordToGuess;
          outcome := Lost(Rows, ElapsedSince(firstAttemptTime, now));
        } else {
          outcome := Missed;
        }
      }
    }

    /** A letter key followed by DEL leaves the session exactly as it was. */
    method TypeThenDelete(c: char, now: real)
      requires Valid() && currentCol < |wordToGuess| && currentRow < Rows
      modifies this
      ensures SessionUnchanged() && message == old(message)
    {
      ghost var row, col, guess := guesses[currentRow], currentCol, currentGuess;
      var typed := HandleKeyPress(Letter(c), now);
      var erased := HandleKeyPress(Delete, now);
      assert row[col := Some(Upper(c))][col := None] == row;
      assert (guess + [Upper(c)])[..col] == guess;
    }

    /** `getBackgroundColor`: submitted cells are coloured by the naive rule against the upper-cased word; all others are clear. */
    function BackgroundColor(row: nat, col: nat): (t: Tile)
      reads this
      requires Valid() && guesses != [] && row < Rows && col < |wordToGuess|
      ensures row >= currentRow ==> t == Clear
      ensures row < currentRow ==> t != Clear
      ensures row < currentRow ==> t == LetterColor(guesses[row][col].value, UpperStr(wordToGuess), col)
    {
      if row >= currentRow || guesses[row][col].None? then Clear
      else LetterColor(guesses[row][col].value, UpperStr(wordToGuess), col)
    }

    /** `setupGuessesGrid`: a blank grid for a word of the given length, cursor and message reset. */
    method SetupGuessesGrid(wordLength: nat)
      requires wordLength == |wordToGuess|
      requires isFirstGuessMade <==> firstAttemptTime.Some?
      modifies this
      ensures Valid()
      ensures guesses == EmptyGrid(wordLength)
      ensures currentRow == 0 && currentCol == 0 && currentGuess == "" && message == ""
      ensures wordToGuess == old(wordToGuess)
      ensures firstAttemptTime == old(firstAttemptTime) && isFirstGuessMade == old(isFirstGuessMade)
    {
      guesses := EmptyGrid(wordLength);
      currentRow := 0;
      currentCol := 0;
      currentGuess := "";
      message := "";
    }

    /**
     * The completion of `fetchNewWord`, given the player's document and the catalogue documents.
     * `pick` stands for `randomElement()`: any candidate can be chosen.
     */
    method ReceiveWords(userData: Option<Fields>, catalogue: seq<Fields>, pick: nat) returns (chosen: Option<string>)
      requires Valid()
      modifies this
      ensures Valid()
      ensures catalogue == [] ==> chosen == None && unchanged(this)
      ensures catalogue != [] && WordBank.Candidates(userData, catalogue) == [] ==>
        chosen == None && message == NoNewWords && SessionUnchanged()
      ensures catalogue != [] && WordBank.Candidates(userData, catalogue) != [] ==>
        var candidates := WordBank.Candidates(userData, catalogue);
        && chosen == Some(wordToGuess)
        && wordToGuess == candidates[pick % |candidates|]
        && guesses == EmptyGrid(|wordToGuess|)
        && currentRow == 0 && currentCol == 0 && currentGuess == "" && message == ""
        && firstAttemptTime == None && !isFirstGuessMade
    {
      if catalogue == [] {
        return None;
      }
      var candidates := WordBank.Candidates(userData, catalogue);
      if candidates == [] {
        message := NoNewWords;
        return None;
      }
      wordToGuess := candidates[pick % |candidates|];
      SetupGuessesGrid(|wordToGuess|);
      isFirstGuessMade := false;
      firstAttemptTime := None;
      chosen := Some(wordToGuess);
    }
  }
}
