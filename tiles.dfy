/**
 * Tile colours of a submitted guess row (GameView's `getBackgroundColor`). The game uses naive
 * containment: a letter that is not in place is yellow whenever it occurs anywhere in the target,
 * however many times it was already marked. The count-aware rule of standard Wordle is defined
 * beside it as a reference, and the lemmas say exactly where the two agree.
 */
module Tiles {

  datatype Tile = Clear | Green | Yellow | Gray

  /** The colour of `letter` guessed at position `col` of `target`, under the game's rule. */
  function LetterColor(letter: char, target: string, col: nat): (t: Tile)
    requires col < |target|
    ensures t != Clear
    ensures t == Green <==> target[col] == letter
    ensures t == Yellow <==> target[col] != letter && letter in target
    ensures t == Gray <==> letter !in target
  {
    if target[col] == letter then Green
    else if letter in target then Yellow
    else Gray
  }

  /** The colours of a whole guess row. */
  function EvaluateRow(guess: string, target: string): (r: seq<Tile>)
    requires |guess| == |target|
    ensures |r| == |target|
    ensures forall i | 0 <= i < |r| :: r[i] == LetterColor(guess[i], target, i)
  {
    seq(|guess|, i requires 0 <= i < |guess| => LetterColor(guess[i], target, i))
  }

  function CountYellow(row: seq<Tile>): nat
  {
    if row == [] then 0 else (if row[0] == Yellow then 1 else 0) + CountYellow(row[1..])
  }

  // ----- Count-aware reference rule -----

  /** Positions of `target` holding `letter` that the guess did not match in place. */
  function Spare(letter: char, guess: string, target: string): nat
    requires |guess| == |target|
  {
    if target == [] then 0
    else (if guess[0] != target[0] && target[0] == letter then 1 else 0) + Spare(letter, guess[1..], target[1..])
  }

  /** Positions before `i` where the guess holds `letter` and is not in place. */
  function EarlierMisses(letter: char, guess: string, target: string, i: nat): nat
    requires |guess| == |target| && i <= |guess|
  {
    if i == 0 then 0
    else (if guess[i - 1] != target[i - 1] && guess[i - 1] == letter then 1 else 0) + EarlierMisses(letter, guess, target, i - 1)
  }

  /** Two-pass colouring: greens first, then yellows left to right while unmatched copies remain. */
  function CountAwareRow(guess: string, target: string): (r: seq<Tile>)
    requires |guess| == |target|
    ensures |r| == |target|
  {
    seq(|guess|, i requires 0 <= i < |guess| =>
      if guess[i] == target[i] then Green
      else if EarlierMisses(guess[i], guess, target, i) < Spare(guess[i], guess, target) then Yellow
      else Gray)
  }

  /** A spare copy of a letter is a copy that occurs in the target. */
  lemma {:induction false} SpareOccurs(letter: char, guess: string, target: string)
    requires |guess| == |target|
    requires Spare(letter, guess, target) > 0
    ensures letter in target
  {
    if !(guess[0] != target[0] && target[0] == letter) {
      SpareOccurs(letter, guess[1..], target[1..]);
    }
  }

  /** When the guess repeats no letter, a letter's spare copies are all its copies except one it matched in place. */
  lemma {:induction false} SpareOfUniqueLetter(letter: char, guess: string, target: string, i: nat)
    requires |guess| == |target| && i < |guess|
    requires guess[i] == letter && guess[i] != target[i]
    requires forall j | 0 <= j < |guess| && j != i :: guess[j] != letter
    ensures Spare(letter, guess, target) > 0 <==> letter in target
  {
    if letter in target {
      var j :| 0 <= j < |target| && target[j] == letter;
      SpareCounts(letter, guess, target, j);
    } else if Spare(letter, guess, target) > 0 {
      SpareOccurs(letter, guess, target);
    }
  }

  /** A target position holding `letter` that the guess does not hold in place is a spare copy. */
  lemma {:induction false} SpareCounts(letter: char, guess: string, target: string, j: nat)
    requires |guess| == |target| && j < |target|
    requires target[j] == letter && guess[j] != letter
    ensures Spare(letter, guess, target) > 0
  {
    if j > 0 {
      SpareCounts(letter, guess[1..], target[1..], j - 1);
    }
  }

  /** Without repeated letters in the guess nothing has been consumed earlier. */
  lemma {:induction false} NoEarlierMisses(letter: char, guess: string, target: string, i: nat)
    requires |guess| == |target| && i <= |guess|
    requires forall j | 0 <= j < i :: guess[j] != letter
    ensures EarlierMisses(letter, guess, target, i) == 0
  {
    if i > 0 {
      NoEarlierMisses(letter, guess, target, i - 1);
    }
  }

  /** Both rules agree on greens, and every count-aware yellow is a naive yellow. */
  lemma CountAwareRefinesNaive(guess: string, target: string, i: nat)
    requires |guess| == |target| && i < |guess|
    ensures EvaluateRow(guess, target)[i] == Green <==> CountAwareRow(guess, target)[i] == Green
    ensures CountAwareRow(guess, target)[i] == Yellow ==> EvaluateRow(guess, target)[i] == Yellow
  {
    if CountAwareRow(guess, target)[i] == Yellow {
      SpareOccurs(guess[i], guess, target);
    }
  }

  /** A guess with no repeated letter is coloured identically by both rules. */
  lemma NaiveExactOnDistinctLetters(guess: string, target: string)
    requires |guess| == |target|
    requires forall i, j | 0 <= i < j < |guess| :: guess[i] != guess[j]
    ensures EvaluateRow(guess, target) == CountAwareRow(guess, target)
  {
    forall i | 0 <= i < |guess|
      ensures EvaluateRow(guess, target)[i] == CountAwareRow(guess, target)[i]
    {
      if guess[i] != target[i] {
        NoEarlierMisses(guess[i], guess, target, i);
        SpareOfUniqueLetter(guess[i], guess, target, i);
      }
    }
  }

  /** "EEEE" against "TIME": three yellows and one green under the game's rule; the reference gives three greys. */
  lemma RepeatedLetterExample()
    ensures EvaluateRow("EEEE", "TIME") == [Yellow, Yellow, Yellow, Green]
    ensures CountYellow(EvaluateRow("EEEE", "TIME")) == 3
    ensures CountAwareRow("EEEE", "TIME") == [Gray, Gray, Gray, Green]
  {
    assert "TIME"[3] == 'E';
    assert EvaluateRow("EEEE", "TIME") == [Yellow, Yellow, Yellow, Green];
    assert [Yellow, Yellow, Yellow, Green][1..] == [Yellow, Yellow, Green];
    assert [Yellow, Yellow, Green][1..] == [Yellow, Green];
    assert [Yellow, Green][1..] == [Green];
    assert [Green][1..] == [];
    assert Spare('E', "EEEE", "TIME") == 0;
  }

  /** "LLAMA" against "ALARM": the first L is yellow (the second L is green) under the game's rule, grey under the reference. */
  lemma LlamaAlarmExample()
    ensures EvaluateRow("LLAMA", "ALARM") == [Yellow, Green, Green, Yellow, Yellow]
    ensures CountAwareRow("LLAMA", "ALARM") == [Gray, Green, Green, Yellow, Yellow]
  {
    assert 'L' in "ALARM" && 'M' in "ALARM" && "ALARM"[0] == 'A';
    assert Spare('L', "LLAMA", "ALARM") == 0;
    assert Spare('M', "LLAMA", "ALARM") == 1;
    assert Spare('A', "LLAMA", "ALARM") == 1;
    assert EarlierMisses('M', "LLAMA", "ALARM", 3) == 0;
    assert EarlierMisses('A', "LLAMA", "ALARM", 4) == 0;
  }
}
