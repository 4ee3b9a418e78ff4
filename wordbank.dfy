/**
 * Choosing the next secret word (GameView's `fetchNewWord`): the catalogue's words, upper-cased,
 * minus the words the player already solved, compared case-insensitively.
 */
module WordBank {
  import opened Wrappers
  import opened Document
  import opened Letters
  import opened Collections
  import GameRecords

  /** The word list the catalogue is seeded with when it is empty (ContentView.swift). */
  const SeedWords: seq<string> := ["love", "time", "life", "hope", "calm", "kind", "brav", "idea", "fire", "blue",
                                   "tree", "star", "plan", "goal", "view", "walk", "bird", "play", "song", "wave"]

  /** A document's `word`, upper-cased, if it is a string. */
  function WordOf(doc: Fields): Option<string>
  {
    match AsString(Get(doc, "word"))
    case Some(w) => Some(UpperStr(w))
    case None => None
  }

  /** The upper-cased words of the player's `solvedDetails`; none when the document or the field is missing. */
  function SolvedWords(userData: Option<Fields>): (r: seq<string>)
    ensures userData.None? ==> r == []
    ensures forall w | w in r :: UpperStr(w) == w
  {
    match userData
    case None => []
    case Some(data) =>
      match AsRecords(Get(data, "solvedDetails"))
      case None => []
      case Some(details) => WordsAreUpper(details); CompactMap(details, WordOf)
  }

  /** Every word read through `WordOf` is already upper-case. */
  lemma {:induction false} WordsAreUpper(docs: seq<Fields>)
    ensures forall w | w in CompactMap(docs, WordOf) :: UpperStr(w) == w
  {
    if docs != [] {
      WordsAreUpper(docs[1..]);
      match AsString(Get(docs[0], "word"))
      case Some(w) => UpperStrIdempotent(w);
      case None =>
    }
  }

  /** `filter { !solved.contains($0) }`. */
  function Unsolved(words: seq<string>, solved: seq<string>): (r: seq<string>)
    ensures |r| <= |words|
    ensures forall w | w in r :: w in words && w !in solved
    ensures forall w | w in words && w !in solved :: w in r
    ensures solved == [] ==> r == words
  {
    if words == [] then []
    else if words[0] in solved then Unsolved(words[1..], solved)
    else [words[0]] + Unsolved(words[1..], solved)
  }

  /** The words `fetchNewWord` picks from: upper-cased catalogue words that are not among the solved ones. */
  function Candidates(userData: Option<Fields>, catalogue: seq<Fields>): (r: seq<string>)
    ensures |r| <= |catalogue|
    ensures forall w | w in r :: UpperStr(w) == w && w !in SolvedWords(userData)
    ensures SolvedWords(userData) == [] ==> r == CompactMap(catalogue, WordOf)
  {
    WordsAreUpper(catalogue);
    Unsolved(CompactMap(catalogue, WordOf), SolvedWords(userData))
  }

  /** Every candidate is the upper-cased word of some catalogue document and is not a solved word. */
  lemma CandidateOrigin(userData: Option<Fields>, catalogue: seq<Fields>, w: string)
    requires w in Candidates(userData, catalogue)
    ensures UpperStr(w) == w
    ensures exists i | 0 <= i < |catalogue| :: WordOf(catalogue[i]) == Some(w)
    ensures w !in SolvedWords(userData)
  {
    CompactMapOrigin(catalogue, WordOf, w);
    var i :| 0 <= i < |catalogue| && WordOf(catalogue[i]) == Some(w);
    UpperStrIdempotent(AsString(Get(catalogue[i], "word")).value);
  }

  /** Case-insensitivity: a catalogue word that equals a solved word up to case is never offered again. */
  lemma SolvedWordExcluded(data: Fields, catalogue: seq<Fields>, details: seq<Fields>, j: nat, w: string)
    requires AsRecords(Get(data, "solvedDetails")) == Some(details)
    requires j < |details| && AsString(Get(details[j], "word")).Some?
    requires UpperStr(w) == UpperStr(AsString(Get(details[j], "word")).value)
    ensures UpperStr(w) !in Candidates(Some(data), catalogue)
  {
    CompactMapKeeps(details, WordOf, j);
  }

  /** A catalogue word not yet solved (up to case) is on offer. */
  lemma UnsolvedWordOffered(userData: Option<Fields>, catalogue: seq<Fields>, i: nat)
    requires i < |catalogue| && WordOf(catalogue[i]).Some?
    requires WordOf(catalogue[i]).value !in SolvedWords(userData)
    ensures WordOf(catalogue[i]).value in Candidates(userData, catalogue)
  {
    CompactMapKeeps(catalogue, WordOf, i);
  }

  /** The seeded catalogue: one document per seed word. */
  function SeedCatalogue(): (docs: seq<Fields>)
    ensures |docs| == |SeedWords|
  {
    seq(|SeedWords|, i requires 0 <= i < |SeedWords| => map["word" := VString(SeedWords[i])])
  }

  /** A player with no solved words, with or without a document, is offered every seeded word, upper-cased. */
  lemma FreshPlayerGetsSeedWords(userData: Option<Fields>)
    requires SolvedWords(userData) == []
    ensures forall i | 0 <= i < |SeedWords| :: UpperStr(SeedWords[i]) in Candidates(userData, SeedCatalogue())
  {
    forall i | 0 <= i < |SeedWords|
      ensures UpperStr(SeedWords[i]) in Candidates(userData, SeedCatalogue())
    {
      assert WordOf(SeedCatalogue()[i]) == Some(UpperStr(SeedWords[i]));
      UnsolvedWordOffered(userData, SeedCatalogue(), i);
    }
  }

  /** A player whose document is the one written at sign-up is offered every seeded word. */
  lemma SignedUpPlayerGetsSeedWords(uid: string, email: string, name: string, now: real)
    ensures var doc := GameRecords.SignUpDocument(uid, email, name, now);
      forall i | 0 <= i < |SeedWords| :: UpperStr(SeedWords[i]) in Candidates(Some(doc), SeedCatalogue())
  {
    var doc := GameRecords.SignUpDocument(uid, email, name, now);
    assert AsRecords(Get(doc, "solvedDetails")) == Some([]);
    FreshPlayerGetsSeedWords(Some(doc));
  }
}
