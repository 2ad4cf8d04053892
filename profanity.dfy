/**
 * The chirp profanity filter, replaceProfaneWords: split the body on single
 * spaces, replace each piece whose lower-case form is a listed word by
 * "****", and join with single spaces again.
 */
module Profanity {
  import opened Text

  const ProfaneWords: seq<string> := ["kerfuffle", "sharbert", "fornax"]
  const Replacement: string := "****"

  predicate IsProfane(word: string)
  {
    ToLower(word) in ProfaneWords
  }

  function CleanWord(word: string): string
  {
    if IsProfane(word) then Replacement else word
  }

  function CleanWords(words: seq<string>): (r: seq<string>)
    ensures |r| == |words|
  {
    seq(|words|, i requires 0 <= i < |words| => CleanWord(words[i]))
  }

  /** The text replaceProfaneWords returns for `body`. */
  function Cleaned(body: string): string
  {
    Join(CleanWords(Split(body)))
  }

  /** The filter as the handler runs it: the split pieces are rewritten in place, then joined. */
  method ReplaceProfaneWords(body: string) returns (cleaned: string)
    ensures cleaned == Cleaned(body)
  {
    var pieces := Split(body);
    var words := new string[|pieces|](i => if 0 <= i < |pieces| then pieces[i] else "");
    for i := 0 to words.Length
      invariant forall k :: 0 <= k < i ==> words[k] == CleanWord(pieces[k])
      invariant forall k :: i <= k < words.Length ==> words[k] == pieces[k]
    {
      if IsProfane(words[i]) {
        words[i] := Replacement;
      }
    }
    assert words[..] == CleanWords(pieces);
    cleaned := Join(words[..]);
  }

  lemma ReplacementIsClean()
    ensures !IsProfane(Replacement) && ' ' !in Replacement
  {
    assert ToLower(Replacement) == Replacement;
  }

  /** The pieces of the cleaned text are the cleaned pieces of the body. */
  lemma CleanedPieces(body: string)
    ensures Split(Cleaned(body)) == CleanWords(Split(body))
  {
    ReplacementIsClean();
    SplitJoin(CleanWords(Split(body)));
  }

  /** The filter keeps the number of space-separated words. */
  lemma CleanedWordCount(body: string)
    ensures |Split(Cleaned(body))| == |Split(body)|
  {
    CleanedPieces(body);
  }

  /**
   * Word by word: a piece becomes "****" exactly when its lower-case form is a
   * listed word, and is otherwise left as it was.
   */
  lemma OnlyProfaneWordsReplaced(body: string, i: int)
    requires 0 <= i < |Split(body)|
    ensures |Split(Cleaned(body))| == |Split(body)|
    ensures Split(Cleaned(body))[i] == (if ToLower(Split(body)[i]) in ProfaneWords then "****" else Split(body)[i])
  {
    CleanedPieces(body);
  }

  /** A body with no listed word in it comes back unchanged. */
  lemma CleanWithoutProfanity(body: string)
    requires forall i :: 0 <= i < |Split(body)| ==> !IsProfane(Split(body)[i])
    ensures Cleaned(body) == body
  {
    assert CleanWords(Split(body)) == Split(body);
    JoinSplit(body);
  }

  /** Filtering twice is filtering once, since "****" is not a listed word. */
  lemma CleanedIdempotent(body: string)
    ensures Cleaned(Cleaned(body)) == Cleaned(body)
  {
    CleanedPieces(body);
    ReplacementIsClean();
    var ws := CleanWords(Split(body));
    assert CleanWords(ws) == ws;
  }

  lemma ExampleSplit(body: string)
    requires body == "This is a Kerfuffle opinion"
    ensures Split(body) == ["This", "is", "a", "Kerfuffle", "opinion"]
  {
    var ws := ["This", "is", "a", "Kerfuffle", "opinion"];
    assert Join(ws) == body;
    assert ' ' !in ws[0] && ' ' !in ws[1] && ' ' !in ws[2] && ' ' !in ws[3] && ' ' !in ws[4];
    SplitJoin(ws);
  }

  lemma ExampleCleanWords(ws: seq<string>)
    requires ws == ["This", "is", "a", "Kerfuffle", "opinion"]
    ensures CleanWords(ws) == ["This", "is", "a", "****", "opinion"]
  {
    assert IsProfane(ws[3]) by { assert ToLower(ws[3]) == "kerfuffle"; }
    assert !IsProfane(ws[0]) && !IsProfane(ws[1]) && !IsProfane(ws[2]) && !IsProfane(ws[4]);
  }

  /** A listed word is matched whatever its case. */
  lemma ExampleMixedCase(body: string)
    requires body == "This is a Kerfuffle opinion"
    ensures Cleaned(body) == "This is a **** opinion"
  {
    ExampleSplit(body);
    ExampleCleanWords(Split(body));
    ExampleJoin(CleanWords(Split(body)));
  }

  lemma ExampleJoin(ws: seq<string>)
    requires ws == ["This", "is", "a", "****", "opinion"]
    ensures Join(ws) == "This is a **** opinion"
  {
    assert Join(ws[4..]) == "opinion";
    assert Join(ws[3..]) == "**** opinion";
    assert Join(ws[2..]) == "a **** opinion";
    assert Join(ws[1..]) == "is a **** opinion";
  }

  /** A listed word with punctuation attached is a different piece and is kept. */
  lemma ExampleAttachedPunctuation()
    ensures Cleaned("Sharbert!") == "Sharbert!"
  {
    SplitWord("Sharbert!");
    assert ToLower("Sharbert!")[8] == '!';
  }
}
