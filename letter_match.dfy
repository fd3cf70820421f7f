/** The letter-match game: a column of capitals and a column of lower-case
    letters, one pending choice per column; once both columns hold a choice
    the pair is judged, and a later reset clears both. */
module LetterMatch {
  import Letters
  import Catalog
  import opened Wrappers

  /** The letters on the board: the first six of the alphabet, in each case. */
  function UpperButtons(): (s: seq<char>)
    ensures s == "ABCDEF"
  {
    Catalog.AlphabetIsComplete();
    Catalog.LettersOf(Catalog.Alphabet[..6])
  }

  function LowerButtons(): (s: seq<char>)
    ensures s == "abcdef"
  {
    var upper := UpperButtons();
    seq(|upper|, i requires 0 <= i < |upper| => Letters.ToLower(upper[i]))
  }

  /** `selectedUppercase.toLowerCase() === selectedLowercase` */
  predicate IsMatch(upper: char, lower: char) {
    Letters.ToLower(upper) == lower
  }

  /** On the board a capital matches a lower-case letter exactly when both are
      the same letter of the alphabet. */
  lemma {:induction false} MatchIffSameLetter(i: int, j: int)
    requires 0 <= i < |UpperButtons()| && 0 <= j < |LowerButtons()|
    ensures IsMatch(UpperButtons()[i], LowerButtons()[j]) <==> i == j
  {
    Catalog.AlphabetIsComplete();
    var u := Catalog.LettersOf(Catalog.Alphabet[..6]);
    assert u == UpperButtons();
    assert u[i] == Catalog.Alphabet[i].letter && u[j] == Catalog.Alphabet[j].letter;
    Letters.ToLowerInjectiveOnUpper(u[i], u[j]);
  }

  datatype Feedback = PickALetter | PerfectMatch | TryAgain

  /** The game's state: the globals `selectedUppercase` and
      `selectedLowercase`, the highlighted button of each column and the text
      in the feedback box. */
  class Game {
    var upper: Option<char>
    var lower: Option<char>
    var upperHighlight: Option<char>
    var lowerHighlight: Option<char>
    var feedback: Feedback

    constructor ()
      ensures upper == None && lower == None
      ensures upperHighlight == None && lowerHighlight == None && feedback == PickALetter
    {
      upper, lower := None, None;
      upperHighlight, lowerHighlight := None, None;
      feedback := PickALetter;
    }

    /** `selectLetter`: the choice goes to the capital column when `kind` is
        "upper" and to the lower-case column otherwise; only then, and only if
        both columns hold a choice, is the pair judged. The result says whether
        a judgement was made and what it was. */
    method SelectLetter(letter: char, kind: string) returns (judged: Option<bool>)
      modifies this
      ensures kind == "upper" ==> upper == Some(letter) && upperHighlight == Some(letter)
                                  && lower == old(lower) && lowerHighlight == old(lowerHighlight)
      ensures kind != "upper" ==> lower == Some(letter) && lowerHighlight == Some(letter)
                                  && upper == old(upper) && upperHighlight == old(upperHighlight)
      ensures judged.Some? <==> upper.Some? && lower.Some?
      ensures judged.Some? ==> (judged.value <==> IsMatch(upper.value, lower.value))
      ensures judged.Some? ==> feedback == (if judged.value then PerfectMatch else TryAgain)
      ensures judged.None? ==> feedback == old(feedback)
    {
      if kind == "upper" {
        upper := Some(letter);
        upperHighlight := Some(letter);
      } else {
        lower := Some(letter);
        lowerHighlight := Some(letter);
      }
      judged := None;
      if upper.Some? && lower.Some? {
        var ok := IsMatch(upper.value, lower.value);
        feedback := if ok then PerfectMatch else TryAgain;
        judged := Some(ok);
      }
    }

    /** The clear that `selectLetter` schedules after a judgement: both choices,
        both highlights and the feedback return to their initial state. */
    method Reset()
      modifies this
      ensures upper == None && lower == None
      ensures upperHighlight == None && lowerHighlight == None && feedback == PickALetter
    {
      upper, lower := None, None;
      upperHighlight, lowerHighlight := None, None;
      feedback := PickALetter;
    }
  }

  /** Choosing A then a is a match, A then b is not, and a reset clears both. */
  method MatchScenario() returns (first: Option<bool>, second: Option<bool>)
    ensures first == Some(true) && second == Some(false)
  {
    var game := new Game();
    var none := game.SelectLetter('A', "upper");
    assert none == None;
    first := game.SelectLetter('a', "lower");
    game.Reset();
    none := game.SelectLetter('A', "upper");
    second := game.SelectLetter('b', "lower");
    game.Reset();
    assert game.upper == None && game.lower == None;
  }
}
