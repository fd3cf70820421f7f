/** The sound-detective game: a letter is picked from A-D and played; the
    player clicks one of the four letter buttons, which is marked correct when
    it is the letter played and incorrect otherwise. Marks and feedback stay
    until the next sound is played. */
module SoundDetective {
  import Catalog

  /** The letters `playDetectiveSound` picks from. */
  const Pool: seq<char> := ['A', 'B', 'C', 'D']

  const PoolLetters: set<char> := {'A', 'B', 'C', 'D'}

  /** The option buttons: the first four letters of the alphabet. */
  function Buttons(): (s: seq<char>)
    ensures s == Pool
  {
    Catalog.AlphabetIsComplete();
    Catalog.LettersOf(Catalog.Alphabet[..4])
  }

  /** Every letter that can be played has a button, and every button's letter
      can be played: the correct answer is always on the board. */
  lemma PoolIsBoard()
    ensures forall c :: c in PoolLetters <==> c in Buttons()
  {
  }

  datatype Mark = MarkedCorrect | MarkedIncorrect

  /** The feedback text: empty, "Correct! Great listening!", or "That was <letter>. Try again!". */
  datatype Feedback = Blank | Correct | WrongWas(letter: char)

  /** `checkDetectiveAnswer`'s judgement of a choice against the letter played. */
  function Judge(selected: char, played: char): (r: Feedback)
    ensures r == Correct <==> selected == played
    ensures r != Correct ==> r == WrongWas(played)
  {
    if selected == played then Correct else WrongWas(played)
  }

  function MarkOf(f: Feedback): (m: Mark)
    requires f != Blank
  {
    if f == Correct then MarkedCorrect else MarkedIncorrect
  }

  /** The game's state: the global `currentDetectiveLetter`, the classes of
      each option button and the feedback text. */
  class Game {
    var current: char
    var marks: map<char, set<Mark>>
    var feedback: Feedback

    /** Marks agree with the letter being played: only its button can be marked
        correct, only other buttons can be marked incorrect. */
    ghost predicate Valid()
      reads this
    {
      && current in PoolLetters
      && marks.Keys == PoolLetters
      && (forall c :: c in marks && MarkedCorrect in marks[c] ==> c == current)
      && (forall c :: c in marks && MarkedIncorrect in marks[c] ==> c != current)
    }

    constructor ()
      ensures Valid() && current == 'A' && feedback == Blank
      ensures forall c :: c in marks ==> marks[c] == {}
    {
      current := 'A';
      marks := map c | c in PoolLetters :: {};
      feedback := Blank;
    }

    /** `playDetectiveSound`, with the random choice given as `pick`: the new
        letter becomes current and every mark and the feedback are cleared. */
    method PlayDetectiveSound(pick: char)
      requires Valid() && pick in PoolLetters
      modifies this
      ensures Valid() && current == pick && feedback == Blank
      ensures marks.Keys == old(marks.Keys) && forall c :: c in marks ==> marks[c] == {}
    {
      current := pick;
      marks := map c | c in PoolLetters :: {};
      feedback := Blank;
    }

    /** `checkDetectiveAnswer`: the clicked button gains the mark of the
        judgement and the feedback shows it; nothing else changes. The buttons
        carry the letters of the pool (`PoolIsBoard`). */
    method CheckDetectiveAnswer(selected: char) returns (correct: bool)
      requires Valid() && selected in PoolLetters
      modifies this
      ensures Valid()
      ensures correct <==> selected == current
      ensures current == old(current) && feedback == Judge(selected, current)
      ensures marks == old(marks)[selected := old(marks)[selected] + {MarkOf(feedback)}]
    {
      feedback := Judge(selected, current);
      correct := feedback == Correct;
      marks := marks[selected := marks[selected] + {MarkOf(feedback)}];
    }
  }

  /** No button is ever marked both correct and incorrect. */
  lemma NeverMarkedBoth(g: Game, c: char)
    requires g.Valid() && c in g.marks
    ensures !(MarkedCorrect in g.marks[c] && MarkedIncorrect in g.marks[c])
  {
  }
}
