/** The rhyme game: four buttons under the target word CAT, each carrying a
    fixed flag saying whether its word rhymes; a click is judged by that flag. */
module RhymeMatch {

  const Target: string := "CAT"

  /** A button of the game and the flag it passes to `checkRhyme`. */
  datatype RhymeOption = RhymeOption(word: string, isRhyme: bool)

  const Options: seq<RhymeOption> := [
    RhymeOption("BAT", true),
    RhymeOption("DOG", false),
    RhymeOption("HAT", true),
    RhymeOption("CAR", false)
  ]

  /** The word table the game declares (it is not used to build the buttons). */
  datatype RhymeSet = RhymeSet(word: string, rhymes: seq<string>, nonRhyme: string)

  const RhymeWords: seq<RhymeSet> := [
    RhymeSet("CAT", ["BAT", "HAT", "RAT"], "DOG"),
    RhymeSet("SUN", ["FUN", "RUN", "BUN"], "CAR")
  ]

  /** The reference notion of rhyme for these three-letter words: two different
      words that end in the same vowel and consonant. */
  predicate Rhymes(a: string, b: string) {
    |a| >= 2 && |b| >= 2 && a != b && a[|a| - 2..] == b[|b| - 2..]
  }

  /** Every button's flag is what the reference notion says about its word, and
      the board offers two rhymes and two non-rhymes. */
  lemma OptionFlagsAreRhymes()
    ensures forall i :: 0 <= i < |Options| ==> (Options[i].isRhyme <==> Rhymes(Options[i].word, Target))
    ensures |Options| == 4 && Options[0].isRhyme && !Options[1].isRhyme && Options[2].isRhyme && !Options[3].isRhyme
  {
  }

  /** The declared rhyme table is consistent with the reference notion. */
  lemma RhymeWordsAreRhymes()
    ensures forall i, j :: 0 <= i < |RhymeWords| && 0 <= j < |RhymeWords[i].rhymes| ==>
              Rhymes(RhymeWords[i].rhymes[j], RhymeWords[i].word)
  {
  }

  /** Each entry's non-rhyme does not rhyme with its word. */
  lemma RhymeWordsNonRhymesAreNot()
    ensures forall i :: 0 <= i < |RhymeWords| ==> !Rhymes(RhymeWords[i].nonRhyme, RhymeWords[i].word)
  {
  }

  datatype Mark = MarkedCorrect | MarkedIncorrect

  /** The feedback text: "Yes! <word> rhymes with CAT!" or "<word> doesn't rhyme with CAT." */
  datatype Feedback = Yes(word: string) | No(word: string)

  /** The effect of a click: the mark added to the clicked button and the feedback shown. */
  datatype Outcome = Outcome(mark: Mark, feedback: Feedback)

  /** `checkRhyme`: the click is judged only by the button's own flag. */
  function CheckRhyme(word: string, isRhyme: bool): (r: Outcome)
    ensures r.mark == MarkedCorrect <==> isRhyme
    ensures r.feedback.word == word
    ensures r.feedback.Yes? <==> r.mark == MarkedCorrect
  {
    if isRhyme then Outcome(MarkedCorrect, Yes(word)) else Outcome(MarkedIncorrect, No(word))
  }

  /** Clicking a button of the board is judged correct exactly when its word rhymes with CAT. */
  lemma {:induction false} ClickCorrectIffRhyme(i: int)
    requires 0 <= i < |Options|
    ensures CheckRhyme(Options[i].word, Options[i].isRhyme).mark == MarkedCorrect <==> Rhymes(Options[i].word, Target)
  {
    OptionFlagsAreRhymes();
  }
}
