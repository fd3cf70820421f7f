# Reading Adventures: a verified model of the tutorial's interaction logic

Reading Adventures is a single-page phonics tutorial. It shows the 26 letters and eight CVC
(consonant-vowel-consonant) blending words as cards, offers three mini-games (letter match,
sound detective, rhyme match) and ends with a five-question quiz. This project models the
deterministic logic under the page's templating, in Dafny:

- **Quiz engine** (`Quiz`): the globals `currentQuestionIndex`, `quizScore`, `totalQuestions`
  and `quizQuestions` become the class `Quiz.QuizEngine`. The class also holds what the page
  shows of them: the disabled answer buttons (`answered`), each button's correct or incorrect
  mark, the start, next and results controls, the final score and the progress value. A ghost
  log of the answers given is tied by the class invariant to the score. The percentage and the
  three message tiers are functions.
- **Progress indicator** (`Progress`): `updateProgress` on an exact rational percentage.
  `Math.round` is `floor(x + 1/2)`. The label is "Ready to start!" at exactly 0,
  "Assessment complete!" at exactly 100 and "Progress: <rounded>%" otherwise.
  One consequence of the source: while the first question is on screen the label still reads
  "Ready to start!", because the value passed is 0.
- **Letter match** (`LetterMatch`): two optional slots. The pair is judged only once both are
  filled. The two-second clear is the explicit method `Reset`.
- **Sound detective** (`SoundDetective`): the random pick is a parameter drawn from A-D. The
  class invariant says the marks always agree with the letter played.
- **Rhyme match** (`RhymeMatch`): each button's fixed flag is checked against a reference
  notion of rhyme.
- **Keyboard navigation** (`Navigation`): the clamped index arithmetic of `navigateGrid`, and
  the Escape and arrow dispatch of `handleKeyboardNavigation`. The column count is a parameter.
- **Content** (`Catalog`, `Letters`, `Decimal`): the alphabet and CVC tables with their
  invariants, the case mapping, and the decimal text of numbers as template literals print them.

To verify the project, pass every `.dfy` file to one `dafny verify` command.

The page's markup is not part of this model. The model assumes the markup starts with the
start button showing, and the next button and the results panel hidden. It also assumes each
quiz handler is reachable only from its own control: start from the start button, next from
the next button, restart from outside a question.

Two behaviours of script.js that a reader might not expect:
- Pressing Down from a card with no card below it goes to the last card (script.js:753). With
  six cards in three columns, Down from card 3 goes to card 5 (`Navigation.DownFromLastRow`).
- `restartQuiz` resets neither the question index nor the score (script.js:675-680). Only
  `startQuiz` does (`Quiz.QuizEngine.Restart`, `Quiz.QuizEngine.Start`).

## Model

| member | source | states |
|---|---|---|
| `Letters.ToLower` | script.js:475 | capitals A-Z map to the letter 32 code points on (a-z); every other character is kept |
| `Letters.ToLowerInjectiveOnUpper` | script.js:475 | two capitals have the same lower-case form only if they are the same capital |
| `Letters.ToLowerOfUpperIsNotUpper` | script.js:475 | lower-casing a capital never gives back a capital |
| `Decimal.NatToString` | script.js:698 | the decimal text of a natural number is non-empty, all digits, with no leading zero unless it is "0" |
| `Decimal.ParseNatToString` | script.js:698 | reading the decimal text back gives the number (round trip) |
| `Decimal.NatToStringInjective` | script.js:698 | different numbers get different texts |
| `Decimal.IntToString` | script.js:661 | an integer's text starts with '-' exactly when it is negative; its digits read back to its absolute value and have no leading zero unless the integer is 0 |
| `Catalog.LettersOf` | script.js:251 | the letters of a slice of the alphabet table, position by position |
| `Catalog.AlphabetIsComplete` | script.js:10-37 | 26 entries, the letters A to Z in order |
| `Catalog.AlphabetExamplesStartWithLetter` | script.js:10-37 | each example word is non-empty and starts with its entry's letter |
| `Catalog.AlphabetPhoneticsWellFormed` | script.js:10-37 | each sound is non-empty and each phonetic form is written between slashes |
| `Catalog.AlphabetLettersUnique` | script.js:10-37 | two entries have the same letter only if they are the same entry |
| `Catalog.CvcWordsSpellTheirWords` | script.js:40-49 | eight entries; each word has three letters and equals `Blend` of its sounds, their concatenation in order |
| `Catalog.CvcWordsAreCvc` | script.js:40-49 | each word's sounds are one capital each, consonant, vowel, consonant |
| `Catalog.CvcWordsUnique` | script.js:40-49 | no blending word appears twice, so the lookup by word at script.js:375 finds one entry |
| `Progress.Whole` | script.js:679 | a whole-number percentage as a fraction with the same value |
| `Progress.Round` | script.js:689 | `Math.round`: the result r satisfies r <= x + 1/2 < r + 1 |
| `Progress.RoundMonotone` | script.js:698 | a larger value never rounds to a smaller integer |
| `Progress.RoundWhole` | script.js:698 | a whole number rounds to itself |
| `Progress.LabelFor` | script.js:692-700 | "Ready to start!" exactly at 0, "Assessment complete!" exactly at 100, and otherwise the rounded percentage |
| `Progress.LabelBetweenEnds` | script.js:692-700 | strictly between 0 and 100 the label shows the rounded value, which lies in [0, 100] |
| `Progress.LabelText` | script.js:693-699 | "Ready to start!" is written exactly for the label at 0 and "Assessment complete!" exactly at 100; a percentage reads "Progress: ", then the decimal text of its rounded value, then '%' |
| `Progress.LabelTextDistinct` | script.js:693-699 | the three label texts differ, so the text shown determines the label |
| `Progress.Render` | script.js:683-701 | the bar's width is the value; the bar's text is the rounded value followed by '%'; the label is as above |
| `Quiz.QuizQuestionsWellFormed` | script.js:549-582 | five questions of four options each; every `correct` index is below its number of options |
| `Quiz.AnswerKeyMatchesAlphabet` | script.js:550-561 | the first two keyed answers agree with the alphabet table: B follows A, and M's sound is "muh" |
| `Quiz.AnswerKeyMatchesBlending` | script.js:562-567 | the keyed answer CAT is what C + A + T blends to, and it is the first blending word |
| `Quiz.AnswerKeyMatchesRhyme` | script.js:568-573 | of the four options exactly the keyed one, FUN, rhymes with SUN |
| `Quiz.AnswerKeyMatchesAlphabetSize` | script.js:574-579 | the keyed answer is the size of the alphabet table written in decimal, "26" |
| `Quiz.MarkButtons` | script.js:626-635 | exactly the correct button is marked correct; the chosen button is marked incorrect exactly when it is not the correct one; the rest stay unmarked |
| `Quiz.CountCorrect` | script.js:637-639 | the number of correct answers given so far never exceeds the number of answers |
| `Quiz.CountCorrectIsCardinality` | script.js:637-643 | that count equals the size of the set of questions whose answer was the correct one |
| `Quiz.CountCorrectAppend` | script.js:638-639 | one more answer adds exactly one to the count if it is correct, and nothing otherwise |
| `Quiz.Percentage` | script.js:656 | `round(score / total * 100)`, in [0, 100] for 0 <= score <= total; 0 for no correct answers, 100 for all correct |
| `Quiz.PercentageMonotone` | script.js:656 | more correct answers never give a lower percentage |
| `Quiz.PercentageOfFive` | script.js:656 | with five questions the percentage is exactly 20 per correct answer |
| `Quiz.HundredOnlyWhenPerfect` | script.js:656 | the results read 100% exactly for a perfect score, or when 200 * score >= 199 * total, which needs at least 200 questions |
| `Quiz.TierOf` | script.js:666-672 | "excellent" exactly from 80, "good" exactly from 60 to below 80, "keep practicing" below 60 |
| `Quiz.TierMessagesDistinct` | script.js:666-672 | the three announced messages (`TierMessage`) differ, so what is announced tells the tier |
| `Quiz.SummaryTextInjective` | script.js:660-661 | the final-score text (`SummaryText`) gives back the score, the total and the percentage: two summaries have the same text only if they are equal |
| `Quiz.TierMonotone` | script.js:666-672 | a higher score never earns a lower tier |
| `Quiz.TiersOfFive` | script.js:656-672 | with five questions: 4 or 5 correct is excellent, 3 (60%) is good, 0 to 2 is keep practicing |
| `Quiz.ProgressWhileAsking` | script.js:618 | on question i of total the label is "Ready to start!" for i = 0, otherwise a rounded value of at most 100; with five questions it is 20 * i |
| `Quiz.QuizEngine.constructor` | script.js:548-583 | the page as loaded: the five questions installed, index and score 0, the start button showing, progress 0 |
| `Quiz.QuizEngine.Start` | script.js:585-593 | whatever the prior state: index and score 0, no answers, the start button and the results hidden, question 0 shown unmarked, progress 0 |
| `Quiz.QuizEngine.ShowQuestion` | script.js:595-619 | below the last question it renders question `index` with enabled, unmarked buttons and progress index/total*100; past it, it shows the results instead and reads no question |
| `Quiz.QuizEngine.SelectAnswer` | script.js:621-647 | on enabled buttons: disables them; adds 1 to the score exactly when the choice is correct; records the answer; marks as `MarkButtons`; keeps the index; shows Next. On disabled buttons: no effect, so no question is scored twice |
| `Quiz.QuizEngine.Next` | script.js:649-653 | the index goes up by exactly 1; score <= answers given = index <= total; at the end the results show score = number of correct answers, its percentage, progress 100 and the tier |
| `Quiz.QuizEngine.ShowResults` | script.js:655-673 | the question is cleared; the summary shows the score, the total and the percentage; progress is 100; the tier of the percentage is announced |
| `Quiz.QuizEngine.Restart` | script.js:675-680 | start shown; results and next hidden; progress 0; the index, the score and everything else unchanged |
| `Quiz.AnswerAndAdvance` | script.js:622-653 | answering the question on screen and pressing Next moves on by one question, adds one point exactly for the keyed answer, and after the last question shows the summary and announces its tier |
| `Quiz.ThreeOfFiveSession` | script.js:585-672 | three right then two wrong gives 3 out of 5, 60% and the "good" tier; Restart then keeps the score 3 and a new Start sets it to 0 |
| `LetterMatch.UpperButtons` | script.js:251-262 | the capital column, taken from the first six alphabet entries, reads A B C D E F |
| `LetterMatch.LowerButtons` | script.js:273-278 | the lower-case column, each capital lower-cased in order, reads a b c d e f |
| `LetterMatch.MatchIffSameLetter` | script.js:475 | a capital and a lower-case letter on the board match (`IsMatch`: the capital lower-cased equals the letter) exactly when they are the same letter |
| `LetterMatch.Game.constructor` | script.js:452-453 | both slots empty, nothing highlighted, "Pick a letter!" |
| `LetterMatch.Game.SelectLetter` | script.js:455-483 | only the chosen column's slot and highlight change; the pair is judged exactly when both slots are filled; the judgement is a match exactly when lower(upper) == lower |
| `LetterMatch.Game.Reset` | script.js:485-493 | both slots and highlights cleared, the feedback back to "Pick a letter!" |
| `LetterMatch.MatchScenario` | script.js:455-493 | A then a is judged a match; after a reset, A then b is judged a mismatch |
| `SoundDetective.Buttons` | script.js:290 | the option buttons, taken from the first four alphabet entries, are the letters A, B, C, D that can be played |
| `SoundDetective.PoolIsBoard` | script.js:497-501 | a letter can be played exactly when it is on a button, so `CheckDetectiveAnswer`'s requirement that the choice be one of them is a requirement that it be a button |
| `SoundDetective.Judge` | script.js:515-523 | "correct" exactly when the choice is the letter played; otherwise the feedback names the letter played |
| `SoundDetective.Game.constructor` | script.js:497 | the letter is A, no marks, no feedback |
| `SoundDetective.Game.PlayDetectiveSound` | script.js:499-509 | the picked letter becomes current; every mark and the feedback are cleared |
| `SoundDetective.Game.CheckDetectiveAnswer` | script.js:511-524 | correct exactly when the choice is the letter played; only the clicked button gains a mark; the letter played is unchanged |
| `SoundDetective.NeverMarkedBoth` | script.js:499-524 | no button is ever marked both correct and incorrect |
| `RhymeMatch.OptionFlagsAreRhymes` | script.js:322-328 | each button's flag says whether its word rhymes with CAT under the reference notion (same last two letters, different word) |
| `RhymeMatch.RhymeWordsAreRhymes` | script.js:314-317 | every word listed as a rhyme in the declared table rhymes with its entry's word under the reference notion |
| `RhymeMatch.RhymeWordsNonRhymesAreNot` | script.js:314-317 | every entry's listed non-rhyme does not rhyme with its word |
| `RhymeMatch.CheckRhyme` | script.js:526-539 | the clicked button is marked correct exactly when its flag is set; the feedback names the clicked word |
| `RhymeMatch.ClickCorrectIffRhyme` | script.js:325-328 | a button on the board is judged correct exactly when its word rhymes with CAT |
| `Navigation.NewIndex` | script.js:743-758 | always a valid card; Right/Left move one card, or stay at the last/first card; Down/Up move one row, or else go to the last/first card; any other key stays put |
| `Navigation.NavigateGrid` | script.js:760-763 | focus moves exactly when the new index differs from the current one |
| `Navigation.StaysIffAtBoundary` | script.js:743-763 | focus stays exactly when Right or Down is pressed on the last card, Left or Up on the first card, or the key is not an arrow |
| `Navigation.HorizontalInverse` | script.js:746-751 | away from the ends, Left undoes Right and Right undoes Left |
| `Navigation.VerticalInverse` | script.js:752-757 | Up undoes Down when the row below has a card in the same column; Down undoes Up when there is a row above |
| `Navigation.DownFromLastRow` | script.js:752-754 | Down with no card below goes to the last card: with 6 cards in 3 columns, 0 goes to 3 and 3 goes to 5 |
| `Navigation.HandleKey` | script.js:719-735 | Escape focuses the first navigation button when there is one; a key starting with "Arrow" (`StartsWithArrow`) pressed on a card focuses exactly the card `navigateGrid` moves to, and nothing if it does not move; from elsewhere it and every other key do nothing |
| `Navigation.ArrowStaysInGrid` | script.js:728-734 | an arrow key never moves focus out of the grid it was pressed in, and only to a different card |

## Left out

- DOM construction and templating: the `generate*` functions, `showSection`, `highlightLetter`,
  `highlightWord` and the "Question i of n" header. They are presentation. The model keeps only
  the abstract state they show: marks, visibility, text.
- Speech and sound: `playLetterSound`, `playPhoneticSound`, `playWordBlending` and their staggered
  timers, including the match-time call at script.js:478. These are browser speech APIs and are
  fire-and-forget.
- `announceToScreenReader` and `showAudioFeedback`: they only add and remove DOM nodes. The quiz
  returns what it would announce as an `Announcement` value.
- Timers: the letter-match clear is the explicit `LetterMatch.Game.Reset`. Stale or overlapping
  timer callbacks are not modelled. The three-second clear of the rhyme feedback and marks is not
  modelled at all.
- The letter-match clear removes the `correct` class from every `.answer-btn` on the page, so it
  also removes marks in the quiz and the sound detective. Each component's marks are kept
  separately here, so this cross-game effect is not modelled.
- `setupFocusManagement` and `setupElementFocus` (a MutationObserver and focus/blur listeners):
  these are event-loop plumbing.
- `getComputedStyle(...).gridTemplateColumns`: the column count is a parameter of at least 1, the
  length of a split string. `cards.indexOf` gives a valid index, which is the parameter `current`.
- `Math.random` in `playDetectiveSound`: the letter picked is a parameter drawn from A-D.
- The window `error` and `load` handlers and the console logging.
- `Letters.ToLower`: maps only A-Z. JavaScript's `toLowerCase` also maps non-ASCII letters,
  but only A-F ever reach it.
- `Quiz.Percentage`: uses exact rational arithmetic, not floating point. For five questions the
  two give identical values (i/5*100 is exact in binary floating point for i = 0..5). With other
  totals, floating point could round a value close to a half the other way.
- `Progress.Render`: the bar's width is kept as an exact fraction, not as the floating-point
  text `percentage + '%'`.
- `Quiz.QuizEngine.Start`, `Quiz.QuizEngine.Next`, `Quiz.QuizEngine.Restart`: each requires that
  its control can be clicked. Start needs the start button showing, Next the next button showing,
  and Restart no question on screen. The source functions do not check this themselves. The model
  assumes the page's markup, which is not part of this model, offers each control only then.
- `setupQuiz` and `initializeTutorial`'s `updateProgress(0)` are folded into the engine's
  constructor. The `DOMContentLoaded` listener (script.js:52-65) runs both. The model assumes it
  runs before any control can be clicked, so no handler sees the empty question list of
  script.js:6-7.
- The two results texts are pure functions of what the engine keeps: the final-score panel
  shows `Quiz.SummaryText(summary)` and `Congratulate(t)` announces `Quiz.TierMessage(t)`.
  The engine stores the `Summary` and returns the `Announcement`, not the strings. Both text
  functions lose nothing (`Quiz.SummaryTextInjective`, `Quiz.TierMessagesDistinct`), so every
  fact stated about the summary or the tier is a fact about the text shown.
- The alphabet table's colour strings are carried in `Catalog.LetterEntry`, but no property of
  their format is stated. They are only used as CSS values.
