/** The quiz engine: a fixed list of multiple-choice questions shown one at a
    time, one answer per question, a score, and a results screen with a
    rounded percentage and one of three tier messages. */
module Quiz {
  import Progress
  import Decimal
  import Catalog
  import RhymeMatch

  datatype Question = Question(prompt: string, options: seq<string>, correct: int, kind: string)

  /** The question list `setupQuiz` installs. */
  const QuizQuestions: seq<Question> := [
    Question("What letter comes after A?", ["B", "C", "D", "E"], 0, "multiple-choice"),
    Question("Which letter makes the 'mmm' sound?", ["N", "M", "L", "P"], 1, "multiple-choice"),
    Question("What word do these sounds make: C + A + T?", ["DOG", "CAT", "SUN", "HAT"], 1, "multiple-choice"),
    Question("Which word rhymes with 'SUN'?", ["CAR", "FUN", "DOG", "BOOK"], 1, "multiple-choice"),
    Question("How many letters are in the alphabet?", ["24", "25", "26", "27"], 2, "multiple-choice")
  ]

  /** The correct option exists among the options. */
  predicate WellFormed(q: Question) {
    0 <= q.correct < |q.options|
  }

  predicate AllWellFormed(qs: seq<Question>) {
    forall i :: 0 <= i < |qs| ==> WellFormed(qs[i])
  }

  function Answer(q: Question): string
    requires WellFormed(q)
  {
    q.options[q.correct]
  }

  /** Five questions of four options each, every `correct` index naming one of them. */
  lemma QuizQuestionsWellFormed()
    ensures |QuizQuestions| == 5 && AllWellFormed(QuizQuestions)
    ensures forall i :: 0 <= i < |QuizQuestions| ==> |QuizQuestions[i].options| == 4
  {
  }

  /** The answer key agrees with the alphabet: B follows A, and M's sound is "muh". */
  lemma AnswerKeyMatchesAlphabet()
    ensures WellFormed(QuizQuestions[0]) && WellFormed(QuizQuestions[1])
    ensures Answer(QuizQuestions[0]) == [Catalog.Alphabet[1].letter] && Catalog.Alphabet[0].letter == 'A'
    ensures Answer(QuizQuestions[1]) == [Catalog.Alphabet[12].letter] && Catalog.Alphabet[12].sound == "muh"
  {
  }

  /** C + A + T blends to the blending word CAT, and it is the answer. */
  lemma AnswerKeyMatchesBlending()
    ensures WellFormed(QuizQuestions[2])
    ensures Answer(QuizQuestions[2]) == Catalog.Blend(Catalog.CvcWords[0].sounds) == Catalog.Blend(["C", "A", "T"])
  {
    Catalog.BlendOfThree("C", "A", "T");
  }

  /** FUN is the only option that rhymes with SUN, and it is the answer. */
  lemma AnswerKeyMatchesRhyme()
    ensures WellFormed(QuizQuestions[3]) && |QuizQuestions[3].options| == 4
    ensures forall j :: 0 <= j < 4 ==>
              (RhymeMatch.Rhymes(QuizQuestions[3].options[j], "SUN") <==> j == QuizQuestions[3].correct)
  {
  }

  /** The answer to the last question is the size of the alphabet, written out. */
  lemma AnswerKeyMatchesAlphabetSize()
    ensures WellFormed(QuizQuestions[4])
    ensures Answer(QuizQuestions[4]) == Decimal.NatToString(|Catalog.Alphabet|)
  {
    assert Decimal.NatToString(26) == "26";
  }

  /** How one answer button is marked once an answer has been given. */
  datatype Mark = Unmarked | MarkedCorrect | MarkedIncorrect

  /** The marks of `count` buttons after `selected` was chosen: the correct
      button is marked correct, the chosen one is marked incorrect when it is
      not the correct one, and the rest stay unmarked. */
  method MarkButtons(count: nat, correct: int, selected: int) returns (marks: seq<Mark>)
    ensures |marks| == count
    ensures forall j :: 0 <= j < count ==> (marks[j] == MarkedCorrect <==> j == correct)
    ensures forall j :: 0 <= j < count ==> (marks[j] == MarkedIncorrect <==> j == selected && selected != correct)
    ensures forall j :: 0 <= j < count ==> (marks[j] == Unmarked <==> j != correct && j != selected)
  {
    marks := [];
    var index := 0;
    while index < count
      invariant 0 <= index <= count && |marks| == index
      invariant forall j :: 0 <= j < index ==> (marks[j] == MarkedCorrect <==> j == correct)
      invariant forall j :: 0 <= j < index ==> (marks[j] == MarkedIncorrect <==> j == selected && selected != correct)
      invariant forall j :: 0 <= j < index ==> (marks[j] == Unmarked <==> j != correct && j != selected)
    {
      if index == correct {
        marks := marks + [MarkedCorrect];
      } else if index == selected && index != correct {
        marks := marks + [MarkedIncorrect];
      } else {
        marks := marks + [Unmarked];
      }
      index := index + 1;
    }
  }

  /** The number of answers, given to the questions in order, that were correct. */
  function CountCorrect(qs: seq<Question>, answers: seq<int>): (n: nat)
    requires |answers| <= |qs|
    ensures n <= |answers|
    decreases |answers|
  {
    if answers == [] then 0
    else
      var k := |answers| - 1;
      CountCorrect(qs, answers[..k]) + (if answers[k] == qs[k].correct then 1 else 0)
  }

  /** The positions at which the answer given was the correct one. */
  ghost function CorrectPositions(qs: seq<Question>, answers: seq<int>): set<int>
    requires |answers| <= |qs|
  {
    set i | 0 <= i < |answers| && answers[i] == qs[i].correct
  }

  /** The running count is the number of questions answered correctly. */
  lemma {:induction false} CountCorrectIsCardinality(qs: seq<Question>, answers: seq<int>)
    requires |answers| <= |qs|
    ensures CountCorrect(qs, answers) == |CorrectPositions(qs, answers)|
    decreases |answers|
  {
    if answers != [] {
      var k := |answers| - 1;
      var prefix := answers[..k];
      CountCorrectIsCardinality(qs, prefix);
      var before := CorrectPositions(qs, prefix);
      assert k !in before;
      if answers[k] == qs[k].correct {
        assert CorrectPositions(qs, answers) == before + {k};
      } else {
        assert CorrectPositions(qs, answers) == before;
      }
    }
  }

  /** Recording one more answer adds one to the count exactly when it is correct. */
  lemma CountCorrectAppend(qs: seq<Question>, answers: seq<int>, k: int)
    requires |answers| < |qs|
    ensures CountCorrect(qs, answers + [k]) ==
            CountCorrect(qs, answers) + (if k == qs[|answers|].correct then 1 else 0)
  {
    assert (answers + [k])[..|answers|] == answers;
  }

  /** `Math.round(score / total * 100)` */
  function Percentage(score: int, total: Progress.Positive): (p: int)
    ensures 2 * total * p <= 200 * score + total < 2 * total * (p + 1)
    ensures 0 <= score <= total ==> 0 <= p <= 100
    ensures score == 0 ==> p == 0
    ensures score == total ==> p == 100
  {
    var p := Progress.Round(Progress.Fraction(100 * score, total));
    if 0 <= score <= total then
      Progress.RoundMonotone(Progress.Fraction(0, total), Progress.Fraction(100 * score, total));
      Progress.RoundMonotone(Progress.Fraction(100 * score, total), Progress.Fraction(100 * total, total));
      Progress.RoundWhole(0, total);
      Progress.RoundWhole(100, total);
      p
    else
      p
  }

  /** More correct answers never give a lower percentage. */
  lemma PercentageMonotone(s: int, t: int, total: Progress.Positive)
    requires s <= t
    ensures Percentage(s, total) <= Percentage(t, total)
  {
    Progress.RoundMonotone(Progress.Fraction(100 * s, total), Progress.Fraction(100 * t, total));
  }

  /** With five questions every score is worth exactly 20 points. */
  lemma {:induction false} PercentageOfFive(score: int)
    requires 0 <= score <= 5
    ensures Percentage(score, 5) == 20 * score
  {
    Progress.RoundWhole(20 * score, 5);
    assert 20 * score * 5 == 100 * score;
  }

  /** Results is 100% only for a perfect score as long as there are fewer than
      200 questions; from 200 questions on, one wrong answer also rounds to 100. */
  lemma {:induction false} HundredOnlyWhenPerfect(score: int, total: Progress.Positive)
    requires 0 <= score <= total
    ensures Percentage(score, total) == 100 <==> score == total || 200 * score >= 199 * total
  {
    var p := Percentage(score, total);
    if 200 * score >= 199 * total {
      assert 2 * total * 100 <= 200 * score + total;
      Progress.CancelPositiveFactor(2 * total, 99, p);
    } else {
      assert 200 * score + total < 2 * total * 100;
      Progress.CancelPositiveFactor(2 * total, p, 100);
    }
  }

  datatype Tier = Excellent | Good | KeepPracticing

  /** The message tier of a final percentage: at least 80, at least 60, or less. */
  function TierOf(percentage: int): (t: Tier)
    ensures t == Excellent <==> percentage >= 80
    ensures t == Good <==> 60 <= percentage < 80
    ensures t == KeepPracticing <==> percentage < 60
  {
    if percentage >= 80 then Excellent
    else if percentage >= 60 then Good
    else KeepPracticing
  }

  function Rank(t: Tier): nat {
    match t
    case KeepPracticing => 0
    case Good => 1
    case Excellent => 2
  }

  /** A higher score never earns a lower tier. */
  lemma TierMonotone(s: int, t: int, total: Progress.Positive)
    requires s <= t
    ensures Rank(TierOf(Percentage(s, total))) <= Rank(TierOf(Percentage(t, total)))
  {
    PercentageMonotone(s, t, total);
  }

  /** The tiers of the five-question quiz: 4 or 5 right is excellent, 3 is good
      (60%), fewer is "keep practicing". */
  lemma {:induction false} TiersOfFive(score: int)
    requires 0 <= score <= 5
    ensures TierOf(Percentage(score, 5)) == (if score >= 4 then Excellent else if score == 3 then Good else KeepPracticing)
  {
    PercentageOfFive(score);
  }

  /** The text announced for a tier. */
  function TierMessage(t: Tier): string {
    match t
    case Excellent => "Excellent work! You're becoming a great reader!"
    case Good => "Good job! Keep practicing and you'll improve even more!"
    case KeepPracticing => "Keep practicing! You're learning and that's what matters!"
  }

  /** The three messages differ, so what is announced tells the tier. */
  lemma TierMessagesDistinct(s: Tier, t: Tier)
    ensures TierMessage(s) == TierMessage(t) <==> s == t
  {
    ExcellentMessageLength();
    GoodMessageLength();
    KeepPracticingMessageLength();
  }

  lemma ExcellentMessageLength() ensures |TierMessage(Excellent)| == 47 {}

  lemma GoodMessageLength() ensures |TierMessage(Good)| == 55 {}

  lemma KeepPracticingMessageLength() ensures |TierMessage(KeepPracticing)| == 57 {}

  /** What the engine announces to screen readers, if anything; `Congratulate(t)`
      announces `TierMessage(t)`. */
  datatype Announcement = Silent | CorrectAnswer | IncorrectAnswer | Congratulate(tier: Tier)

  /** The content of the final-score panel. */
  datatype Summary = NoSummary | Summary(score: nat, total: nat, percentage: int)

  /** The text of the final-score panel. */
  function SummaryText(s: Summary): string {
    match s
    case NoSummary => ""
    case Summary(score, total, p) =>
      "You got " + (Decimal.IntToString(score) + (" out of " + (Decimal.IntToString(total)
      + (" questions correct! (" + (Decimal.IntToString(p) + "%)")))))
  }

  /** The panel's text gives back the score, the total and the percentage. */
  lemma {:induction false} SummaryTextInjective(a: Summary, b: Summary)
    requires a.Summary? && b.Summary?
    ensures SummaryText(a) == SummaryText(b) <==> a == b
  {
    if SummaryText(a) == SummaryText(b) {
      var ra := " out of " + (Decimal.IntToString(a.total)
                + (" questions correct! (" + (Decimal.IntToString(a.percentage) + "%)")));
      var rb := " out of " + (Decimal.IntToString(b.total)
                + (" questions correct! (" + (Decimal.IntToString(b.percentage) + "%)")));
      assert Decimal.IntToString(a.score) + ra == SummaryText(a)[8..] == Decimal.IntToString(b.score) + rb;
      Decimal.IntTextThenRest(a.score, ra, b.score, rb);
      var qa := " questions correct! (" + (Decimal.IntToString(a.percentage) + "%)");
      var qb := " questions correct! (" + (Decimal.IntToString(b.percentage) + "%)");
      assert Decimal.IntToString(a.total) + qa == ra[8..] == Decimal.IntToString(b.total) + qb;
      Decimal.IntTextThenRest(a.total, qa, b.total, qb);
      assert Decimal.IntToString(a.percentage) + "%)" == qa[21..] == Decimal.IntToString(b.percentage) + "%)";
      Decimal.IntTextThenRest(a.percentage, "%)", b.percentage, "%)");
    }
  }

  /** What the quiz container holds: the page's initial content, the current
      question with its answer buttons, or nothing (after the results). */
  datatype Screen = Intro | Asking | Cleared

  /** While question `index` of `total` is on screen, the progress indicator
      shows `index / total * 100`: "Ready to start!" on the first question and
      a rounded percentage below 100 on the others; with five questions it is
      20 points per question already passed. */
  lemma {:induction false} ProgressWhileAsking(index: nat, total: Progress.Positive)
    requires index < total
    ensures index == 0 ==> Progress.LabelFor(Progress.Fraction(100 * index, total)) == Progress.ReadyToStart
    ensures index > 0 ==> Progress.LabelFor(Progress.Fraction(100 * index, total)).Percent?
    ensures index > 0 ==> 0 <= Progress.LabelFor(Progress.Fraction(100 * index, total)).rounded <= 100
    ensures total == 5 && index > 0 ==> Progress.LabelFor(Progress.Fraction(100 * index, total)) == Progress.Percent(20 * index)
  {
    var p := Progress.Fraction(100 * index, total);
    if index > 0 {
      Progress.LabelBetweenEnds(p);
      if total == 5 {
        Progress.RoundWhole(20 * index, 5);
        assert 20 * index * 5 == 100 * index;
      }
    }
  }

  /** The quiz's state: the globals `quizQuestions`, `totalQuestions`,
      `currentQuestionIndex` and `quizScore`, with what the page shows of them. */
  class QuizEngine {
    var questions: seq<Question>
    var total: nat
    var index: nat
    var score: nat
    /** The answer buttons of the question on screen are disabled. */
    var answered: bool
    /** The marks of the answer buttons on screen. */
    var marks: seq<Mark>
    var screen: Screen
    var startVisible: bool
    var nextVisible: bool
    var resultsVisible: bool
    var summary: Summary
    /** The value last passed to the progress indicator. */
    var progress: Progress.Fraction
    /** The answers given since the quiz was started, one per question in order. */
    ghost var answers: seq<int>

    /** The invariant of the engine, except what a question on screen needs. */
    ghost predicate Consistent()
      reads this
    {
      && total == |questions| > 0
      && AllWellFormed(questions)
      && index <= total
      && |answers| == index + (if answered then 1 else 0) <= total
      && score == CountCorrect(questions, answers)
      && (answered ==> screen == Asking)
      && (nextVisible ==> screen == Asking && answered)
      && (startVisible ==> screen != Asking)
    }

    ghost predicate Valid()
      reads this
    {
      Consistent() && (screen == Asking ==> index < total && |marks| == |questions[index].options|)
    }

    /** The page as loaded: the globals' initial values, the questions set up,
        the start button showing and the progress indicator at 0. */
    constructor ()
      ensures Valid()
      ensures questions == QuizQuestions && total == 5
      ensures index == 0 && score == 0 && !answered && answers == []
      ensures screen == Intro && startVisible && !nextVisible && !resultsVisible
      ensures summary == NoSummary && progress == Progress.Whole(0)
    {
      QuizQuestionsWellFormed();
      questions := QuizQuestions;
      total := |QuizQuestions|;
      index := 0;
      score := 0;
      answered := false;
      marks := [];
      screen := Intro;
      startVisible := true;
      nextVisible := false;
      resultsVisible := false;
      summary := NoSummary;
      progress := Progress.Whole(0);
      answers := [];
    }

    /** Whatever came before, the quiz restarts at the first question with no points. */
    method Start()
      requires Valid() && startVisible
      modifies this
      ensures Valid()
      ensures index == 0 && score == 0 && answers == []
      ensures !startVisible && !resultsVisible && !nextVisible
      ensures screen == Asking && !answered && marks == seq(|questions[0].options|, _ => Unmarked)
      ensures progress == Progress.Fraction(0, total)
      ensures questions == old(questions) && total == old(total) && summary == old(summary)
    {
      index := 0;
      score := 0;
      answers := [];
      answered := false;
      startVisible := false;
      resultsVisible := false;
      var _ := ShowQuestion();
    }

    /** `showQuestion`: past the last question it shows the results; otherwise it
        renders question `index` with fresh, enabled, unmarked buttons. */
    method ShowQuestion() returns (announced: Announcement)
      requires Consistent() && !answered && !nextVisible && !startVisible
      modifies this
      ensures Valid()
      ensures index == old(index) && score == old(score) && answers == old(answers)
      ensures questions == old(questions) && total == old(total)
      ensures startVisible == old(startVisible) && !nextVisible && !answered
      ensures old(index) < total ==>
                && screen == Asking && marks == seq(|questions[index].options|, _ => Unmarked)
                && progress == Progress.Fraction(100 * index, total)
                && resultsVisible == old(resultsVisible) && summary == old(summary)
                && announced == Silent
      ensures old(index) >= total ==>
                && screen == Cleared && resultsVisible
                && summary == Summary(score, total, Percentage(score, total))
                && progress == Progress.Whole(100)
                && announced == Congratulate(TierOf(Percentage(score, total)))
    {
      if index >= total {
        announced := ShowResults();
        return;
      }
      marks := seq(|questions[index].options|, _ => Unmarked);
      screen := Asking;
      progress := Progress.Fraction(100 * index, total);
      announced := Silent;
    }

    /** `selectAnswer`: on enabled buttons, disables them, marks the correct
        option (and the chosen one if it is wrong) and scores the answer; a
        click on disabled buttons does nothing. */
    method SelectAnswer(selected: int) returns (announced: Announcement)
      requires Valid() && screen == Asking
      requires 0 <= selected < |questions[index].options|
      modifies this
      ensures Valid()
      ensures old(answered) ==> unchanged(this) && announced == Silent
      ensures !old(answered) ==>
                && answered && nextVisible
                && score == old(score) + (if selected == questions[index].correct then 1 else 0)
                && answers == old(answers) + [selected]
                && |marks| == |questions[index].options|
                && (forall j :: 0 <= j < |marks| ==> (marks[j] == MarkedCorrect <==> j == questions[index].correct))
                && (forall j :: 0 <= j < |marks| ==>
                      (marks[j] == MarkedIncorrect <==> j == selected && selected != questions[index].correct))
                && announced == (if selected == questions[index].correct then CorrectAnswer else IncorrectAnswer)
      ensures index == old(index) && questions == old(questions) && total == old(total)
      ensures screen == old(screen) && startVisible == old(startVisible) && resultsVisible == old(resultsVisible)
      ensures summary == old(summary) && progress == old(progress)
    {
      if answered {
        announced := Silent;
        return;
      }
      var question := questions[index];
      answered := true;
      marks := MarkButtons(|question.options|, question.correct, selected);
      CountCorrectAppend(questions, answers, selected);
      answers := answers + [selected];
      if selected == question.correct {
        score := score + 1;
        announced := CorrectAnswer;
      } else {
        announced := IncorrectAnswer;
      }
      nextVisible := true;
    }

    /** `nextQuestion`: moves on by exactly one question and shows it, or the
        results once every question has been answered. */
    method Next() returns (announced: Announcement)
      requires Valid() && nextVisible
      modifies this
      ensures Valid()
      ensures index == old(index) + 1 && score == old(score) && answers == old(answers)
      ensures |answers| == index && score <= index <= total
      ensures !nextVisible && !answered && startVisible == old(startVisible)
      ensures questions == old(questions) && total == old(total)
      ensures index < total ==>
                && screen == Asking && marks == seq(|questions[index].options|, _ => Unmarked)
                && progress == Progress.Fraction(100 * index, total)
                && resultsVisible == old(resultsVisible) && summary == old(summary)
                && announced == Silent
      ensures index == total ==>
                && screen == Cleared && resultsVisible
                && score == |CorrectPositions(questions, answers)|
                && summary == Summary(score, total, Percentage(score, total))
                && progress == Progress.Whole(100)
                && announced == Congratulate(TierOf(Percentage(score, total)))
    {
      index := index + 1;
      answered := false;
      nextVisible := false;
      CountCorrectIsCardinality(questions, answers);
      announced := ShowQuestion();
    }

    /** `showResults`: clears the question, shows the score and its percentage,
        fills the progress bar and announces the tier. */
    method ShowResults() returns (announced: Announcement)
      requires Consistent() && index == total && !answered && !nextVisible
      modifies this
      ensures Valid()
      ensures screen == Cleared && resultsVisible && marks == []
      ensures summary == Summary(score, total, Percentage(score, total))
      ensures progress == Progress.Whole(100)
      ensures announced == Congratulate(TierOf(Percentage(score, total)))
      ensures index == old(index) && score == old(score) && answers == old(answers)
      ensures questions == old(questions) && total == old(total)
      ensures startVisible == old(startVisible) && !nextVisible && !answered
    {
      var percentage := Percentage(score, total);
      screen := Cleared;
      marks := [];
      resultsVisible := true;
      summary := Summary(score, total, percentage);
      progress := Progress.Whole(100);
      announced := Congratulate(TierOf(percentage));
    }

    /** `restartQuiz`: only the buttons, the results panel and the progress
        indicator change; the question index and the score are kept until the
        next `Start`. It is reached from the results panel or before the first
        start, never while a question is on screen. */
    method Restart()
      requires Valid() && screen != Asking
      modifies this
      ensures Valid()
      ensures startVisible && !resultsVisible && !nextVisible
      ensures progress == Progress.Whole(0)
      ensures index == old(index) && score == old(score) && answers == old(answers)
      ensures answered == old(answered) && marks == old(marks) && screen == old(screen)
      ensures questions == old(questions) && total == old(total) && summary == old(summary)
    {
      startVisible := true;
      resultsVisible := false;
      nextVisible := false;
      progress := Progress.Whole(0);
    }
  }

  /** One round of the quiz: answer the question on screen with option `k`,
      then press Next. */
  method AnswerAndAdvance(quiz: QuizEngine, k: int) returns (announced: Announcement)
    requires quiz.Valid() && quiz.screen == Asking && !quiz.answered
    requires 0 <= k < |quiz.questions[quiz.index].options|
    modifies quiz
    ensures quiz.Valid()
    ensures quiz.questions == old(quiz.questions) && quiz.total == old(quiz.total)
    ensures quiz.index == old(quiz.index) + 1
    ensures quiz.score == old(quiz.score) + (if k == quiz.questions[old(quiz.index)].correct then 1 else 0)
    ensures quiz.startVisible == old(quiz.startVisible) && !quiz.answered
    ensures quiz.index < quiz.total ==> quiz.screen == Asking
    ensures quiz.index == quiz.total ==>
              && quiz.screen == Cleared
              && quiz.summary == Summary(quiz.score, quiz.total, Percentage(quiz.score, quiz.total))
              && announced == Congratulate(TierOf(Percentage(quiz.score, quiz.total)))
  {
    var _ := quiz.SelectAnswer(k);
    announced := quiz.Next();
  }

  /** Five questions, the first three answered correctly and the last two not:
      3 out of 5, 60%, the "good" tier; a restart keeps the
      score and a fresh start then clears it. */
  method ThreeOfFiveSession() returns (outcome: Summary, tier: Tier, keptScore: nat, restartedScore: nat)
    ensures outcome == Summary(3, 5, 60) && tier == Good
    ensures keptScore == 3 && restartedScore == 0
  {
    var quiz := new QuizEngine();
    quiz.Start();
    var a := AnswerAndAdvance(quiz, 0);
    a := AnswerAndAdvance(quiz, 1);
    a := AnswerAndAdvance(quiz, 1);
    a := AnswerAndAdvance(quiz, 0);
    a := AnswerAndAdvance(quiz, 0);
    assert quiz.score == 3;
    PercentageOfFive(3);
    outcome := quiz.summary;
    tier := a.tier;
    quiz.Restart();
    keptScore := quiz.score;
    quiz.Start();
    restartedScore := quiz.score;
  }
}
