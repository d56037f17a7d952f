/**
 * The quiz tab of the training detail page: the scorer, the 70 % pass
 * rule and the screen-by-screen state machine driven by the start, select,
 * previous, next/finish and retry buttons.
 */
module QuizTab {
  import opened Trainings

  // --------------------------------------------------------------- scoring

  /** The answer chosen for question `q` is its correct option. */
  predicate AnsweredCorrectly(q: QuizQuestion, answers: map<int, int>)
  {
    q.id in answers && answers[q.id] == q.correctIndex
  }

  /** The sum of the points of all questions. */
  function PointsTotal(questions: seq<QuizQuestion>): int
  {
    if |questions| == 0 then 0 else PointsTotal(questions[..|questions| - 1]) + questions[|questions| - 1].points
  }

  /** `calcScore`: the left fold adding the points of each correctly answered question. */
  function CalcScore(questions: seq<QuizQuestion>, answers: map<int, int>): int
  {
    if |questions| == 0 then 0
    else
      var q := questions[|questions| - 1];
      CalcScore(questions[..|questions| - 1], answers) + (if AnsweredCorrectly(q, answers) then q.points else 0)
  }

  predicate NonNegativePoints(questions: seq<QuizQuestion>)
  {
    forall k :: 0 <= k < |questions| ==> questions[k].points >= 0
  }

  predicate PositivePoints(questions: seq<QuizQuestion>)
  {
    forall k :: 0 <= k < |questions| ==> questions[k].points > 0
  }

  /**
   * With non-negative points, the score lies between 0 and the points total;
   * with positive points it reaches the total exactly when every question
   * is answered correctly.
   */
  lemma {:induction false} CalcScoreBounds(questions: seq<QuizQuestion>, answers: map<int, int>)
    requires NonNegativePoints(questions)
    ensures 0 <= CalcScore(questions, answers) <= PointsTotal(questions)
    ensures PositivePoints(questions) ==>
      (CalcScore(questions, answers) == PointsTotal(questions)
       <==> forall k :: 0 <= k < |questions| ==> AnsweredCorrectly(questions[k], answers))
  {
    if |questions| > 0 {
      var init := questions[..|questions| - 1];
      assert forall k :: 0 <= k < |init| ==> init[k] == questions[k];
      CalcScoreBounds(init, answers);
    }
  }

  /** Questions answered wrongly or not at all add nothing. */
  lemma {:induction false} CalcScoreNoAnswers(questions: seq<QuizQuestion>)
    ensures CalcScore(questions, map[]) == 0
  {
    if |questions| > 0 {
      CalcScoreNoAnswers(questions[..|questions| - 1]);
    }
  }

  /** The pass rule `score >= totalScore * 0.7`, in exact arithmetic. */
  predicate Passes(score: int, totalScore: int)
  {
    10 * score >= 7 * totalScore
  }

  /** `Math.ceil(totalScore * 0.7)`, the minimum shown to the user. */
  function MinimumScore(totalScore: int): int
  {
    (7 * totalScore + 9) / 10
  }

  /** An integer score passes exactly when it reaches the displayed minimum. */
  lemma PassesIffMinimum(score: int, totalScore: int)
    ensures Passes(score, totalScore) <==> score >= MinimumScore(totalScore)
    ensures 10 * MinimumScore(totalScore) >= 7 * totalScore
    ensures 10 * (MinimumScore(totalScore) - 1) < 7 * totalScore
  {
    var x := 7 * totalScore + 9;
    var m := MinimumScore(totalScore);
    assert x == 10 * m + x % 10 && 0 <= x % 10 < 10;
  }

  // ------------------------------------------------------- state machine

  /**
   * What the tab shows, in the order the component tests for it. `Crashed`
   * is the render of a started quiz without questions: `current` is then
   * `undefined` and reading `current.text` throws a TypeError.
   */
  datatype Screen = Completion | Results(pass: bool) | Welcome | Question(index: nat) | Crashed

  /** The tab's local state for one quiz. */
  class QuizSession {
    const quiz: Quiz
    /** The `isCompleted` property given by the page. */
    const isCompleted: bool
    var quizStarted: bool
    var idx: int
    var answers: map<int, int>
    var showResults: bool
    var score: int
    var formDone: bool
    /** The three-second auto-validation timer is armed. */
    var validationPending: bool

    ghost predicate Valid()
      reads this
    {
      0 <= idx && (idx == 0 || idx < |quiz.questions|)
    }

    constructor (quiz: Quiz, isCompleted: bool)
      ensures this.quiz == quiz && this.isCompleted == isCompleted
      ensures !quizStarted && idx == 0 && answers == map[] && !showResults && score == 0
      ensures !formDone && !validationPending && Valid()
    {
      this.quiz := quiz;
      this.isCompleted := isCompleted;
      quizStarted := false;
      idx := 0;
      answers := map[];
      showResults := false;
      score := 0;
      formDone := false;
      validationPending := false;
    }

    /** The screen rendered: completion first, then results, then the welcome page, then the question. */
    function CurrentScreen(): (s: Screen)
      reads this
      requires Valid()
      ensures s == Completion <==> isCompleted || formDone
      ensures s.Results? <==> !(isCompleted || formDone) && showResults
      ensures s.Results? ==> (s.pass <==> Passes(score, quiz.totalScore))
      ensures s.Question? ==> quizStarted && !showResults && s.index == idx && idx < |quiz.questions|
      ensures s == Crashed <==> !(isCompleted || formDone) && !showResults && quizStarted && |quiz.questions| == 0
    {
      if isCompleted || formDone then Completion
      else if showResults then Results(Passes(score, quiz.totalScore))
      else if !quizStarted then Welcome
      else if idx < |quiz.questions| then Question(idx)
      else Crashed
    }

    /** `handleStart`. */
    method Start()
      requires Valid()
      modifies this
      ensures quizStarted && idx == 0 && answers == map[] && !showResults && score == 0
      ensures formDone == old(formDone) && validationPending == old(validationPending) && Valid()
      ensures CurrentScreen() == if isCompleted || formDone then Completion
                                 else if |quiz.questions| == 0 then Crashed
                                 else Question(0)
    {
      quizStarted := true;
      idx := 0;
      answers := map[];
      showResults := false;
      score := 0;
    }

    /** `handleRetry`: like a start, but back to the welcome page. */
    method Retry()
      requires Valid()
      modifies this
      ensures !quizStarted && idx == 0 && answers == map[] && !showResults && score == 0
      ensures formDone == old(formDone) && validationPending == old(validationPending) && Valid()
    {
      quizStarted := false;
      idx := 0;
      answers := map[];
      showResults := false;
      score := 0;
    }

    /** Choosing option `option` of the current question replaces that question's answer only. */
    method Select(option: int)
      requires Valid() && idx < |quiz.questions|
      modifies this
      ensures answers == old(answers)[quiz.questions[old(idx)].id := option]
      ensures quizStarted == old(quizStarted) && idx == old(idx) && showResults == old(showResults)
      ensures score == old(score) && formDone == old(formDone) && validationPending == old(validationPending)
      ensures Valid()
    {
      answers := answers[quiz.questions[idx].id := option];
    }

    /** The "Précédent" button, disabled on the first question. */
    method Previous()
      requires Valid()
      modifies this
      ensures idx == if old(idx) == 0 then 0 else old(idx) - 1
      ensures answers == old(answers) && showResults == old(showResults) && score == old(score)
      ensures quizStarted == old(quizStarted) && formDone == old(formDone) && validationPending == old(validationPending)
      ensures Valid()
    {
      if idx != 0 {
        idx := idx - 1;
      }
    }

    /**
     * The "Suivant"/"Terminer" button: disabled while the current question
     * has no answer; moves on before the last question, finishes on it.
     */
    method NextOrFinish()
      requires Valid() && idx < |quiz.questions|
      modifies this
      ensures quiz.questions[old(idx)].id !in old(answers) ==>
        idx == old(idx) && showResults == old(showResults) && score == old(score)
        && validationPending == old(validationPending)
      ensures quiz.questions[old(idx)].id in old(answers) && old(idx) + 1 < |quiz.questions| ==>
        idx == old(idx) + 1 && showResults == old(showResults) && score == old(score)
        && validationPending == old(validationPending)
      ensures quiz.questions[old(idx)].id in old(answers) && old(idx) + 1 == |quiz.questions| ==>
        idx == old(idx) && showResults && score == CalcScore(quiz.questions, answers)
        && validationPending == (old(validationPending) || Passes(score, quiz.totalScore))
      ensures answers == old(answers) && quizStarted == old(quizStarted) && formDone == old(formDone)
      ensures Valid()
    {
      if quiz.questions[idx].id in answers {
        if idx + 1 < |quiz.questions| {
          idx := idx + 1;
        } else {
          Finish();
        }
      }
    }

    /** `handleFinish`: score, show the results, arm the timer on a pass. */
    method Finish()
      requires Valid()
      modifies this
      ensures score == CalcScore(quiz.questions, answers) && showResults
      ensures validationPending == (old(validationPending) || Passes(score, quiz.totalScore))
      ensures answers == old(answers) && idx == old(idx) && quizStarted == old(quizStarted) && formDone == old(formDone)
      ensures Valid()
    {
      var final := CalcScore(quiz.questions, answers);
      score := final;
      showResults := true;
      if Passes(final, quiz.totalScore) {
        validationPending := true;
      }
    }

    /** The auto-validation timer fires: the formation is marked done. */
    method ValidationTimerFires()
      requires Valid() && validationPending
      modifies this
      ensures formDone && !validationPending
      ensures answers == old(answers) && idx == old(idx) && quizStarted == old(quizStarted)
      ensures score == old(score) && showResults == old(showResults)
      ensures Valid() && CurrentScreen() == Completion
    {
      formDone := true;
      validationPending := false;
    }
  }

  /**
   * Answering every question correctly on a quiz whose questions have
   * positive points and whose total is the points total shows a passing
   * result.
   */
  lemma PerfectScorePasses(questions: seq<QuizQuestion>, answers: map<int, int>, totalScore: int)
    requires PositivePoints(questions) && totalScore == PointsTotal(questions)
    requires forall k :: 0 <= k < |questions| ==> AnsweredCorrectly(questions[k], answers)
    ensures Passes(CalcScore(questions, answers), totalScore)
  {
    CalcScoreBounds(questions, answers);
  }

  /**
   * Training 105 of the seed data declares `totalScore: 10` while its two
   * questions are worth 10 each: one correct answer out of two already
   * passes.
   */
  lemma DeclaredTotalBelowPoints()
    ensures var qs := [QuizQuestion(1052, "signal", 10, ["Commande client", "Carte", "Plan de production"], 1),
                QuizQuestion(1053, "WIP", 10, ["Stock en cours", "Temps de cycle", "Temps d'attente"], 0)];
      PointsTotal(qs) == 20 && CalcScore(qs, map[1052 := 1]) == 10 && Passes(10, 10) && !Passes(10, 20)
  {
    var qs := [QuizQuestion(1052, "signal", 10, ["Commande client", "Carte", "Plan de production"], 1),
                QuizQuestion(1053, "WIP", 10, ["Stock en cours", "Temps de cycle", "Temps d'attente"], 0)];
    assert qs[..1][..0] == [] && qs[..1] == [qs[0]];
  }
}
