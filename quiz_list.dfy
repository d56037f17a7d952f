/**
 * The stand-alone quiz component: the question list keeps the chosen
 * option per question, turns the choices into verdicts on submit, and the
 * quiz shows the number of correct verdicts.
 */
module QuizList {
  import opened Wrappers
  import opened Trainings
  import QuizTab

  /** `finish`: one verdict per question; an unanswered question is incorrect. */
  function Verdicts(questions: seq<QuizQuestion>, answers: map<int, int>): (v: seq<bool>)
    ensures |v| == |questions|
    ensures forall k :: 0 <= k < |questions| ==>
      (v[k] <==> questions[k].id in answers && answers[questions[k].id] == questions[k].correctIndex)
  {
    seq(|questions|, k requires 0 <= k < |questions| => QuizTab.AnsweredCorrectly(questions[k], answers))
  }

  /** `handleSubmit`: the left fold counting the true verdicts. */
  function CountCorrect(verdicts: seq<bool>): int
  {
    if |verdicts| == 0 then 0 else CountCorrect(verdicts[..|verdicts| - 1]) + (if verdicts[|verdicts| - 1] then 1 else 0)
  }

  /** The score is between 0 and the number of verdicts, and is maximal exactly when all are true. */
  lemma {:induction false} CountCorrectBounds(verdicts: seq<bool>)
    ensures 0 <= CountCorrect(verdicts) <= |verdicts|
    ensures CountCorrect(verdicts) == |verdicts| <==> forall k :: 0 <= k < |verdicts| ==> verdicts[k]
    ensures CountCorrect(verdicts) == 0 <==> forall k :: 0 <= k < |verdicts| ==> !verdicts[k]
  {
    if |verdicts| > 0 {
      var init := verdicts[..|verdicts| - 1];
      assert forall k :: 0 <= k < |init| ==> init[k] == verdicts[k];
      CountCorrectBounds(init);
    }
  }

  /** With no answer chosen the score is 0. */
  lemma NoAnswersScoreZero(questions: seq<QuizQuestion>)
    ensures CountCorrect(Verdicts(questions, map[])) == 0
  {
    CountCorrectBounds(Verdicts(questions, map[]));
  }

  /**
   * This score is the quiz tab's point score when every question is worth
   * one point.
   */
  lemma {:induction false} CountIsUnitPointScore(questions: seq<QuizQuestion>, answers: map<int, int>)
    requires forall k :: 0 <= k < |questions| ==> questions[k].points == 1
    ensures CountCorrect(Verdicts(questions, answers)) == QuizTab.CalcScore(questions, answers)
  {
    if |questions| > 0 {
      var init := questions[..|questions| - 1];
      assert Verdicts(questions, answers)[..|questions| - 1] == Verdicts(init, answers);
      CountIsUnitPointScore(init, answers);
    }
  }

  /** The two components' state: the chosen options, and the score once submitted. */
  class QuizPage {
    const questions: seq<QuizQuestion>
    var answers: map<int, int>
    var score: Option<int>

    constructor (questions: seq<QuizQuestion>)
      ensures this.questions == questions && answers == map[] && score == None
    {
      this.questions := questions;
      answers := map[];
      score := None;
    }

    /** `toggle`: overwrite the entry of question `qId` only. */
    method Toggle(qId: int, option: int)
      modifies this
      ensures answers == old(answers)[qId := option] && score == old(score)
    {
      answers := answers[qId := option];
    }

    /** `finish` followed by `handleSubmit`. */
    method Submit()
      modifies this
      ensures score == Some(CountCorrect(Verdicts(questions, answers))) && answers == old(answers)
      ensures 0 <= score.value <= |questions|
    {
      var verdicts := Verdicts(questions, answers);
      CountCorrectBounds(verdicts);
      score := Some(CountCorrect(verdicts));
    }
  }
}
