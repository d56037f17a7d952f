/**
 * The `useTrainingProgress` hook: one piece of state, the training with
 * its completion marks (or nothing when no training was given), the
 * actions that replace it, and the values derived from it.
 */
module UseTrainingProgress {
  import opened Wrappers
  import opened JsMath
  import opened Trainings

  // ------------------------------------------------------- derived values

  function CountCompleted(chapters: seq<Chapter>): (n: nat)
    ensures n <= |chapters|
  {
    if |chapters| == 0 then 0 else (if chapters[0].completed then 1 else 0) + CountCompleted(chapters[1..])
  }

  function CountRead(resources: seq<TrainingResource>): (n: nat)
    ensures n <= |resources|
  {
    if |resources| == 0 then 0 else (if resources[0].read then 1 else 0) + CountRead(resources[1..])
  }

  function TotalItems(t: Training): nat
  {
    |t.chapters| + |t.resources| + (if t.quiz.Some? then 1 else 0)
  }

  function CompletedItems(t: Training): nat
  {
    CountCompleted(t.chapters) + CountRead(t.resources) + (if t.quiz.Some? && t.quiz.value.finished then 1 else 0)
  }

  /** `calculatedProgress`: item-based, rounded, 0 without state or items. */
  function CalculatedProgress(state: Option<Training>): int
  {
    if state.None? || TotalItems(state.value) == 0 then 0
    else RoundDiv(100 * CompletedItems(state.value), TotalItems(state.value))
  }

  /** `calculatedStatus`. */
  function CalculatedStatus(state: Option<Training>): string
  {
    if state.None? then "new"
    else
      var p := CalculatedProgress(state);
      if p == 100 then "completed" else if p > 0 then "in_progress" else "new"
  }

  predicate AllChaptersCompleted(state: Option<Training>)
  {
    state.Some? && forall k :: 0 <= k < |state.value.chapters| ==> state.value.chapters[k].completed
  }

  predicate AllResourcesRead(state: Option<Training>)
  {
    state.Some? && forall k :: 0 <= k < |state.value.resources| ==> state.value.resources[k].read
  }

  predicate QuizCompleted(state: Option<Training>)
  {
    state.Some? && state.value.quiz.Some? && state.value.quiz.value.finished
  }

  /** `isFullyCompleted`. */
  predicate IsFullyCompleted(state: Option<Training>)
  {
    AllChaptersCompleted(state)
    && ((state.Some? && |state.value.resources| == 0) || AllResourcesRead(state))
    && (state.None? || state.value.quiz.None? || QuizCompleted(state))
  }

  lemma {:induction false} CountCompletedAll(chapters: seq<Chapter>)
    ensures CountCompleted(chapters) == |chapters| <==> forall k :: 0 <= k < |chapters| ==> chapters[k].completed
  {
    if |chapters| > 0 {
      CountCompletedAll(chapters[1..]);
      assert forall k :: 1 <= k < |chapters| ==> chapters[k] == chapters[1..][k - 1];
    }
  }

  lemma {:induction false} CountReadAll(resources: seq<TrainingResource>)
    ensures CountRead(resources) == |resources| <==> forall k :: 0 <= k < |resources| ==> resources[k].read
  {
    if |resources| > 0 {
      CountReadAll(resources[1..]);
      assert forall k :: 1 <= k < |resources| ==> resources[k] == resources[1..][k - 1];
    }
  }

  /**
   * `isFullyCompleted` holds exactly when every chapter is done, every
   * resource is read and the quiz, if any, is finished; with at least one
   * item it gives a progress of 100 and the status `completed`.
   */
  lemma FullyCompletedMeaning(state: Option<Training>)
    ensures IsFullyCompleted(state) <==> state.Some? && CompletedItems(state.value) == TotalItems(state.value)
    ensures IsFullyCompleted(state) && TotalItems(state.value) > 0 ==>
      CalculatedProgress(state) == 100 && CalculatedStatus(state) == "completed"
  {
    if state.Some? {
      var t := state.value;
      CountCompletedAll(t.chapters);
      CountReadAll(t.resources);
      var c, r := CountCompleted(t.chapters), CountRead(t.resources);
      var q := if t.quiz.Some? && t.quiz.value.finished then 1 else 0;
      assert CompletedItems(t) == c + r + q;
      assert c <= |t.chapters| && r <= |t.resources| && q <= (if t.quiz.Some? then 1 else 0);
      if TotalItems(t) > 0 && CompletedItems(t) == TotalItems(t) {
        FullRounds(TotalItems(t));
      }
    }
  }

  lemma FullRounds(n: nat)
    requires n > 0
    ensures RoundDiv(100 * n, n) == 100
  {
    RoundDivMeaning(100 * n, n);
    var r := RoundDiv(100 * n, n);
    if r >= 101 {
      MulMono(101, r, 2 * n);
    } else if r <= 99 {
      MulMono(r, 99, 2 * n);
    }
  }

  /** The progress lies in 0..100, and the status reads it three ways. */
  lemma ProgressBounds(state: Option<Training>)
    ensures 0 <= CalculatedProgress(state) <= 100
    ensures CalculatedStatus(state) == "completed" <==> CalculatedProgress(state) == 100
    ensures CalculatedStatus(state) == "in_progress" <==> 0 < CalculatedProgress(state) < 100
    ensures CalculatedStatus(state) == "new" <==> CalculatedProgress(state) == 0
  {
    if state.Some? && TotalItems(state.value) > 0 {
      RoundPercentBounds(CompletedItems(state.value), TotalItems(state.value));
    }
  }

  /** A training with nothing to do is fully completed, yet its progress is 0 and its status `new`. */
  lemma EmptyTrainingFullyCompletedAtZero(t: Training)
    requires t.chapters == [] && t.resources == [] && t.quiz.None?
    ensures IsFullyCompleted(Some(t))
    ensures CalculatedProgress(Some(t)) == 0 && CalculatedStatus(Some(t)) == "new"
  {
  }

  // ------------------------------------------------------------- actions

  /** The chapters with the one of id `id` marked completed. */
  function MarkChapterIn(chapters: seq<Chapter>, id: int): (r: seq<Chapter>)
    ensures |r| == |chapters|
    ensures forall k :: 0 <= k < |chapters| ==>
      r[k] == if chapters[k].id == id then chapters[k].(completed := true) else chapters[k]
  {
    seq(|chapters|, k requires 0 <= k < |chapters| =>
      if chapters[k].id == id then chapters[k].(completed := true) else chapters[k])
  }

  /** The resources with the one of id `id` marked read. */
  function MarkResourceIn(resources: seq<TrainingResource>, id: int): (r: seq<TrainingResource>)
    ensures |r| == |resources|
    ensures forall k :: 0 <= k < |resources| ==>
      r[k] == if resources[k].id == id then resources[k].(read := true) else resources[k]
  {
    seq(|resources|, k requires 0 <= k < |resources| =>
      if resources[k].id == id then resources[k].(read := true) else resources[k])
  }

  /** Marking is idempotent, and marks exactly the matching entries. */
  lemma MarkIdempotent(chapters: seq<Chapter>, resources: seq<TrainingResource>, id: int)
    ensures MarkChapterIn(MarkChapterIn(chapters, id), id) == MarkChapterIn(chapters, id)
    ensures MarkResourceIn(MarkResourceIn(resources, id), id) == MarkResourceIn(resources, id)
    ensures forall k :: 0 <= k < |chapters| ==>
      MarkChapterIn(chapters, id)[k].completed == (chapters[k].completed || chapters[k].id == id)
    ensures forall k :: 0 <= k < |resources| ==>
      MarkResourceIn(resources, id)[k].read == (resources[k].read || resources[k].id == id)
  {
  }

  /** Marking never lowers the progress. */
  lemma {:induction false} MarkChapterCounts(chapters: seq<Chapter>, id: int)
    ensures CountCompleted(chapters) <= CountCompleted(MarkChapterIn(chapters, id))
  {
    if |chapters| > 0 {
      MarkChapterCounts(chapters[1..], id);
      assert MarkChapterIn(chapters, id)[1..] == MarkChapterIn(chapters[1..], id);
    }
  }

  /** The state the hook starts from: the base training with its marks defaulted. */
  function InitialState(base: Option<Training>): Option<Training>
  {
    if base.None? then None
    else
      var b := base.value;
      Some(b.(quiz := if b.quiz.Some?
        then Some(b.quiz.value.(score := if b.quiz.value.score == Some(0) then None else b.quiz.value.score))
        else None))
  }

  /** Every chapter incomplete: none of them counts. */
  function ClearChapters(chapters: seq<Chapter>): (r: seq<Chapter>)
    ensures |r| == |chapters| && CountCompleted(r) == 0
    ensures forall k :: 0 <= k < |r| ==> r[k] == chapters[k].(completed := false)
  {
    var r := seq(|chapters|, k requires 0 <= k < |chapters| => chapters[k].(completed := false));
    NoneCompleted(r);
    r
  }

  /** Every resource unread: none of them counts. */
  function ClearResources(resources: seq<TrainingResource>): (r: seq<TrainingResource>)
    ensures |r| == |resources| && CountRead(r) == 0
    ensures forall k :: 0 <= k < |r| ==> r[k] == resources[k].(read := false)
  {
    var r := seq(|resources|, k requires 0 <= k < |resources| => resources[k].(read := false));
    NoneRead(r);
    r
  }

  /** The state after `resetProgress`. */
  function ResetState(b: Training): (r: Training)
  {
    b.(chapters := ClearChapters(b.chapters),
       resources := ClearResources(b.resources),
       quiz := if b.quiz.Some? then Some(b.quiz.value.(finished := false, score := None)) else None,
       progress := 0,
       status := "new")
  }

  /**
   * After a reset nothing is done: every chapter incomplete, every resource
   * unread, the quiz unfinished without score, progress 0, status `new`.
   */
  lemma ResetMeaning(b: Training)
    ensures var r := ResetState(b);
      |r.chapters| == |b.chapters| && |r.resources| == |b.resources| && r.quiz.Some? == b.quiz.Some?
      && (forall k :: 0 <= k < |r.chapters| ==> !r.chapters[k].completed)
      && (forall k :: 0 <= k < |r.resources| ==> !r.resources[k].read)
      && (r.quiz.Some? ==> !r.quiz.value.finished && r.quiz.value.score.None?)
      && r.progress == 0 && r.status == "new"
      && CompletedItems(r) == 0 && CalculatedProgress(Some(r)) == 0
  {
    var r := ResetState(b);
    assert CompletedItems(r) == 0;
  }

  lemma {:induction false} NoneCompleted(chapters: seq<Chapter>)
    requires forall k :: 0 <= k < |chapters| ==> !chapters[k].completed
    ensures CountCompleted(chapters) == 0
  {
    if |chapters| > 0 {
      NoneCompleted(chapters[1..]);
    }
  }

  lemma {:induction false} NoneRead(resources: seq<TrainingResource>)
    requires forall k :: 0 <= k < |resources| ==> !resources[k].read
    ensures CountRead(resources) == 0
  {
    if |resources| > 0 {
      NoneRead(resources[1..]);
    }
  }

  /** The hook's state; `base` is the training it was given. */
  class ProgressHook {
    const base: Option<Training>
    var state: Option<Training>

    constructor (base: Option<Training>)
      ensures this.base == base && state == InitialState(base)
    {
      this.base := base;
      state := InitialState(base);
    }

    /** The effect that copies the derived progress and status into the state. */
    method SyncDerived()
      modifies this
      ensures old(state).None? ==> state == old(state)
      ensures old(state).Some? ==>
        state == Some(old(state).value.(progress := CalculatedProgress(old(state)), status := CalculatedStatus(old(state))))
    {
      if state.Some? {
        state := Some(state.value.(progress := CalculatedProgress(state), status := CalculatedStatus(state)));
      }
    }

    /** `markChapter`: the state must hold a training (`prev.chapters` is read). */
    method MarkChapter(chapterId: int)
      requires state.Some?
      modifies this
      ensures state == Some(old(state).value.(chapters := MarkChapterIn(old(state).value.chapters, chapterId)))
    {
      state := Some(state.value.(chapters := MarkChapterIn(state.value.chapters, chapterId)));
    }

    /** `markResource`. */
    method MarkResource(resourceId: int)
      requires state.Some?
      modifies this
      ensures state == Some(old(state).value.(resources := MarkResourceIn(old(state).value.resources, resourceId)))
    {
      state := Some(state.value.(resources := MarkResourceIn(state.value.resources, resourceId)));
    }

    /** `finishQuiz`: a missing quiz stays missing; otherwise it is finished with exactly this score. */
    method FinishQuiz(score: Option<int>)
      requires state.Some?
      modifies this
      ensures state.Some? && state.value.quiz.Some? == old(state).value.quiz.Some?
      ensures state.value.quiz.Some? ==>
        state.value.quiz.value == old(state).value.quiz.value.(finished := true, score := score)
      ensures state.value.(quiz := None) == old(state).value.(quiz := None)
    {
      var prev := state.value;
      state := Some(prev.(quiz := if prev.quiz.Some? then Some(prev.quiz.value.(finished := true, score := score)) else None));
    }

    /** `markAllChaptersCompleted`. */
    method MarkAllChaptersCompleted()
      requires state.Some?
      modifies this
      ensures state.Some? && |state.value.chapters| == |old(state).value.chapters|
      ensures forall k :: 0 <= k < |state.value.chapters| ==>
        state.value.chapters[k] == old(state).value.chapters[k].(completed := true)
      ensures state.value.(chapters := []) == old(state).value.(chapters := [])
    {
      var prev := state.value;
      state := Some(prev.(chapters := seq(|prev.chapters|, k requires 0 <= k < |prev.chapters| => prev.chapters[k].(completed := true))));
    }

    /** `markAllResourcesRead`. */
    method MarkAllResourcesRead()
      requires state.Some?
      modifies this
      ensures state.Some? && |state.value.resources| == |old(state).value.resources|
      ensures forall k :: 0 <= k < |state.value.resources| ==>
        state.value.resources[k] == old(state).value.resources[k].(read := true)
      ensures state.value.(resources := []) == old(state).value.(resources := [])
    {
      var prev := state.value;
      state := Some(prev.(resources := seq(|prev.resources|, k requires 0 <= k < |prev.resources| => prev.resources[k].(read := true))));
    }

    /** `resetProgress`: back to the base training with nothing done; no-op without a base training. */
    method ResetProgress()
      modifies this
      ensures base.None? ==> state == old(state)
      ensures base.Some? ==> state == Some(ResetState(base.value))
    {
      if base.Some? {
        state := Some(ResetState(base.value));
      }
    }
  }
}
