/**
 * The in-memory training catalogue of the frontend: the training records,
 * the tab-based progress formula and `updateTrainingProgress`, which merges
 * an update into one training and recomputes its progress and status.
 */
module Trainings {
  import opened Wrappers
  import opened JsMath

  datatype Chapter = Chapter(id: int, title: string, completed: bool)

  datatype TrainingResource = TrainingResource(id: int, name: string, url: string, ext: string, read: bool)

  datatype QuizQuestion = QuizQuestion(id: int, text: string, points: int, options: seq<string>, correctIndex: int)

  /** A training's quiz; `finished` and `score` are the fields the progress hook adds. */
  datatype Quiz = Quiz(totalScore: int, completed: bool, finished: bool, score: Option<int>, questions: seq<QuizQuestion>)

  /** The per-tab completion flags; a missing flag reads as `false`. */
  datatype TabFlags = TabFlags(overview: bool, chapters: bool, resources: bool, quiz: bool)

  datatype Training = Training(
    id: int, title: string, createdBy: string, department: string, intro: string, duration: int,
    chapters: seq<Chapter>, resources: seq<TrainingResource>, quiz: Option<Quiz>,
    progress: int, status: string, tabsCompleted: TabFlags)

  /** The fields an update may carry, one per training field; `None` for a field it does not carry. */
  datatype TrainingUpdate = TrainingUpdate(
    id: Option<int>, title: Option<string>, createdBy: Option<string>, department: Option<string>,
    intro: Option<string>, duration: Option<int>,
    chapters: Option<seq<Chapter>>, resources: Option<seq<TrainingResource>>, quiz: Option<Option<Quiz>>,
    progress: Option<int>, status: Option<string>, tabsCompleted: Option<TabFlags>)

  /** The tabs a training shows: the overview, and each kind of content it has. */
  function AvailableTabs(t: Training): (n: nat)
    ensures 1 <= n <= 4
  {
    1 + (if |t.chapters| > 0 then 1 else 0) + (if |t.resources| > 0 then 1 else 0) + (if t.quiz.Some? then 1 else 0)
  }

  /** The tabs counted as completed: flagged, and with content for the content tabs. */
  function CompletedTabs(t: Training): nat
  {
    (if t.tabsCompleted.overview then 1 else 0)
      + (if |t.chapters| > 0 && t.tabsCompleted.chapters then 1 else 0)
      + (if |t.resources| > 0 && t.tabsCompleted.resources then 1 else 0)
      + (if t.quiz.Some? && t.tabsCompleted.quiz then 1 else 0)
  }

  /** `calculateProgress`: `Math.round(completed / available * 100)`. */
  function CalculateProgress(t: Training): int
  {
    RoundDiv(100 * CompletedTabs(t), AvailableTabs(t))
  }

  /** Every available tab is flagged. */
  predicate AllTabsFlagged(t: Training)
  {
    t.tabsCompleted.overview
    && (|t.chapters| > 0 ==> t.tabsCompleted.chapters)
    && (|t.resources| > 0 ==> t.tabsCompleted.resources)
    && (t.quiz.Some? ==> t.tabsCompleted.quiz)
  }

  /**
   * The completed tabs never outnumber the available ones, and the progress
   * is in 0..100 and reaches 100 exactly when every available tab is flagged.
   */
  lemma CalculateProgressBounds(t: Training)
    ensures CompletedTabs(t) <= AvailableTabs(t)
    ensures 0 <= CalculateProgress(t) <= 100
    ensures CalculateProgress(t) == 100 <==> AllTabsFlagged(t)
  {
    RoundPercentBounds(CompletedTabs(t), AvailableTabs(t));
  }

  /** A flag for content the training does not have changes nothing. */
  lemma AbsentContentFlagsIgnored(t: Training, flags: TabFlags)
    requires flags.overview == t.tabsCompleted.overview
    requires |t.chapters| > 0 ==> flags.chapters == t.tabsCompleted.chapters
    requires |t.resources| > 0 ==> flags.resources == t.tabsCompleted.resources
    requires t.quiz.Some? ==> flags.quiz == t.tabsCompleted.quiz
    ensures CalculateProgress(t.(tabsCompleted := flags)) == CalculateProgress(t)
  {
  }

  /** Two of the three tabs of a training without quiz: `Math.round(66.67)` is 67. */
  lemma TwoOfThreeTabs()
    ensures var t := Training(1, "", "", "", "", 0, [Chapter(1, "", false)], [TrainingResource(2, "", "", "", false)],
                              None, 0, "new", TabFlags(true, true, false, true));
      AvailableTabs(t) == 3 && CalculateProgress(t) == 67
  {
  }

  /** `{ ...training, ...updates }`. */
  function Merge(t: Training, u: TrainingUpdate): Training
  {
    t.(id := if u.id.Some? then u.id.value else t.id,
       title := if u.title.Some? then u.title.value else t.title,
       createdBy := if u.createdBy.Some? then u.createdBy.value else t.createdBy,
       department := if u.department.Some? then u.department.value else t.department,
       intro := if u.intro.Some? then u.intro.value else t.intro,
       duration := if u.duration.Some? then u.duration.value else t.duration,
       chapters := if u.chapters.Some? then u.chapters.value else t.chapters,
       resources := if u.resources.Some? then u.resources.value else t.resources,
       quiz := if u.quiz.Some? then u.quiz.value else t.quiz,
       progress := if u.progress.Some? then u.progress.value else t.progress,
       status := if u.status.Some? then u.status.value else t.status,
       tabsCompleted := if u.tabsCompleted.Some? then u.tabsCompleted.value else t.tabsCompleted)
  }

  /** The training after the update: merged, then its progress and status recomputed. */
  function Updated(t: Training, u: TrainingUpdate): Training
  {
    var m := Merge(t, u);
    var p := CalculateProgress(m);
    m.(progress := p, status := if p == 100 then "completed" else if p > 0 then "in_progress" else m.status)
  }

  /**
   * The progress passed in an update never survives: the new progress is
   * that of the merged training; the status is `completed` at 100,
   * `in_progress` above 0, and at 0 the merged status is kept, not reset.
   * Every other field is the merged one.
   */
  lemma UpdatedMeaning(t: Training, u: TrainingUpdate)
    ensures Updated(t, u).progress == CalculateProgress(Merge(t, u))
    ensures Updated(t, u).progress == 100 ==> Updated(t, u).status == "completed"
    ensures 0 < Updated(t, u).progress < 100 ==> Updated(t, u).status == "in_progress"
    ensures Updated(t, u).progress == 0 ==> Updated(t, u).status == Merge(t, u).status
    ensures Updated(t, u).(progress := 0, status := "") == Merge(t, u).(progress := 0, status := "")
  {
    CalculateProgressBounds(Merge(t, u));
  }

  /** A training with nothing flagged keeps a `completed` status passed in the update. */
  lemma StatusNotResetAtZero()
    ensures var t := Training(7, "", "", "", "", 0, [], [], None, 0, "new", TabFlags(false, false, false, false));
      var u := TrainingUpdate(None, None, None, None, None, None, None, None, None, Some(100), Some("completed"), None);
      Updated(t, u).progress == 0 && Updated(t, u).status == "completed"
  {
  }

  /** `trainings.findIndex(t => t.id === id)`: the first index with that id. */
  function FindIndex(ts: seq<Training>, id: int): (r: Option<nat>)
    ensures r.Some? ==> r.value < |ts| && ts[r.value].id == id && forall k :: 0 <= k < r.value ==> ts[k].id != id
    ensures r.None? ==> forall k :: 0 <= k < |ts| ==> ts[k].id != id
  {
    if |ts| == 0 then None
    else if ts[0].id == id then Some(0)
    else
      match FindIndex(ts[1..], id)
      case None => None
      case Some(i) => Some(i + 1)
  }

  /** The module-level `trainings` array. */
  class TrainingStore {
    var trainings: seq<Training>

    constructor (trainings: seq<Training>)
      ensures this.trainings == trainings
    {
      this.trainings := trainings;
    }

    /**
     * `updateTrainingProgress`: an unknown id changes nothing; otherwise the
     * first training with the id is replaced by the updated one and every
     * other training is left as it was.
     */
    method UpdateTrainingProgress(id: int, updates: TrainingUpdate)
      modifies this
      ensures FindIndex(old(trainings), id).None? ==> trainings == old(trainings)
      ensures FindIndex(old(trainings), id).Some? ==>
        var i := FindIndex(old(trainings), id).value;
        trainings == old(trainings)[i := Updated(old(trainings)[i], updates)]
    {
      var index := FindIndex(trainings, id);
      if index.Some? {
        var i := index.value;
        trainings := trainings[i := Merge(trainings[i], updates)];
        trainings := trainings[i := trainings[i].(progress := CalculateProgress(trainings[i]))];
        if trainings[i].progress == 100 {
          trainings := trainings[i := trainings[i].(status := "completed")];
        } else if trainings[i].progress > 0 {
          trainings := trainings[i := trainings[i].(status := "in_progress")];
        }
      }
    }
  }
}
