/**
 * The manager's training form: field validation, and the submission that
 * edits a training of the in-memory catalogue in place or appends a new
 * one with a fresh id.
 */
module TrainingForm {
  import opened Wrappers
  import opened Text
  import opened Trainings

  /** The form fields; the duration is the text of its input. */
  datatype FormData = FormData(title: string, department: string, intro: string, duration: string,
                               createdBy: string, status: string)

  /** The keys of the error object. */
  datatype Field = Title | Department | Intro | CreatedBy | Duration

  /** `!d || isNaN(d) || d <= 0`: the duration is missing, not a number, or not positive. */
  predicate BadDuration(d: string)
  {
    d == "" || JsNumber(d).None? || JsNumber(d).value <= 0
  }

  const MSG_TITLE := "Le titre est requis."
  const MSG_DEPARTMENT := "Le département est requis."
  const MSG_INTRO := "L'introduction est requise."
  const MSG_CREATED_BY := "Le créateur est requis."
  const MSG_DURATION := "La durée doit être un nombre positif (minutes)."

  /** `validateForm`, filling the error object field by field. */
  method ValidateForm(form: FormData) returns (errors: map<Field, string>)
    ensures Title in errors <==> form.title == ""
    ensures Department in errors <==> form.department == ""
    ensures Intro in errors <==> form.intro == ""
    ensures CreatedBy in errors <==> form.createdBy == ""
    ensures Duration in errors <==> BadDuration(form.duration)
    ensures Title in errors ==> errors[Title] == MSG_TITLE
    ensures Department in errors ==> errors[Department] == MSG_DEPARTMENT
    ensures Intro in errors ==> errors[Intro] == MSG_INTRO
    ensures CreatedBy in errors ==> errors[CreatedBy] == MSG_CREATED_BY
    ensures Duration in errors ==> errors[Duration] == MSG_DURATION
  {
    errors := map[];
    if form.title == "" {
      errors := errors[Title := MSG_TITLE];
    }
    if form.department == "" {
      errors := errors[Department := MSG_DEPARTMENT];
    }
    if form.intro == "" {
      errors := errors[Intro := MSG_INTRO];
    }
    if form.createdBy == "" {
      errors := errors[CreatedBy := MSG_CREATED_BY];
    }
    if BadDuration(form.duration) {
      errors := errors[Duration := MSG_DURATION];
    }
  }

  /** A form passes validation exactly when every required field is filled and the duration is a positive number. */
  predicate ValidForm(form: FormData)
  {
    form.title != "" && form.department != "" && form.intro != "" && form.createdBy != ""
    && !BadDuration(form.duration)
  }

  /** `Math.max(...ids)` over a non-empty catalogue. */
  function MaxId(ts: seq<Training>): (m: int)
    requires |ts| > 0
    ensures forall k :: 0 <= k < |ts| ==> ts[k].id <= m
    ensures exists k :: 0 <= k < |ts| && ts[k].id == m
  {
    if |ts| == 1 then ts[0].id
    else
      var m := MaxId(ts[1..]);
      assert forall k :: 1 <= k < |ts| ==> ts[k] == ts[1..][k - 1];
      if ts[0].id >= m then ts[0].id else m
  }

  /** The new id: one more than the largest, or 1 for an empty catalogue. */
  function NewId(ts: seq<Training>): (id: int)
    ensures forall k :: 0 <= k < |ts| ==> ts[k].id < id
    ensures |ts| == 0 ==> id == 1
  {
    if |ts| > 0 then MaxId(ts) + 1 else 1
  }

  /** The training that creation appends. */
  function Created(ts: seq<Training>, form: FormData): (t: Training)
    requires ValidForm(form)
  {
    Training(NewId(ts), form.title, form.createdBy, form.department, form.intro, JsNumber(form.duration).value,
             [], [], Some(Quiz(0, false, false, None, [])), 0, form.status, TabFlags(false, false, false, false))
  }

  /** A created training is new, empty, unstarted, and starts with its form's fields. */
  lemma CreatedMeaning(ts: seq<Training>, form: FormData)
    requires ValidForm(form)
    ensures var t := Created(ts, form);
      (forall k :: 0 <= k < |ts| ==> ts[k].id != t.id)
      && t.progress == 0 && t.chapters == [] && t.resources == []
      && t.quiz.Some? && t.quiz.value.questions == [] && t.quiz.value.totalScore == 0
      && t.tabsCompleted == TabFlags(false, false, false, false)
      && t.title == form.title && t.duration > 0
  {
  }

  /** The existing training overlaid with the form data. */
  function Edited(existing: Training, form: FormData): (t: Training)
    requires ValidForm(form)
    ensures t.id == existing.id && t.chapters == existing.chapters && t.resources == existing.resources
    ensures t.quiz == existing.quiz && t.progress == existing.progress && t.tabsCompleted == existing.tabsCompleted
    ensures t.title == form.title && t.status == form.status && t.duration > 0
  {
    existing.(title := form.title, department := form.department, intro := form.intro,
              duration := JsNumber(form.duration).value, createdBy := form.createdBy, status := form.status)
  }

  /** `findIndex(t => t.id.toString() === id)` with the route parameter. */
  function FindByParam(ts: seq<Training>, param: string): (r: Option<nat>)
    ensures r.Some? ==> (r.value < |ts| && IntToStr(ts[r.value].id) == param
      && forall k :: 0 <= k < r.value ==> IntToStr(ts[k].id) != param)
    ensures r.None? ==> forall k :: 0 <= k < |ts| ==> IntToStr(ts[k].id) != param
  {
    if |ts| == 0 then None
    else if IntToStr(ts[0].id) == param then Some(0)
    else
      match FindByParam(ts[1..], param)
      case None => None
      case Some(i) => Some(i + 1)
  }

  /**
   * `handleSubmit`: nothing changes when validation fails; in edit mode
   * (`routeId` present) the matching training is overlaid in place and an
   * unknown id changes nothing; otherwise a new training is appended.
   */
  method Submit(store: TrainingStore, routeId: Option<string>, form: FormData) returns (errors: map<Field, string>)
    modifies store
    ensures (|errors| == 0) <==> ValidForm(form)
    ensures !ValidForm(form) ==> store.trainings == old(store.trainings)
    ensures ValidForm(form) && routeId.None? ==>
      store.trainings == old(store.trainings) + [Created(old(store.trainings), form)]
    ensures ValidForm(form) && routeId.Some? && FindByParam(old(store.trainings), routeId.value).None? ==>
      store.trainings == old(store.trainings)
    ensures ValidForm(form) && routeId.Some? && FindByParam(old(store.trainings), routeId.value).Some? ==>
      var i := FindByParam(old(store.trainings), routeId.value).value;
      store.trainings == old(store.trainings)[i := Edited(old(store.trainings)[i], form)]
  {
    errors := ValidateForm(form);
    if |errors| > 0 {
      assert !ValidForm(form) by {
        assert errors.Keys != {};
        var key :| key in errors;
        assert key.Title? || key.Department? || key.Intro? || key.CreatedBy? || key.Duration?;
      }
      return;
    }
    if routeId.Some? {
      var idx := FindByParam(store.trainings, routeId.value);
      if idx.Some? {
        store.trainings := store.trainings[idx.value := Edited(store.trainings[idx.value], form)];
      }
    } else {
      store.trainings := store.trainings + [Created(store.trainings, form)];
    }
  }
}
