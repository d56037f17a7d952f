/**
 * The resource and quiz synchronisation of `FormationWriteSerializer.update`.
 *
 * Resources: every submitted entry either updates a resource already linked
 * to the formation, creates a new resource when a file came with it, or is
 * skipped; the formation's resources become exactly the processed ones, and a
 * resource no longer listed is deleted when no formation references it.
 *
 * Quiz: with quiz data, the formation gets a quiz (created when missing),
 * the questions whose id was not submitted are deleted, submitted ids update
 * their question and replace its options, entries without id create
 * questions; without quiz data the quiz is deleted.
 *
 * Each operation is specified by a function over the submitted entries,
 * folded from the first entry to the last as the loops of the serializer do.
 */
module FormationSync {
  import opened Wrappers
  import opened Seqs

  // -------------------------------------------------------------- resources

  /** A Resource row: `file` is whether a file is stored. */
  datatype ResourceRec = ResourceRec(name: Option<string>, confidentiel: bool, allowedEquipes: set<nat>, hasFile: bool)

  /**
   * One submitted resource: `id` 0 when the entry carries no id, `file`
   * whether an upload came under the entry's file key.
   */
  datatype ResourceEntry = ResourceEntry(id: nat, name: Option<string>, confidentiel: bool, allowedEquipes: seq<nat>, file: bool)

  /** The resource table during the loop, the next primary key and `processed_resource_ids`. */
  datatype RState = RState(resources: map<nat, ResourceRec>, nextId: nat, processed: seq<nat>)

  /** `Equipe.objects.filter(pk__in=ids)` for a confidential entry, no team otherwise. */
  function TeamsFor(e: ResourceEntry, teamIds: set<nat>): (r: set<nat>)
    ensures r <= teamIds
    ensures !e.confidentiel ==> r == {}
    ensures e.confidentiel ==> forall t :: t in r <==> t in e.allowedEquipes && t in teamIds
  {
    if e.confidentiel then SetOf(e.allowedEquipes) * teamIds else {}
  }

  /** `Resource.objects.get(id=…, formations=instance)` succeeds. */
  predicate IsExisting(e: ResourceEntry, linked: set<nat>, resources: map<nat, ResourceRec>)
  {
    e.id != 0 && e.id in linked && e.id in resources
  }

  /** One iteration of the resource loop. */
  function ResourceStep(s: RState, e: ResourceEntry, linked: set<nat>, teamIds: set<nat>): RState
  {
    if IsExisting(e, linked, s.resources) then
      var prev := s.resources[e.id];
      var rec := ResourceRec(if e.name.Some? then e.name else prev.name, e.confidentiel,
                             TeamsFor(e, teamIds), prev.hasFile || e.file);
      RState(s.resources[e.id := rec], s.nextId, s.processed + [e.id])
    else if !e.file then
      s
    else
      var rec := ResourceRec(e.name, e.confidentiel, TeamsFor(e, teamIds), true);
      RState(s.resources[s.nextId := rec], s.nextId + 1, s.processed + [s.nextId])
  }

  /** The resource loop over all the entries, first to last. */
  function ApplyEntries(s: RState, entries: seq<ResourceEntry>, linked: set<nat>, teamIds: set<nat>): RState
    decreases |entries|
  {
    if |entries| == 0 then s
    else ResourceStep(ApplyEntries(s, entries[..|entries| - 1], linked, teamIds), entries[|entries| - 1], linked, teamIds)
  }

  /** Every primary key in use is below the next one. */
  predicate KeysBelow(s: RState)
  {
    forall id :: id in s.resources ==> id < s.nextId
  }

  /** The number of entries that are not skipped. */
  function CountKept(entries: seq<ResourceEntry>, linked: set<nat>): nat
    decreases |entries|
  {
    if |entries| == 0 then 0
    else
      var e := entries[|entries| - 1];
      CountKept(entries[..|entries| - 1], linked) + (if (e.id != 0 && e.id in linked) || e.file then 1 else 0)
  }

  /**
   * What the loop does to the table, entry by entry: the keys in use only
   * grow and stay below the next key; a dropped resource keeps its record;
   * every processed id names a resource, either one of the linked resources
   * or a new key; every processed resource has the confidentiality and the
   * teams of some entry; and exactly the matching or file-carrying entries
   * are processed.
   */
  lemma {:induction false} ApplyEntriesFacts(s: RState, entries: seq<ResourceEntry>, linked: set<nat>, teamIds: set<nat>)
    requires KeysBelow(s) && s.processed == [] && forall id :: id in linked ==> id in s.resources
    ensures var r := ApplyEntries(s, entries, linked, teamIds);
      KeysBelow(r) && s.nextId <= r.nextId
      && (forall id :: id in s.resources ==> id in r.resources)
      && (forall id :: id in s.resources && id !in r.processed ==> r.resources[id] == s.resources[id])
      && (forall k :: 0 <= k < |r.processed| ==>
            r.processed[k] in r.resources && (r.processed[k] in linked || r.processed[k] >= s.nextId))
      && (forall id :: id in r.processed ==>
            exists e :: e in entries && r.resources[id].confidentiel == e.confidentiel
              && r.resources[id].allowedEquipes == TeamsFor(e, teamIds))
      && |r.processed| == CountKept(entries, linked)
    decreases |entries|
  {
    if |entries| > 0 {
      var init := entries[..|entries| - 1];
      var e := entries[|entries| - 1];
      ApplyEntriesFacts(s, init, linked, teamIds);
      var p := ApplyEntries(s, init, linked, teamIds);
      var r := ResourceStep(p, e, linked, teamIds);
      assert r == ApplyEntries(s, entries, linked, teamIds);
      assert IsExisting(e, linked, p.resources) <==> e.id != 0 && e.id in linked;
      forall id | id in r.processed
        ensures exists e' :: (e' in entries && r.resources[id].confidentiel == e'.confidentiel
          && r.resources[id].allowedEquipes == TeamsFor(e', teamIds))
      {
        if id in p.processed && r.resources[id] == p.resources[id] {
          var e' :| e' in init && p.resources[id].confidentiel == e'.confidentiel
            && p.resources[id].allowedEquipes == TeamsFor(e', teamIds);
          assert e' in entries;
        } else {
          assert e in entries;
        }
      }
    }
  }

  /**
   * `(old_resource_ids - processed)`, each deleted when no formation
   * references it any more.
   */
  function DropUnreferenced(resources: map<nat, ResourceRec>, links: map<nat, set<nat>>, removed: set<nat>): (r: map<nat, ResourceRec>)
    ensures forall id :: id in r <==> id in resources && (id in removed ==> Referenced(links, id))
    ensures forall id :: id in r ==> r[id] == resources[id]
  {
    map id | id in resources && (id in removed ==> Referenced(links, id)) :: resources[id]
  }

  /** Some formation lists the resource. */
  predicate Referenced(links: map<nat, set<nat>>, id: nat)
  {
    exists f :: f in links && id in links[f]
  }

  /** The resource table, the formations' resource lists and the team ids. */
  class Catalog {
    var resources: map<nat, ResourceRec>
    var nextResourceId: nat
    /** Formation id to the ids of its resources. */
    var links: map<nat, set<nat>>
    var teamIds: set<nat>

    predicate Valid()
      reads this
    {
      (forall id :: id in resources ==> id < nextResourceId)
      && (forall f, id :: f in links && id in links[f] ==> id in resources)
    }

    constructor (teamIds: set<nat>)
      ensures Valid()
      ensures resources == map[] && links == map[] && this.teamIds == teamIds && nextResourceId == 1
    {
      resources := map[];
      nextResourceId := 1;
      links := map[];
      this.teamIds := teamIds;
    }

    /**
     * The resource part of `update` for formation `formation`: the loop over
     * the entries, then `instance.ressources.set(processed)`, then the
     * deletion of the dropped resources that nothing references.
     */
    method SyncResources(formation: nat, entries: seq<ResourceEntry>) returns (processed: seq<nat>)
      requires Valid() && formation in links
      modifies this
      ensures Valid()
      ensures var r := ApplyEntries(RState(old(resources), old(nextResourceId), []), entries, old(links)[formation], teamIds);
        processed == r.processed && nextResourceId == r.nextId
        && links == old(links)[formation := SetOf(processed)]
        && resources == DropUnreferenced(r.resources, links, old(links)[formation] - SetOf(processed))
      ensures teamIds == old(teamIds)
    {
      var linked := links[formation];
      ghost var s0 := RState(resources, nextResourceId, []);
      processed := ApplyResourceEntries(linked, entries);
      ApplyEntriesFacts(s0, entries, linked, teamIds);
      links := links[formation := SetOf(processed)];
      DropRemoved(linked - SetOf(processed));
      forall f, id | f in links && id in links[f] ensures id in resources {
        assert Referenced(links, id);
        if f != formation {
          assert id in old(links)[f];
        }
      }
    }

    /** The loop over the submitted entries, appending to `processed_resource_ids`. */
    method ApplyResourceEntries(linked: set<nat>, entries: seq<ResourceEntry>) returns (processed: seq<nat>)
      modifies this
      ensures RState(resources, nextResourceId, processed)
        == ApplyEntries(RState(old(resources), old(nextResourceId), []), entries, linked, teamIds)
      ensures links == old(links) && teamIds == old(teamIds)
    {
      ghost var s0 := RState(resources, nextResourceId, []);
      processed := [];
      var i := 0;
      while i < |entries|
        invariant 0 <= i <= |entries| && links == old(links) && teamIds == old(teamIds)
        invariant RState(resources, nextResourceId, processed) == ApplyEntries(s0, entries[..i], linked, teamIds)
      {
        assert entries[..i + 1][..i] == entries[..i];
        var e := entries[i];
        if e.id != 0 && e.id in linked && e.id in resources {
          var res := resources[e.id];
          var name := if e.name.Some? then e.name else res.name;
          resources := resources[e.id := ResourceRec(name, e.confidentiel, TeamsFor(e, teamIds), res.hasFile || e.file)];
          processed := processed + [e.id];
        } else if e.file {
          resources := resources[nextResourceId := ResourceRec(e.name, e.confidentiel, TeamsFor(e, teamIds), true)];
          processed := processed + [nextResourceId];
          nextResourceId := nextResourceId + 1;
        }
        i := i + 1;
      }
      assert entries[..i] == entries;
    }

    /** The loop over the removed ids: each is deleted when no formation lists it. */
    method DropRemoved(removed: set<nat>)
      modifies this
      ensures resources == DropUnreferenced(old(resources), links, removed)
      ensures links == old(links) && teamIds == old(teamIds) && nextResourceId == old(nextResourceId)
    {
      ghost var kept := resources;
      var pendingIds := removed;
      while pendingIds != {}
        invariant pendingIds <= removed && links == old(links)
        invariant teamIds == old(teamIds) && nextResourceId == old(nextResourceId)
        invariant resources == DropUnreferenced(kept, links, removed - pendingIds)
        decreases pendingIds
      {
        var id :| id in pendingIds;
        ghost var before := resources;
        if id in resources && !Referenced(links, id) {
          resources := map k | k in resources && k != id :: resources[k];
        }
        pendingIds := pendingIds - {id};
        assert resources == DropUnreferenced(kept, links, removed - pendingIds) by {
          var goal := DropUnreferenced(kept, links, removed - pendingIds);
          forall k ensures k in resources <==> k in goal {
            if k == id {
            } else {
              assert k in before <==> k in goal;
            }
          }
        }
      }
    }
  }

  // ------------------------------------------------------------------- quiz

  datatype OptionRec = OptionRec(texte: string, isCorrect: bool)

  /** A Question row of the quiz. */
  datatype QuestionRec = QuestionRec(texte: string, qtype: string, point: nat, keywords: seq<string>, options: seq<OptionRec>)

  /** One submitted question: `id` 0 when absent; a missing key is `None`. */
  datatype QuestionEntry = QuestionEntry(id: nat, texte: Option<string>, qtype: Option<string>, point: Option<nat>,
                                         keywords: Option<seq<string>>, options: seq<OptionRec>)

  /**
   * The `quiz` field of the request: `Missing` when absent or null, `Blank`
   * when it decodes to an empty (falsy) value, else its `questions`.
   */
  datatype QuizPayload = Missing | Blank | Data(questions: seq<QuestionEntry>)

  /** The quiz's questions during the loop, with the next primary key. */
  datatype QState = QState(questions: map<nat, QuestionRec>, nextId: nat)

  /** The loop's outcome: the state reached, and the id that failed to load, if any. */
  datatype QuizOutcome = QuizOutcome(state: QState, failed: Option<nat>)

  /** The submitted ids, `{q.get('id') for q in questions if q.get('id')}`. */
  function SubmittedIds(entries: seq<QuestionEntry>): (r: set<nat>)
    ensures forall id :: id in r <==> id != 0 && exists k :: 0 <= k < |entries| && entries[k].id == id
  {
    set k | 0 <= k < |entries| && entries[k].id != 0 :: entries[k].id
  }

  /** An update of an existing question: given fields win, the options are replaced. */
  function UpdatedQuestion(q: QuestionRec, e: QuestionEntry): QuestionRec
  {
    QuestionRec(
      if e.texte.Some? then e.texte.value else q.texte,
      if e.qtype.Some? then e.qtype.value else q.qtype,
      if e.point.Some? then e.point.value else q.point,
      if e.keywords.Some? then e.keywords.value else q.keywords,
      e.options)
  }

  /** A created question, with the field defaults of the Question table. */
  function CreatedQuestion(e: QuestionEntry): QuestionRec
  {
    QuestionRec(
      if e.texte.Some? then e.texte.value else "",
      if e.qtype.Some? then e.qtype.value else "",
      if e.point.Some? then e.point.value else 1,
      if e.keywords.Some? then e.keywords.value else [],
      e.options)
  }

  /** One iteration of the question loop; a submitted id not in the quiz raises. */
  function QuestionStep(s: QState, e: QuestionEntry): QuizOutcome
  {
    if e.id != 0 then
      if e.id in s.questions then
        QuizOutcome(QState(s.questions[e.id := UpdatedQuestion(s.questions[e.id], e)], s.nextId), None)
      else
        QuizOutcome(s, Some(e.id))
    else
      QuizOutcome(QState(s.questions[s.nextId := CreatedQuestion(e)], s.nextId + 1), None)
  }

  /** The question loop, first to last, stopping at the first failure with the rows written so far. */
  function ApplyQuestions(s: QState, entries: seq<QuestionEntry>): QuizOutcome
    decreases |entries|
  {
    if |entries| == 0 then QuizOutcome(s, None)
    else
      var o := ApplyQuestions(s, entries[..|entries| - 1]);
      if o.failed.Some? then o else QuestionStep(o.state, entries[|entries| - 1])
  }

  /** The quiz remaining after `exclude(id__in=submitted).delete()`. */
  function KeepSubmitted(questions: map<nat, QuestionRec>, submitted: set<nat>): (r: map<nat, QuestionRec>)
    ensures forall id :: id in r <==> id in questions && id in submitted
    ensures forall id :: id in r ==> r[id] == questions[id]
  {
    map id | id in questions && id in submitted :: questions[id]
  }

  /**
   * The quiz part of `update`: the formation's quiz afterwards (`None` when
   * it has none), the next question key, and the id that failed, if any.
   */
  function SyncQuizSpec(quiz: Option<map<nat, QuestionRec>>, nextId: nat, data: QuizPayload): (Option<map<nat, QuestionRec>>, nat, Option<nat>)
  {
    match data
    case Data(entries) =>
      var base := KeepSubmitted(if quiz.Some? then quiz.value else map[], SubmittedIds(entries));
      var o := ApplyQuestions(QState(base, nextId), entries);
      (Some(o.state.questions), o.state.nextId, o.failed)
    case _ => (None, nextId, None)
  }

  /** Client ids name questions that existed before the call, never keys created by it. */
  predicate IdsBelow(entries: seq<QuestionEntry>, nextId: nat)
  {
    forall k :: 0 <= k < |entries| ==> entries[k].id < nextId
  }

  /**
   * Over the loop: keys only come from the start or are new keys; a failure
   * reports the first entry whose id is not in the starting quiz.
   */
  lemma {:induction false} ApplyQuestionsFacts(s: QState, entries: seq<QuestionEntry>)
    requires forall id :: id in s.questions ==> id < s.nextId
    requires IdsBelow(entries, s.nextId)
    ensures var o := ApplyQuestions(s, entries);
      s.nextId <= o.state.nextId
      && (forall id :: id in o.state.questions ==> id < o.state.nextId)
      && (forall id :: id in o.state.questions <==> id in s.questions || s.nextId <= id < o.state.nextId)
      && (o.failed.None? <==> forall k :: 0 <= k < |entries| && entries[k].id != 0 ==> entries[k].id in s.questions)
      && (o.failed.Some? ==>
            exists k :: (0 <= k < |entries| && entries[k].id == o.failed.value
              && o.failed.value != 0 && o.failed.value !in s.questions
              && forall j :: 0 <= j < k && entries[j].id != 0 ==> entries[j].id in s.questions))
    decreases |entries|
  {
    if |entries| > 0 {
      var init := entries[..|entries| - 1];
      var e := entries[|entries| - 1];
      assert IdsBelow(init, s.nextId);
      ApplyQuestionsFacts(s, init);
      var o := ApplyQuestions(s, init);
      if o.failed.None? {
        assert e.id != 0 ==> (e.id in o.state.questions <==> e.id in s.questions);
        var r := QuestionStep(o.state, e);
        if r.failed.Some? {
          assert forall j :: 0 <= j < |entries| - 1 && entries[j].id != 0 ==> entries[j].id in s.questions by {
            forall j | 0 <= j < |entries| - 1 && entries[j].id != 0 ensures entries[j].id in s.questions {
              assert init[j] == entries[j];
            }
          }
        } else {
          forall k | 0 <= k < |entries| && entries[k].id != 0 ensures entries[k].id in s.questions {
            if k < |entries| - 1 {
              assert init[k] == entries[k];
            }
          }
        }
      } else {
        var k :| 0 <= k < |init| && init[k].id == o.failed.value
          && o.failed.value != 0 && o.failed.value !in s.questions
          && forall j :: 0 <= j < k && init[j].id != 0 ==> init[j].id in s.questions;
        assert entries[k] == init[k];
        assert forall j :: 0 <= j < k ==> entries[j] == init[j];
      }
    }
  }

  /**
   * A question whose last entry is at index `k` ends with exactly that
   * entry's options, whatever the earlier entries for it said.
   */
  lemma {:induction false} LastEntryOptions(s: QState, entries: seq<QuestionEntry>, k: nat)
    requires forall id :: id in s.questions ==> id < s.nextId
    requires IdsBelow(entries, s.nextId)
    requires k < |entries| && entries[k].id != 0
    requires forall j :: k < j < |entries| ==> entries[j].id != entries[k].id
    requires ApplyQuestions(s, entries).failed.None?
    ensures var o := ApplyQuestions(s, entries);
      entries[k].id in o.state.questions && o.state.questions[entries[k].id].options == entries[k].options
    decreases |entries|
  {
    var init := entries[..|entries| - 1];
    var o := ApplyQuestions(s, init);
    ApplyQuestionsFacts(s, init);
    if k < |entries| - 1 {
      assert IdsBelow(init, s.nextId);
      assert init[k] == entries[k];
      LastEntryOptions(s, init, k);
      var e := entries[|entries| - 1];
      assert e.id != entries[k].id;
    }
  }

  /**
   * With quiz data, the questions left are the previous ones that were
   * submitted and the new ones; every previous question not submitted is
   * deleted. Without data, there is no quiz afterwards.
   */
  lemma SyncQuizKeys(quiz: Option<map<nat, QuestionRec>>, nextId: nat, data: QuizPayload)
    requires quiz.Some? ==> forall id :: id in quiz.value ==> id < nextId
    requires data.Data? ==> IdsBelow(data.questions, nextId)
    ensures !data.Data? ==> SyncQuizSpec(quiz, nextId, data).0.None?
    ensures data.Data? ==>
      var (q, next, failed) := SyncQuizSpec(quiz, nextId, data);
      var prev := if quiz.Some? then quiz.value else map[];
      q.Some? && nextId <= next
      && (forall id :: id in q.value <==>
            (id in prev && id in SubmittedIds(data.questions)) || nextId <= id < next)
      && (failed.None? <==> forall k :: 0 <= k < |data.questions| && data.questions[k].id != 0 ==>
            data.questions[k].id in prev)
  {
    if data.Data? {
      var prev := if quiz.Some? then quiz.value else map[];
      var base := KeepSubmitted(prev, SubmittedIds(data.questions));
      ApplyQuestionsFacts(QState(base, nextId), data.questions);
    }
  }

  /** The store's quiz part of `update`. */
  class QuizStore {
    /** The formation's quiz as its questions; `None` when it has no quiz. */
    var quiz: Option<map<nat, QuestionRec>>
    var nextQuestionId: nat

    predicate Valid()
      reads this
    {
      quiz.Some? ==> forall id :: id in quiz.value ==> id < nextQuestionId
    }

    constructor (quiz: Option<map<nat, QuestionRec>>, nextQuestionId: nat)
      requires quiz.Some? ==> forall id :: id in quiz.value ==> id < nextQuestionId
      ensures Valid() && this.quiz == quiz && this.nextQuestionId == nextQuestionId
    {
      this.quiz := quiz;
      this.nextQuestionId := nextQuestionId;
    }

    /**
     * The quiz block of `update`. `failed` is the submitted id that
     * `Question.objects.get` could not find; the rows written before it stay.
     */
    method Sync(data: QuizPayload) returns (failed: Option<nat>)
      requires Valid()
      modifies this
      ensures Valid()
      ensures (quiz, nextQuestionId, failed) == SyncQuizSpec(old(quiz), old(nextQuestionId), data)
    {
      if data.Data? {
        var entries := data.questions;
        if quiz.None? {
          quiz := Some(map[]);
        }
        var submitted := SubmittedIds(entries);
        var questions: map<nat, QuestionRec> := KeepSubmitted(quiz.value, submitted);
        ghost var s0 := QState(questions, nextQuestionId);
        failed := None;
        var i := 0;
        while i < |entries|
          invariant 0 <= i <= |entries|
          invariant forall id :: id in questions ==> id < nextQuestionId
          invariant ApplyQuestions(s0, entries[..i]) == QuizOutcome(QState(questions, nextQuestionId), None)
        {
          var e := entries[i];
          ApplyPrefixStep(s0, entries, i);
          ghost var step := QuestionStep(QState(questions, nextQuestionId), e);
          assert ApplyQuestions(s0, entries[..i + 1]) == step;
          if e.id != 0 {
            if e.id !in questions {
              failed := Some(e.id);
              quiz := Some(questions);
              ApplyAfterFailure(s0, entries, i + 1);
              return;
            }
            questions := questions[e.id := UpdatedQuestion(questions[e.id], e)];
          } else {
            questions := questions[nextQuestionId := CreatedQuestion(e)];
            nextQuestionId := nextQuestionId + 1;
          }
          assert step == QuizOutcome(QState(questions, nextQuestionId), None);
          i := i + 1;
        }
        assert entries[..i] == entries;
        quiz := Some(questions);
      } else {
        quiz := None;
        failed := None;
      }
    }
  }

  /** One more entry of a prefix: the step runs unless the prefix already failed. */
  lemma ApplyPrefixStep(s: QState, entries: seq<QuestionEntry>, i: nat)
    requires i < |entries|
    ensures var o := ApplyQuestions(s, entries[..i]);
      ApplyQuestions(s, entries[..i + 1]) == if o.failed.Some? then o else QuestionStep(o.state, entries[i])
  {
    assert entries[..i + 1][..i] == entries[..i];
  }

  /** Once an entry fails, the later entries change nothing. */
  lemma {:induction false} ApplyAfterFailure(s: QState, entries: seq<QuestionEntry>, n: nat)
    requires n <= |entries| && ApplyQuestions(s, entries[..n]).failed.Some?
    ensures ApplyQuestions(s, entries) == ApplyQuestions(s, entries[..n])
    decreases |entries| - n
  {
    if n < |entries| {
      assert entries[..n + 1][..n] == entries[..n];
      ApplyAfterFailure(s, entries, n + 1);
    } else {
      assert entries[..n] == entries;
    }
  }
}
