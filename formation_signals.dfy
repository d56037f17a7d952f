/**
 * The post-save handlers that keep UserFormation records up to date.
 *
 * Saving a UserModule, UserResource or UserQuiz row runs a handler that finds
 * the formations concerned, fetches or creates the UserFormation record of
 * the user for each of them, and registers a callback that recomputes that
 * record when the transaction commits. The commit queue is the `pending` list
 * of a hub object; each entry is the record that the callback will recompute
 * when it runs.
 *
 * The callbacks registered in the loop of one handler call are closures over
 * the loop variable, so when they run after the loop they all read its last
 * value. `OnUserModuleComplete` and `OnUserResourceRead` model that;
 * `OnUserModuleCompleteEach` and `OnUserResourceReadEach` bind the record of
 * each iteration, which is what the handlers are meant to do, and the save
 * operations use those.
 */
module FormationSignals {
  import opened Wrappers
  import opened FormationModels

  /** The formation with id `id`, if the table has one. */
  function FindFormation(formations: seq<Formation>, id: nat): (r: Option<Formation>)
    ensures r.Some? ==> r.value in formations && r.value.id == id
    ensures r.None? <==> forall f :: f in formations ==> f.id != id
  {
    if |formations| == 0 then None
    else if formations[0].id == id then Some(formations[0])
    else FindFormation(formations[1..], id)
  }

  /** `module.formations.all()`: the formations listing `module`, in table order. */
  function FormationsWithModule(formations: seq<Formation>, moduleId: nat): (r: seq<Formation>)
    ensures forall f :: f in r <==> f in formations && moduleId in f.modules
  {
    if |formations| == 0 then []
    else
      (if moduleId in formations[0].modules then [formations[0]] else [])
        + FormationsWithModule(formations[1..], moduleId)
  }

  /** `resource.formations.all()`: the formations listing `resource`, in table order. */
  function FormationsWithResource(formations: seq<Formation>, resource: nat): (r: seq<Formation>)
    ensures forall f :: f in r <==> f in formations && resource in f.ressources
  {
    if |formations| == 0 then []
    else
      (if resource in formations[0].ressources then [formations[0]] else [])
        + FormationsWithResource(formations[1..], resource)
  }

  /** `quiz.formation`: the formation that owns the quiz. */
  function FormationOfQuiz(formations: seq<Formation>, quiz: nat): (r: Option<Formation>)
    ensures r.Some? ==> r.value in formations && r.value.quiz == Some(quiz)
    ensures r.None? <==> forall f :: f in formations ==> f.quiz != Some(quiz)
  {
    if |formations| == 0 then None
    else if formations[0].quiz == Some(quiz) then Some(formations[0])
    else FormationOfQuiz(formations[1..], quiz)
  }

  /** The formation ids of a list of records. */
  function FormationIds(us: seq<UserFormation>): (ids: seq<nat>)
    ensures |ids| == |us| && forall k :: 0 <= k < |us| ==> ids[k] == us[k].formation
  {
    seq(|us|, k requires 0 <= k < |us| => us[k].formation)
  }

  /** `n` copies of one record. */
  function Repeat(u: UserFormation, n: nat): (r: seq<UserFormation>)
    ensures |r| == n && forall k :: 0 <= k < n ==> r[k] == u
  {
    seq(n, _ => u)
  }

  /** The ids of a list of formations. */
  function Ids(fs: seq<Formation>): (ids: seq<nat>)
    ensures |ids| == |fs| && forall k :: 0 <= k < |fs| ==> ids[k] == fs[k].id
  {
    seq(|fs|, k requires 0 <= k < |fs| => fs[k].id)
  }

  predicate HasRecord(records: seq<UserFormation>, user: UserId, formation: nat)
  {
    exists k :: 0 <= k < |records| && records[k].user == user && records[k].formation == formation
  }

  /** Queuing records fetched one per target formation adds the targets' ids to the queue's ids. */
  lemma ScheduledIds(before: seq<UserFormation>, found: seq<UserFormation>, targets: seq<Formation>)
    requires |found| == |targets| && forall k :: 0 <= k < |targets| ==> found[k].formation == targets[k].id
    ensures FormationIds(before + found) == FormationIds(before) + Ids(targets)
  {
    var l, r := FormationIds(before + found), FormationIds(before) + Ids(targets);
    assert |l| == |r|;
    forall k | 0 <= k < |l| ensures l[k] == r[k] {
      if k >= |before| {
        assert (before + found)[k] == found[k - |before|];
      }
    }
  }

  /** The UserFormation table, the tables it is computed from and the commit queue. */
  class Hub {
    var formations: seq<Formation>
    var tables: Tables
    var records: seq<UserFormation>
    var pending: seq<UserFormation>

    predicate Valid()
      reads this
    {
      (forall i, j :: 0 <= i < j < |formations| ==> formations[i].id != formations[j].id)
      && (forall u :: u in records ==> FindFormation(formations, u.formation).Some?)
      && (forall i, j :: 0 <= i < j < |records| ==>
            records[i].user != records[j].user || records[i].formation != records[j].formation)
      && (forall u :: u in pending ==> u in records)
    }

    constructor (formations: seq<Formation>, tables: Tables)
      requires forall i, j :: 0 <= i < j < |formations| ==> formations[i].id != formations[j].id
      ensures Valid()
      ensures this.formations == formations && this.tables == tables && records == [] && pending == []
    {
      this.formations := formations;
      this.tables := tables;
      records := [];
      pending := [];
    }

    /**
     * `UserFormation.objects.get_or_create(user=…, formation=…)`: the record
     * of the user for the formation, created with progress 0 when missing.
     */
    method GetOrCreate(user: UserId, formation: nat) returns (uf: UserFormation)
      requires Valid() && FindFormation(formations, formation).Some?
      modifies this
      ensures Valid()
      ensures formations == old(formations) && tables == old(tables) && pending == old(pending)
      ensures uf in records && uf.user == user && uf.formation == formation
      ensures forall u :: u in old(records) ==> u in records
      ensures old(HasRecord(records, user, formation)) ==> records == old(records)
      ensures !old(HasRecord(records, user, formation)) ==>
        records == old(records) + [uf] && fresh(uf) && uf.progress == 0 && uf.status == Nouvelle
    {
      var i := 0;
      while i < |records|
        invariant 0 <= i <= |records|
        invariant forall k :: 0 <= k < i ==> records[k].user != user || records[k].formation != formation
      {
        if records[i].user == user && records[i].formation == formation {
          uf := records[i];
          return;
        }
        i := i + 1;
      }
      uf := new UserFormation(user, formation);
      records := records + [uf];
    }

    /**
     * The loop of the module and resource handlers: `get_or_create` of the
     * user's record for every target formation, in order.
     */
    method FetchRecords(user: UserId, targets: seq<Formation>) returns (found: seq<UserFormation>)
      requires Valid() && forall f :: f in targets ==> f in formations
      modifies this
      ensures Valid()
      ensures formations == old(formations) && tables == old(tables) && pending == old(pending)
      ensures |found| == |targets|
      ensures forall k :: 0 <= k < |targets| ==>
        found[k] in records && found[k].user == user && found[k].formation == targets[k].id
      ensures forall f :: f in targets ==> HasRecord(records, user, f.id)
    {
      found := [];
      var i := 0;
      while i < |targets|
        invariant 0 <= i <= |targets| && |found| == i
        invariant Valid() && formations == old(formations) && tables == old(tables) && pending == old(pending)
        invariant forall k :: 0 <= k < i ==>
          found[k] in records && found[k].user == user && found[k].formation == targets[k].id
      {
        var userFormation := GetOrCreate(user, targets[i].id);
        found := found + [userFormation];
        i := i + 1;
      }
      forall f | f in targets ensures HasRecord(records, user, f.id) {
        var k :| 0 <= k < |targets| && targets[k] == f;
        assert found[k] in records;
      }
    }

    /** `transaction.on_commit(…)`: queues the given records, in order, for recomputation at commit. */
    method Schedule(us: seq<UserFormation>)
      requires Valid() && forall u :: u in us ==> u in records
      modifies this
      ensures Valid()
      ensures formations == old(formations) && tables == old(tables) && records == old(records)
      ensures pending == old(pending) + us
    {
      pending := pending + us;
    }

    /**
     * The callbacks of one late-bound loop: one per record fetched, each
     * recomputing `bound`, the last of them.
     */
    method ScheduleLast(found: seq<UserFormation>) returns (bound: UserFormation?)
      requires Valid() && forall u :: u in found ==> u in records
      modifies this
      ensures Valid()
      ensures formations == old(formations) && tables == old(tables) && records == old(records)
      ensures |found| == 0 ==> bound == null && pending == old(pending)
      ensures |found| > 0 ==> bound == found[|found| - 1] && pending == old(pending) + Repeat(bound, |found|)
    {
      bound := null;
      if |found| > 0 {
        bound := found[|found| - 1];
        Schedule(Repeat(bound, |found|));
      }
    }

    /**
     * `on_user_module_complete` as written. The callbacks registered by the
     * loop only read the loop variable when the transaction commits, so all
     * of them recompute `bound`, the record fetched last.
     */
    method OnUserModuleComplete(instance: ItemMark) returns (bound: UserFormation?, targets: seq<Formation>)
      requires Valid()
      modifies this
      ensures Valid()
      ensures formations == old(formations) && tables == old(tables)
      ensures targets == FormationsWithModule(formations, instance.item)
      ensures forall f :: f in formations && instance.item in f.modules ==> HasRecord(records, instance.user, f.id)
      ensures if |targets| == 0 then bound == null && pending == old(pending)
        else
          bound != null && bound.user == instance.user && bound.formation == targets[|targets| - 1].id
          && pending == old(pending) + Repeat(bound, |targets|)
    {
      targets := FormationsWithModule(formations, instance.item);
      var found := FetchRecords(instance.user, targets);
      bound := ScheduleLast(found);
    }

    /** `on_user_resource_read` as written: the same late binding over the resource's formations. */
    method OnUserResourceRead(instance: ItemMark) returns (bound: UserFormation?, targets: seq<Formation>)
      requires Valid()
      modifies this
      ensures Valid()
      ensures formations == old(formations) && tables == old(tables)
      ensures targets == FormationsWithResource(formations, instance.item)
      ensures forall f :: f in formations && instance.item in f.ressources ==> HasRecord(records, instance.user, f.id)
      ensures if |targets| == 0 then bound == null && pending == old(pending)
        else
          bound != null && bound.user == instance.user && bound.formation == targets[|targets| - 1].id
          && pending == old(pending) + Repeat(bound, |targets|)
    {
      targets := FormationsWithResource(formations, instance.item);
      var found := FetchRecords(instance.user, targets);
      bound := ScheduleLast(found);
    }

    /**
     * `on_user_module_complete` with each callback bound to the record of its
     * own iteration: every formation of the module gets one recomputation.
     */
    method OnUserModuleCompleteEach(instance: ItemMark) returns (targets: seq<Formation>)
      requires Valid()
      modifies this
      ensures Valid()
      ensures formations == old(formations) && tables == old(tables)
      ensures targets == FormationsWithModule(formations, instance.item)
      ensures forall f :: f in formations && instance.item in f.modules ==> HasRecord(records, instance.user, f.id)
      ensures |pending| == |old(pending)| + |targets| && pending[..|old(pending)|] == old(pending)
      ensures FormationIds(pending) == FormationIds(old(pending)) + Ids(targets)
      ensures forall k :: |old(pending)| <= k < |pending| ==> pending[k].user == instance.user
    {
      targets := FormationsWithModule(formations, instance.item);
      ghost var before := pending;
      var found := FetchRecords(instance.user, targets);
      // transaction.on_commit(lambda uf=user_formation: uf.update_progress()), once per iteration
      Schedule(found);
      ScheduledIds(before, found, targets);
    }

    /** `on_user_resource_read` with each callback bound to the record of its own iteration. */
    method OnUserResourceReadEach(instance: ItemMark) returns (targets: seq<Formation>)
      requires Valid()
      modifies this
      ensures Valid()
      ensures formations == old(formations) && tables == old(tables)
      ensures targets == FormationsWithResource(formations, instance.item)
      ensures forall f :: f in formations && instance.item in f.ressources ==> HasRecord(records, instance.user, f.id)
      ensures |pending| == |old(pending)| + |targets| && pending[..|old(pending)|] == old(pending)
      ensures FormationIds(pending) == FormationIds(old(pending)) + Ids(targets)
      ensures forall k :: |old(pending)| <= k < |pending| ==> pending[k].user == instance.user
    {
      targets := FormationsWithResource(formations, instance.item);
      ghost var before := pending;
      var found := FetchRecords(instance.user, targets);
      // transaction.on_commit(lambda uf=user_formation: uf.update_progress()), once per iteration
      Schedule(found);
      ScheduledIds(before, found, targets);
    }

    /** `on_user_quiz_complete`: only the formation that owns the quiz is targeted. */
    method OnUserQuizComplete(instance: UserQuiz) returns (userFormation: UserFormation)
      requires Valid() && FormationOfQuiz(formations, instance.quiz).Some?
      modifies this
      ensures Valid()
      ensures formations == old(formations) && tables == old(tables)
      ensures pending == old(pending) + [userFormation] && userFormation in records
      ensures userFormation.user == instance.user
      ensures userFormation.formation == FormationOfQuiz(formations, instance.quiz).value.id
    {
      var f := FormationOfQuiz(formations, instance.quiz).value;
      userFormation := GetOrCreate(instance.user, f.id);
      Schedule([userFormation]);
    }

    /**
     * Saving a UserModule row: the row enters the table and the handler runs,
     * whether or not the row is marked completed.
     */
    method SaveUserModule(row: ItemMark)
      requires Valid()
      modifies this
      ensures Valid()
      ensures tables == old(tables).(userModules := old(tables).userModules + [row])
      ensures formations == old(formations)
      ensures FormationIds(pending) == FormationIds(old(pending)) + Ids(FormationsWithModule(formations, row.item))
      ensures |pending| >= |old(pending)| && pending[..|old(pending)|] == old(pending)
      ensures forall k :: |old(pending)| <= k < |pending| ==> pending[k].user == row.user
      ensures forall f :: f in formations && row.item in f.modules ==> HasRecord(records, row.user, f.id)
    {
      tables := tables.(userModules := tables.userModules + [row]);
      var _ := OnUserModuleCompleteEach(row);
    }

    /** Saving a UserResource row: the row enters the table and the handler runs. */
    method SaveUserResource(row: ItemMark)
      requires Valid()
      modifies this
      ensures Valid()
      ensures tables == old(tables).(userResources := old(tables).userResources + [row])
      ensures formations == old(formations)
      ensures FormationIds(pending) == FormationIds(old(pending)) + Ids(FormationsWithResource(formations, row.item))
      ensures |pending| >= |old(pending)| && pending[..|old(pending)|] == old(pending)
      ensures forall k :: |old(pending)| <= k < |pending| ==> pending[k].user == row.user
      ensures forall f :: f in formations && row.item in f.ressources ==> HasRecord(records, row.user, f.id)
    {
      tables := tables.(userResources := tables.userResources + [row]);
      var _ := OnUserResourceReadEach(row);
    }

    /** Saving a UserQuiz row: the row enters the table and the quiz's formation is scheduled. */
    method SaveUserQuiz(row: UserQuiz)
      requires Valid() && FormationOfQuiz(formations, row.quiz).Some?
      modifies this
      ensures Valid()
      ensures tables == old(tables).(userQuizzes := old(tables).userQuizzes + [row])
      ensures formations == old(formations)
      ensures FormationIds(pending) == FormationIds(old(pending)) + [FormationOfQuiz(formations, row.quiz).value.id]
      ensures |pending| == |old(pending)| + 1 && pending[..|old(pending)|] == old(pending)
      ensures pending[|old(pending)|].user == row.user
      ensures pending[|old(pending)|].formation == FormationOfQuiz(formations, row.quiz).value.id
      ensures HasRecord(records, row.user, FormationOfQuiz(formations, row.quiz).value.id)
    {
      tables := tables.(userQuizzes := tables.userQuizzes + [row]);
      ghost var before := pending;
      var userFormation := OnUserQuizComplete(row);
      ScheduledIds(before, [userFormation], [FormationOfQuiz(formations, row.quiz).value]);
    }

    /**
     * Saving an existing UserModule row again (a PUT or PATCH through the
     * API): the row at `k` is replaced and the handler runs as on creation,
     * so setting `completed` back to false is recomputed too.
     */
    method UpdateUserModule(k: nat, row: ItemMark)
      requires Valid() && k < |tables.userModules|
      modifies this
      ensures Valid()
      ensures tables == old(tables).(userModules := old(tables).userModules[k := row])
      ensures formations == old(formations)
      ensures FormationIds(pending) == FormationIds(old(pending)) + Ids(FormationsWithModule(formations, row.item))
      ensures |pending| >= |old(pending)| && pending[..|old(pending)|] == old(pending)
      ensures forall k :: |old(pending)| <= k < |pending| ==> pending[k].user == row.user
      ensures forall f :: f in formations && row.item in f.modules ==> HasRecord(records, row.user, f.id)
    {
      tables := tables.(userModules := tables.userModules[k := row]);
      var _ := OnUserModuleCompleteEach(row);
    }

    /** Saving an existing UserResource row again: replaced in place, then the handler runs. */
    method UpdateUserResource(k: nat, row: ItemMark)
      requires Valid() && k < |tables.userResources|
      modifies this
      ensures Valid()
      ensures tables == old(tables).(userResources := old(tables).userResources[k := row])
      ensures formations == old(formations)
      ensures FormationIds(pending) == FormationIds(old(pending)) + Ids(FormationsWithResource(formations, row.item))
      ensures |pending| >= |old(pending)| && pending[..|old(pending)|] == old(pending)
      ensures forall k :: |old(pending)| <= k < |pending| ==> pending[k].user == row.user
      ensures forall f :: f in formations && row.item in f.ressources ==> HasRecord(records, row.user, f.id)
    {
      tables := tables.(userResources := tables.userResources[k := row]);
      var _ := OnUserResourceReadEach(row);
    }

    /** Saving an existing UserQuiz row again: replaced in place, then the quiz's formation is scheduled. */
    method UpdateUserQuiz(k: nat, row: UserQuiz)
      requires Valid() && k < |tables.userQuizzes| && FormationOfQuiz(formations, row.quiz).Some?
      modifies this
      ensures Valid()
      ensures tables == old(tables).(userQuizzes := old(tables).userQuizzes[k := row])
      ensures formations == old(formations)
      ensures FormationIds(pending) == FormationIds(old(pending)) + [FormationOfQuiz(formations, row.quiz).value.id]
      ensures |pending| == |old(pending)| + 1 && pending[..|old(pending)|] == old(pending)
      ensures pending[|old(pending)|].user == row.user
      ensures pending[|old(pending)|].formation == FormationOfQuiz(formations, row.quiz).value.id
      ensures HasRecord(records, row.user, FormationOfQuiz(formations, row.quiz).value.id)
    {
      tables := tables.(userQuizzes := tables.userQuizzes[k := row]);
      ghost var before := pending;
      var userFormation := OnUserQuizComplete(row);
      ScheduledIds(before, [userFormation], [FormationOfQuiz(formations, row.quiz).value]);
    }

    /**
     * The commit: every queued callback runs `update_progress` on its record,
     * so each queued record ends up with the progress of the current tables.
     */
    method Commit()
      requires Valid()
      modifies this, set u | u in pending
      ensures Valid()
      ensures pending == [] && formations == old(formations) && tables == old(tables) && records == old(records)
      ensures forall u :: u in old(pending) ==>
        u.completedSteps == old(u.completedSteps)
        && u.progress == ProgressOf(FindFormation(formations, u.formation).value, u.completedSteps, u.user, tables)
        && u.status == StatusOf(u.progress)
    {
      var queue := pending;
      var i := 0;
      while i < |queue|
        invariant 0 <= i <= |queue|
        invariant Valid() && pending == queue && formations == old(formations) && tables == old(tables)
        invariant records == old(records)
        invariant forall u :: u in queue ==> u.completedSteps == old(u.completedSteps)
        invariant forall k :: 0 <= k < i ==>
          queue[k].progress == ProgressOf(FindFormation(formations, queue[k].formation).value,
                                          queue[k].completedSteps, queue[k].user, tables)
          && queue[k].status == StatusOf(queue[k].progress)
      {
        var u := queue[i];
        var f := FindFormation(formations, u.formation).value;
        u.UpdateProgress(f, tables);
        i := i + 1;
      }
      pending := [];
    }
  }

  /**
   * Re-saving the only module's row as not completed brings the formation's
   * recomputed progress from 100 down to 50 (the overview stays done).
   */
  lemma UncompletingLowersProgress()
    ensures var f := Formation(1, {7}, {}, None);
      var before := Tables([ItemMark("u", 7, true)], [], []);
      var after := before.(userModules := before.userModules[0 := ItemMark("u", 7, false)]);
      ProgressOf(f, map["overview" := true], "u", before) == 100
      && ProgressOf(f, map["overview" := true], "u", after) == 50
  {
    assert CountDone([ItemMark("u", 7, true)], "u", {7}) == 1;
    assert CountDone([ItemMark("u", 7, false)], "u", {7}) == 0;
  }

  /**
   * A module shared by formations 1 and 2: as written, both callbacks of the
   * save recompute formation 2; bound per iteration, formation 1 is
   * recomputed too.
   */
  method LateBindingExample() returns (asWritten: seq<nat>, bound: seq<nat>)
    ensures asWritten == [2, 2]
    ensures bound == [1, 2]
  {
    var formations := [Formation(1, {7}, {}, None), Formation(2, {7}, {}, None)];
    assert FormationsWithModule(formations, 7) == formations;
    var hub := new Hub(formations, Tables([], [], []));
    var _, _ := hub.OnUserModuleComplete(ItemMark("u", 7, true));
    asWritten := FormationIds(hub.pending);
    var fixedHub := new Hub(formations, Tables([], [], []));
    var _ := fixedHub.OnUserModuleCompleteEach(ItemMark("u", 7, true));
    bound := FormationIds(fixedHub.pending);
  }
}
