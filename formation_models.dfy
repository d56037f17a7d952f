/**
 * The training models of the backend: team-gated access to a resource, the
 * keyword check of an image/text question and the progress aggregate that a
 * UserFormation record keeps for one user and one formation.
 *
 * The ORM tables are in-memory values: a formation lists the ids of its
 * modules and resources, and the per-user rows (UserModule, UserResource,
 * UserQuiz) are sequences of records. No uniqueness constraint is declared on
 * those tables, so a sequence may hold several rows for one (user, item).
 */
module FormationModels {
  import opened Wrappers
  import opened Text

  /** A user's primary key. */
  type UserId = string

  /** The requesting user; `role` is `None` when the user object has no `role` attribute. */
  datatype User = User(id: UserId, role: Option<string>)

  /** The roles that read confidential resources without a team check. */
  const ALLOWED_MANAGER_ROLES: seq<string> := ["TL1", "TL2"]

  predicate IsManagerRole(role: Option<string>)
  {
    role.Some? && role.value in ALLOWED_MANAGER_ROLES
  }

  /** A team, the users assigned to it and the ids of its domains. */
  datatype Equipe = Equipe(id: nat, name: string, assignedUsers: set<UserId>, domains: set<nat>)

  /**
   * `allowed_equipes.filter(assigned_users=user).exists()`: the team table is
   * scanned for a team that is allowed and lists the user.
   */
  function AllowedTeamListsUser(teams: seq<Equipe>, allowed: set<nat>, user: UserId): (r: bool)
    ensures r <==> exists k :: 0 <= k < |teams| && teams[k].id in allowed && user in teams[k].assignedUsers
  {
    if |teams| == 0 then false
    else if teams[0].id in allowed && user in teams[0].assignedUsers then true
    else
      var r := AllowedTeamListsUser(teams[1..], allowed, user);
      assert forall k :: 1 <= k < |teams| ==> teams[k] == teams[1..][k - 1];
      r
  }

  /** A resource of a formation, with the team allowlist that guards it when confidential. */
  class Resource {
    /** The primary key; 0 while the resource has not been saved (Django's `None`). */
    var pk: nat
    var name: string
    var confidentiel: bool
    /** The ids of the teams in `allowed_equipes`. */
    var allowedEquipes: set<nat>

    constructor (name: string, confidentiel: bool, allowedEquipes: set<nat>)
      ensures this.pk == 0 && this.name == name && this.confidentiel == confidentiel
      ensures this.allowedEquipes == allowedEquipes
    {
      this.pk := 0;
      this.name := name;
      this.confidentiel := confidentiel;
      this.allowedEquipes := allowedEquipes;
    }

    /**
     * `user_has_access`: a public resource is open to everybody; a confidential
     * one to the manager roles, and to the members of an allowed team.
     */
    function UserHasAccess(user: User, teams: seq<Equipe>): (r: bool)
      reads this
      ensures !confidentiel ==> r
      ensures confidentiel && IsManagerRole(user.role) ==> r
      ensures confidentiel && !IsManagerRole(user.role) ==>
        (r <==> exists k :: 0 <= k < |teams| && teams[k].id in allowedEquipes && user.id in teams[k].assignedUsers)
    {
      if !confidentiel then true
      else if IsManagerRole(user.role) then true
      else AllowedTeamListsUser(teams, allowedEquipes, user.id)
    }

    /**
     * `clean`: a saved resource that is not confidential loses its teams; an
     * unsaved or confidential one is left as it is. Nobody's access changes.
     */
    method Clean()
      modifies this
      ensures old(!confidentiel && pk != 0) ==> allowedEquipes == {}
      ensures old(confidentiel || pk == 0) ==> allowedEquipes == old(allowedEquipes)
      ensures pk == old(pk) && name == old(name) && confidentiel == old(confidentiel)
      ensures forall u: User, teams: seq<Equipe> :: UserHasAccess(u, teams) == old(UserHasAccess(u, teams))
    {
      if !confidentiel && pk != 0 {
        allowedEquipes := {};
      }
    }
  }

  // ------------------------------------------------------------------ questions

  const IMAGE_TEXT: string := "image_text"

  /** A quiz question; `qtype` is the `type` column, one of the declared choices. */
  datatype Question = Question(texte: string, qtype: string, point: nat, correctKeywords: seq<string>)

  /** `all(kw.lower() in answer for kw in keywords)`, evaluated keyword by keyword. */
  function AllKeywordsIn(keywords: seq<string>, answer: string): (r: bool)
    ensures r <==> forall k :: 0 <= k < |keywords| ==> Contains(answer, Lower(keywords[k]))
  {
    if |keywords| == 0 then true
    else
      var r := Contains(answer, Lower(keywords[0])) && AllKeywordsIn(keywords[1..], answer);
      assert forall k :: 1 <= k < |keywords| ==> keywords[k] == keywords[1..][k - 1];
      r
  }

  /**
   * `check_answer`: only an `image_text` question with a non-empty answer can
   * succeed, and it does when every keyword, lower-cased, occurs in the
   * lower-cased answer.
   */
  function CheckAnswer(q: Question, userText: string): (r: bool)
    ensures q.qtype != IMAGE_TEXT ==> !r
    ensures userText == "" ==> !r
    ensures q.qtype == IMAGE_TEXT && userText != "" ==>
      (r <==> forall k :: 0 <= k < |q.correctKeywords| ==> Contains(Lower(userText), Lower(q.correctKeywords[k])))
  {
    if q.qtype != IMAGE_TEXT then false
    else if |userText| == 0 then false
    else AllKeywordsIn(q.correctKeywords, Lower(userText))
  }

  lemma LowerIdempotent(s: string)
    ensures Lower(Lower(s)) == Lower(s)
  {
    assert forall k :: 0 <= k < |s| ==> LowerChar(LowerChar(s[k])) == LowerChar(s[k]);
  }

  /** The answer's letter case never matters. */
  lemma CheckAnswerIgnoresCase(q: Question, userText: string)
    ensures CheckAnswer(q, Lower(userText)) == CheckAnswer(q, userText)
  {
    LowerIdempotent(userText);
  }

  /** A question with no keywords accepts every non-empty answer to an image/text question. */
  lemma {:induction false} NoKeywordsAcceptsAnyText(q: Question, userText: string)
    requires q.qtype == IMAGE_TEXT && q.correctKeywords == [] && userText != ""
    ensures CheckAnswer(q, userText)
  {
  }

  // ------------------------------------------------------------ progress rows

  /** A formation's content: module ids, resource ids and its quiz, if any. */
  datatype Formation = Formation(id: nat, modules: set<nat>, ressources: set<nat>, quiz: Option<nat>)

  /**
   * A UserModule row (`done` is `completed`) or a UserResource row (`done` is
   * `read`): both tables have this shape.
   */
  datatype ItemMark = ItemMark(user: UserId, item: nat, done: bool)

  datatype UserQuiz = UserQuiz(user: UserId, quiz: nat, completed: bool, score: nat)

  /** The per-user tables that the progress aggregate reads. */
  datatype Tables = Tables(userModules: seq<ItemMark>, userResources: seq<ItemMark>, userQuizzes: seq<UserQuiz>)

  predicate Marks(m: ItemMark, user: UserId, items: set<nat>)
  {
    m.user == user && m.item in items && m.done
  }

  /** `filter(user=…, item__in=items, flag=True).count()`. */
  function CountDone(rows: seq<ItemMark>, user: UserId, items: set<nat>): (n: nat)
    ensures n <= |rows|
  {
    if |rows| == 0 then 0
    else (if Marks(rows[0], user, items) then 1 else 0) + CountDone(rows[1..], user, items)
  }

  /** `UserQuiz.objects.filter(user=…, quiz=…, completed=True).count()`. */
  function CountQuizDone(rows: seq<UserQuiz>, user: UserId, quiz: nat): (n: nat)
    ensures n <= |rows|
  {
    if |rows| == 0 then 0
    else
      (if rows[0].user == user && rows[0].quiz == quiz && rows[0].completed then 1 else 0)
        + CountQuizDone(rows[1..], user, quiz)
  }

  /** At most one row per (user, item). */
  predicate UniqueMarks(rows: seq<ItemMark>)
  {
    forall i, j :: 0 <= i < j < |rows| && rows[i].user == rows[j].user ==> rows[i].item != rows[j].item
  }

  /** At most one UserQuiz row per (user, quiz). */
  predicate UniqueQuizRows(rows: seq<UserQuiz>)
  {
    forall i, j :: 0 <= i < j < |rows| && rows[i].user == rows[j].user ==> rows[i].quiz != rows[j].quiz
  }

  predicate UniqueTables(t: Tables)
  {
    UniqueMarks(t.userModules) && UniqueMarks(t.userResources) && UniqueQuizRows(t.userQuizzes)
  }

  /** The user has a flagged row for `item`. */
  predicate HasDone(rows: seq<ItemMark>, user: UserId, item: nat)
  {
    exists k :: 0 <= k < |rows| && rows[k] == ItemMark(user, item, true)
  }

  /** The items of `items` for which the user has a flagged row. */
  function DoneItems(rows: seq<ItemMark>, user: UserId, items: set<nat>): (d: set<nat>)
    ensures d <= items
  {
    if |rows| == 0 then {}
    else (if Marks(rows[0], user, items) then {rows[0].item} else {}) + DoneItems(rows[1..], user, items)
  }

  lemma {:induction false} DoneItemsMembers(rows: seq<ItemMark>, user: UserId, items: set<nat>, x: nat)
    ensures x in DoneItems(rows, user, items) <==> x in items && HasDone(rows, user, x)
  {
    if |rows| > 0 {
      DoneItemsMembers(rows[1..], user, items, x);
      if HasDone(rows[1..], user, x) {
        var k :| 0 <= k < |rows[1..]| && rows[1..][k] == ItemMark(user, x, true);
        assert rows[k + 1] == ItemMark(user, x, true);
      }
      if HasDone(rows, user, x) && rows[0] != ItemMark(user, x, true) {
        var k :| 0 <= k < |rows| && rows[k] == ItemMark(user, x, true);
        assert k > 0 && rows[1..][k - 1] == ItemMark(user, x, true);
      }
    }
  }

  /** With unique rows, the count is the number of distinct items done. */
  lemma {:induction false} CountDoneDistinct(rows: seq<ItemMark>, user: UserId, items: set<nat>)
    requires UniqueMarks(rows)
    ensures CountDone(rows, user, items) == |DoneItems(rows, user, items)|
  {
    if |rows| > 0 {
      var tail := rows[1..];
      assert UniqueMarks(tail) by {
        forall i, j | 0 <= i < j < |tail| && tail[i].user == tail[j].user ensures tail[i].item != tail[j].item {
          assert tail[i] == rows[i + 1] && tail[j] == rows[j + 1];
        }
      }
      CountDoneDistinct(tail, user, items);
      if Marks(rows[0], user, items) {
        DoneItemsMembers(tail, user, items, rows[0].item);
      }
    }
  }

  /** A subset is no larger, and only the set itself has the same size. */
  lemma {:induction false} SubsetCard<T>(a: set<T>, b: set<T>)
    requires a <= b
    ensures |a| <= |b|
    ensures |a| == |b| ==> a == b
    decreases |b|
  {
    if b != {} {
      var x :| x in b;
      SubsetCard(a - {x}, b - {x});
      if x in a {
        assert a - {x} + {x} == a;
      } else {
        assert a - {x} == a;
      }
    }
  }

  /** With unique rows, every listed item is done iff the count reaches the number of items. */
  lemma CountDoneBounds(rows: seq<ItemMark>, user: UserId, items: set<nat>)
    requires UniqueMarks(rows)
    ensures CountDone(rows, user, items) <= |items|
    ensures CountDone(rows, user, items) == |items| <==> forall x :: x in items ==> HasDone(rows, user, x)
  {
    CountDoneDistinct(rows, user, items);
    var d := DoneItems(rows, user, items);
    SubsetCard(d, items);
    if |d| == |items| {
      assert d == items;
      forall x | x in items ensures HasDone(rows, user, x) {
        DoneItemsMembers(rows, user, items, x);
      }
    }
    if forall x :: x in items ==> HasDone(rows, user, x) {
      forall x | x in items ensures x in d {
        DoneItemsMembers(rows, user, items, x);
      }
      assert d == items;
    }
  }

  /** With unique quiz rows, the count is 1 if the quiz is completed and 0 otherwise. */
  lemma {:induction false} CountQuizDoneBounds(rows: seq<UserQuiz>, user: UserId, quiz: nat)
    requires UniqueQuizRows(rows)
    ensures CountQuizDone(rows, user, quiz) <= 1
    ensures CountQuizDone(rows, user, quiz) == 1 <==>
      exists k :: 0 <= k < |rows| && rows[k].user == user && rows[k].quiz == quiz && rows[k].completed
  {
    if |rows| > 0 {
      var tail := rows[1..];
      assert UniqueQuizRows(tail) by {
        forall i, j | 0 <= i < j < |tail| && tail[i].user == tail[j].user ensures tail[i].quiz != tail[j].quiz {
          assert tail[i] == rows[i + 1] && tail[j] == rows[j + 1];
        }
      }
      CountQuizDoneBounds(tail, user, quiz);
      forall k | 0 < k < |rows| && rows[k].user == user && rows[k].quiz == quiz && rows[k].completed
        ensures CountQuizDone(tail, user, quiz) == 1
      {
        assert tail[k - 1] == rows[k];
      }
    }
  }

  /** A row for an item outside the formation never changes the count. */
  lemma {:induction false} ForeignRowIgnored(rows: seq<ItemMark>, r: ItemMark, user: UserId, items: set<nat>)
    requires r.item !in items
    ensures CountDone(rows + [r], user, items) == CountDone(rows, user, items)
  {
    if |rows| > 0 {
      assert (rows + [r])[1..] == rows[1..] + [r];
      ForeignRowIgnored(rows[1..], r, user, items);
    }
  }

  // ---------------------------------------------------------------- progress

  datatype Status = Nouvelle | EnCours | Terminee

  /** The number of items: the overview, every module, every resource and the quiz. */
  function TotalItems(f: Formation): (t: nat)
    ensures t >= 1
    ensures t == 1 + |f.modules| + |f.ressources| + (if f.quiz.Some? then 1 else 0)
  {
    1 + |f.modules| + |f.ressources| + (if f.quiz.Some? then 1 else 0)
  }

  predicate OverviewDone(steps: map<string, bool>)
  {
    "overview" in steps && steps["overview"]
  }

  function QuizTerm(f: Formation, user: UserId, t: Tables): nat
  {
    if f.quiz.Some? then CountQuizDone(t.userQuizzes, user, f.quiz.value) else 0
  }

  /** The completed items: overview, completed modules, read resources and completed quiz rows. */
  function CompletedItems(f: Formation, steps: map<string, bool>, user: UserId, t: Tables): nat
  {
    (if OverviewDone(steps) then 1 else 0)
      + CountDone(t.userModules, user, f.modules)
      + CountDone(t.userResources, user, f.ressources)
      + QuizTerm(f, user, t)
  }

  /** `int(completed / total * 100)`, in exact arithmetic. */
  function ProgressOf(f: Formation, steps: map<string, bool>, user: UserId, t: Tables): nat
  {
    CompletedItems(f, steps, user, t) * 100 / TotalItems(f)
  }

  /** The status that `update_progress` derives from a percentage. */
  function StatusOf(progress: nat): Status
  {
    if progress == 100 then Terminee else if progress > 0 then EnCours else Nouvelle
  }

  /** The progress record of one user in one formation. */
  class UserFormation {
    const user: UserId
    const formation: nat
    var progress: nat
    var status: Status
    /** The JSON `completed_steps`, values read for their truth. */
    var completedSteps: map<string, bool>

    constructor (user: UserId, formation: nat)
      ensures this.user == user && this.formation == formation
      ensures progress == 0 && status == Nouvelle && completedSteps == map[]
    {
      this.user := user;
      this.formation := formation;
      progress := 0;
      status := Nouvelle;
      completedSteps := map[];
    }

    /**
     * `update_progress`: recounts the user's completed items of this
     * formation and derives the percentage and the status from them. The new
     * state depends only on the rows and on `completedSteps`, so a second
     * call over unchanged rows changes nothing.
     */
    method UpdateProgress(f: Formation, t: Tables)
      requires f.id == formation
      modifies this
      ensures progress == ProgressOf(f, completedSteps, user, t)
      ensures status == StatusOf(progress)
      ensures completedSteps == old(completedSteps)
    {
      var totalModules := |f.modules|;
      var totalResources := |f.ressources|;
      var hasQuiz := if f.quiz.Some? then 1 else 0;
      var overviewItem := 1;
      var totalItems := overviewItem + totalModules + totalResources + hasQuiz;
      if totalItems == 0 {
        assert false;
      }
      var completedOverview := if OverviewDone(completedSteps) then 1 else 0;
      var completedModules := CountDone(t.userModules, user, f.modules);
      var completedResources := CountDone(t.userResources, user, f.ressources);
      var quizCompleted := 0;
      if hasQuiz == 1 {
        quizCompleted := CountQuizDone(t.userQuizzes, user, f.quiz.value);
      }
      var completedItems := completedOverview + completedModules + completedResources + quizCompleted;
      assert totalItems == TotalItems(f) && completedItems == CompletedItems(f, completedSteps, user, t);
      progress := completedItems * 100 / totalItems;
      if progress == 100 {
        status := Terminee;
      } else if progress > 0 {
        status := EnCours;
      } else {
        status := Nouvelle;
      }
    }
  }

  /** Three-way reading of the status. */
  lemma StatusOfProgress(p: nat)
    ensures StatusOf(p) == Terminee <==> p == 100
    ensures StatusOf(p) == EnCours <==> 0 < p != 100
    ensures StatusOf(p) == Nouvelle <==> p == 0
  {
  }

  lemma DivBelow(c: nat, t: nat)
    requires 0 < t && c <= t
    ensures c * 100 / t <= 100
    ensures c * 100 / t == 100 <==> c == t
  {
    if c < t {
      assert c * 100 <= t * 100 - 100;
      assert c * 100 < t * 100;
    }
  }

  /** Without duplicate rows the completed items never exceed the total. */
  lemma CompletedAtMostTotal(f: Formation, steps: map<string, bool>, user: UserId, t: Tables)
    requires UniqueTables(t)
    ensures CompletedItems(f, steps, user, t) <= TotalItems(f)
  {
    CountDoneBounds(t.userModules, user, f.modules);
    CountDoneBounds(t.userResources, user, f.ressources);
    if f.quiz.Some? {
      CountQuizDoneBounds(t.userQuizzes, user, f.quiz.value);
    }
  }

  /** Without duplicate rows the percentage lies in 0..100. */
  lemma ProgressAtMost100(f: Formation, steps: map<string, bool>, user: UserId, t: Tables)
    requires UniqueTables(t)
    ensures ProgressOf(f, steps, user, t) <= 100
  {
    CompletedAtMostTotal(f, steps, user, t);
    DivBelow(CompletedItems(f, steps, user, t), TotalItems(f));
  }

  /**
   * Without duplicate rows, 100 % means everything is done: the overview,
   * every module, every resource and the quiz, when there is one.
   */
  lemma ProgressFullIff(f: Formation, steps: map<string, bool>, user: UserId, t: Tables)
    requires UniqueTables(t)
    ensures ProgressOf(f, steps, user, t) == 100 <==>
      OverviewDone(steps)
      && (forall m :: m in f.modules ==> HasDone(t.userModules, user, m))
      && (forall r :: r in f.ressources ==> HasDone(t.userResources, user, r))
      && (f.quiz.Some? ==>
            (exists k :: 0 <= k < |t.userQuizzes| && t.userQuizzes[k].user == user
               && t.userQuizzes[k].quiz == f.quiz.value && t.userQuizzes[k].completed))
  {
    CountDoneBounds(t.userModules, user, f.modules);
    CountDoneBounds(t.userResources, user, f.ressources);
    if f.quiz.Some? {
      CountQuizDoneBounds(t.userQuizzes, user, f.quiz.value);
    }
    DivBelow(CompletedItems(f, steps, user, t), TotalItems(f));
  }

  /**
   * Duplicate rows break the bound: two completed rows for the only module,
   * plus the overview, give 150 % and the status `en_cours`.
   */
  lemma DuplicateRowsExceed100()
    ensures var f := Formation(1, {7}, {}, None);
      var t := Tables([ItemMark("u", 7, true), ItemMark("u", 7, true)], [], []);
      ProgressOf(f, map["overview" := true], "u", t) == 150
      && StatusOf(ProgressOf(f, map["overview" := true], "u", t)) == EnCours
  {
    var t := Tables([ItemMark("u", 7, true), ItemMark("u", 7, true)], [], []);
    assert CountDone(t.userModules, "u", {7}) == 2;
  }

  /** The overview and three of four modules make 80 %. */
  lemma FourOfFive()
    ensures var f := Formation(1, {1, 2, 3, 4}, {}, None);
      var t := Tables([ItemMark("u", 1, true), ItemMark("u", 2, true), ItemMark("u", 3, true), ItemMark("u", 4, false)], [], []);
      ProgressOf(f, map["overview" := true], "u", t) == 80
  {
    var rows := [ItemMark("u", 1, true), ItemMark("u", 2, true), ItemMark("u", 3, true), ItemMark("u", 4, false)];
    assert CountDone(rows, "u", {1, 2, 3, 4}) == 3;
    assert |{1, 2, 3, 4}| == 4;
  }
}
