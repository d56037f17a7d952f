/**
 * The derived views of the formation serializers: the `HH:MM:SS` duration,
 * the two `tabsCompleted` computations, quiz-submission validation, the final
 * score, and the membership transfer of `EquipeSerializer.update`.
 */
module FormationSerializers {
  import opened Wrappers
  import opened Text
  import opened FormationModels
  import opened Seqs

  // ------------------------------------------------------------ HH:MM:SS

  /** `f"{n:02}"`: two digits at least, the sign counted in the width. */
  function PyPad2(n: int): (s: string)
    ensures n >= 0 ==> s == Pad2(n)
  {
    if n < 0 then "-" + NatToStr(-n) else Pad2(n)
  }

  /**
   * `get_total_estimated_time`, the same text in the read serializer and in
   * the detail serializer. `duration` is the whole number of seconds of the
   * formation's duration, `None` when it is null.
   */
  function FormatHms(duration: Option<int>): string
  {
    if duration.None? || duration.value == 0 then
      "00:00:00"
    else
      var s := duration.value;
      PyPad2(s / 3600) + ":" + Pad2((s % 3600) / 60) + ":" + Pad2(s % 60)
  }

  /** The hours, minutes and seconds shown add up to the duration, with minutes and seconds below 60. */
  lemma HmsDecomposition(s: int)
    ensures 3600 * (s / 3600) + 60 * ((s % 3600) / 60) + s % 60 == s
    ensures 0 <= (s % 3600) / 60 < 60 && 0 <= s % 60 < 60
  {
    var h, r := s / 3600, s % 3600;
    assert s == 3600 * h + r && 0 <= r < 3600;
    var m, sec := r / 60, r % 60;
    assert r == 60 * m + sec && 0 <= sec < 60;
    assert s % 60 == sec by {
      assert s == 60 * (60 * h + m) + sec;
    }
  }

  /** Reading an `HH:MM:SS` text back into seconds; `None` when it is not three digit groups. */
  function ParseHms(text: string): Option<nat>
  {
    var parts := Split(text, ':');
    if |parts| != 3 then None
    else
      match (ParseNat(parts[0]), ParseNat(parts[1]), ParseNat(parts[2]))
      case (Some(h), Some(m), Some(sec)) => Some(3600 * h + 60 * m + sec)
      case _ => None
  }

  lemma {:induction false} DigitsHaveNoColon(s: string)
    requires AllDigits(s)
    ensures ':' !in s
  {
    if ':' in s {
      assert false;
    }
  }

  /** Splitting `a:b:c` on colons, when none of the three parts holds one. */
  lemma SplitThree(a: string, b: string, c: string)
    requires ':' !in a && ':' !in b && ':' !in c
    ensures Split(a + ":" + b + ":" + c, ':') == [a, b, c]
  {
    assert a + ":" + b + ":" + c == a + [':'] + (b + [':'] + c);
    SplitCons(a, b + [':'] + c, ':');
    SplitCons(b, c, ':');
    SplitNoSep(c, ':');
  }

  /** The formatted duration of a non-negative number of seconds reads back as that number. */
  lemma FormatHmsRoundTrip(s: nat)
    ensures ParseHms(FormatHms(Some(s))) == Some(s)
  {
    var h, m, sec := s / 3600, (s % 3600) / 60, s % 60;
    if s == 0 {
      assert FormatHms(Some(s)) == Pad2(h) + ":" + Pad2(m) + ":" + Pad2(sec);
    }
    HmsDecomposition(s);
    ParsePadded(h, m, sec);
  }

  /** Three zero-padded groups read back as their seconds count. */
  lemma ParsePadded(h: nat, m: nat, sec: nat)
    ensures ParseHms(Pad2(h) + ":" + Pad2(m) + ":" + Pad2(sec)) == Some(3600 * h + 60 * m + sec)
  {
    DigitsHaveNoColon(Pad2(h));
    DigitsHaveNoColon(Pad2(m));
    DigitsHaveNoColon(Pad2(sec));
    SplitThree(Pad2(h), Pad2(m), Pad2(sec));
    Pad2Parses(h);
    Pad2Parses(m);
    Pad2Parses(sec);
  }

  /** Below 100 hours the text is exactly `HH:MM:SS`, eight characters. */
  lemma FormatHmsWidth(s: nat)
    requires s < 360000
    ensures |FormatHms(Some(s))| == 8
  {
    HmsDecomposition(s);
  }

  // ------------------------------------------------------ answer validation

  /** One submitted answer (`QuizAnswerSerializer`). */
  datatype Answer = Answer(questionId: int, selectedOptionIds: seq<int>, textResponse: Option<string>)

  /** The validation message naming a question that is not in the quiz. */
  function NotInQuizMessage(id: int): string
  {
    "Question " + IntToStr(id) + " n'appartient pas \U{E0} ce quiz."
  }

  /**
   * `QuizSubmitSerializer.validate_answers`: the answers unchanged when every
   * question id is one of the quiz's questions, else the error for the first
   * answer that is not.
   */
  function ValidateAnswers(validIds: set<int>, answers: seq<Answer>): (r: Result<seq<Answer>, string>)
    ensures r.Ok? <==> forall k :: 0 <= k < |answers| ==> answers[k].questionId in validIds
    ensures r.Ok? ==> r.value == answers
    ensures r.Err? ==>
      exists k :: (0 <= k < |answers| && answers[k].questionId !in validIds
        && r.error == NotInQuizMessage(answers[k].questionId)
        && forall j :: 0 <= j < k ==> answers[j].questionId in validIds)
  {
    if |answers| == 0 then
      Ok(answers)
    else if answers[0].questionId !in validIds then
      Err(NotInQuizMessage(answers[0].questionId))
    else
      match ValidateAnswers(validIds, answers[1..])
      case Ok(_) =>
        assert forall k :: 1 <= k < |answers| ==> answers[k] == answers[1..][k - 1];
        Ok(answers)
      case Err(e) =>
        FirstInvalidShift(validIds, answers, e);
        Err(e)
  }

  /** The first answer of the tail outside the quiz is, one place later, the first of the whole list. */
  lemma FirstInvalidShift(validIds: set<int>, answers: seq<Answer>, e: string)
    requires |answers| > 0 && answers[0].questionId in validIds
    requires exists k :: (0 <= k < |answers[1..]| && answers[1..][k].questionId !in validIds
        && e == NotInQuizMessage(answers[1..][k].questionId)
        && forall j :: 0 <= j < k ==> answers[1..][j].questionId in validIds)
    ensures exists k :: (0 <= k < |answers| && answers[k].questionId !in validIds
        && e == NotInQuizMessage(answers[k].questionId)
        && forall j :: 0 <= j < k ==> answers[j].questionId in validIds)
  {
    var tail := answers[1..];
    var k :| 0 <= k < |tail| && tail[k].questionId !in validIds
      && e == NotInQuizMessage(tail[k].questionId)
      && forall j :: 0 <= j < k ==> tail[j].questionId in validIds;
    assert answers[k + 1] == tail[k];
    assert forall j :: 1 <= j < k + 1 ==> answers[j] == tail[j - 1];
  }

  // -------------------------------------------------------- tabsCompleted

  /** The four tab flags of `FormationDetailSerializer.get_tabsCompleted`. */
  datatype TabFlags = TabFlags(overview: bool, modules: bool, resources: bool, quiz: bool)

  /** `get_quiz_done`: the user has a completed UserQuiz row for the formation's quiz. */
  predicate QuizDone(f: Formation, user: UserId, t: Tables)
  {
    f.quiz.Some?
    && exists k :: (0 <= k < |t.userQuizzes| && t.userQuizzes[k].user == user
         && t.userQuizzes[k].quiz == f.quiz.value && t.userQuizzes[k].completed)
  }

  /**
   * `FormationDetailSerializer.get_tabsCompleted`: a content tab is done when
   * the formation has that content and the count of flagged rows reaches the
   * number of items.
   */
  function DetailTabsCompleted(f: Formation, steps: map<string, bool>, user: UserId, t: Tables): TabFlags
  {
    TabFlags(
      OverviewDone(steps),
      |f.modules| > 0 && CountDone(t.userModules, user, f.modules) == |f.modules|,
      |f.ressources| > 0 && CountDone(t.userResources, user, f.ressources) == |f.ressources|,
      QuizDone(f, user, t))
  }

  /**
   * With one row per (user, item), the modules tab is done iff there is at
   * least one module and every module is completed, and likewise for the
   * resources; so a formation without modules never has the modules tab done.
   */
  lemma DetailTabsMeaning(f: Formation, steps: map<string, bool>, user: UserId, t: Tables)
    requires UniqueTables(t)
    ensures var r := DetailTabsCompleted(f, steps, user, t);
      (r.modules <==> |f.modules| > 0 && forall x :: x in f.modules ==> HasDone(t.userModules, user, x))
      && (r.resources <==> |f.ressources| > 0 && forall x :: x in f.ressources ==> HasDone(t.userResources, user, x))
      && (r.overview <==> OverviewDone(steps))
  {
    CountDoneBounds(t.userModules, user, f.modules);
    CountDoneBounds(t.userResources, user, f.ressources);
  }

  /** Without the uniqueness, two rows for one module mark a two-module tab done with one module left. */
  lemma DuplicateRowCompletesModulesTab()
    ensures var t := Tables([ItemMark("u", 1, true), ItemMark("u", 1, true)], [], []);
      DetailTabsCompleted(Formation(9, {1, 2}, {}, None), map[], "u", t).modules
      && !HasDone(t.userModules, "u", 2)
  {
    var t := Tables([ItemMark("u", 1, true), ItemMark("u", 1, true)], [], []);
    assert CountDone(t.userModules, "u", {1, 2}) == 2;
    assert |{1, 2}| == 2 by {
      assert {1, 2} == {1} + {2};
    }
  }

  /**
   * `FormationProgressSerializer.get_tabsCompleted`: `{}` without a user;
   * otherwise `overview`, plus one key per kind of content the formation has.
   * `steps` are the completed steps of the user's record (empty when
   * `get_or_create` has just created it).
   */
  function ProgressTabsCompleted(f: Formation, user: Option<UserId>, steps: map<string, bool>, t: Tables): (r: map<string, bool>)
  {
    if user.None? then
      map[]
    else
      var u := user.value;
      var withModules := if |f.modules| > 0
        then map["overview" := OverviewDone(steps), "modules" := CountDone(t.userModules, u, f.modules) == |f.modules|]
        else map["overview" := OverviewDone(steps)];
      var withResources := if |f.ressources| > 0
        then withModules["resources" := CountDone(t.userResources, u, f.ressources) == |f.ressources|]
        else withModules;
      if f.quiz.Some? then withResources["quiz" := QuizDone(f, u, t)] else withResources
  }

  /**
   * The keys of the progress view: none without a user; otherwise
   * `overview` always and each content key exactly when that content exists.
   */
  lemma ProgressTabsKeys(f: Formation, user: Option<UserId>, steps: map<string, bool>, t: Tables)
    ensures user.None? ==> ProgressTabsCompleted(f, user, steps, t) == map[]
    ensures user.Some? ==>
      (ProgressTabsCompleted(f, user, steps, t).Keys ==
        {"overview"}
        + (if |f.modules| > 0 then {"modules"} else {})
        + (if |f.ressources| > 0 then {"resources"} else {})
        + (if f.quiz.Some? then {"quiz"} else {}))
  {
  }

  /**
   * The two computations agree: every key of the progress view holds the
   * detail view's flag, and a content key is missing only where the detail
   * view's flag is false for lack of that content.
   */
  lemma ProgressTabsAgreeWithDetail(f: Formation, user: UserId, steps: map<string, bool>, t: Tables)
    ensures var p := ProgressTabsCompleted(f, Some(user), steps, t);
      var d := DetailTabsCompleted(f, steps, user, t);
      "overview" in p && p["overview"] == d.overview
      && ("modules" in p ==> p["modules"] == d.modules) && ("modules" !in p ==> !d.modules)
      && ("resources" in p ==> p["resources"] == d.resources) && ("resources" !in p ==> !d.resources)
      && ("quiz" in p ==> p["quiz"] == d.quiz) && ("quiz" !in p ==> !d.quiz)
  {
  }

  // ------------------------------------------------------------ final score

  /** `score_final`: the user's score, the quiz total and the percentage. */
  datatype ScoreFinal = ScoreFinal(score: nat, total: nat, percentage: nat)

  /** `Sum('point')` over the quiz's questions, 0 for none (where the aggregate is null). */
  function SumPoints(points: seq<nat>): nat
  {
    if |points| == 0 then 0 else points[0] + SumPoints(points[1..])
  }

  /**
   * `QuizResultSerializer.get_score_final`: the total is the sum of the
   * question points, or 100 when that is null or 0; the percentage is the
   * truncated `score / total * 100`, computed exactly.
   */
  function ScoreFinalOf(score: nat, points: seq<nat>): (r: ScoreFinal)
    ensures r.score == score && r.total > 0
    ensures SumPoints(points) > 0 ==> r.total == SumPoints(points)
    ensures SumPoints(points) == 0 ==> r.total == 100
  {
    var sum := SumPoints(points);
    var total := if sum == 0 then 100 else sum;
    ScoreFinal(score, total, if total > 0 then score * 100 / total else 0)
  }

  /**
   * The percentage is the largest whole percentage not above the score's
   * share of the total; it is at most 100 when the score does not exceed the
   * total, and 100 exactly when the score is the total.
   */
  lemma ScorePercentageMeaning(score: nat, points: seq<nat>)
    ensures var r := ScoreFinalOf(score, points);
      r.percentage * r.total <= score * 100 < (r.percentage + 1) * r.total
    ensures var r := ScoreFinalOf(score, points);
      score <= r.total ==> (r.percentage <= 100 && (r.percentage == 100 <==> score == r.total))
  {
    var t := ScoreFinalOf(score, points).total;
    FloorQuotient(score * 100, t);
    if score <= t {
      DivBelow(score, t);
    }
  }

  /** The truncated quotient is the largest multiple of the divisor not above the dividend. */
  lemma FloorQuotient(a: nat, t: nat)
    requires t > 0
    ensures (a / t) * t <= a < (a / t + 1) * t
  {
    var q, r := a / t, a % t;
    assert a == q * t + r && 0 <= r < t;
    assert (q + 1) * t == q * t + t;
  }

  /** With no questions, a score of 20 is read against the default total 100. */
  lemma ScoreWithoutQuestions()
    ensures ScoreFinalOf(20, []) == ScoreFinal(20, 100, 20)
  {
  }

  // --------------------------------------------- team membership transfer

  /** The teams with `users` removed from every member list (`user.equipes.clear()`). */
  function RemoveUsers(teams: seq<Equipe>, users: set<UserId>): (r: seq<Equipe>)
    ensures |r| == |teams|
    ensures forall k :: 0 <= k < |teams| ==>
      r[k] == teams[k].(assignedUsers := teams[k].assignedUsers - users)
  {
    seq(|teams|, k requires 0 <= k < |teams| => teams[k].(assignedUsers := teams[k].assignedUsers - users))
  }

  /**
   * The teams after `update` with `assigned_users`: the listed users leave
   * every team, then team `idx` gets exactly the listed users.
   */
  function Transferred(teams: seq<Equipe>, idx: nat, users: set<UserId>): seq<Equipe>
    requires idx < |teams|
  {
    RemoveUsers(teams, users)[idx := teams[idx].(assignedUsers := users)]
  }

  /**
   * `ModelSerializer.update` on the fields left after `assigned_users` is
   * popped: a given `name` is written, a given `domains` list replaces the
   * team's domains, and an absent field (a partial update) is kept.
   */
  function WithFields(team: Equipe, name: Option<string>, domains: Option<set<nat>>): (r: Equipe)
    ensures r.id == team.id && r.assignedUsers == team.assignedUsers
    ensures r.name == (if name.Some? then name.value else team.name)
    ensures r.domains == (if domains.Some? then domains.value else team.domains)
  {
    team.(name := if name.Some? then name.value else team.name,
          domains := if domains.Some? then domains.value else team.domains)
  }

  /**
   * After the transfer, team `idx` holds exactly the listed users, each
   * listed user is in that team and in no other, and every other user keeps
   * the memberships they had outside team `idx`.
   */
  lemma TransferredMembership(teams: seq<Equipe>, idx: nat, users: set<UserId>, u: UserId)
    requires idx < |teams|
    ensures var r := Transferred(teams, idx, users);
      |r| == |teams| && r[idx].assignedUsers == users
      && (u in users ==> forall k :: 0 <= k < |r| ==> (u in r[k].assignedUsers <==> k == idx))
      && (u !in users ==> forall k :: 0 <= k < |r| && k != idx ==>
            (u in r[k].assignedUsers <==> u in teams[k].assignedUsers))
      && (u !in users ==> u !in r[idx].assignedUsers)
  {
  }

  /** No user on two teams: the membership rule the transfer maintains. */
  predicate OneTeamPerUser(teams: seq<Equipe>)
  {
    forall i, j, u :: 0 <= i < j < |teams| && u in teams[i].assignedUsers ==> u !in teams[j].assignedUsers
  }

  lemma TransferKeepsOneTeamPerUser(teams: seq<Equipe>, idx: nat, users: set<UserId>)
    requires idx < |teams| && OneTeamPerUser(teams)
    ensures OneTeamPerUser(Transferred(teams, idx, users))
  {
    var r := Transferred(teams, idx, users);
    forall i, j, u | 0 <= i < j < |r| && u in r[i].assignedUsers ensures u !in r[j].assignedUsers {
      if i == idx {
        assert u in users;
      } else if j == idx {
        assert u !in users;
      } else {
        assert u in teams[i].assignedUsers;
      }
    }
  }

  /** Removing two sets of users one after the other removes their union. */
  lemma RemoveUsersTwice(teams: seq<Equipe>, a: set<UserId>, b: set<UserId>)
    ensures RemoveUsers(RemoveUsers(teams, a), b) == RemoveUsers(teams, a + b)
  {
    var l, r := RemoveUsers(RemoveUsers(teams, a), b), RemoveUsers(teams, a + b);
    forall k | 0 <= k < |teams| ensures l[k] == r[k] {
      assert teams[k].assignedUsers - a - b == teams[k].assignedUsers - (a + b);
    }
  }

  /** The team table that `EquipeSerializer.update` edits. */
  class EquipeStore {
    var teams: seq<Equipe>

    constructor (teams: seq<Equipe>)
      ensures this.teams == teams
    {
      this.teams := teams;
    }

    /**
     * `EquipeSerializer.update` on team `idx`: the simple fields and the
     * domains first (`super().update`); then, when `assigned_users` is given,
     * every listed user is taken off all teams, one at a time, and the team's
     * members are set to the list. `None` stands for a field the request
     * leaves out.
     */
    method Update(idx: nat, name: Option<string>, assignedUsers: Option<seq<UserId>>, domains: Option<set<nat>>)
      requires idx < |teams|
      modifies this
      ensures var base := old(teams)[idx := WithFields(old(teams)[idx], name, domains)];
        assignedUsers.None? ==> teams == base
      ensures var base := old(teams)[idx := WithFields(old(teams)[idx], name, domains)];
        assignedUsers.Some? ==> teams == Transferred(base, idx, SetOf(assignedUsers.value))
    {
      teams := teams[idx := WithFields(teams[idx], name, domains)];
      if assignedUsers.Some? {
        var list := assignedUsers.value;
        ghost var start := teams;
        assert SetOf(list[..0]) == {};
        assert forall k :: 0 <= k < |start| ==> start[k].(assignedUsers := start[k].assignedUsers - {}) == start[k];
        var i := 0;
        while i < |list|
          invariant 0 <= i <= |list| && |teams| == |start|
          invariant teams == RemoveUsers(start, SetOf(list[..i]))
        {
          SetOfSnoc(list, i);
          RemoveUsersTwice(start, SetOf(list[..i]), {list[i]});
          teams := RemoveUsers(teams, {list[i]});
          i := i + 1;
        }
        assert list[..i] == list;
        teams := teams[idx := teams[idx].(assignedUsers := SetOf(list))];
      }
    }
  }
}
