/**
 * The manager's per-formation progress page: the team and collaborator
 * filters, the query parameters they produce, and the display rules of
 * the quiz results.
 */
module TrainingProgress {
  import opened Wrappers
  import opened Text
  import opened Seqs
  import FormationSerializers
  import JsMath

  datatype Collaborator = Collaborator(matricule: string, equipeId: Option<int>)

  /** `c.equipe_id === parseInt(teamId, 10)`; a `NaN` team id matches nobody. */
  predicate InTeam(c: Collaborator, teamId: string)
  {
    var v := ParseIntPrefix(teamId);
    v.Some? && c.equipeId == Some(v.value)
  }

  /** The members of team `teamId`, in list order. */
  function MembersOf(collaborators: seq<Collaborator>, teamId: string): (r: seq<Collaborator>)
    ensures |r| <= |collaborators|
    ensures forall k :: 0 <= k < |r| ==> r[k] in collaborators && InTeam(r[k], teamId)
    ensures forall k :: 0 <= k < |collaborators| && InTeam(collaborators[k], teamId) ==> collaborators[k] in r
    ensures SubsequenceOf(r, collaborators)
  {
    if |collaborators| == 0 then []
    else
      var rest := MembersOf(collaborators[1..], teamId);
      assert forall k :: 1 <= k < |collaborators| ==> collaborators[k] == collaborators[1..][k - 1];
      if InTeam(collaborators[0], teamId) then
        assert ([collaborators[0]] + rest)[1..] == rest;
        [collaborators[0]] + rest
      else rest
  }

  /** The first member listed is the first collaborator of the team in list order. */
  lemma {:induction false} MembersOfFirst(collaborators: seq<Collaborator>, teamId: string)
    ensures var r := MembersOf(collaborators, teamId);
      |r| > 0 ==> exists k :: (0 <= k < |collaborators| && r[0] == collaborators[k]
        && forall j :: 0 <= j < k ==> !InTeam(collaborators[j], teamId))
  {
    if |collaborators| > 0 && !InTeam(collaborators[0], teamId) {
      var tail := collaborators[1..];
      var rest := MembersOf(tail, teamId);
      MembersOfFirst(tail, teamId);
      if |rest| > 0 {
        var k :| 0 <= k < |tail| && rest[0] == tail[k] && forall j :: 0 <= j < k ==> !InTeam(tail[j], teamId);
        assert forall j :: 1 <= j < k + 1 ==> collaborators[j] == tail[j - 1];
        assert rest[0] == collaborators[k + 1];
      }
    } else if |collaborators| > 0 {
      assert MembersOf(collaborators, teamId)[0] == collaborators[0];
    }
  }

  /** `filteredCollaborators`: nobody without a team, the team's members otherwise. */
  function FilteredCollaborators(selectedTeam: string, collaborators: seq<Collaborator>): (r: seq<Collaborator>)
    ensures selectedTeam == "" ==> r == []
    ensures selectedTeam != "" ==> forall c :: c in r <==> c in collaborators && InTeam(c, selectedTeam)
  {
    if selectedTeam == "" then [] else MembersOf(collaborators, selectedTeam)
  }

  /** `handleTeamChange`: the new (team, collaborator) selection. */
  function TeamChange(teamId: string, collaborators: seq<Collaborator>): (sel: (string, string))
    ensures sel.0 == teamId
  {
    if teamId != "" then
      var members := MembersOf(collaborators, teamId);
      (teamId, if |members| > 0 then members[0].matricule else "")
    else
      (teamId, "")
  }

  /**
   * After a team change the selected collaborator is `''` or the first
   * member of the filtered list: `''` exactly when the team is cleared or
   * has no member.
   */
  lemma TeamChangeSelectsMember(teamId: string, collaborators: seq<Collaborator>)
    ensures var (team, collab) := TeamChange(teamId, collaborators);
      var shown := FilteredCollaborators(team, collaborators);
      (collab == "" <==> |shown| == 0 || shown[0].matricule == "")
      && (|shown| > 0 ==> collab == shown[0].matricule)
      && (collab != "" ==> exists k :: 0 <= k < |shown| && shown[k].matricule == collab)
  {
  }

  /** The query parameters of the progress request: exactly the non-empty selections. */
  function QueryParams(selectedTeam: string, selectedCollaborator: string): (params: map<string, string>)
    ensures "equipe_id" in params <==> selectedTeam != ""
    ensures "collaborateur_id" in params <==> selectedCollaborator != ""
    ensures forall key :: key in params ==> key == "equipe_id" || key == "collaborateur_id"
    ensures "equipe_id" in params ==> params["equipe_id"] == selectedTeam
    ensures "collaborateur_id" in params ==> params["collaborateur_id"] == selectedCollaborator
  {
    var p := if selectedTeam != "" then map["equipe_id" := selectedTeam] else map[];
    if selectedCollaborator != "" then p["collaborateur_id" := selectedCollaborator] else p
  }

  // ------------------------------------------------------------- quiz results

  /** The badge: success from 80 % on. */
  predicate IsSuccess(percentage: int)
  {
    percentage >= 80
  }

  /** An answer shows as correct when it earned points. */
  predicate IsCorrect(pointsAwarded: int)
  {
    pointsAwarded > 0
  }

  /**
   * The badge agrees with the backend's `score_final`: the truncated
   * percentage reaches 80 exactly when the score is at least four fifths of
   * the total.
   */
  lemma SuccessIsFourFifths(score: nat, points: seq<nat>)
    ensures var r := FormationSerializers.ScoreFinalOf(score, points);
      IsSuccess(r.percentage) <==> 5 * score >= 4 * r.total
  {
    var r := FormationSerializers.ScoreFinalOf(score, points);
    FormationSerializers.ScorePercentageMeaning(score, points);
    FloorReaches(r.percentage, r.total, score * 100, 80);
  }

  /** A truncated quotient `p` of `x` by `t` reaches `c` exactly when `x` reaches `c·t`. */
  lemma FloorReaches(p: nat, t: nat, x: nat, c: nat)
    requires t > 0 && p * t <= x < (p + 1) * t
    ensures p >= c <==> x >= c * t
  {
    if p >= c {
      JsMath.MulMono(c, p, t);
    } else {
      JsMath.MulMono(p + 1, c, t);
    }
  }

  /** A response as the API sends it: one text, an array of texts, or `null` without an answer. */
  datatype Response = Single(text: string) | Many(items: seq<string>) | Absent

  /** The displayed response, arrays joined with `", "`; `null` shows nothing. */
  function ResponseText(r: Response): string
  {
    match r
    case Single(t) => t
    case Many(items) => Join(items, ", ")
    case Absent => ""
  }

  /**
   * When no item contains a comma, splitting the joined text at the commas
   * gives back the items, each after the first still led by the space of
   * the separator.
   */
  lemma {:induction false} SplitJoinedResponse(items: seq<string>)
    requires |items| > 0
    requires forall k :: 0 <= k < |items| ==> ',' !in items[k]
    ensures var parts := Split(ResponseText(Many(items)), ',');
      |parts| == |items| && parts[0] == items[0]
      && forall k :: 0 < k < |items| ==> parts[k] == " " + items[k]
  {
    if |items| == 1 {
      SplitNoSep(items[0], ',');
    } else {
      var tail := items[1..];
      SplitJoinedResponse(tail);
      var j := Join(tail, ", ");
      assert Join(items, ", ") == items[0] + [','] + (" " + j);
      SplitCons(items[0], " " + j, ',');
      SplitLeadingSpace(j);
    }
  }

  /** A leading space joins the first piece of the split. */
  lemma SplitLeadingSpace(j: string)
    ensures var rest := Split(j, ',');
      Split(" " + j, ',') == [" " + rest[0]] + rest[1..]
  {
    assert (" " + j)[1..] == j;
  }

  /** One line of `detail_des_reponses` as the API sends it. */
  datatype AnswerDetail = AnswerDetail(pointsAwarded: int, userResponse: Response, correctResponse: Response)

  /** What the page shows for an answer: the check or cross icon, the response, and the expected one. */
  datatype AnswerView = AnswerView(correctIcon: bool, yours: string, expected: Option<string>)

  /** The rendering of one answer: the expected response is shown only for an answer that earned nothing. */
  function ViewAnswer(a: AnswerDetail): (v: AnswerView)
    ensures v.correctIcon <==> a.pointsAwarded > 0
    ensures v.expected.None? <==> v.correctIcon
    ensures v.yours == ResponseText(a.userResponse)
    ensures v.expected.Some? ==> v.expected.value == ResponseText(a.correctResponse)
  {
    var correct := IsCorrect(a.pointsAwarded);
    AnswerView(correct, ResponseText(a.userResponse), if correct then None else Some(ResponseText(a.correctResponse)))
  }

  /** An unanswered question, which the backend awards 0 points, shows the cross and the expected response. */
  lemma UnansweredShowsExpected(correct: Response)
    ensures ViewAnswer(AnswerDetail(0, Absent, correct)) == AnswerView(false, "", Some(ResponseText(correct)))
  {
  }

  /** A one-element array shows as its element, two as `"a, b"`, none as the empty text. */
  lemma ResponseTextExamples(a: string, b: string)
    ensures ResponseText(Many([a])) == ResponseText(Single(a))
    ensures ResponseText(Many([a, b])) == a + ", " + b
    ensures ResponseText(Many([])) == ""
  {
    assert [a, b][1..] == [b];
    assert Join([b], ", ") == b;
  }

  /** The progress payload: one object or an array of them. */
  datatype Payload<T> = One(value: T) | Array(values: seq<T>)

  /** `Array.isArray(data) ? data[0] : data`; an empty array gives nothing. */
  function FirstOf<T>(p: Payload<T>): (r: Option<T>)
    ensures p.One? ==> r == Some(p.value)
    ensures p.Array? ==> (r.Some? <==> |p.values| > 0) && (r.Some? ==> r.value == p.values[0])
  {
    match p
    case One(v) => Some(v)
    case Array(vs) => if |vs| > 0 then Some(vs[0]) else None
  }
}
