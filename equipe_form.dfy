/**
 * The team form: which users may be assigned (those on no other team),
 * the member search, the member checkboxes, name validation and the
 * payload sent on submit.
 */
module EquipeForm {
  import opened Wrappers
  import opened Text
  import opened Seqs

  /** A team of `/equipes/`; `assignedUsers` is `None` when the field is missing. */
  datatype Team = Team(id: int, assignedUsers: Option<seq<string>>)

  datatype UserEntry = UserEntry(matricule: string, firstName: string, lastName: string)

  function MembersOf(t: Team): seq<string>
  {
    if t.assignedUsers.Some? then t.assignedUsers.value else []
  }

  /** Some team lists `m`. */
  predicate IsBusy(teams: seq<Team>, m: string)
  {
    exists k :: 0 <= k < |teams| && m in MembersOf(teams[k])
  }

  /** The two `forEach` loops filling the `busy` set. */
  method ComputeBusy(teams: seq<Team>) returns (busy: set<string>)
    ensures forall m :: m in busy <==> IsBusy(teams, m)
  {
    busy := {};
    var i := 0;
    while i < |teams|
      invariant 0 <= i <= |teams|
      invariant forall m :: m in busy <==> exists k :: 0 <= k < i && m in MembersOf(teams[k])
    {
      var members := MembersOf(teams[i]);
      var j := 0;
      while j < |members|
        invariant 0 <= j <= |members|
        invariant forall m :: m in busy <==> (exists k :: 0 <= k < i && m in MembersOf(teams[k])) || m in members[..j]
      {
        assert members[..j + 1] == members[..j] + [members[j]];
        busy := busy + {members[j]};
        j := j + 1;
      }
      assert members[..j] == members;
      i := i + 1;
    }
  }

  /** `allEquipes.find(e => e.id === Number(id))`. */
  function FindTeam(teams: seq<Team>, id: int): (r: Option<Team>)
    ensures r.Some? ==> r.value in teams && r.value.id == id
    ensures r.None? ==> forall k :: 0 <= k < |teams| ==> teams[k].id != id
    ensures r.Some? ==> exists k :: FirstWithId(teams, id, k) && teams[k] == r.value
  {
    if |teams| == 0 then None
    else if teams[0].id == id then
      assert FirstWithId(teams, id, 0);
      Some(teams[0])
    else
      var r := FindTeam(teams[1..], id);
      if r.Some? then
        var k :| FirstWithId(teams[1..], id, k) && teams[1..][k] == r.value;
        assert FirstWithId(teams, id, k + 1);
        r
      else r
  }

  /** `k` is the first position of a team with that id, the one `find` returns. */
  predicate FirstWithId(teams: seq<Team>, id: int, k: int)
  {
    0 <= k < |teams| && teams[k].id == id && forall j :: 0 <= j < k ==> teams[j].id != id
  }

  /** The members of the team being edited; none in create mode or when it is not found. */
  function CurrentMembers(teams: seq<Team>, routeId: Option<string>): (r: set<string>)
    ensures routeId.None? ==> r == {}
    ensures forall m :: m in r <==>
      (routeId.Some? && JsNumber(routeId.value).Some?
       && exists k :: FirstWithId(teams, JsNumber(routeId.value).value, k) && m in MembersOf(teams[k]))
  {
    if routeId.None? then {}
    else
      var n := JsNumber(routeId.value);
      if n.None? then {}
      else
        var cur := FindTeam(teams, n.value);
        if cur.None? then {} else set m | m in MembersOf(cur.value)
  }

  /** `free`: users on no team, or already on the team being edited, in list order. */
  function FreeUsers(users: seq<UserEntry>, busy: set<string>, current: set<string>): (r: seq<UserEntry>)
    ensures |r| <= |users|
    ensures forall u :: u in r <==> u in users && (u.matricule !in busy || u.matricule in current)
    ensures SubsequenceOf(r, users)
  {
    if |users| == 0 then []
    else
      var rest := FreeUsers(users[1..], busy, current);
      assert forall u :: u in users <==> u == users[0] || u in users[1..];
      if users[0].matricule !in busy || users[0].matricule in current then
        assert ([users[0]] + rest)[1..] == rest;
        [users[0]] + rest
      else rest
  }

  /** In create mode the free users are exactly those no team lists. */
  lemma CreateModeFreeUsers(users: seq<UserEntry>, teams: seq<Team>, busy: set<string>)
    requires forall m :: m in busy <==> IsBusy(teams, m)
    ensures forall u :: u in FreeUsers(users, busy, CurrentMembers(teams, None)) <==>
      u in users && forall k :: 0 <= k < |teams| ==> u.matricule !in MembersOf(teams[k])
  {
  }

  /**
   * In edit mode the free users are those no team lists and the members of
   * the first team whose id is the route's id.
   */
  lemma EditModeFreeUsers(users: seq<UserEntry>, teams: seq<Team>, busy: set<string>, routeId: string, k: nat)
    requires forall m :: m in busy <==> IsBusy(teams, m)
    requires JsNumber(routeId).Some? && FirstWithId(teams, JsNumber(routeId).value, k)
    ensures forall u :: u in FreeUsers(users, busy, CurrentMembers(teams, Some(routeId))) <==>
      u in users && (u.matricule in MembersOf(teams[k]) || forall j :: 0 <= j < |teams| ==> u.matricule !in MembersOf(teams[j]))
  {
    var current := CurrentMembers(teams, Some(routeId));
    forall m ensures m in current <==> m in MembersOf(teams[k]) {
      if m in current {
        var k' :| FirstWithId(teams, JsNumber(routeId).value, k') && m in MembersOf(teams[k']);
        assert k' == k;
      }
    }
  }

  /** `filteredUsers`: the available users whose `"first last"` contains the search, case-insensitively. */
  function FilteredUsers(available: seq<UserEntry>, search: string): (r: seq<UserEntry>)
    ensures |r| <= |available|
    ensures forall u :: u in r <==> u in available && Contains(Lower(u.firstName + " " + u.lastName), Lower(search))
    ensures SubsequenceOf(r, available)
  {
    if |available| == 0 then []
    else
      var rest := FilteredUsers(available[1..], search);
      assert forall u :: u in available <==> u == available[0] || u in available[1..];
      if Contains(Lower(available[0].firstName + " " + available[0].lastName), Lower(search))
      then
        assert ([available[0]] + rest)[1..] == rest;
        [available[0]] + rest
      else rest
  }

  /** An empty search shows every available user. */
  lemma EmptySearchShowsAll(available: seq<UserEntry>)
    ensures forall u :: u in FilteredUsers(available, "") <==> u in available
  {
    forall u | u in available ensures Contains(Lower(u.firstName + " " + u.lastName), Lower("")) {
      assert OccursAt(Lower(u.firstName + " " + u.lastName), Lower(""), 0);
    }
  }

  // ----------------------------------------------------------- checkboxes

  /** A member checkbox: checking appends the matricule, unchecking removes all its occurrences. */
  function ToggleMember(selected: seq<string>, value: string, checked: bool): (r: seq<string>)
    ensures checked ==> r == selected + [value]
    ensures !checked ==> value !in r
    ensures forall x :: x != value ==> multiset(r)[x] == multiset(selected)[x]
  {
    if checked then selected + [value] else Without(selected, value)
  }

  // ------------------------------------------------------- validate, submit

  const NAME_REQUIRED := "Le nom de l'équipe est requis."

  /** `validateForm`: the only error is a blank name. */
  function ValidateForm(name: string): (errors: map<string, string>)
    ensures "name" in errors <==> Trim(name) == ""
    ensures forall key :: key in errors ==> key == "name" && errors[key] == NAME_REQUIRED
  {
    if Trim(name) == "" then map["name" := NAME_REQUIRED] else map[]
  }

  datatype Payload = Payload(name: string, assignedUsers: seq<string>, domains: seq<Option<int>>)

  /** The payload: the form as is, with each domain id string sent as `Number(id)` (`None` for `NaN`). */
  function MakePayload(name: string, assignedUsers: seq<string>, domains: seq<string>): (p: Payload)
    ensures p.name == name && p.assignedUsers == assignedUsers && |p.domains| == |domains|
    ensures forall k :: 0 <= k < |domains| ==> p.domains[k] == JsNumber(domains[k])
  {
    Payload(name, assignedUsers, seq(|domains|, k requires 0 <= k < |domains| => JsNumber(domains[k])))
  }

  /** `handleSubmit`: a payload is sent exactly when there is no error. */
  function Submit(name: string, assignedUsers: seq<string>, domains: seq<string>): (sent: Option<Payload>)
    ensures sent.Some? <==> Trim(name) != ""
  {
    if |ValidateForm(name)| == 0 then Some(MakePayload(name, assignedUsers, domains))
    else None
  }

  /** A name made only of white space, in the full set `trim` removes, is refused. */
  lemma AllSpaceNameRejected(name: string)
    requires forall k :: 0 <= k < |name| ==> IsSpace(name[k])
    ensures "name" in ValidateForm(name)
  {
  }

  /** Two no-break spaces are not a team name. */
  lemma NoBreakSpaceNameRejected()
    ensures Submit("\U{A0}\U{A0}", [], []).None?
  {
    AllSpaceNameRejected("\U{A0}\U{A0}");
  }

  /** Domain ids loaded with `toString()` are sent back as the same numbers. */
  lemma DomainIdsRoundTrip(ids: seq<nat>)
    ensures var p := MakePayload("", [], seq(|ids|, k requires 0 <= k < |ids| => NatToStr(ids[k])));
      forall k :: 0 <= k < |ids| ==> p.domains[k] == Some(ids[k] as int)
  {
    forall k | 0 <= k < |ids| ensures JsNumber(NatToStr(ids[k])) == Some(ids[k] as int) {
      JsNumberOfNatToStr(ids[k]);
    }
  }
}
