/**
 * The organisation chart: flattening the person tree into chart nodes
 * (with an invisible node per team under each parent) and pruning the
 * isolated roots. Photos are left out; a person node carries no image.
 */
module Hierarchie {
  import opened Wrappers
  import opened Seqs

  /** A person of `/personne/hierarchie/`: `teams` are the names of their teams, in order. */
  datatype Person = Person(matricule: string, firstName: string, lastName: string, role: string,
                           teams: seq<string>, subordinates: seq<Person>)

  /** A chart node; `pid` is `None` for `null`. */
  datatype Node =
    | TeamNode(id: string, pid: Option<string>)
    | PersonNode(id: string, pid: Option<string>, firstName: string, lastName: string, name: string, role: string)

  // --------------------------------------------------------------- pruning

  /** The ids named as `pid` by some node. */
  function Referenced(nodes: seq<Node>): (r: set<string>)
    ensures forall x :: x in r <==> exists k :: 0 <= k < |nodes| && nodes[k].pid == Some(x)
  {
    if |nodes| == 0 then {}
    else
      var rest := Referenced(nodes[1..]);
      assert forall k :: 1 <= k < |nodes| ==> nodes[k] == nodes[1..][k - 1];
      (if nodes[0].pid.Some? then {nodes[0].pid.value} else {}) + rest
  }

  predicate KeptBy(n: Node, referenced: set<string>)
  {
    n.pid.Some? || n.id in referenced
  }

  function Keep(nodes: seq<Node>, referenced: set<string>): (r: seq<Node>)
    ensures |r| <= |nodes|
    ensures forall n :: n in r <==> n in nodes && KeptBy(n, referenced)
  {
    if |nodes| == 0 then []
    else
      var rest := Keep(nodes[1..], referenced);
      assert forall n :: n in nodes <==> n == nodes[0] || n in nodes[1..];
      if KeptBy(nodes[0], referenced) then [nodes[0]] + rest else rest
  }

  /** `pruneIsolatedNodes`: keep a node with a parent, or one that is some node's parent. */
  function Prune(nodes: seq<Node>): seq<Node>
  {
    Keep(nodes, Referenced(nodes))
  }

  lemma {:induction false} KeepIsSubsequence(nodes: seq<Node>, referenced: set<string>)
    ensures SubsequenceOf(Keep(nodes, referenced), nodes)
  {
    if |nodes| > 0 {
      KeepIsSubsequence(nodes[1..], referenced);
      var rest := Keep(nodes[1..], referenced);
      if KeptBy(nodes[0], referenced) {
        assert ([nodes[0]] + rest)[1..] == rest;
      }
    }
  }

  /**
   * The pruned list is an order-preserving subsequence of the input holding
   * exactly the nodes with a parent or referenced as one, and pruning
   * twice prunes nothing more.
   */
  lemma PruneMeaning(nodes: seq<Node>)
    ensures SubsequenceOf(Prune(nodes), nodes)
    ensures forall n :: n in Prune(nodes) <==>
      n in nodes && (n.pid.Some? || exists k :: 0 <= k < |nodes| && nodes[k].pid == Some(n.id))
    ensures Prune(Prune(nodes)) == Prune(nodes)
  {
    KeepIsSubsequence(nodes, Referenced(nodes));
    PruneKeepsReferences(nodes);
    KeepAll(Prune(nodes), Referenced(nodes));
  }

  /** Pruning keeps every node with a parent, so the referenced ids stay the same. */
  lemma PruneKeepsReferences(nodes: seq<Node>)
    ensures Referenced(Prune(nodes)) == Referenced(nodes)
  {
    var r := Referenced(nodes);
    var p := Prune(nodes);
    forall x | x in r ensures x in Referenced(p) {
      var k :| 0 <= k < |nodes| && nodes[k].pid == Some(x);
      assert nodes[k] in p;
      var j :| 0 <= j < |p| && p[j] == nodes[k];
    }
    forall x | x in Referenced(p) ensures x in r {
      var j :| 0 <= j < |p| && p[j].pid == Some(x);
      assert p[j] in nodes;
      var k :| 0 <= k < |nodes| && nodes[k] == p[j];
    }
  }

  /** Keeping from a list whose every node is kept changes nothing. */
  lemma {:induction false} KeepAll(nodes: seq<Node>, referenced: set<string>)
    requires forall k :: 0 <= k < |nodes| ==> KeptBy(nodes[k], referenced)
    ensures Keep(nodes, referenced) == nodes
  {
    if |nodes| > 0 {
      KeepAll(nodes[1..], referenced);
    }
  }

  // ------------------------------------------------------------ flattening

  /** The id of the invisible team node: `team-<name>-<parent>`, with `null` for no parent. */
  function TeamId(teamName: string, parent: Option<string>): string
  {
    "team-" + teamName + "-" + (if parent.None? then "null" else parent.value)
  }

  /** The parent a person's node gets: their first team's node, or the given parent. */
  function PersonParent(p: Person, parent: Option<string>): Option<string>
  {
    if |p.teams| > 0 then Some(TeamId(p.teams[0], parent)) else parent
  }

  function NodeOf(p: Person, parent: Option<string>): Node
  {
    PersonNode(p.matricule, PersonParent(p, parent), p.firstName, p.lastName, p.firstName + " " + p.lastName, p.role)
  }

  /** The team ids added while visiting `siblings` (the `teamsAdded` set of one call). */
  function TeamsAdded(siblings: seq<Person>, parent: Option<string>): set<string>
  {
    if |siblings| == 0 then {}
    else
      var p := siblings[|siblings| - 1];
      TeamsAdded(siblings[..|siblings| - 1], parent) + (if |p.teams| > 0 then {TeamId(p.teams[0], parent)} else {})
  }

  /** What visiting `p` emits, after earlier siblings added the teams in `added`. */
  function Emit(p: Person, parent: Option<string>, added: set<string>): seq<Node>
    decreases p, 0
  {
    (if |p.teams| > 0 && TeamId(p.teams[0], parent) !in added then [TeamNode(TeamId(p.teams[0], parent), parent)] else [])
    + [NodeOf(p, parent)]
    + Flatten(p.subordinates, Some(p.matricule))
  }

  /** `flattenHierarchy(data, parent)`: the nodes emitted for `data`, in order. */
  function Flatten(data: seq<Person>, parent: Option<string>): seq<Node>
    decreases data, 1
  {
    if |data| == 0 then []
    else
      var init := data[..|data| - 1];
      Flatten(init, parent) + Emit(data[|data| - 1], parent, TeamsAdded(init, parent))
  }

  /** `flattenHierarchy`, pushing into `result` and recursing into the subordinates. */
  method FlattenInto(data: seq<Person>, parent: Option<string>, result: seq<Node>) returns (out: seq<Node>)
    decreases data, 1
    ensures out == result + Flatten(data, parent)
  {
    out := result;
    var teamsAdded: set<string> := {};
    var i := 0;
    while i < |data|
      invariant 0 <= i <= |data|
      invariant out == result + Flatten(data[..i], parent)
      invariant teamsAdded == TeamsAdded(data[..i], parent)
    {
      assert data[..i + 1][..i] == data[..i];
      out, teamsAdded := VisitPerson(data[i], parent, teamsAdded, out);
      i := i + 1;
    }
    assert data[..i] == data;
  }

  /** One iteration of the loop: the team node if new, the person's node, then the subordinates. */
  method VisitPerson(person: Person, parent: Option<string>, teamsAdded: set<string>, result: seq<Node>)
    returns (out: seq<Node>, added: set<string>)
    decreases person, 0
    ensures out == result + Emit(person, parent, teamsAdded)
    ensures added == teamsAdded + (if |person.teams| > 0 then {TeamId(person.teams[0], parent)} else {})
  {
    out := result;
    added := teamsAdded;
    var personParentId := parent;
    if |person.teams| > 0 {
      var teamId := TeamId(person.teams[0], parent);
      if teamId !in added {
        out := out + [TeamNode(teamId, parent)];
        added := added + {teamId};
      }
      personParentId := Some(teamId);
    }
    out := out + [PersonNode(person.matricule, personParentId, person.firstName, person.lastName,
                             person.firstName + " " + person.lastName, person.role)];
    if |person.subordinates| > 0 {
      out := FlattenInto(person.subordinates, Some(person.matricule), out);
    } else {
      assert Flatten(person.subordinates, Some(person.matricule)) == [];
    }
  }

  /** The matricules of a forest in pre-order. */
  function Preorder(data: seq<Person>): seq<string>
    decreases data
  {
    if |data| == 0 then []
    else
      var p := data[|data| - 1];
      Preorder(data[..|data| - 1]) + [p.matricule] + Preorder(p.subordinates)
  }

  /** The ids of the person nodes of a node list, in order. */
  function PersonIds(nodes: seq<Node>): seq<string>
  {
    if |nodes| == 0 then []
    else PersonIds(nodes[..|nodes| - 1]) + (if nodes[|nodes| - 1].PersonNode? then [nodes[|nodes| - 1].id] else [])
  }

  lemma {:induction false} PersonIdsAppend(a: seq<Node>, b: seq<Node>)
    ensures PersonIds(a + b) == PersonIds(a) + PersonIds(b)
    decreases |b|
  {
    if |b| > 0 {
      assert (a + b)[..|a + b| - 1] == a + b[..|b| - 1];
      PersonIdsAppend(a, b[..|b| - 1]);
    } else {
      assert a + b == a;
    }
  }

  /** The person ids of one visit: the person, then those below them. */
  lemma EmitPersonIds(p: Person, parent: Option<string>, added: set<string>)
    ensures PersonIds(Emit(p, parent, added)) == [p.matricule] + PersonIds(Flatten(p.subordinates, Some(p.matricule)))
  {
    var teamPart := if |p.teams| > 0 && TeamId(p.teams[0], parent) !in added then [TeamNode(TeamId(p.teams[0], parent), parent)] else [];
    var own := [NodeOf(p, parent)];
    var below := Flatten(p.subordinates, Some(p.matricule));
    assert Emit(p, parent, added) == teamPart + own + below;
    PersonIdsAppend(teamPart + own, below);
    PersonIdsAppend(teamPart, own);
    assert PersonIds(own) == [p.matricule] by {
      assert own[..0] == [];
    }
    assert PersonIds(teamPart) == [] by {
      if |teamPart| > 0 {
        assert teamPart[..0] == [];
      }
    }
  }

  /** Flattening emits exactly one person node per person, with the matricule as id, in pre-order. */
  lemma {:induction false} FlattenPreorder(data: seq<Person>, parent: Option<string>)
    ensures PersonIds(Flatten(data, parent)) == Preorder(data)
    decreases data
  {
    if |data| > 0 {
      var init := data[..|data| - 1];
      var p := data[|data| - 1];
      var added := TeamsAdded(init, parent);
      FlattenPreorder(init, parent);
      FlattenPreorder(p.subordinates, Some(p.matricule));
      EmitPersonIds(p, parent, added);
      PersonIdsAppend(Flatten(init, parent), Emit(p, parent, added));
    }
  }

  /** The persons in a forest, every level counted. */
  function Count(data: seq<Person>): nat
    decreases data
  {
    if |data| == 0 then 0 else Count(data[..|data| - 1]) + 1 + Count(data[|data| - 1].subordinates)
  }

  lemma {:induction false} PreorderLength(data: seq<Person>)
    ensures |Preorder(data)| == Count(data)
    decreases data
  {
    if |data| > 0 {
      PreorderLength(data[..|data| - 1]);
      PreorderLength(data[|data| - 1].subordinates);
    }
  }

  lemma {:induction false} TeamsAddedMeaning(siblings: seq<Person>, parent: Option<string>, tid: string)
    ensures tid in TeamsAdded(siblings, parent) <==>
      exists j :: 0 <= j < |siblings| && |siblings[j].teams| > 0 && TeamId(siblings[j].teams[0], parent) == tid
  {
    if |siblings| > 0 {
      var init := siblings[..|siblings| - 1];
      TeamsAddedMeaning(init, parent, tid);
      assert forall j :: 0 <= j < |init| ==> init[j] == siblings[j];
    }
  }

  /**
   * Within one sibling list, the person at position `i` is preceded by
   * their team's node exactly when no earlier sibling has the same team
   * node; every node a person gets has the team node or the given parent
   * as parent.
   */
  lemma TeamNodeBeforeFirstMember(data: seq<Person>, parent: Option<string>, i: nat)
    requires i < |data| && |data[i].teams| > 0
    ensures var tid := TeamId(data[i].teams[0], parent);
      var e := Emit(data[i], parent, TeamsAdded(data[..i], parent));
      (e[0] == TeamNode(tid, parent) <==>
        forall j :: 0 <= j < i && |data[j].teams| > 0 ==> TeamId(data[j].teams[0], parent) != tid)
      && NodeOf(data[i], parent).pid == Some(tid)
  {
    var tid := TeamId(data[i].teams[0], parent);
    TeamsAddedMeaning(data[..i], parent, tid);
    assert forall j :: 0 <= j < i ==> data[..i][j] == data[j];
  }

  /** A person on no team is attached to the given parent, and subordinates to the person. */
  lemma ParentsOfPerson(p: Person, parent: Option<string>, added: set<string>)
    requires |p.teams| == 0
    ensures Emit(p, parent, added)[0] == NodeOf(p, parent) && NodeOf(p, parent).pid == parent
    ensures Emit(p, parent, added)[1..] == Flatten(p.subordinates, Some(p.matricule))
  {
  }
}
