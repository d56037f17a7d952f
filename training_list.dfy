/**
 * The learner's list of formations: the per-formation user state index,
 * the merge of formations with that state, the domain, search and
 * category filters, and the status statistics of the visible list.
 */
module TrainingList {
  import opened Wrappers
  import opened Text
  import opened Seqs

  /** One entry of `/user-formations/`; absent fields are `None`. */
  datatype UserState = UserState(id: Option<int>, formationId: int, progress: Option<int>, statut: Option<string>)

  /** One entry of `/formations/`, reduced to the fields the page reads. */
  datatype Formation = Formation(id: int, titre: Option<string>, description: Option<string>, domain: string)

  /** A formation merged with the learner's state. */
  datatype Enriched = Enriched(formation: Formation, progress: int, userFormationId: Option<int>, statut: string)

  /** `statusFromProgress`: a non-empty explicit status wins; otherwise thresholds on the progress. */
  function StatusFromProgress(progress: int, explicitStatus: Option<string>): (s: string)
    ensures explicitStatus.Some? && explicitStatus.value != "" ==> s == explicitStatus.value
    ensures !(explicitStatus.Some? && explicitStatus.value != "") ==>
      (s == "terminee" <==> progress >= 100) && (s == "en_cours" <==> 0 < progress < 100)
      && (s == "nouvelle" <==> progress <= 0)
  {
    if explicitStatus.Some? && explicitStatus.value != "" then explicitStatus.value
    else if progress >= 100 then "terminee"
    else if progress > 0 then "en_cours"
    else "nouvelle"
  }

  // ----------------------------------------------------- user state index

  /** The index the `forEach` builds: each formation id maps to its last state. */
  function IndexOf(states: seq<UserState>): map<int, UserState>
  {
    if |states| == 0 then map[]
    else IndexOf(states[..|states| - 1])[states[|states| - 1].formationId := states[|states| - 1]]
  }

  /** An id is indexed iff some state names it, and it maps to the last such state. */
  lemma {:induction false} IndexOfMeaning(states: seq<UserState>, fid: int)
    ensures fid in IndexOf(states) <==> exists k :: 0 <= k < |states| && states[k].formationId == fid
    ensures fid in IndexOf(states) ==>
      (exists k :: (0 <= k < |states| && IndexOf(states)[fid] == states[k] && states[k].formationId == fid
        && forall j :: k < j < |states| ==> states[j].formationId != fid))
  {
    if |states| > 0 {
      var init := states[..|states| - 1];
      IndexOfMeaning(init, fid);
      assert forall k :: 0 <= k < |init| ==> init[k] == states[k];
      if states[|states| - 1].formationId != fid && fid in IndexOf(init) {
        var k :| 0 <= k < |init| && IndexOf(init)[fid] == init[k] && init[k].formationId == fid
          && forall j :: k < j < |init| ==> init[j].formationId != fid;
        assert IndexOf(states)[fid] == states[k];
      }
    }
  }

  /** The `forEach` loop filling `userFormationMap`. */
  method IndexUserStates(states: seq<UserState>) returns (index: map<int, UserState>)
    ensures index == IndexOf(states)
  {
    index := map[];
    var i := 0;
    while i < |states|
      invariant 0 <= i <= |states|
      invariant index == IndexOf(states[..i])
    {
      assert states[..i + 1][..i] == states[..i];
      index := index[states[i].formationId := states[i]];
      i := i + 1;
    }
    assert states[..i] == states;
  }

  // --------------------------------------------------------------- merge

  /** The enrichment of one formation with its state, missing fields defaulted. */
  function Enrich(f: Formation, index: map<int, UserState>): (e: Enriched)
    ensures e.formation == f
    ensures f.id !in index ==> e.progress == 0 && e.userFormationId.None? && e.statut == "nouvelle"
    ensures f.id in index ==> (e.userFormationId == index[f.id].id
      && e.progress == (if index[f.id].progress.Some? then index[f.id].progress.value else 0))
    ensures f.id in index ==> e.statut == StatusFromProgress(e.progress, index[f.id].statut)
  {
    if f.id in index then
      var uf := index[f.id];
      var progress := if uf.progress.Some? then uf.progress.value else 0;
      Enriched(f, progress, uf.id, StatusFromProgress(progress, uf.statut))
    else
      Enriched(f, 0, None, StatusFromProgress(0, None))
  }

  function EnrichAll(fs: seq<Formation>, index: map<int, UserState>): (r: seq<Enriched>)
    ensures |r| == |fs| && forall k :: 0 <= k < |fs| ==> r[k] == Enrich(fs[k], index)
  {
    seq(|fs|, k requires 0 <= k < |fs| => Enrich(fs[k], index))
  }

  // ------------------------------------------------------------- filters

  /**
   * The domain filter: `String(f.domain) === String(domainId)` when
   * `domainId` is truthy; a missing or empty id keeps every entry.
   */
  predicate InDomain(e: Enriched, domainId: Option<string>)
  {
    domainId.None? || domainId.value == "" || e.formation.domain == domainId.value
  }

  /** A present field whose lower-cased text contains the lower-cased search. */
  predicate FieldMatches(field: Option<string>, search: string)
  {
    field.Some? && Contains(Lower(field.value), Lower(search))
  }

  /** The search and category filter. */
  predicate Matches(e: Enriched, search: string, category: string)
  {
    (FieldMatches(e.formation.titre, search) || FieldMatches(e.formation.description, search))
    && (category == "all" || category == e.statut)
  }

  /** The entries passing both filters, in their original order. */
  function Visible(es: seq<Enriched>, domainId: Option<string>, search: string, category: string): (r: seq<Enriched>)
    ensures |r| <= |es|
    ensures forall k :: 0 <= k < |r| ==> r[k] in es && InDomain(r[k], domainId) && Matches(r[k], search, category)
    ensures forall k :: 0 <= k < |es| && InDomain(es[k], domainId) && Matches(es[k], search, category) ==> es[k] in r
    ensures SubsequenceOf(r, es)
  {
    if |es| == 0 then []
    else
      var rest := Visible(es[1..], domainId, search, category);
      assert forall x :: x in es[1..] ==> x in es;
      assert forall k :: 1 <= k < |es| ==> es[k] == es[1..][k - 1];
      if InDomain(es[0], domainId) && Matches(es[0], search, category) then
        assert ([es[0]] + rest)[1..] == rest;
        [es[0]] + rest
      else rest
  }

  /** An empty domain id is falsy, so it filters exactly as no domain id does. */
  lemma {:induction false} EmptyDomainIsNoFilter(es: seq<Enriched>, search: string, category: string)
    ensures Visible(es, Some(""), search, category) == Visible(es, None, search, category)
  {
    if |es| > 0 {
      EmptyDomainIsNoFilter(es[1..], search, category);
    }
  }

  /** An empty search with category `all` and no domain keeps every entry that has a title or a description. */
  lemma EmptySearchKeepsAll(es: seq<Enriched>, k: nat)
    requires k < |es| && (es[k].formation.titre.Some? || es[k].formation.description.Some?)
    ensures es[k] in Visible(es, None, "", "all")
  {
    var f := es[k].formation;
    var t := if f.titre.Some? then f.titre.value else f.description.value;
    assert OccursAt(Lower(t), Lower(""), 0);
  }

  // ---------------------------------------------------------- statistics

  function CountWhere(es: seq<Enriched>, statut: string): (n: nat)
    ensures n <= |es|
  {
    if |es| == 0 then 0 else CountWhere(es[..|es| - 1], statut) + (if es[|es| - 1].statut == statut then 1 else 0)
  }

  /** Entries whose status is neither `terminee` nor `en_cours`. */
  function CountOther(es: seq<Enriched>): (n: nat)
    ensures n <= |es|
  {
    if |es| == 0 then 0
    else CountOther(es[..|es| - 1]) + (if es[|es| - 1].statut != "terminee" && es[|es| - 1].statut != "en_cours" then 1 else 0)
  }

  datatype Stats = Stats(total: nat, completed: nat, inProgress: nat, newCount: nat)

  /** Every entry is counted exactly once in the three buckets. */
  lemma {:induction false} BucketsPartition(es: seq<Enriched>)
    ensures CountWhere(es, "terminee") + CountWhere(es, "en_cours") + CountOther(es) == |es|
  {
    if |es| > 0 {
      BucketsPartition(es[..|es| - 1]);
    }
  }

  /** The `reduce` over the visible list mutating its accumulator. */
  method ComputeStats(es: seq<Enriched>) returns (acc: Stats)
    ensures acc.total == |es|
    ensures acc.completed == CountWhere(es, "terminee") && acc.inProgress == CountWhere(es, "en_cours")
    ensures acc.newCount == CountOther(es)
    ensures acc.total == acc.completed + acc.inProgress + acc.newCount
  {
    acc := Stats(0, 0, 0, 0);
    var i := 0;
    while i < |es|
      invariant 0 <= i <= |es|
      invariant acc.total == i
      invariant acc.completed == CountWhere(es[..i], "terminee") && acc.inProgress == CountWhere(es[..i], "en_cours")
      invariant acc.newCount == CountOther(es[..i])
    {
      assert es[..i + 1][..i] == es[..i];
      var f := es[i];
      acc := acc.(total := acc.total + 1);
      if f.statut == "terminee" {
        acc := acc.(completed := acc.completed + 1);
      } else if f.statut == "en_cours" {
        acc := acc.(inProgress := acc.inProgress + 1);
      } else {
        acc := acc.(newCount := acc.newCount + 1);
      }
      i := i + 1;
    }
    assert es[..i] == es;
    BucketsPartition(es);
  }
}
