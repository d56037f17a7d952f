/**
 * The competence radar page: the query parameters of the selected filters,
 * the figures shown above the charts (number of collaborators, global mean,
 * top three), and the cells of the competence table.
 */
module RadarCompetence {
  import opened JsMath

  // ------------------------------------------------------------ parameters

  const USER_ID := "user_id"
  const EQUIPE_ID := "equipe_id"
  const PROJET_ID := "projet_id"

  /** `params()`: one entry per non-empty selection. */
  function Params(selectedUser: string, selectedEquipe: string, selectedProjet: string): (r: map<string, string>)
    ensures USER_ID in r <==> selectedUser != ""
    ensures EQUIPE_ID in r <==> selectedEquipe != ""
    ensures PROJET_ID in r <==> selectedProjet != ""
    ensures r.Keys <= {USER_ID, EQUIPE_ID, PROJET_ID}
    ensures USER_ID in r ==> r[USER_ID] == selectedUser
    ensures EQUIPE_ID in r ==> r[EQUIPE_ID] == selectedEquipe
    ensures PROJET_ID in r ==> r[PROJET_ID] == selectedProjet
  {
    (if selectedUser != "" then map[USER_ID := selectedUser] else map[])
      + (if selectedEquipe != "" then map[EQUIPE_ID := selectedEquipe] else map[])
      + (if selectedProjet != "" then map[PROJET_ID := selectedProjet] else map[])
  }

  // ------------------------------------------------------------ figures

  /** `tableData.length || users.length || 0`. */
  function TotalCollab(tableCount: nat, userCount: nat): (r: nat)
    ensures tableCount > 0 ==> r == tableCount
    ensures tableCount == 0 ==> r == userCount
  {
    if tableCount != 0 then tableCount else userCount
  }

  function Sum(scores: seq<int>): int
  {
    if |scores| == 0 then 0 else Sum(scores[..|scores| - 1]) + scores[|scores| - 1]
  }

  /** `scoreMoyenGlobal`: the rounded mean of the domain scores, 0 without data. */
  function MeanScore(scores: seq<int>): int
  {
    if |scores| == 0 then 0 else RoundDiv(Sum(scores), |scores|)
  }

  /** Scores between `lo` and `hi` sum to between `n·lo` and `n·hi`. */
  lemma {:induction false} SumBounds(scores: seq<int>, lo: int, hi: int)
    requires forall k :: 0 <= k < |scores| ==> lo <= scores[k] <= hi
    ensures |scores| * lo <= Sum(scores) <= |scores| * hi
  {
    if |scores| > 0 {
      SumBounds(scores[..|scores| - 1], lo, hi);
    }
  }

  /** The mean lies between the lowest and the highest possible score (0..100 for percentages). */
  lemma MeanScoreBounds(scores: seq<int>, lo: int, hi: int)
    requires |scores| > 0
    requires forall k :: 0 <= k < |scores| ==> lo <= scores[k] <= hi
    ensures lo <= MeanScore(scores) <= hi
  {
    var n := |scores|;
    SumBounds(scores, lo, hi);
    var p := Sum(scores);
    var a, b := n * lo, n * hi;
    assert (2 * n) * lo == 2 * a;
    assert (2 * n) * (hi + 1) == 2 * b + 2 * n;
    assert MeanScore(scores) == (2 * p + n) / (2 * n);
    QuotientAtLeast(2 * p + n, 2 * n, lo);
    QuotientAtMost(2 * p + n, 2 * n, hi);
  }

  /** The mean of equal scores is that score. */
  lemma MeanOfEqualScores(scores: seq<int>, v: int)
    requires |scores| > 0
    requires forall k :: 0 <= k < |scores| ==> scores[k] == v
    ensures MeanScore(scores) == v
  {
    MeanScoreBounds(scores, v, v);
  }

  // ------------------------------------------------------------ top three

  /** A row of the competence table. */
  datatype TableRow = TableRow(userId: int, user: string, equipe: string, scores: map<string, int>, average: int)

  /** Non-increasing in `average`. */
  predicate Desc(s: seq<TableRow>)
  {
    forall i, j :: 0 <= i < j < |s| ==> s[i].average >= s[j].average
  }

  /** Inserting a row into a list sorted by decreasing average, after the rows with the same average. */
  function InsertDesc(s: seq<TableRow>, x: TableRow): (r: seq<TableRow>)
    ensures multiset(r) == multiset(s) + multiset{x}
  {
    if |s| == 0 then [x]
    else if s[0].average < x.average then [x] + s
    else
      assert s == [s[0]] + s[1..];
      [s[0]] + InsertDesc(s[1..], x)
  }

  lemma {:induction false} InsertDescSorted(s: seq<TableRow>, x: TableRow)
    requires Desc(s)
    ensures Desc(InsertDesc(s, x))
  {
    if |s| > 0 && s[0].average >= x.average {
      var rest := InsertDesc(s[1..], x);
      InsertDescSorted(s[1..], x);
      InsertDescBounded(s[1..], x, s[0].average);
      var r := [s[0]] + rest;
      assert forall i, j :: 0 < i < j < |r| ==> r[i] == rest[i - 1] && r[j] == rest[j - 1];
    }
  }

  /** Inserting a row no higher than a bound into rows no higher than it keeps them all no higher. */
  lemma {:induction false} InsertDescBounded(s: seq<TableRow>, x: TableRow, b: int)
    requires forall k :: 0 <= k < |s| ==> s[k].average <= b
    requires x.average <= b
    ensures forall k :: 0 <= k < |InsertDesc(s, x)| ==> InsertDesc(s, x)[k].average <= b
  {
    if |s| > 0 && s[0].average >= x.average {
      InsertDescBounded(s[1..], x, b);
      var rest := InsertDesc(s[1..], x);
      assert forall k :: 0 < k < |rest| + 1 ==> ([s[0]] + rest)[k] == rest[k - 1];
    }
  }

  /** `[...tableData].sort((a, b) => b.average - a.average)` on a copy, stable. */
  function SortDesc(s: seq<TableRow>): (r: seq<TableRow>)
    ensures multiset(r) == multiset(s) && |r| == |s|
    ensures Desc(r)
  {
    if |s| == 0 then []
    else
      var init := SortDesc(s[..|s| - 1]);
      assert s == s[..|s| - 1] + [s[|s| - 1]];
      InsertDescSorted(init, s[|s| - 1]);
      var r := InsertDesc(init, s[|s| - 1]);
      assert |r| == |multiset(r)|;
      r
  }

  function Min(a: int, b: int): int
  {
    if a <= b then a else b
  }

  /** `top3`: the first three rows of the sorted copy. */
  function Top3(tableData: seq<TableRow>): seq<TableRow>
  {
    var sorted := SortDesc(tableData);
    sorted[..Min(3, |sorted|)]
  }

  /**
   * The first `n` rows of a decreasing permutation of the table are rows of
   * the table in decreasing order, and a row of the table with a higher
   * average than the last of them is among them.
   */
  lemma PrefixOfSorted(tableData: seq<TableRow>, sorted: seq<TableRow>, n: nat)
    requires Desc(sorted) && multiset(sorted) == multiset(tableData) && 0 < n <= |sorted|
    ensures Desc(sorted[..n]) && multiset(sorted[..n]) <= multiset(tableData)
    ensures forall i :: 0 <= i < |tableData| && tableData[i].average > sorted[n - 1].average ==> tableData[i] in sorted[..n]
  {
    var t := sorted[..n];
    assert sorted == t + sorted[n..];
    assert multiset(sorted) == multiset(t) + multiset(sorted[n..]);
    forall i | 0 <= i < |tableData| && tableData[i].average > sorted[n - 1].average
      ensures tableData[i] in t
    {
      assert tableData[i] in multiset(sorted);
      var j :| 0 <= j < |sorted| && sorted[j] == tableData[i];
      assert j < n;
      assert t[j] == sorted[j];
    }
  }

  /**
   * The top three holds `min(3, n)` rows of the table in non-increasing
   * order, and no row left out has a higher average than the last one kept.
   */
  lemma Top3Meaning(tableData: seq<TableRow>)
    ensures var t := Top3(tableData);
      |t| == Min(3, |tableData|) && Desc(t) && multiset(t) <= multiset(tableData)
    ensures var t := Top3(tableData);
      forall i :: 0 <= i < |tableData| && |t| > 0 && tableData[i].average > t[|t| - 1].average ==> tableData[i] in t
  {
    var sorted := SortDesc(tableData);
    var n := Min(3, |sorted|);
    assert Top3(tableData) == sorted[..n];
    if n > 0 {
      PrefixOfSorted(tableData, sorted, n);
    }
  }

  // ------------------------------------------------------------ table cells

  /** `row.scores[dom] || 0`: a missing score is shown as 0. */
  function ScoreCell(scores: map<string, int>, domain: string): (r: int)
    ensures r == if domain in scores then scores[domain] else 0
  {
    if domain in scores && scores[domain] != 0 then scores[domain] else 0
  }

  /** The table body: one row of cells per table row, or one "Aucune donnée" row spanning every column. */
  datatype TableBody = NoData(colSpan: nat) | Rows(cells: seq<seq<int>>)

  function Body(tableData: seq<TableRow>, domains: seq<string>): (b: TableBody)
    ensures b.NoData? <==> |tableData| == 0
    ensures b.NoData? ==> b.colSpan == |domains| + 3
    ensures b.Rows? ==> |b.cells| == |tableData|
    ensures b.Rows? ==> forall k :: 0 <= k < |tableData| ==> |b.cells[k]| == |domains|
    ensures b.Rows? ==> forall k, d :: 0 <= k < |tableData| && 0 <= d < |domains| ==>
      b.cells[k][d] == ScoreCell(tableData[k].scores, domains[d])
  {
    if |tableData| == 0 then NoData(|domains| + 3)
    else Rows(seq(|tableData|, k requires 0 <= k < |tableData| =>
      seq(|domains|, d requires 0 <= d < |domains| => ScoreCell(tableData[k].scores, domains[d]))))
  }
}
