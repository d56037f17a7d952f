/**
 * The filter drop-down: ticking or unticking one checkbox computes the new
 * list of selected options from the current one.
 */
module FilterDropdown {
  import opened Seqs

  /**
   * `handleCheckboxChange`: a selected option is removed (every occurrence),
   * an unselected one is appended at the end. The selection passed in is a
   * value and is never changed; the result is a new list.
   */
  function HandleCheckboxChange(selected: seq<string>, option: string): (r: seq<string>)
    ensures option in r <==> option !in selected
    ensures forall x :: x != option ==> (x in r <==> x in selected)
    ensures option in selected ==> |r| < |selected|
    ensures option in selected ==> forall x :: x != option ==> multiset(r)[x] == multiset(selected)[x]
    ensures option !in selected ==> |r| == |selected| + 1 && r[..|selected|] == selected && r[|selected|] == option
  {
    if option in selected then
      var r := Without(selected, option);
      assert |r| < |selected| by {
        assert multiset(selected)[option] > 0;
        assert multiset(r)[option] == 0;
        MultisetSmaller(r, selected, option);
      }
      r
    else
      selected + [option]
  }

  /** A sequence that lacks one value held by another, and agrees on every other count, is shorter. */
  lemma MultisetSmaller(r: seq<string>, s: seq<string>, v: string)
    requires multiset(r)[v] == 0 && multiset(s)[v] > 0
    requires forall x :: x != v ==> multiset(r)[x] == multiset(s)[x]
    ensures |r| < |s|
  {
    var ms := multiset(s)[v := 0];
    assert multiset(r) == ms;
    assert |multiset(s)| == |ms| + multiset(s)[v];
  }

  /** Ticking an option and then unticking it restores the selection. */
  lemma {:induction false} ToggleTwiceRestores(selected: seq<string>, option: string)
    requires option !in selected
    ensures HandleCheckboxChange(HandleCheckboxChange(selected, option), option) == selected
  {
    assert option in selected + [option];
    WithoutAppended(selected, option);
  }
}
