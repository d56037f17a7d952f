/** Generic helpers on sequences used by several modules. */
module Seqs {
  /** The elements of a sequence, as a set. */
  function SetOf<T(!new)>(s: seq<T>): (r: set<T>)
    ensures forall x :: x in r <==> x in s
  {
    set x | x in s
  }

  /** `a` is `b` with some elements removed, the order kept. */
  predicate SubsequenceOf<T(==)>(a: seq<T>, b: seq<T>)
    decreases |b|
  {
    |a| == 0
    || (|b| > 0 && ((a[0] == b[0] && SubsequenceOf(a[1..], b[1..])) || SubsequenceOf(a, b[1..])))
  }

  /** The elements of a prefix one longer are those of the prefix and the new element. */
  lemma SetOfSnoc<T(!new)>(s: seq<T>, i: nat)
    requires i < |s|
    ensures SetOf(s[..i + 1]) == SetOf(s[..i]) + {s[i]}
  {
    assert s[..i + 1] == s[..i] + [s[i]];
  }

  /** `s.filter(x => x !== value)`: every occurrence of `value` removed, the rest in order. */
  function Without<T(==,!new)>(s: seq<T>, value: T): (r: seq<T>)
    ensures value !in r && |r| <= |s|
    ensures forall x :: x != value ==> (x in r <==> x in s)
    ensures forall x :: x != value ==> multiset(r)[x] == multiset(s)[x]
    ensures SubsequenceOf(r, s)
  {
    if |s| == 0 then []
    else
      var rest := Without(s[1..], value);
      assert s == [s[0]] + s[1..];
      if s[0] != value then
        assert ([s[0]] + rest)[1..] == rest;
        [s[0]] + rest
      else rest
  }

  /** Removing a value that does not occur changes nothing. */
  lemma {:induction false} WithoutAbsent<T(!new)>(s: seq<T>, value: T)
    requires value !in s
    ensures Without(s, value) == s
  {
    if |s| > 0 {
      WithoutAbsent(s[1..], value);
      assert s == [s[0]] + s[1..];
    }
  }

  /** Appending a value and then removing it gives back a list that did not hold it. */
  lemma WithoutAppended<T(!new)>(s: seq<T>, value: T)
    requires value !in s
    ensures Without(s + [value], value) == s
  {
    WithoutSnoc(s, value);
    WithoutAbsent(s, value);
  }

  lemma {:induction false} WithoutSnoc<T(!new)>(s: seq<T>, value: T)
    ensures Without(s + [value], value) == Without(s, value)
  {
    if |s| == 0 {
      assert [value][1..] == [];
    } else {
      assert (s + [value])[1..] == s[1..] + [value];
      WithoutSnoc(s[1..], value);
    }
  }
}
