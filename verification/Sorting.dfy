/** Sorting by a key. Callers may rely only on what a sort ensures: equal keys can come in any
    order. */
module Sorting {

  ghost predicate SortedBy<T>(key: T -> real, s: seq<T>) {
    forall i, j | 0 <= i < j < |s| :: key(s[i]) <= key(s[j])
  }

  ghost predicate DistinctBy<T>(key: T -> real, s: seq<T>) {
    forall i, j | 0 <= i < j < |s| :: key(s[i]) != key(s[j])
  }

  function Insert<T>(key: T -> real, s: seq<T>, x: T): (r: seq<T>)
    ensures multiset(r) == multiset(s) + multiset{x}
  {
    var n := |s| - 1;
    if s == [] || key(s[n]) <= key(x) then s + [x]
    else
      assert s == s[..n] + [s[n]];
      Insert(key, s[..n], x) + [s[n]]
  }

  lemma AppendKeepsSorted<T>(key: T -> real, s: seq<T>, x: T)
    requires SortedBy(key, s) && forall y | y in s :: key(y) <= key(x)
    ensures SortedBy(key, s + [x])
  {
    forall i, j | 0 <= i < j < |s + [x]| ensures key((s + [x])[i]) <= key((s + [x])[j]) {
      assert s[i] in s;
    }
  }

  lemma {:induction false} InsertKeepsSorted<T>(key: T -> real, s: seq<T>, x: T)
    requires SortedBy(key, s)
    ensures SortedBy(key, Insert(key, s, x))
  {
    var n := |s| - 1;
    if s == [] || key(s[n]) <= key(x) {
      AppendKeepsSorted(key, s, x);
    } else {
      var r := Insert(key, s[..n], x);
      InsertKeepsSorted(key, s[..n], x);
      forall y | y in r ensures key(y) <= key(s[n]) {
        assert y in multiset(r);
        assert y in s[..n] || y == x;
      }
      AppendKeepsSorted(key, r, s[n]);
    }
  }

  method Sort<T>(key: T -> real, s: seq<T>) returns (sorted: seq<T>)
    ensures multiset(sorted) == multiset(s) && SortedBy(key, sorted)
  {
    sorted := [];
    for i := 0 to |s|
      invariant multiset(sorted) == multiset(s[..i]) && SortedBy(key, sorted)
    {
      InsertKeepsSorted(key, sorted, s[i]);
      assert s[..i + 1] == s[..i] + [s[i]];
      sorted := Insert(key, sorted, s[i]);
    }
    assert s[..|s|] == s;
  }

  lemma {:induction false} OccursOnce<T>(key: T -> real, s: seq<T>, x: T)
    requires DistinctBy(key, s)
    ensures multiset(s)[x] <= 1
  {
    if s != [] {
      var n := |s| - 1;
      assert s == s[..n] + [s[n]];
      OccursOnce(key, s[..n], x);
      assert x == s[n] ==> x !in s[..n];
    }
  }

  lemma RepeatIsTwo<T>(s: seq<T>, i: nat, j: nat)
    requires i < j < |s| && s[i] == s[j]
    ensures multiset(s)[s[i]] >= 2
  {
    assert s == s[..j] + s[j..];
    assert s[i] in s[..j] && s[i] in s[j..];
  }

  /** Distinct keys stay distinct. */
  lemma SortKeepsDistinct<T>(key: T -> real, s: seq<T>, sorted: seq<T>)
    requires DistinctBy(key, s) && multiset(sorted) == multiset(s)
    ensures DistinctBy(key, sorted)
  {
    forall i, j | 0 <= i < j < |sorted| ensures key(sorted[i]) != key(sorted[j]) {
      var x, y := sorted[i], sorted[j];
      assert x in multiset(sorted) && y in multiset(sorted);
      OccursOnce(key, s, x);
      if x == y { RepeatIsTwo(sorted, i, j); }
    }
  }
}
