/**
 Facts about finite sets of integers and the sequences that enumerate them in
 increasing order. SQL's ORDER BY, MIN and MAX are stated with these.
 */
module Ordered {

  /** A non-empty set has an element to choose. */
  lemma Inhabited(s: set<int>)
    ensures s != {} ==> exists x :: x in s
  {
    if forall x :: x !in s {
      assert s == {};
    }
  }

  /** The smallest element of a non-empty set: SQL's MIN. */
  ghost function Min(s: set<int>): (m: int)
    requires s != {}
    ensures m in s && forall x :: x in s ==> m <= x
  {
    Inhabited(s);
    var x :| x in s;
    if s == {x} then x
    else
      var m := Min(s - {x});
      assert forall y :: y in s ==> y == x || y in s - {x};
      if x < m then x else m
  }

  /** The largest element of a non-empty set: SQL's MAX. */
  ghost function Max(s: set<int>): (m: int)
    requires s != {}
    ensures m in s && forall x :: x in s ==> x <= m
  {
    Inhabited(s);
    var x :| x in s;
    if s == {x} then x
    else
      var m := Max(s - {x});
      assert forall y :: y in s ==> y == x || y in s - {x};
      if x > m then x else m
  }

  ghost predicate Increasing(s: seq<int>) {
    forall i, j :: 0 <= i < j < |s| ==> s[i] < s[j]
  }

  /** The elements of a set in increasing order: SQL's ORDER BY over a unique key. */
  ghost function Sorted(s: set<int>): (r: seq<int>)
    ensures Increasing(r)
    ensures forall i :: 0 <= i < |r| ==> r[i] in s
    ensures |r| == |s|
  {
    if s == {} then [] else Sorted(s - {Max(s)}) + [Max(s)]
  }

  /** Every element of the set is enumerated. */
  lemma SortedHas(s: set<int>, x: int) returns (i: nat)
    requires x in s
    ensures i < |Sorted(s)| && Sorted(s)[i] == x
  {
    var m := Max(s);
    if x == m {
      i := |s| - 1;
    } else {
      i := SortedHas(s - {m}, x);
    }
  }

  /** Adding a new largest element appends it to the enumeration. */
  lemma SortedSnoc(s: set<int>, m: int)
    requires forall x :: x in s ==> x < m
    ensures Sorted(s + {m}) == Sorted(s) + [m]
  {
    assert Max(s + {m}) == m;
    assert s + {m} - {m} == s;
  }

  /** The largest element comes last. */
  lemma SortedLast(s: set<int>, m: int)
    requires m in s && forall x :: x in s ==> x <= m
    ensures |Sorted(s)| > 0 && Sorted(s)[|Sorted(s)| - 1] == m
  {
    assert Max(s) == m;
  }

  /** A set that fits strictly inside another has fewer elements. */
  lemma SubsetCard<T>(a: set<T>, b: set<T>)
    requires a <= b
    ensures |a| <= |b|
    ensures |a| == |b| ==> a == b
  {
    assert b == a + (b - a);
    if |a| == |b| {
      assert |b - a| == 0;
    }
  }
}
