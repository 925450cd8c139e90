/**
 `builds.sort()`: the listing is put in ascending `NameOrder.Below` order.
 The model uses insertion sort; `SortedUnique` shows that every sorted
 permutation of a listing is the same sequence, so the result does not depend
 on which sorting algorithm Python uses.
 */
module Sorting {
  import opened NameOrder

  predicate Sorted(s: seq<string>) {
    forall i, j :: 0 <= i < j < |s| ==> Below(s[i], s[j])
  }

  /** Putting `h` in front of a sorted sequence whose every element it is
      below keeps it sorted. */
  lemma ConsSorted(h: string, t: seq<string>)
    requires Sorted(t)
    requires forall j :: 0 <= j < |t| ==> Below(h, t[j])
    ensures Sorted([h] + t)
  {
    var r := [h] + t;
    forall i, j | 0 <= i < j < |r| ensures Below(r[i], r[j]) {
      if i > 0 {
        assert r[i] == t[i - 1] && r[j] == t[j - 1];
      }
    }
  }

  /** An element below the head of a sorted sequence is below all of it. */
  lemma BelowHeadBelowAll(x: string, s: seq<string>)
    requires Sorted(s) && |s| > 0 && Below(x, s[0])
    ensures forall j :: 0 <= j < |s| ==> Below(x, s[j])
  {
    forall j | 0 < j < |s| ensures Below(x, s[j]) {
      BelowTransitive(x, s[0], s[j]);
    }
  }

  /** A bound below every element of `t` and below `x` is below every element
      of a sequence holding exactly the elements of `t` and `x`. */
  lemma BelowAllOfPermutation(h: string, t: seq<string>, x: string, r: seq<string>)
    requires forall j :: 0 <= j < |t| ==> Below(h, t[j])
    requires Below(h, x)
    requires multiset(r) == multiset(t) + multiset{x}
    ensures forall j :: 0 <= j < |r| ==> Below(h, r[j])
  {
    forall j | 0 <= j < |r| ensures Below(h, r[j]) {
      assert r[j] in multiset(r);
      if r[j] != x {
        assert r[j] in multiset(t);
        var k :| 0 <= k < |t| && t[k] == r[j];
      }
    }
  }

  /** Puts `x` into the sorted sequence `s`, before the first element it is below. */
  function Insert(x: string, s: seq<string>): (r: seq<string>)
    requires Sorted(s)
    ensures Sorted(r)
    ensures multiset(r) == multiset(s) + multiset{x}
  {
    if |s| == 0 then [x]
    else if Below(x, s[0]) then
      BelowHeadBelowAll(x, s);
      ConsSorted(x, s);
      [x] + s
    else
      var rest := Insert(x, s[1..]);
      BelowTotal(x, s[0]);
      assert s == [s[0]] + s[1..];
      assert forall j :: 0 <= j < |s[1..]| ==> Below(s[0], s[1..][j]) by {
        forall j | 0 <= j < |s[1..]| ensures Below(s[0], s[1..][j]) {
          assert s[1..][j] == s[j + 1];
        }
      }
      BelowAllOfPermutation(s[0], s[1..], x, rest);
      ConsSorted(s[0], rest);
      [s[0]] + rest
  }

  /** The listing in ascending order: a sorted permutation of `s`. */
  function SortNames(s: seq<string>): (r: seq<string>)
    ensures Sorted(r)
    ensures multiset(r) == multiset(s)
  {
    if |s| == 0 then []
    else
      assert s == [s[0]] + s[1..];
      Insert(s[0], SortNames(s[1..]))
  }

  /** Two sorted sequences with the same elements start with the same element. */
  lemma SortedSameHead(a: seq<string>, b: seq<string>)
    requires Sorted(a) && Sorted(b)
    requires multiset(a) == multiset(b) && |a| > 0
    ensures |b| > 0 && a[0] == b[0]
  {
    assert a[0] in multiset(b);
    var j :| 0 <= j < |b| && b[j] == a[0];
    assert b[0] in multiset(a);
    var i :| 0 <= i < |a| && a[i] == b[0];
    if j > 0 { assert Below(b[0], a[0]); } else { BelowReflexive(a[0]); }
    if i > 0 { assert Below(a[0], b[0]); } else { BelowReflexive(a[0]); }
    BelowAntisymmetric(a[0], b[0]);
  }

  lemma MultisetOfTail(a: seq<string>)
    requires |a| > 0
    ensures multiset(a[1..]) == multiset(a) - multiset{a[0]}
  {
    assert a == [a[0]] + a[1..];
  }

  /** A sorted sequence is determined by its elements. */
  lemma {:induction false} SortedUnique(a: seq<string>, b: seq<string>)
    requires Sorted(a) && Sorted(b)
    requires multiset(a) == multiset(b)
    ensures a == b
    decreases |a|
  {
    if |a| == 0 {
      assert |b| == |multiset(b)| == 0;
    } else {
      SortedSameHead(a, b);
      MultisetOfTail(a);
      MultisetOfTail(b);
      SortedUnique(a[1..], b[1..]);
      assert a == [a[0]] + a[1..];
      assert b == [b[0]] + b[1..];
    }
  }

  /** In a sorted sequence, an element of the prefix `b[..s]` is below every
      element that is not in that prefix. */
  lemma SortedPrefixBelow(b: seq<string>, s: nat, k: nat, x: string)
    requires Sorted(b) && k < s <= |b|
    requires x in b && x !in b[..s]
    ensures Below(b[k], x)
  {
    assert b == b[..s] + b[s..];
    assert x in b[s..];
    var m :| 0 <= m < |b[s..]| && b[s..][m] == x;
    assert b[s + m] == x;
  }

  /** `SortNames` is the only sorted permutation of its argument. */
  lemma SortNamesIsTheSortedPermutation(s: seq<string>, t: seq<string>)
    requires Sorted(t) && multiset(t) == multiset(s)
    ensures t == SortNames(s)
  {
    SortedUnique(t, SortNames(s));
  }
}
