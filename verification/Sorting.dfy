/** A stable sort by a key: what the source's `sorted(..., key=...)` answers. */
module Sorting {

  ghost predicate SortedBy<T>(key: T -> real, s: seq<T>) {
    forall i, j :: 0 <= i < j < |s| ==> key(s[i]) <= key(s[j])
  }

  /** `x` goes behind every element whose key is not greater. */
  function InsertBy<T(!new)>(key: T -> real, s: seq<T>, x: T): (r: seq<T>)
    requires SortedBy(key, s)
    ensures SortedBy(key, r)
    ensures multiset(r) == multiset(s) + multiset{x} && |r| == |s| + 1
    ensures forall y :: y in r <==> y == x || y in s
  {
    if s == [] || key(s[|s| - 1]) <= key(x) then
      assert s == [] || (forall i :: 0 <= i < |s| ==> key(s[i]) <= key(s[|s| - 1]));
      s + [x]
    else
      var last := s[|s| - 1];
      assert s == s[..|s| - 1] + [last];
      var front := InsertBy(key, s[..|s| - 1], x);
      assert forall i :: 0 <= i < |front| ==> key(front[i]) <= key(last) by {
        forall i | 0 <= i < |front|
          ensures key(front[i]) <= key(last)
        {
          assert front[i] in front;
        }
      }
      front + [last]
  }

  function SortBy<T(!new)>(key: T -> real, s: seq<T>): (r: seq<T>)
    ensures SortedBy(key, r)
    ensures multiset(r) == multiset(s)
    ensures |r| == |s|
    ensures forall y :: y in r <==> y in s
  {
    if s == [] then
      []
    else
      assert s == s[..|s| - 1] + [s[|s| - 1]];
      InsertBy(key, SortBy(key, s[..|s| - 1]), s[|s| - 1])
  }

  /** Sorted by the key, and where that is the same one comes before the other. */
  ghost predicate SortedThen<T>(key: T -> real, before: (T, T) -> bool, s: seq<T>) {
    forall i, j :: 0 <= i < j < |s| ==> key(s[i]) < key(s[j]) || (key(s[i]) == key(s[j]) && before(s[i], s[j]))
  }

  ghost predicate InOrder<T>(before: (T, T) -> bool, s: seq<T>) {
    forall i, j :: 0 <= i < j < |s| ==> before(s[i], s[j])
  }

  lemma ThenMore<T(!new)>(key: T -> real, before: (T, T) -> bool, s: seq<T>, e: T)
    requires SortedThen(key, before, s) && forall d :: d in s ==> key(d) < key(e) || (key(d) == key(e) && before(d, e))
    ensures SortedThen(key, before, s + [e])
  {
  }

  lemma ThenFront<T(!new)>(key: T -> real, before: (T, T) -> bool, s: seq<T>)
    requires SortedThen(key, before, s) && s != []
    ensures SortedThen(key, before, s[..|s| - 1])
    ensures forall d :: d in s[..|s| - 1] ==> key(d) < key(s[|s| - 1]) || (key(d) == key(s[|s| - 1]) && before(d, s[|s| - 1]))
  {
  }

  lemma {:induction false} InsertThen<T(!new)>(key: T -> real, before: (T, T) -> bool, s: seq<T>, e: T)
    requires SortedBy(key, s) && SortedThen(key, before, s) && forall d :: d in s ==> before(d, e)
    ensures SortedThen(key, before, InsertBy(key, s, e))
  {
    if s != [] && key(s[|s| - 1]) > key(e) {
      hide SortedThen;
      var n := |s| - 1;
      ThenFront(key, before, s);
      InsertThen(key, before, s[..n], e);
      ThenMore(key, before, InsertBy(key, s[..n], e), s[n]);
    } else {
      ThenMore(key, before, s, e);
    }
  }

  /** Sorting is stable: elements with one key keep the order they came in. */
  lemma {:induction false} SortThen<T(!new)>(key: T -> real, before: (T, T) -> bool, s: seq<T>)
    requires InOrder(before, s)
    ensures SortedThen(key, before, SortBy(key, s))
  {
    if s != [] {
      var n := |s| - 1;
      SortThen(key, before, s[..n]);
      forall d | d in SortBy(key, s[..n])
        ensures before(d, s[n])
      {
        var k :| 0 <= k < n && s[k] == d;
      }
      InsertThen(key, before, SortBy(key, s[..n]), s[n]);
    }
  }

  function Range(n: nat): (r: seq<nat>)
    ensures |r| == n
    ensures forall i :: 0 <= i < n ==> r[i] == i
  {
    seq(n, i => i)
  }

  ghost predicate Distinct<T>(s: seq<T>) {
    forall i, j :: 0 <= i < j < |s| ==> s[i] != s[j]
  }

  /** `s` lists each index below `n` exactly once. */
  ghost predicate Permutation(s: seq<nat>, n: nat) {
    && |s| == n
    && Distinct(s)
    && (forall i :: i in s <==> 0 <= i < n)
  }

  lemma DistinctCounts<T>(s: seq<T>, x: T)
    requires Distinct(s)
    ensures multiset(s)[x] <= 1
  {
    if s != [] {
      var n := |s| - 1;
      assert s == s[..n] + [s[n]];
      DistinctCounts(s[..n], x);
    }
  }

  /** Reordering keeps elements distinct. */
  lemma ReorderedDistinct<T>(s: seq<T>, r: seq<T>)
    requires Distinct(s) && multiset(r) == multiset(s)
    ensures Distinct(r)
  {
    forall i, j | 0 <= i < j < |r|
      ensures r[i] != r[j]
    {
      DistinctCounts(s, r[i]);
      assert r == r[..i] + [r[i]] + r[i + 1..j] + [r[j]] + r[j + 1..];
    }
  }

  lemma SortedRange(key: nat -> real, n: nat)
    ensures Permutation(SortBy(key, Range(n)), n)
  {
    var r := SortBy(key, Range(n));
    ReorderedDistinct(Range(n), r);
    forall i
      ensures i in r <==> 0 <= i < n
    {
      if 0 <= i < n {
        assert Range(n)[i] == i;
      }
    }
  }

  /** The indices sorted by a key: equal keys in the order of the indices. */
  lemma SortedRangeThen(key: nat -> real, n: nat)
    ensures var r := SortBy(key, Range(n));
            && Permutation(r, n)
            && forall a, b :: 0 <= a < b < n ==> key(r[a]) < key(r[b]) || (key(r[a]) == key(r[b]) && r[a] < r[b])
  {
    SortedRange(key, n);
    SortThen(key, (i: nat, j: nat) => i < j, Range(n));
  }

  /** A set that is not empty has a member. */
  lemma Member<T>(s: set<T>) returns (x: T)
    requires s != {}
    ensures x in s
  {
    x :| x in s;
  }

  /** The greatest of the numbers, or 0. */
  function Greatest(s: seq<nat>): (g: nat)
    ensures forall i :: 0 <= i < |s| ==> s[i] <= g
    ensures g == 0 || g in s
  {
    if s == [] then 0
    else
      var rest := Greatest(s[..|s| - 1]);
      if rest < s[|s| - 1] then s[|s| - 1] else rest
  }
}
