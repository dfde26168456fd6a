// Finite counting arguments shared by the other modules.
module Counting {

  predicate Distinct<T(==)>(s: seq<T>) { forall i, j :: 0 <= i < j < |s| ==> s[i] != s[j] }

  lemma SubsetSize<T>(a: set<T>, b: set<T>)
    requires a <= b
    ensures |a| <= |b|
    ensures |a| == |b| ==> a == b
  {
    assert b == a + (b - a);
    assert |b| == |a| + |b - a|;
    if |b - a| == 0 { assert b - a == {}; }
  }

  function Elements<T(==,!new)>(s: seq<T>): (r: set<T>)
    ensures forall x :: x in r <==> x in s
  {
    if s == [] then {} else {s[0]} + Elements(s[1..])
  }

  lemma {:induction false} DistinctSize<T(!new)>(s: seq<T>)
    requires Distinct(s)
    ensures |Elements(s)| == |s|
  {
    if s != [] {
      assert forall i, j :: 0 <= i < j < |s[1..]| ==> s[1..][i] == s[i + 1] && s[1..][j] == s[j + 1];
      DistinctSize(s[1..]);
      assert s[0] !in s[1..];
    }
  }

  function Below(n: nat): (r: set<int>)
    ensures forall x :: x in r <==> 0 <= x < n
    ensures |r| == n
  {
    if n == 0 then {} else Below(n - 1) + {n - 1}
  }

  // n distinct numbers below n are all the numbers below n.
  lemma DistinctCovers(s: seq<int>, n: nat)
    requires Distinct(s) && |s| == n && forall i :: 0 <= i < |s| ==> 0 <= s[i] < n
    ensures forall x :: 0 <= x < n ==> x in s
  {
    DistinctSize(s);
    SubsetSize(Elements(s), Below(n));
    forall x | 0 <= x < n ensures x in s {
      assert x in Below(n);
    }
  }
}
