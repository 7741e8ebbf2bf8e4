// Facts about sequences that several modules use.
module Sequences {
  ghost predicate Distinct<T>(s: seq<T>) {
    forall i, j :: 0 <= i < j < |s| ==> s[i] != s[j]
  }

  /** `p` lists each of 0..n-1 exactly once. */
  ghost predicate IsPermutation(p: seq<nat>, n: nat) {
    |p| == n && Distinct(p) && forall i :: 0 <= i < n ==> p[i] < n
  }

  ghost function Elements<T>(s: seq<T>): set<T> {
    set i | 0 <= i < |s| :: s[i]
  }

  lemma {:induction false} DistinctSize<T>(s: seq<T>)
    requires Distinct(s)
    ensures |Elements(s)| == |s|
  {
    if s != [] {
      var init, last := s[..|s| - 1], s[|s| - 1];
      DistinctSize(init);
      ElementsSnoc(init, last);
      assert s == init + [last];
      assert last !in Elements(init);
    }
  }

  lemma ElementsSnoc<T>(s: seq<T>, x: T)
    ensures Elements(s + [x]) == Elements(s) + {x}
  {
    var t := s + [x];
    assert t[|s|] == x;
    forall i | 0 <= i < |s| ensures s[i] in Elements(t) { assert t[i] == s[i]; }
  }

  ghost function Below(n: nat): (s: set<nat>)
    ensures |s| == n && forall x: nat :: x in s <==> x < n
  {
    if n == 0 then {} else Below(n - 1) + {n - 1}
  }

  lemma SubsetOfSameSize<T>(a: set<T>, b: set<T>)
    requires a <= b && |a| == |b|
    ensures a == b
  {
    assert |b - a| == |b| - |a|;
  }

  /** A permutation reaches every index. */
  lemma PermutationCovers(p: seq<nat>, n: nat, x: nat)
    requires IsPermutation(p, n) && x < n
    ensures exists i :: 0 <= i < n && p[i] == x
  {
    DistinctSize(p);
    SubsetOfSameSize(Elements(p), Below(n));
    assert x in Elements(p);
  }
}
