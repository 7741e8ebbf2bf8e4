/** The random shuffle shared by the ledger client and the channel configuration
    query: element i is exchanged with element rand.Intn(i + 1). */
module Shuffle {
  import opened Options
  import opened Sequences

  /** `draws(i)` is what rand.Intn(i + 1) returns in round i. */
  ghost predicate InRange(draws: nat -> nat) {
    forall i: nat :: draws(i) <= i
  }

  function Swap<T>(s: seq<T>, i: nat, j: nat): seq<T>
    requires i < |s| && j < |s|
  {
    s[i := s[j]][j := s[i]]
  }

  /** Append `x`, then exchange it with element `j`. */
  ghost function Insert<T>(s: seq<T>, x: T, j: nat): seq<T>
    requires j <= |s|
  {
    Swap(s + [x], |s|, j)
  }

  /** What the draws make of `s`. */
  ghost function Shuffled<T>(s: seq<T>, draws: nat -> nat): (r: seq<T>)
    requires InRange(draws)
    ensures |r| == |s|
  {
    if s == [] then [] else Insert(Shuffled(s[..|s| - 1], draws), s[|s| - 1], draws(|s| - 1))
  }

  lemma SwapPermutes<T>(s: seq<T>, i: nat, j: nat)
    requires i < |s| && j < |s|
    ensures multiset(Swap(s, i, j)) == multiset(s)
    ensures Swap(Swap(s, i, j), i, j) == s
  {
  }

  lemma InsertAdds<T>(s: seq<T>, x: T, j: nat)
    requires j <= |s|
    ensures multiset(Insert(s, x, j)) == multiset(s) + multiset{x}
  {
    SwapPermutes(s + [x], |s|, j);
  }

  lemma {:induction false} ShuffleKeeps<T>(s: seq<T>, draws: nat -> nat)
    requires InRange(draws)
    ensures multiset(Shuffled(s, draws)) == multiset(s)
  {
    if s != [] {
      var n := |s| - 1;
      ShuffleKeeps(s[..n], draws);
      InsertAdds(Shuffled(s[..n], draws), s[n], draws(n));
      hide Insert;
      assert s == s[..n] + [s[n]];
    }
  }

  /** Taking `x` back out of an arrangement that holds it. */
  lemma Uninsert<T>(t: seq<T>, x: T) returns (u: seq<T>, j: nat)
    requires x in t
    ensures |u| + 1 == |t| && j <= |u| && t == Insert(u, x, j)
    ensures multiset(t) == multiset(u) + multiset{x}
  {
    j :| j < |t| && t[j] == x;
    var n := |t| - 1;
    var w := Swap(t, n, j);
    u := w[..n];
    assert w == u + [x];
    SwapPermutes(t, n, j);
    InsertAdds(u, x, j);
  }

  lemma {:induction false} ShuffledDependsOn<T>(s: seq<T>, d: nat -> nat, e: nat -> nat)
    requires InRange(d) && InRange(e) && forall i :: 0 <= i < |s| ==> d(i) == e(i)
    ensures Shuffled(s, d) == Shuffled(s, e)
  {
    if s != [] {
      ShuffledDependsOn(s[..|s| - 1], d, e);
    }
  }

  /** Every arrangement of `s` can come out. */
  lemma {:induction false} ShuffleReaches<T>(s: seq<T>, t: seq<T>) returns (draws: nat -> nat)
    requires multiset(t) == multiset(s)
    ensures InRange(draws) && Shuffled(s, draws) == t
  {
    if s == [] {
      assert |multiset(s)| == |multiset(t)|;
      draws := i => 0;
    } else {
      var n := |s| - 1;
      var u, j := TakeLast(s, t);
      var before := ShuffleReaches(s[..n], u);
      draws := i => if i == n then j else before(i);
      ShuffledDependsOn(s[..n], draws, before);
      hide Insert;
    }
  }

  lemma TakeLast<T>(s: seq<T>, t: seq<T>) returns (u: seq<T>, j: nat)
    requires s != [] && multiset(t) == multiset(s)
    ensures multiset(u) == multiset(s[..|s| - 1]) && |u| == |s| - 1
    ensures j <= |u| && t == Insert(u, s[|s| - 1], j)
  {
    var init, x := s[..|s| - 1], s[|s| - 1];
    assert s == init + [x];
    assert x in multiset(t);
    u, j := Uninsert(t, x);
    hide *;
    assert multiset(u) == multiset(t) - multiset{x} == multiset(init);
    assert |multiset(u)| == |multiset(init)|;
  }

  /** Different draws give different arrangements: with ShuffleReaches, each
      arrangement of distinct elements comes from exactly one series of draws, so
      independent uniform draws make all arrangements equally likely. */
  lemma {:induction false} ShuffleOneToOne<T>(s: seq<T>, d: nat -> nat, e: nat -> nat)
    requires InRange(d) && InRange(e)
    requires Distinct(s)
    requires Shuffled(s, d) == Shuffled(s, e)
    ensures forall i :: 0 <= i < |s| ==> d(i) == e(i)
  {
    if s != [] {
      var n := |s| - 1;
      LastIsNew(s);
      assert Shuffled(s, d) == Insert(Shuffled(s[..n], d), s[n], d(n));
      assert Shuffled(s, e) == Insert(Shuffled(s[..n], e), s[n], e(n));
      hide *;
      ShuffleKeeps(s[..n], d);
      ShuffleKeeps(s[..n], e);
      InsertOneToOne(Shuffled(s[..n], d), Shuffled(s[..n], e), s[n], d(n), e(n));
      ShuffleOneToOne(s[..n], d, e);
      forall i | 0 <= i < |s| ensures d(i) == e(i) {
        assert i < n || i == n;
      }
    }
  }

  lemma LastIsNew<T>(s: seq<T>)
    requires s != [] && Distinct(s)
    ensures Distinct(s[..|s| - 1]) && s[|s| - 1] !in multiset(s[..|s| - 1])
  {
  }

  lemma InsertOneToOne<T>(s: seq<T>, t: seq<T>, x: T, i: nat, j: nat)
    requires |s| == |t| && i <= |s| && j <= |t|
    requires x !in multiset(s) && x !in multiset(t)
    requires Insert(s, x, i) == Insert(t, x, j)
    ensures s == t && i == j
  {
    var r := Insert(s, x, i);
    assert r[i] == x && r[j] == x;
    SwapPermutes(s + [x], |s|, i);
    SwapPermutes(t + [x], |t|, j);
    assert (s + [x])[..|s|] == s && (t + [x])[..|t|] == t;
  }

  method InPlace<T>(a: array<T>, draws: nat -> nat)
    requires InRange(draws)
    modifies a
    ensures a[..] == Shuffled(old(a[..]), draws)
    ensures multiset(a[..]) == multiset(old(a[..]))
  {
    ghost var was := a[..];
    for i := 0 to a.Length
      invariant a[..i] == Shuffled(was[..i], draws)
      invariant a[i..] == was[i..]
    {
      var j := draws(i);
      assert a[i] == a[i..][0] == was[i];
      ghost var front := a[..i];
      a[i], a[j] := a[j], a[i];
      assert a[..i + 1] == Insert(front, was[i], j);
      assert was[..i + 1][..i] == was[..i];
      assert a[i + 1..] == was[i..][1..] == was[i + 1..];
    }
    assert was[..a.Length] == was;
    ShuffleKeeps(was, draws);
  }

  lemma PrefixBelow<T>(s: seq<T>, k: nat)
    requires k <= |s|
    ensures multiset(s[..k]) <= multiset(s)
  {
    assert s == s[..k] + s[k..];
  }

  /** At most `max` of the targets; the caller's own list is left alone when they
      all fit. None stands for slicing with a negative bound, which panics. */
  method RandomMaxTargets<T>(targets: array<T>, max: int, draws: nat -> nat) returns (chosen: Option<seq<T>>)
    requires InRange(draws)
    modifies targets
    ensures chosen.None? <==> max < 0
    ensures targets[..] == if targets.Length <= max then old(targets[..]) else Shuffled(old(targets[..]), draws)
    ensures chosen.Some? ==>
      && |chosen.value| == (if targets.Length <= max then targets.Length else max)
      && chosen.value == targets[..|chosen.value|]
      && multiset(chosen.value) <= multiset(old(targets[..])) == multiset(targets[..])
  {
    if targets.Length <= max {
      return Some(targets[..]);
    }
    InPlace(targets, draws);
    if max < 0 {
      return None;
    }
    PrefixBelow(targets[..], max);
    return Some(targets[..max]);
  }

  /** A negative maximum panics even on a single target. */
  method NegativeMaximum<T>(target: T) returns (chosen: Option<seq<T>>)
    ensures chosen.None?
  {
    var targets := new T[] [target];
    chosen := RandomMaxTargets(targets, -1, i => 0);
  }
}
