/** Cardinalities of sets and of duplicate-free sequences. */
module Counting {

  ghost predicate Distinct<T>(s: seq<T>) {
    forall i, j :: 0 <= i < j < |s| ==> s[i] != s[j]
  }

  ghost function ToSet<T(!new)>(s: seq<T>): (r: set<T>)
    ensures forall x :: x in r <==> x in s
  {
    set x | x in s
  }

  ghost function Below(n: nat): (r: set<nat>)
    ensures forall x: nat :: x in r <==> x < n
    ensures |r| == n
  {
    if n == 0 then {} else Below(n - 1) + {n - 1}
  }

  lemma DistinctInit<T(!new)>(s: seq<T>)
    requires Distinct(s) && s != []
    ensures var t, x := s[..|s| - 1], s[|s| - 1]; Distinct(t) && x !in ToSet(t) && ToSet(s) == ToSet(t) + {x}
  {
    var t, x := s[..|s| - 1], s[|s| - 1];
    assert s == t + [x];
    hide ToSet;
  }

  lemma {:induction false} SizeOfDistinct<T(!new)>(s: seq<T>)
    requires Distinct(s)
    ensures |ToSet(s)| == |s|
  {
    hide Distinct;
    if s != [] {
      DistinctInit(s);
      SizeOfDistinct(s[..|s| - 1]);
      hide ToSet;
    }
  }

  lemma {:induction false} SubsetSize<T>(a: set<T>, b: set<T>)
    requires a <= b
    ensures |a| <= |b|
    ensures |a| == |b| ==> a == b
  {
    assert b == a + (b - a);
  }

  lemma FreshNat(s: set<nat>) returns (n: nat)
    ensures n !in s
  {
    var b := Below(|s| + 1);
    assert !(b <= s) by {
      if b <= s { SubsetSize(b, s); }
    }
    n :| n in b && n !in s;
  }

  /** Distinct naturals below `n`: at most `n` of them, and exactly `n` when none is missing. */
  lemma Pigeonhole(s: seq<nat>, n: nat)
    requires Distinct(s) && forall i :: 0 <= i < |s| ==> s[i] < n
    ensures |s| <= n
    ensures |s| == n <==> forall x: nat :: x < n ==> x in s
  {
    SizeOfDistinct(s);
    SubsetSize(ToSet(s), Below(n));
    if forall x: nat :: x < n ==> x in s {
      assert ToSet(s) == Below(n);
    } else {
      var x: nat :| x < n && x !in s;
      assert x in Below(n) && x !in ToSet(s);
    }
  }
}
