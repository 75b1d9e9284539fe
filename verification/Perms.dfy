// Permutations of 0..n-1, used for the parallel index lists of the user dictionary.

module Perms {
  ghost predicate Distinct(s: seq<nat>) {
    forall i, j :: 0 <= i < j < |s| ==> s[i] != s[j]
  }

  // s lists 0..n-1 in some order.
  ghost predicate IsPerm(s: seq<nat>, n: nat) {
    && Distinct(s)
    && (forall i :: 0 <= i < |s| ==> s[i] < n)
    && (forall k: nat :: k < n ==> k in s)
  }

  function Insert(s: seq<nat>, i: nat, x: nat): (r: seq<nat>)
    requires i <= |s|
    ensures |r| == |s| + 1
  {
    s[..i] + [x] + s[i..]
  }

  lemma InsertAt(s: seq<nat>, i: nat, x: nat)
    requires i <= |s|
    ensures forall j :: 0 <= j < i ==> Insert(s, i, x)[j] == s[j]
    ensures Insert(s, i, x)[i] == x
    ensures forall j :: i < j <= |s| ==> Insert(s, i, x)[j] == s[j - 1]
  {}

  lemma PermInsert(s: seq<nat>, i: nat, n: nat)
    requires IsPerm(s, n) && i <= |s|
    ensures IsPerm(Insert(s, i, n), n + 1)
  {
    var t := Insert(s, i, n);
    InsertAt(s, i, n);
    forall k: nat | k < n + 1
      ensures k in t
    {
      if k < n {
        assert k in s;
        var j :| 0 <= j < |s| && s[j] == k;
        assert t[if j < i then j else j + 1] == k;
      }
    }
  }

  ghost function Range(n: nat): (r: set<nat>)
    ensures |r| == n
    ensures forall k: nat :: k in r <==> k < n
  {
    if n == 0 then {} else Range(n - 1) + {n - 1}
  }

  ghost function Elems(s: seq<nat>): set<nat> {
    set x | x in s
  }

  lemma {:induction false} DistinctSize(s: seq<nat>)
    requires Distinct(s)
    ensures |Elems(s)| == |s|
  {
    if s != [] {
      var p, x := s[..|s| - 1], s[|s| - 1];
      DistinctSize(p);
      assert Elems(s) == Elems(p) + {x};
    }
  }

  lemma PermLength(s: seq<nat>, n: nat)
    requires IsPerm(s, n)
    ensures |s| == n
  {
    DistinctSize(s);
    assert Elems(s) == Range(n);
  }

  // n different numbers below n are all of them.
  lemma Pigeonhole(s: seq<nat>, n: nat, k: nat)
    requires Distinct(s) && |s| == n && k < n && forall i :: 0 <= i < |s| ==> s[i] < n
    ensures k in s
  {
    DistinctSize(s);
    assert Elems(s) <= Range(n);
    SubsetFull(Elems(s), Range(n));
    assert k in Elems(s);
  }

  lemma SubsetFull(a: set<nat>, b: set<nat>)
    requires a <= b && |a| == |b|
    ensures a == b
  {
    assert |b - a| == |b| - |a|;
  }
}
