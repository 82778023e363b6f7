/** Counting occurrences in a sequence, and the pigeonhole argument that
    turns "no value repeats" into "every value occurs exactly once". */
module Counting {

  /** The number of positions of `s` that hold `v`. */
  function Occ(s: seq<int>, v: int): (k: nat)
    ensures k <= |s|
  {
    if s == [] then 0 else (if s[0] == v then 1 else 0) + Occ(s[1..], v)
  }

  predicate Distinct(s: seq<int>)
  {
    forall i, j :: 0 <= i < j < |s| ==> s[i] != s[j]
  }

  predicate AllIn(s: seq<int>, lo: int, hi: int)
  {
    forall i :: 0 <= i < |s| ==> lo <= s[i] <= hi
  }

  lemma {:induction false} OccPositive(s: seq<int>, i: nat)
    requires i < |s|
    ensures Occ(s, s[i]) >= 1
  {
    if i > 0 {
      assert s[1..][i - 1] == s[i];
      OccPositive(s[1..], i - 1);
    }
  }

  lemma {:induction false} OccAtLeastTwo(s: seq<int>, i: nat, j: nat)
    requires i < j < |s| && s[i] == s[j]
    ensures Occ(s, s[i]) >= 2
  {
    if i == 0 {
      assert s[1..][j - 1] == s[j];
      OccPositive(s[1..], j - 1);
    } else {
      assert s[1..][i - 1] == s[i] && s[1..][j - 1] == s[j];
      OccAtLeastTwo(s[1..], i - 1, j - 1);
    }
  }

  lemma {:induction false} OccZero(s: seq<int>, v: int)
    requires forall i :: 0 <= i < |s| ==> s[i] != v
    ensures Occ(s, v) == 0
  {
    if s != [] {
      OccZero(s[1..], v);
    }
  }

  lemma {:induction false} OccDistinct(s: seq<int>, v: int)
    requires Distinct(s)
    ensures Occ(s, v) <= 1
  {
    if s != [] {
      if s[0] == v {
        OccZero(s[1..], v);
      } else {
        OccDistinct(s[1..], v);
      }
    }
  }

  function Elems(s: seq<int>): set<int>
  {
    set x | x in s
  }

  lemma {:induction false} ElemsOfDistinct(s: seq<int>)
    requires Distinct(s)
    ensures |Elems(s)| == |s|
  {
    if s != [] {
      ElemsOfDistinct(s[1..]);
      assert Elems(s) == {s[0]} + Elems(s[1..]);
      assert s[0] !in Elems(s[1..]);
    }
  }

  /** The set {1, ..., n}, with its size. */
  function Range(n: nat): (r: set<int>)
    ensures forall v :: v in r <==> 1 <= v <= n
    ensures |r| == n
  {
    if n == 0 then {} else Range(n - 1) + {n}
  }

  lemma SubsetSize(a: set<int>, b: set<int>)
    requires a <= b
    ensures |a| <= |b|
  {
    assert b == a + (b - a);
  }

  /** Pigeonhole: n pairwise distinct values drawn from 1..n take every
      value of 1..n exactly once. */
  lemma Pigeonhole(s: seq<int>, n: nat, v: int)
    requires |s| == n && AllIn(s, 1, n) && Distinct(s)
    requires 1 <= v <= n
    ensures Occ(s, v) == 1
  {
    OccDistinct(s, v);
    if v !in s {
      ElemsOfDistinct(s);
      assert Elems(s) <= Range(n) - {v};
      SubsetSize(Elems(s), Range(n) - {v});
      assert false;
    }
    var i :| 0 <= i < |s| && s[i] == v;
    OccPositive(s, i);
  }

  /** For n values drawn from 1..n, "each of 1..n occurs exactly once" and
      "no value repeats" say the same thing. */
  lemma ExactlyOnceIffDistinct(s: seq<int>, n: nat)
    requires |s| == n && AllIn(s, 1, n)
    ensures (forall v :: 1 <= v <= n ==> Occ(s, v) == 1) <==> Distinct(s)
  {
    if Distinct(s) {
      forall v | 1 <= v <= n ensures Occ(s, v) == 1 {
        Pigeonhole(s, n, v);
      }
    }
    if !Distinct(s) {
      var i, j :| 0 <= i < j < |s| && s[i] == s[j];
      OccAtLeastTwo(s, i, j);
    }
  }
}
