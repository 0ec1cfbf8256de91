/** Sequences of numbers without repetition. */
module Sequences {
  ghost predicate Distinct(s: seq<nat>) {
    forall j, k :: 0 <= j < k < |s| ==> s[j] != s[k]
  }

  function Elems(s: seq<nat>): set<nat> {
    set o | o in s
  }

  lemma {:induction false} DistinctSize(s: seq<nat>)
    requires Distinct(s)
    ensures |Elems(s)| == |s|
  {
    if s != [] {
      var r, last := s[..|s| - 1], s[|s| - 1];
      DistinctSize(r);
      assert s == r + [last];
      assert forall k :: 0 <= k < |r| ==> r[k] != last;
      assert Elems(s) == Elems(r) + {last};
    }
  }

  lemma {:induction false} ElemsSize(s: seq<nat>)
    ensures |Elems(s)| <= |s|
  {
    if s != [] {
      var r, last := s[..|s| - 1], s[|s| - 1];
      ElemsSize(r);
      assert s == r + [last];
      assert Elems(s) == Elems(r) + {last};
    }
  }

  lemma SubsetSize<T>(a: set<T>, b: set<T>)
    requires a <= b
    ensures |a| <= |b| && (|a| == |b| ==> a == b)
  {
    var rest := b - a;
    assert b == a + rest && |b| == |a| + |rest|;
  }

  /** No more distinct elements than there are to choose from. */
  lemma FitsIn(s: seq<nat>, t: seq<nat>)
    requires Distinct(s) && forall x :: x in s ==> x in t
    ensures |s| <= |t|
  {
    DistinctSize(s);
    ElemsSize(t);
    SubsetSize(Elems(s), Elems(t));
  }

  function Numbers(n: nat): (s: set<nat>)
    ensures forall p: nat :: p in s <==> p < n
    ensures |s| == n
  {
    if n == 0 then {} else Numbers(n - 1) + {n - 1}
  }

  /** Pigeonhole: n distinct numbers below n are all of them. */
  lemma Pigeonhole(s: seq<nat>, n: nat, i: nat)
    requires |s| == n && Distinct(s) && (forall k :: 0 <= k < n ==> s[k] < n) && i < n
    ensures i in s
  {
    DistinctSize(s);
    SubsetSize(Elems(s), Numbers(n));
    assert i in Elems(s);
  }
}
