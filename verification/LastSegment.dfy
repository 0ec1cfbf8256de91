/** How cleaning ends the process with a segment in reserve: the documentation of the reserved segment promises
    otherwise. KvStore.Store.Alloc says for all states when an allocation for cleaning succeeds; here one is reached
    in which it does not. */
module LastSegment {
  import opened Wrappers
  import opened LogLayout
  import opened HashTable
  import opened Segments
  import opened CleanupRing
  import opened References
  import opened KvStore
  import opened StaleWalk

  /** Of three segments two are full and the third is the reserved one. The cleanup queue holds the one live item of the
      first, which the table refers to as well. */
  lemma NoWayOut(s: Store, c: nat)
    requires Swept(s, c) && s.segMaxNum == 3
    ensures s.CoreValid() && s.Cornered() && s.reserved.Some?
  {
    hide s.WalkValid;
    CountOf(s, Addr(0, LARGE));
    hide s.CoreValid;
  }

  /** From an empty store, by sets of A, B, A and C and two calls of maintenance, to a state in which cleaning, with a
      segment in reserve, ends the process. */
  method Example() returns (s: Store, n: nat, ended: bool)
    ensures fresh(s) && ended && s.reserved.Some?
  {
    hide *;
    s := Start(3);
    LoadFirst(s);
    ghost var c := LoadSecond(s);
    SweepBegins(s, c);
    SweepEnds(s, c);
    NoWayOut(s, c);
    n, ended := s.CleanLog(true);
  }
}
