/** How maintenance loses its place: the exception in the contract of Store.Maintenance is reached from an empty store
    by the store's own operations. */
module StaleWalk {
  import opened Wrappers
  import opened Bytes
  import opened Sequences
  import opened LogLayout
  import opened HashTable
  import opened Segments
  import opened CleanupRing
  import opened References
  import opened KvStore

  const SIZE := 320
  const LARGE := 256
  const SMALL := 64

  const A: Key := Key(0, [0])
  const B: Key := Key(0, [1])
  const C: Key := Key(0, [2])

  /** Segments of 320 bytes, one slot in the cleanup queue, memory for all headers, and no segment to reuse. */
  ghost predicate Usual(s: Store)
    reads s
  {
    && s.segSize == SIZE && (forall i :: s.headerOk(i)) && s.cleanupQueue.Length == 1
    && s.held == multiset{} && s.reserved.Some? && s.freeSegments.None?
  }

  /** Allocate and fill in an item. */
  method Place(s: Store, k: Key, total: nat) returns (it: Addr)
    requires s.Valid() && Usual(s) && !s.Exhausted(total) && ITEM_SIZE + |k.bytes| <= total <= SIZE
    modifies s`mem, s`segs, s`freeSegments, s`segAlloced, s`free, s`reserved, s`cur, s`active, s`held
    ensures s.Valid() && s.held == multiset{it} && s.reserved.Some? && s.freeSegments.None?
    ensures s.segAlloced == old(s.segAlloced) + if old(s.Full(total)) then 1 else 0
    ensures Kept(old(s.mem), s.mem, old(s.active)) && !InTable(s.mem, s.index, it)
    ensures it in s.mem && KeyOf(s.mem[it]) == k && Total(s.mem[it]) == total && s.mem[it].refcount == 1
    ensures Placed(old(s.segs), old(s.active), old(s.cur), SIZE, total, s.segs, s.active, s.cur, it)
  {
    hide s.CoreValid, s.WalkValid, s.OutOfSegments, InTable, SameView, Grown, SpaceUsed, Kept, Placed;
    ghost var mem0 := s.mem;
    var r := s.Alloc(total, false);
    it := r.it;
    ghost var mem1 := s.mem;
    s.Fill(it, k.hv, k.bytes, seq(total - ITEM_SIZE - |k.bytes|, _ => 0));
    KeptFill(mem0, mem1, old(s.active), it, s.mem[it]);
  }

  /** Put it and give it up. */
  method Enter(s: Store, it: Addr)
    requires s.Valid() && s.held == multiset{it} && it in s.mem && s.mem[it].refcount == 1
    requires !InTable(s.mem, s.index, it)
    modifies s`mem, s`segs, s`index, s`chains, s`buckets, s`held
    ensures s.Valid() && s.held == multiset{} && OnlyFreed(old(s.segs), s.segs)
    ensures s.index == old(s.index)[KeyOf(old(s.mem)[it]) := it] && Kept(old(s.mem), s.mem, s.active)
    ensures it in s.mem && KeyOf(s.mem[it]) == KeyOf(old(s.mem)[it]) && Total(s.mem[it]) == Total(old(s.mem)[it])
  {
    hide s.CoreValid, s.WalkValid, InTable, Stored, Kept, OnlyFreed;
    ghost var mem0, index0, segs0 := s.mem, s.index, s.segs;
    StoresFresh(s, it);
    s.HashtPut(it, None);
    ghost var mem1, segs1 := s.mem, s.segs;
    KeptStored(mem0, index0, mem1, s.index, s.active, it);
    StoredItem(mem0, index0, mem1, s.index, it);
    s.GiveUp(it);
    KeptTrans(mem0, mem1, s.mem, s.active, s.active);
    FreedTwice(segs0, segs1, s.segs);
  }

  lemma FreedTwice(segs: SegMap, segs1: SegMap, segs2: SegMap)
    requires OnlyFreed(segs, segs1) && OnlyFreed(segs1, segs2)
    ensures OnlyFreed(segs, segs2)
  {
  }

  /** What a set does to the log: the item goes behind the others of the current segment if it fits there, and to the
      start of a new segment otherwise. */
  method Set(s: Store, k: Key, total: nat) returns (it: Addr)
    requires s.Valid() && Usual(s) && !s.Exhausted(total) && ITEM_SIZE + |k.bytes| <= total <= SIZE
    modifies s`mem, s`segs, s`freeSegments, s`segAlloced, s`free, s`reserved, s`cur, s`active
    modifies s`held, s`index, s`chains, s`buckets
    ensures s.Valid() && Usual(s) && s.segAlloced == old(s.segAlloced) + if old(s.Full(total)) then 1 else 0
    ensures s.index == old(s.index)[k := it] && Kept(old(s.mem), s.mem, old(s.active))
    ensures it in s.mem && KeyOf(s.mem[it]) == k && Total(s.mem[it]) == total
    ensures Placed(old(s.segs), old(s.active), old(s.cur), SIZE, total, s.segs, s.active, s.cur, it)
  {
    hide s.CoreValid, s.WalkValid, InTable, Kept, Placed, OnlyFreed;
    ghost var segs0, active0, cur0, mem0 := s.segs, s.active, s.cur, s.mem;
    it := Place(s, k, total);
    ghost var segs1, mem1 := s.segs, s.mem;
    StaysActive(segs0, active0, cur0, total, segs1, s.active, s.cur, it);
    Enter(s, it);
    KeptTrans(mem0, mem1, s.mem, active0, s.active);
    PlacedFreed(segs0, active0, cur0, total, segs1, s.segs, s.active, s.cur, it);
  }

  lemma StaysActive(segs: SegMap, active: seq<nat>, cur: nat, total: nat, segs': SegMap, active': seq<nat>, cur': nat,
                    it: Addr)
    requires Placed(segs, active, cur, SIZE, total, segs', active', cur', it)
    ensures forall s :: s in active ==> s in active'
  {
  }

  lemma PlacedFreed(segs: SegMap, active: seq<nat>, cur: nat, total: nat, segs1: SegMap, segs2: SegMap,
                    active': seq<nat>, cur': nat, it: Addr)
    requires Placed(segs, active, cur, SIZE, total, segs1, active', cur', it) && OnlyFreed(segs1, segs2)
    ensures Placed(segs, active, cur, SIZE, total, segs2, active', cur', it)
  {
  }

  lemma StoresFresh(s: Store, it: Addr)
    requires s.CoreValid() && it in s.mem
    ensures |s.buckets| == N_BUCKETS && s.Stores(it, None)
  {
    hide LogOk, ActiveLinks, FreeLinks, Below, RefsOk, RingOk;
  }

  lemma StoredItem(mem: Memory, index: Index, mem': Memory, index': Index, nit: Addr)
    requires nit in mem && Stored(mem, index, mem', index', nit)
    ensures index' == index[KeyOf(mem[nit]) := nit]
    ensures nit in mem' && KeyOf(mem'[nit]) == KeyOf(mem[nit]) && Total(mem'[nit]) == Total(mem[nit])
  {
    assert nit in mem'.Keys;
  }

  /** A segment filled with a large item and a small one. */
  ghost predicate Pair(mem: Memory, segs: SegMap, seg: nat, k0: Key, k1: Key) {
    && seg in segs && segs[seg].offset == SIZE
    && Addr(seg, 0) in mem && KeyOf(mem[Addr(seg, 0)]) == k0 && Total(mem[Addr(seg, 0)]) == LARGE
    && Addr(seg, LARGE) in mem && KeyOf(mem[Addr(seg, LARGE)]) == k1 && Total(mem[Addr(seg, LARGE)]) == SMALL
  }

  /** A segment with a large item only. */
  ghost predicate Half(mem: Memory, segs: SegMap, seg: nat, k0: Key) {
    && seg in segs && segs[seg].offset == LARGE
    && Addr(seg, 0) in mem && KeyOf(mem[Addr(seg, 0)]) == k0 && Total(mem[Addr(seg, 0)]) == LARGE
  }

  lemma PairKept(mem: Memory, segs: SegMap, mem': Memory, segs': SegMap, active: seq<nat>, seg: nat, k0: Key, k1: Key)
    requires Pair(mem, segs, seg, k0, k1) && Kept(mem, mem', active) && seg in active
    requires seg in segs' && segs'[seg].offset == SIZE
    ensures Pair(mem', segs', seg, k0, k1)
  {
  }

  /** The reference counts are those of the table, the queue and the callers. */
  lemma CountOf(s: Store, a: Addr)
    requires s.CoreValid() && s.held == multiset{} && a in s.mem
    ensures s.mem[a].refcount == One(InTable(s.mem, s.index, a)) + multiset(s.queue)[a]
  {
    hide LogOk, ActiveLinks, FreeLinks, Below, TableOk, RingOk;
  }

  lemma PairFreed(s: Store, seg: nat, k0: Key, k1: Key)
    requires s.CoreValid() && s.segSize == SIZE && seg in s.active && Pair(s.mem, s.segs, seg, k0, k1)
    ensures s.segs[seg].freed == (if s.mem[Addr(seg, 0)].refcount == 0 then LARGE else 0)
                                 + (if s.mem[Addr(seg, LARGE)].refcount == 0 then SMALL else 0)
  {
    hide ActiveLinks, FreeLinks, Below, TableOk, RefsOk, RingOk;
    assert SegOk(s.mem, seg, s.segs[seg], SIZE);
    PairLayout(s.mem, seg);
  }

  lemma PairLayout(mem: Memory, seg: nat)
    requires Addr(seg, 0) in mem && Total(mem[Addr(seg, 0)]) == LARGE
    requires Addr(seg, LARGE) in mem && Total(mem[Addr(seg, LARGE)]) == SMALL
    ensures Tiled(mem, seg, 0, SIZE, SIZE)
    ensures Dead(mem, seg, 0, SIZE, SIZE) == (if mem[Addr(seg, 0)].refcount == 0 then LARGE else 0)
                                             + (if mem[Addr(seg, LARGE)].refcount == 0 then SMALL else 0)
  {
    assert Tiled(mem, seg, SIZE, SIZE, SIZE) && Dead(mem, seg, SIZE, SIZE, SIZE) == 0;
    assert Tiled(mem, seg, LARGE, SIZE, SIZE);
    assert Dead(mem, seg, LARGE, SIZE, SIZE) == if mem[Addr(seg, LARGE)].refcount == 0 then SMALL else 0;
  }

  /** All segments but the current one are full. */
  lemma OldFull(s: Store)
    requires s.CoreValid()
    ensures Distinct(s.active)
    ensures forall g :: g in s.active && g != s.cur ==> g in s.segs && s.segs[g].offset == s.segSize
  {
    hide FreeLinks, Below, TableOk, RefsOk, RingOk, SegOk;
  }

  /** After the sets A, B, A, C. */
  ghost predicate Loaded(s: Store, c: nat)
    reads s, s.cleanupQueue
  {
    && s.Valid() && Usual(s) && s.segAlloced == 3 && c != 0 && s.active == [0, c] && s.cur == c
    && Pair(s.mem, s.segs, 0, A, B) && Pair(s.mem, s.segs, c, A, C)
    && s.index == map[A := Addr(c, 0), B := Addr(0, LARGE), C := Addr(c, LARGE)]
    && !s.segs[c].cleaned
  }

  /** A set that still fits the current segment. */
  method SetHere(s: Store, k: Key, total: nat) returns (it: Addr)
    requires s.Valid() && Usual(s) && ITEM_SIZE + |k.bytes| <= total <= SIZE
    requires s.cur in s.segs && s.segs[s.cur].offset + total <= SIZE
    modifies s`mem, s`segs, s`freeSegments, s`segAlloced, s`free, s`reserved, s`cur, s`active
    modifies s`held, s`index, s`chains, s`buckets
    ensures s.Valid() && Usual(s) && s.segAlloced == old(s.segAlloced)
    ensures s.index == old(s.index)[k := it] && Kept(old(s.mem), s.mem, s.active)
    ensures it in s.mem && KeyOf(s.mem[it]) == k && Total(s.mem[it]) == total
    ensures s.active == old(s.active) && s.cur == old(s.cur) && it == Addr(s.cur, old(s.segs)[s.cur].offset)
    ensures s.cur in s.segs && s.segs[s.cur].offset == old(s.segs)[s.cur].offset + total
    ensures forall g :: g in s.active ==> g in s.segs && g in old(s.segs) && s.segs[g].cleaned == old(s.segs)[g].cleaned
    ensures forall g :: g in s.active && g != s.cur ==> s.segs[g].offset == SIZE
  {
    hide s.CoreValid, s.WalkValid, Kept;
    it := Set(s, k, total);
    OldFull(s);
  }

  /** A set that does not. */
  method SetThere(s: Store, k: Key, total: nat) returns (it: Addr)
    requires s.Valid() && Usual(s) && s.segAlloced < s.segMaxNum && ITEM_SIZE + |k.bytes| <= total <= SIZE
    requires s.cur in s.segs && s.segs[s.cur].offset + total > SIZE
    modifies s`mem, s`segs, s`freeSegments, s`segAlloced, s`free, s`reserved, s`cur, s`active
    modifies s`held, s`index, s`chains, s`buckets
    ensures s.Valid() && Usual(s) && s.segAlloced == old(s.segAlloced) + 1
    ensures s.index == old(s.index)[k := it] && Kept(old(s.mem), s.mem, old(s.active))
    ensures it in s.mem && KeyOf(s.mem[it]) == k && Total(s.mem[it]) == total
    ensures s.active == old(s.active) + [s.cur] && s.cur !in old(s.active) && it == Addr(s.cur, 0)
    ensures s.cur in s.segs && s.segs[s.cur].offset == total && !s.segs[s.cur].cleaned
    ensures forall g :: g in old(s.active) ==>
              g in s.segs && g in old(s.segs) && s.segs[g].cleaned == old(s.segs)[g].cleaned
    ensures forall g :: g in old(s.active) ==> s.segs[g].offset == SIZE
  {
    hide s.CoreValid, s.WalkValid, Kept;
    it := Set(s, k, total);
    OldFull(s);
    assert s.active[|s.active| - 1] == s.cur;
    forall g | g in old(s.active) ensures g in s.active && g != s.cur {
      var i :| 0 <= i < |old(s.active)| && old(s.active)[i] == g;
      assert s.active[i] == g;
    }
  }

  method Start(segMaxNum: nat) returns (s: Store)
    requires 2 <= segMaxNum
    ensures fresh(s) && fresh(s.cleanupQueue) && s.Valid() && Usual(s) && s.segMaxNum == segMaxNum && s.segAlloced == 2
    ensures s.active == [0] && s.cur == 0 && 0 in s.segs && s.segs[0].offset == 0 && !s.segs[0].cleaned
    ensures s.index == map[] && s.queue == [] && s.cleaning == None
  {
    hide LogOk, ActiveLinks, FreeLinks, Below, TableOk, RefsOk, RingOk, WalkOk;
    var none := Bucket(seq(N_SLOTS, _ => None), seq(N_SLOTS, _ => 0));
    s := new Store(SIZE, segMaxNum, _ => true, seq(N_BUCKETS, _ => none), [None]);
  }

  method LoadFirst(s: Store)
    requires s.Valid() && Usual(s) && s.segAlloced == 2 && s.index == map[]
    requires s.active == [0] && s.cur == 0 && 0 in s.segs && s.segs[0].offset == 0 && !s.segs[0].cleaned
    modifies s`mem, s`segs, s`freeSegments, s`segAlloced, s`free, s`reserved, s`cur, s`active
    modifies s`held, s`index, s`chains, s`buckets
    ensures s.Valid() && Usual(s) && s.segAlloced == 2 && s.active == [0] && s.cur == 0
    ensures s.index == map[A := Addr(0, 0), B := Addr(0, LARGE)]
    ensures Pair(s.mem, s.segs, 0, A, B) && !s.segs[0].cleaned
  {
    hide s.CoreValid, s.WalkValid, Kept;
    var a := SetHere(s, A, LARGE);
    ghost var mem1 := s.mem;
    var b := SetHere(s, B, SMALL);
    KeptAt(mem1, s.mem, [0], a);
  }

  method LoadSecond(s: Store) returns (ghost c: nat)
    requires s.Valid() && Usual(s) && s.segAlloced == 2 < s.segMaxNum && s.active == [0] && s.cur == 0
    requires s.index == map[A := Addr(0, 0), B := Addr(0, LARGE)]
    requires Pair(s.mem, s.segs, 0, A, B) && !s.segs[0].cleaned
    modifies s`mem, s`segs, s`freeSegments, s`segAlloced, s`free, s`reserved, s`cur, s`active
    modifies s`held, s`index, s`chains, s`buckets
    ensures Loaded(s, c) && !s.segs[0].cleaned
  {
    hide s.CoreValid, s.WalkValid, Kept, Pair;
    ghost var mem0, segs0 := s.mem, s.segs;
    PairIn(mem0, segs0, 0, A, B);
    var a := SetThere(s, A, LARGE);
    c := s.cur;
    PairKept(mem0, segs0, s.mem, s.segs, [0], 0, A, B);
    ghost var mem1, segs1 := s.mem, s.segs;
    var it := SetHere(s, C, SMALL);
    assert s.active == [0, c];
    PairKept(mem1, segs1, s.mem, s.segs, s.active, 0, A, B);
    KeptAt(mem1, s.mem, s.active, a);
    PairMade(s.mem, s.segs, c, A, C);
  }

  lemma PairIn(mem: Memory, segs: SegMap, seg: nat, k0: Key, k1: Key)
    requires Pair(mem, segs, seg, k0, k1)
    ensures seg in segs && segs[seg].offset == SIZE
  {
  }

  lemma PairMade(mem: Memory, segs: SegMap, seg: nat, k0: Key, k1: Key)
    requires seg in segs && segs[seg].offset == SIZE
    requires Addr(seg, 0) in mem && KeyOf(mem[Addr(seg, 0)]) == k0 && Total(mem[Addr(seg, 0)]) == LARGE
    requires Addr(seg, LARGE) in mem && KeyOf(mem[Addr(seg, LARGE)]) == k1 && Total(mem[Addr(seg, LARGE)]) == SMALL
    ensures Pair(mem, segs, seg, k0, k1)
  {
  }

  lemma KeptAt(mem: Memory, mem': Memory, active: seq<nat>, a: Addr)
    requires Kept(mem, mem', active) && a in mem && a.seg in active
    ensures a in mem' && KeyOf(mem'[a]) == KeyOf(mem[a]) && Total(mem'[a]) == Total(mem[a])
  {
  }

  /** Which items are dead in the segments that have been filled. */
  lemma FreedOf(s: Store, c: nat, k: Key)
    requires s.CoreValid() && Usual(s) && c in s.active && Pair(s.mem, s.segs, c, A, k)
    requires A in s.index && s.index[A] != Addr(c, 0) && Addr(c, 0) !in s.queue && k in s.index
    ensures s.segs[c].freed == if s.index[k] == Addr(c, LARGE) || Addr(c, LARGE) in s.queue then LARGE else SIZE
  {
    PairFreed(s, c, A, k);
    CountOf(s, Addr(c, 0));
    CountOf(s, Addr(c, LARGE));
    hide s.CoreValid;
  }

  lemma {:induction false} AllSurvive(segs: SegMap, l: seq<nat>)
    requires forall g :: g in l ==> g in segs && segs[g].freed != SIZE
    ensures Survivors(segs, SIZE, l) == l
  {
    if l != [] {
      AllSurvive(segs, l[..|l| - 1]);
      assert l == l[..|l| - 1] + [l[|l| - 1]];
    }
  }

  /** The first segment after maintenance was called twice: its one live item is in the queue. */
  ghost predicate Swept(s: Store, c: nat)
    reads s, s.cleanupQueue
  {
    && Loaded(s, c) && s.queue == [Addr(0, LARGE)]
    && s.cleaning == Some(0) && s.cleanOffset == SIZE && s.segs[0].cleaned
  }

  /** What a call of maintenance does while no segment is entirely freed. */
  method Maintain(s: Store) returns (ghost cand: Option<nat>)
    requires s.Valid() && Usual(s) && |s.active| > 0
    requires forall g :: g in s.active ==> g in s.segs && s.segs[g].freed != SIZE
    requires s.cleaning.Some? && s.cleanOffset < SIZE ==> s.cleaning.value in s.active
    requires |s.queue| <= 1
    modifies s`mem, s`segs, s`freeSegments, s`oldest, s`active, s`free
    modifies s`queue, s`cqTail, s`cleaning, s`cleanOffset, s`visited, s.cleanupQueue
    ensures s.Valid() && Usual(s) && s.active == old(s.active) && Kept(old(s.mem), s.mem, s.active)
    ensures Marked(old(s.segs), s.segs, s.active,
                   if old(s.cleaning).Some? && old(s.cleanOffset) < SIZE then None else s.cleaning)
    ensures CandidateOk(old(s.segs), SIZE, s.active[..|s.active| - 1], cand)
    ensures Continued(old(s.mem), s.mem, SIZE, old(s.cleaning), old(s.cleanOffset), cand, s.cleaning, s.cleanOffset,
                      old(s.queue), s.queue, 1, s.visited)
  {
    hide s.CoreValid, s.WalkValid, Kept, Marked, CandidateOk, Continued, AllDead, ViewOf;
    ghost var n := |s.active| - 1;
    assert s.active == s.active[..n] + [s.active[n]];
    AllSurvive(s.segs, s.active[..n]);
    SmallEnough(s);
    assert !s.Stale();
    s.Maintenance();
    assert s.active == old(s.active);
    cand :| CandidateOk(old(s.segs), SIZE, s.active[..|s.active| - 1], cand)
            && Continued(old(s.mem), s.mem, SIZE, old(s.cleaning), old(s.cleanOffset), cand, s.cleaning, s.cleanOffset,
                         old(s.queue), s.queue, 1, s.visited);
  }

  lemma SmallEnough(s: Store)
    requires s.CoreValid() && s.held == multiset{} && |s.queue| <= 1
    ensures forall a :: a in s.mem ==> s.mem[a].refcount < 0xffff
  {
    hide LogOk, ActiveLinks, FreeLinks, Below, TableOk, RingOk;
    forall a | a in s.mem
      ensures s.mem[a].refcount < 0xffff
    {
      assert multiset(s.queue)[a] <= |multiset(s.queue)| == |s.queue|;
    }
  }

  lemma PairMarked(mem: Memory, segs: SegMap, mem': Memory, segs': SegMap, active: seq<nat>, cand: Option<nat>,
                   seg: nat, k0: Key, k1: Key)
    requires Pair(mem, segs, seg, k0, k1) && Kept(mem, mem', active) && Marked(segs, segs', active, cand)
    requires seg in active
    ensures Pair(mem', segs', seg, k0, k1) && (segs'[seg].cleaned <==> segs[seg].cleaned || Some(seg) == cand)
  {
  }

  /** A segment whose large item is current is not dead. */
  lemma NotFreed(s: Store, c: nat, k: Key)
    requires s.CoreValid() && Usual(s) && c in s.active && Pair(s.mem, s.segs, c, A, k) && A in s.index
    requires s.index[A] == Addr(c, 0)
    ensures s.segs[c].freed <= SMALL
  {
    PairFreed(s, c, A, k);
    CountOf(s, Addr(c, 0));
    hide s.CoreValid;
  }

  /** The only segment of the list that is 80% dead and not cleaned yet is the candidate. */
  lemma OnlyCandidate(segs: SegMap, l: seq<nat>, g: nat, cand: Option<nat>)
    requires CandidateOk(segs, SIZE, l, cand) && g in l && segs[g].freed == LARGE && !segs[g].cleaned
    requires forall h :: h in l && h != g ==> segs[h].cleaned
    ensures cand == Some(g)
  {
    assert Ratio(segs[g], SIZE) >= 0.8;
  }

  /** A walk over a segment with a dead large item and a live small one ends behind both, with the live one in the
      queue. */
  lemma WalkedPair(mem0: Memory, segs: SegMap, mem: Memory, g: nat, k0: Key, k1: Key, off: nat, queue: seq<Addr>)
    requires Pair(mem0, segs, g, k0, k1) && mem0[Addr(g, 0)].refcount == 0 && mem0[Addr(g, LARGE)].refcount > 0
    requires Walked(mem0, mem, g, SIZE, 0, off, [], queue) && (off == SIZE || |queue| == 1)
    ensures off == SIZE && queue == [Addr(g, LARGE)]
  {
    if LARGE <= off {
      assert Tiled(mem0, g, LARGE, off, SIZE);
      assert Live(mem0, g, 0, off, SIZE) == Live(mem0, g, LARGE, off, SIZE);
      if LARGE < off {
        assert off == SIZE && Tiled(mem0, g, SIZE, SIZE, SIZE) && Live(mem0, g, SIZE, SIZE, SIZE) == [];
      }
    }
  }

  method SweepBegins(s: Store, ghost c: nat)
    requires Loaded(s, c) && s.queue == [] && s.cleaning == None && !s.segs[0].cleaned
    modifies s`mem, s`segs, s`freeSegments, s`oldest, s`active, s`free
    modifies s`queue, s`cqTail, s`cleaning, s`cleanOffset, s`visited, s.cleanupQueue
    ensures Loaded(s, c) && s.queue == [] && s.cleaning == Some(0) && s.cleanOffset == 0 && s.segs[0].cleaned
  {
    hide s.CoreValid, s.WalkValid, Kept, Pair, Marked, CandidateOk, Walked;
    ghost var mem0, segs0 := s.mem, s.segs;
    PairIn(mem0, segs0, 0, A, B);
    PairIn(mem0, segs0, c, A, C);
    FreedOf(s, 0, B);
    NotFreed(s, c, C);
    ghost var cand := Maintain(s);
    OnlyCandidate(segs0, s.active[..1], 0, cand);
    PairMarked(mem0, segs0, s.mem, s.segs, s.active, Some(0), 0, A, B);
    PairMarked(mem0, segs0, s.mem, s.segs, s.active, Some(0), c, A, C);
    NothingWalked(mem0, s.mem, 0, [], s.queue);
  }

  lemma NothingWalked(mem0: Memory, mem: Memory, g: nat, queue0: seq<Addr>, queue: seq<Addr>)
    requires Walked(mem0, mem, g, SIZE, 0, 0, queue0, queue)
    ensures queue == queue0
  {
  }

  method SweepEnds(s: Store, ghost c: nat)
    requires Loaded(s, c) && s.queue == [] && s.cleaning == Some(0) && s.cleanOffset == 0 && s.segs[0].cleaned
    modifies s`mem, s`segs, s`freeSegments, s`oldest, s`active, s`free
    modifies s`queue, s`cqTail, s`cleaning, s`cleanOffset, s`visited, s.cleanupQueue
    ensures Swept(s, c)
  {
    hide s.CoreValid, s.WalkValid, Kept, Pair, Marked, CandidateOk, Walked;
    ghost var mem0, segs0 := s.mem, s.segs;
    PairIn(mem0, segs0, 0, A, B);
    PairIn(mem0, segs0, c, A, C);
    FreedOf(s, 0, B);
    NotFreed(s, c, C);
    PairLife(s, 0, B);
    ghost var cand := Maintain(s);
    PairMarked(mem0, segs0, s.mem, s.segs, s.active, None, 0, A, B);
    PairMarked(mem0, segs0, s.mem, s.segs, s.active, None, c, A, C);
    WalkedPair(mem0, segs0, s.mem, 0, A, B, s.cleanOffset, s.queue);
  }

  lemma PairLife(s: Store, c: nat, k: Key)
    requires s.CoreValid() && Usual(s) && c in s.active && Pair(s.mem, s.segs, c, A, k)
    requires A in s.index && s.index[A] != Addr(c, 0) && Addr(c, 0) !in s.queue && k in s.index
    requires s.index[k] == Addr(c, LARGE)
    ensures s.mem[Addr(c, 0)].refcount == 0 && s.mem[Addr(c, LARGE)].refcount > 0
  {
    CountOf(s, Addr(c, 0));
    CountOf(s, Addr(c, LARGE));
    hide s.CoreValid;
  }

  /** After another set of A and another call of maintenance: the second segment is next to be cleaned, and the queue is
      full. */
  ghost predicate Turned(s: Store, c: nat, d: nat)
    reads s, s.cleanupQueue
  {
    && s.Valid() && Usual(s) && c != 0 && s.active == [0, c, d] && s.cur == d && d !in [0, c]
    && Pair(s.mem, s.segs, 0, A, B) && Pair(s.mem, s.segs, c, A, C) && Half(s.mem, s.segs, d, A)
    && s.index == map[A := Addr(d, 0), B := Addr(0, LARGE), C := Addr(c, LARGE)]
    && s.queue == [Addr(0, LARGE)]
  }

  method TurnTo(s: Store, ghost c: nat) returns (ghost d: nat)
    requires Swept(s, c) && 3 < s.segMaxNum
    modifies s`mem, s`segs, s`freeSegments, s`segAlloced, s`free, s`reserved, s`cur, s`active
    modifies s`held, s`index, s`chains, s`buckets
    ensures Turned(s, c, d) && s.segs[0].cleaned && !s.segs[c].cleaned && s.cleaning == Some(0) && s.cleanOffset == SIZE
  {
    hide s.CoreValid, s.WalkValid, Kept, Pair;
    ghost var mem0, segs0 := s.mem, s.segs;
    PairIn(mem0, segs0, 0, A, B);
    PairIn(mem0, segs0, c, A, C);
    var a := SetThere(s, A, LARGE);
    d := s.cur;
    PairKept(mem0, segs0, s.mem, s.segs, [0, c], 0, A, B);
    PairKept(mem0, segs0, s.mem, s.segs, [0, c], c, A, C);
    assert s.active == [0, c] + [d] == [0, c, d];
  }

  method TurnCleaner(s: Store, ghost c: nat, ghost d: nat)
    requires Turned(s, c, d) && s.segs[0].cleaned && !s.segs[c].cleaned && s.cleaning == Some(0)
    requires s.cleanOffset == SIZE
    modifies s`mem, s`segs, s`freeSegments, s`oldest, s`active, s`free
    modifies s`queue, s`cqTail, s`cleaning, s`cleanOffset, s`visited, s.cleanupQueue
    ensures Turned(s, c, d) && s.cleaning == Some(c) && s.cleanOffset == 0
  {
    hide s.CoreValid, s.WalkValid, Kept, Pair, Marked, CandidateOk, Walked;
    ghost var mem0, segs0 := s.mem, s.segs;
    PairIn(mem0, segs0, 0, A, B);
    PairIn(mem0, segs0, c, A, C);
    FreedOf(s, 0, B);
    FreedOf(s, c, C);
    HalfFreed(s, d);
    ghost var cand := Maintain(s);
    assert s.active[..2] == [0, c];
    OnlyCandidate(segs0, s.active[..2], c, cand);
    PairMarked(mem0, segs0, s.mem, s.segs, s.active, Some(c), 0, A, B);
    PairMarked(mem0, segs0, s.mem, s.segs, s.active, Some(c), c, A, C);
    HalfMarked(mem0, segs0, s.mem, s.segs, s.active, Some(c), d);
    NothingWalked(mem0, s.mem, c, [Addr(0, LARGE)], s.queue);
  }

  lemma HalfFreed(s: Store, d: nat)
    requires s.CoreValid() && s.segSize == SIZE && d in s.active && Half(s.mem, s.segs, d, A)
    ensures s.segs[d].freed <= LARGE
  {
    hide ActiveLinks, FreeLinks, Below, TableOk, RefsOk, RingOk;
    assert SegOk(s.mem, d, s.segs[d], SIZE);
    SegRoom(s.mem, d, s.segs[d], SIZE);
  }

  lemma HalfMarked(mem: Memory, segs: SegMap, mem': Memory, segs': SegMap, active: seq<nat>, cand: Option<nat>,
                   seg: nat)
    requires Half(mem, segs, seg, A) && Kept(mem, mem', active) && Marked(segs, segs', active, cand) && seg in active
    ensures Half(mem', segs', seg, A)
  {
  }

  /** The last live item of the segment to be cleaned is replaced: the segment is dead, and the queue still full. */
  method Finish(s: Store, ghost c: nat, ghost d: nat)
    requires Turned(s, c, d) && s.cleaning == Some(c) && s.cleanOffset == 0
    modifies s`mem, s`segs, s`freeSegments, s`segAlloced, s`free, s`reserved, s`cur, s`active
    modifies s`held, s`index, s`chains, s`buckets
    ensures s.Valid() && s.Stale() && forall a :: a in s.mem ==> s.mem[a].refcount < 0xffff
  {
    hide s.CoreValid, s.WalkValid, Kept, Pair;
    ghost var mem0, segs0 := s.mem, s.segs;
    PairIn(mem0, segs0, c, A, C);
    var it := SetHere(s, C, SMALL);
    PairKept(mem0, segs0, s.mem, s.segs, s.active, c, A, C);
    PairIn(s.mem, s.segs, c, A, C);
    FreedOf(s, c, C);
    QueueFull(s);
    SmallEnough(s);
  }

  lemma QueueFull(s: Store)
    requires s.CoreValid() && |s.queue| == s.cleanupQueue.Length
    ensures s.cqTail < s.cleanupQueue.Length && s.cleanupQueue[s.cqTail].Some?
  {
    hide LogOk, ActiveLinks, FreeLinks, Below, TableOk, RefsOk;
    RingEnds(s.cleanupQueue[..], s.cqHead, s.cqTail, s.queue);
  }

  /** From an empty store, by sets of A, B, A and C, two calls of maintenance, a set of A, a call of maintenance and a
      set of C, to a state in which maintenance cannot keep its place. */
  method Example() returns (s: Store)
    ensures fresh(s) && fresh(s.cleanupQueue) && s.Valid() && s.Stale()
    ensures forall a :: a in s.mem ==> s.mem[a].refcount < 0xffff
  {
    hide *;
    s := Start(4);
    LoadFirst(s);
    ghost var c := LoadSecond(s);
    SweepBegins(s, c);
    SweepEnds(s, c);
    ghost var d := TurnTo(s, c);
    TurnCleaner(s, c, d);
    Finish(s, c, d);
  }

  /** The next call recycles the segment that is to be cleaned, and yet keeps it as the segment to go on with. */
  method LosesItsPlace() returns (s: Store)
    ensures fresh(s) && s.CoreValid() && !s.WalkValid()
  {
    hide *;
    s := Example();
    s.Maintenance();
  }
}
