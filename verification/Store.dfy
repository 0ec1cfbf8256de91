/** The log-structured key-value store: allocator, hash table, maintenance and log cleaning. */
module KvStore {
  import opened Wrappers
  import opened Sequences
  import opened Bytes
  import opened LogLayout
  import opened HashTable
  import opened Segments
  import opened CleanupRing
  import opened References
  import opened Moving

  /** segment_alloc either hands out a segment, finds no memory for its header, or ends the process. */
  datatype SegmentResult = Segment(h: nat) | NoHeader | SegmentExit

  /** ialloc_alloc returns an item or NULL, or the process has ended on the way. */
  datatype ItemResult = Got(it: Addr) | Null | Exit

  /** Whether the reserved segment is still there, and how many segments have been handed out for the first time. */
  datatype Space = Space(reserved: bool, alloced: nat)

  /** The reserved segment is used only if some header could not be allocated meanwhile. */
  ghost predicate Spent(headerOk: nat -> bool, from: Space, to: Space) {
    && from.alloced <= to.alloced
    && (from.reserved && !to.reserved ==> exists n :: from.alloced <= n < to.alloced && !headerOk(n))
  }

  lemma SpentTwice(headerOk: nat -> bool, a: Space, b: Space, c: Space)
    requires Spent(headerOk, a, b) && Spent(headerOk, b, c)
    ensures Spent(headerOk, a, c)
  {
  }

  lemma NothingSpent(headerOk: nat -> bool, space: Space)
    ensures Spent(headerOk, space, space)
  {
  }

  lemma UsedIsSpent(headerOk: nat -> bool, from: Space, to: Space, cleanup: bool, refused: bool)
    requires SpaceUsed(headerOk, from, to, cleanup, refused)
    ensures Spent(headerOk, from, to)
  {
  }

  /** What an allocation may do to the space left. It is refused only while the reserved segment is in use, or when
      the header of a further segment could not be allocated; and only cleaning uses the reserved segment, and only
      in the latter case. */
  ghost predicate SpaceUsed(headerOk: nat -> bool, from: Space, to: Space, cleanup: bool, refused: bool) {
    var failed := to.alloced == from.alloced + 1 && !headerOk(from.alloced);
    && from.alloced <= to.alloced <= from.alloced + 1
    && (to.reserved ==> from.reserved)
    && (from.reserved && !to.reserved ==> cleanup && failed)
    && (refused ==> (!from.reserved && !cleanup && to == from) || failed)
  }

  lemma NoSpaceUsed(headerOk: nat -> bool, space: Space, cleanup: bool)
    ensures SpaceUsed(headerOk, space, space, cleanup, false)
    ensures !space.reserved && !cleanup ==> SpaceUsed(headerOk, space, space, cleanup, true)
  {
  }

  /** There is no pointer in the table or in the ring. */
  predicate Cleared(table: seq<Bucket>, ring: seq<Option<Addr>>) {
    && (forall b, i :: 0 <= b < |table| && 0 <= i < |table[b].items| ==> table[b].items[i].None?)
    && (forall i :: 0 <= i < |ring| ==> ring[i].None?)
  }

  /** What cleaning must leave alone. */
  datatype Snap = Snap(mem: Memory, segs: SegMap, index: Index, active: seq<nat>, cur: nat, space: Space,
                       view: map<Key, seq<byte>>, walk: bool)

  /** What every step of cleaning does: the map is as before, the items of active segments keep their contents, the log
      has only grown, nothing that others hold has become current, and the walk is sound if it was. */
  ghost predicate Cleans(headerOk: nat -> bool, others: multiset<Addr>, a: Snap, b: Snap) {
    && b.view == a.view && Kept(a.mem, b.mem, a.active) && Onward(a.active, a.cur, b.active, b.cur)
    && NoneEntered(a.index, b.index, others) && Spent(headerOk, a.space, b.space) && (a.walk ==> b.walk)
  }

  lemma CleansTwice(headerOk: nat -> bool, others: multiset<Addr>, more: multiset<Addr>, a: Snap, b: Snap, c: Snap)
    requires Cleans(headerOk, others, a, b) && Cleans(headerOk, more, b, c) && others <= more
    ensures Cleans(headerOk, others, a, c)
  {
    EnteredTwice(a.index, b.index, c.index, others);
    SpentTwice(headerOk, a.space, b.space, c.space);
    KeptTrans(a.mem, b.mem, c.mem, a.active, b.active);
  }

  lemma TakenAndGiven(held: multiset<Addr>, a: Addr)
    ensures held <= held + multiset{a} && (held + multiset{a}) - multiset{a} == held
  {
  }

  lemma CleansKeeps(headerOk: nat -> bool, others: multiset<Addr>, a: Snap, b: Snap)
    requires Cleans(headerOk, others, a, b)
    ensures Kept(a.mem, b.mem, a.active) && Onward(a.active, a.cur, b.active, b.cur)
  {
  }

  /** One more item has been handled. */
  lemma HandledOn(headerOk: nat -> bool, others: multiset<Addr>, a: Snap, buckets: seq<Bucket>, qs: seq<Addr>,
                  b: Snap, buckets1: seq<Bucket>, it: Addr, c: Snap, buckets2: seq<Bucket>)
    requires Cleans(headerOk, others, a, b) && Cleans(headerOk, others, b, c)
    requires AllHandled(a.mem, a.index, buckets, a.active, a.cur, qs, b.mem, b.index, buckets1, b.active)
    requires Handled(b.mem, b.index, buckets1, b.active, c.mem, c.index, buckets2, c.active, c.cur, it, 1)
    requires Housed(a.mem, a.index, a.active) && Housed(b.mem, b.index, b.active) && LiveInside(a.mem, a.active)
    requires it in a.mem && it.seg in a.active && |buckets1| == N_BUCKETS
    ensures AllHandled(a.mem, a.index, buckets, a.active, a.cur, qs + [it], c.mem, c.index, buckets2, c.active)
  {
    hide AllHandled, Handled, Housed, LiveInside, Kept;
    OneMoreHandled(a.mem, a.index, buckets, a.active, a.cur, qs, b.mem, b.index, buckets1, b.active,
                   c.mem, c.index, buckets2, c.active, c.cur, it);
  }

  /** A state of the store, with its cleanup queue and what callers hold. */
  ghost predicate Began(was: Snap, size: nat, queue: seq<Addr>, held: multiset<Addr>) {
    && FullSegs(was.mem, was.segs, size, was.active, was.cur)
    && Housed(was.mem, was.index, was.active) && LiveInside(was.mem, was.active)
    && RefsOk(was.mem, was.index, queue, held) && IndexOk(was.mem, was.index)
    && forall a :: a in queue ==> a in was.mem && was.mem[a].refcount > 0 && a.seg in was.active
  }

  lemma SameCleans(headerOk: nat -> bool, others: multiset<Addr>, a: Snap)
    ensures Cleans(headerOk, others, a, a)
  {
  }

  class Store {
    // settings
    const segSize: nat
    const segMaxNum: nat
    const headerOk: nat -> bool  // whether there is memory for the header of the i-th segment

    // the log
    var mem: Memory
    var segs: SegMap
    var freeSegments: Option<nat>
    var segAlloced: nat

    // struct item_allocator
    var reserved: Option<nat>
    const cleanupQueue: array<Option<Addr>>
    var cur: nat
    var cqHead: nat
    var cleanupCount: nat
    var oldest: Option<nat>
    var cqTail: nat
    var cleaning: Option<nat>
    var cleanOffset: nat

    // the hash table
    var buckets: seq<Bucket>

    // what the pointers spell out
    ghost var active: seq<nat>        // from `oldest` to `cur`
    ghost var free: seq<nat>          // from `freeSegments` on
    ghost var queue: seq<Addr>        // the cleanup queue, oldest first
    ghost var index: Index            // the table's item for each key
    ghost var chains: seq<seq<Addr>>  // the overflow chain of each bucket
    ghost var held: multiset<Addr>    // references handed out to callers
    ghost var visited: seq<nat>       // headers the cleaner has visited in the segment it is working on

    ghost predicate LogValid()
      reads this`mem, this`segs, this`active, this`free, this`reserved, this`oldest, this`cur
      reads this`freeSegments, this`segAlloced
    {
      && LogOk(mem, segs, segSize, active, free, reserved)
      && ActiveLinks(segs, segSize, active, oldest, cur)
      && FreeLinks(segs, free, freeSegments)
      && Below(segs, segAlloced)
      && 0 < segSize
    }

    ghost predicate WalkValid()
      reads this`mem, this`segs, this`active, this`cur, this`cleaning, this`cleanOffset, this`visited
    {
      WalkOk(mem, segs, segSize, active, cur, cleaning, cleanOffset, visited)
    }

    /** All invariants but the one about the cleaner's walk, with the end of the queue at `tail`. */
    ghost predicate CoreValidAt(tail: nat)
      reads this`mem, this`segs, this`active, this`free, this`reserved, this`oldest, this`cur
      reads this`freeSegments, this`segAlloced
      reads this`index, this`buckets, this`chains, this`cqHead, this`queue, this`held, cleanupQueue
    {
      && LogValid()
      && TableOk(mem, index, buckets, chains)
      && RingOk(cleanupQueue[..], cqHead, tail, queue)
      && RefsOk(mem, index, queue, held)
    }

    ghost predicate CoreValid()
      reads this`mem, this`segs, this`active, this`free, this`reserved, this`oldest, this`cur
      reads this`freeSegments, this`segAlloced
      reads this`cqTail, this`index, this`buckets, this`chains, this`cqHead, this`queue, this`held, cleanupQueue
    {
      CoreValidAt(cqTail)
    }

    ghost predicate Valid()
      reads this, cleanupQueue
    {
      CoreValid() && WalkValid()
    }

    /** There is no segment to give: none on the free list, and either all have been used or the header of the one
        tried last could not be allocated. */
    predicate OutOfSegments()
      reads this`freeSegments, this`segAlloced
    {
      freeSegments.None? && (segAlloced >= segMaxNum || (segAlloced > 0 && !headerOk(segAlloced - 1)))
    }

    /** What is left of it. */
    function SpaceLeft(): Space
      reads this`reserved, this`segAlloced
    {
      Space(reserved.Some?, segAlloced)
    }

    /** The current segment cannot take an item of this size. */
    predicate Full(total: nat)
      reads this`segs, this`cur
    {
      cur in segs && segs[cur].offset + total > segSize
    }

    /** Nor is there a further segment to give: none on the free list, and all others have been used. */
    predicate Exhausted(total: nat)
      reads this`segs, this`cur, this`freeSegments, this`segAlloced
    {
      Full(total) && freeSegments.None? && segAlloced >= segMaxNum
    }

    /** Or there is one, and no memory for its header. */
    predicate HeaderFails(total: nat)
      reads this`segs, this`cur, this`freeSegments, this`segAlloced
    {
      Full(total) && freeSegments.None? && segAlloced < segMaxNum && !headerOk(segAlloced)
    }

    /** Cleaning has no place for a copy of this size. */
    predicate NoPlace(total: nat)
      reads this`segs, this`cur, this`freeSegments, this`segAlloced, this`reserved
    {
      Exhausted(total) || (HeaderFails(total) && reserved.None?)
    }

    /** The item is referred to by others than the cleanup queue, and there is no place for its copy. */
    predicate Stuck(it: Addr)
      reads this`mem, this`segs, this`cur, this`freeSegments, this`segAlloced, this`reserved
    {
      it in mem && mem[it].refcount != 1 && NoPlace(Total(mem[it]))
    }

    /** So is the oldest one of the queue. */
    ghost predicate Cornered()
      reads this`mem, this`queue, this`segs, this`cur, this`freeSegments, this`segAlloced, this`reserved
    {
      queue != [] && Stuck(queue[0])
    }

    /** What the store stores. */
    ghost function View(): map<Key, seq<byte>>
      reads this`mem, this`index
    {
      ViewOf(mem, index)
    }

    ghost function Here(): Snap
      reads this`mem, this`segs, this`active, this`cur, this`cleaning, this`cleanOffset, this`visited, this`index
      reads this`reserved, this`segAlloced
    {
      Snap(mem, segs, index, active, cur, SpaceLeft(), View(), WalkValid())
    }

    /** ialloc_init_allocator and hasht_init. The process ends there unless there are two segments to give and memory
        for the header of the first. Neither clears what malloc returns for the table and for the ring: the store is
        in order exactly when that memory holds only NULL pointers. */
    constructor (segSize: nat, segMaxNum: nat, headerOk: nat -> bool, table: seq<Bucket>, ring: seq<Option<Addr>>)
      requires 0 < segSize && 2 <= segMaxNum && headerOk(0) && 0 < |ring|
      requires |table| == N_BUCKETS && forall b :: 0 <= b < |table| ==> |table[b].items| == |table[b].hashes| == N_SLOTS
      ensures Valid() <==> Cleared(table, ring)
      ensures fresh(cleanupQueue)
      ensures this.segSize == segSize && this.segMaxNum == segMaxNum && this.headerOk == headerOk
      ensures cleanupQueue.Length == |ring| && queue == [] && segAlloced == 2 && active == [0] && cur == 0
      ensures segs.Keys == (if headerOk(1) then {0, 1} else {0}) && segs[0] == FRESH
      ensures mem == map[] && cleaning == None && freeSegments == None && reserved.Some? == headerOk(1)
      ensures held == multiset{} && index == map[] && View() == map[]
    {
      this.segSize, this.segMaxNum, this.headerOk := segSize, segMaxNum, headerOk;
      mem, freeSegments, segAlloced := map[], None, 2;
      segs := if headerOk(1) then map[0 := FRESH, 1 := FRESH] else map[0 := FRESH];
      reserved := if headerOk(1) then Some(1) else None;
      cleanupQueue := new Option<Addr>[|ring|](i requires 0 <= i < |ring| => ring[i]);
      cur, oldest, cleaning, cleanOffset, cleanupCount := 0, Some(0), None, 0, 0;
      cqHead, cqTail := 0, 0;
      buckets := table;
      active, free, queue, index, held, visited := [0], [], [], map[], multiset{}, [];
      chains := seq(N_BUCKETS, _ => []);
      new;
      hide RingOk, TableOk, LogOk, ActiveLinks, FreeLinks, Below, RefsOk;
      assert cleanupQueue[..] == ring;
      TableCleared(table);
      RingCleared(ring);
      LogBegins(headerOk(1), segSize);
      NoReferences();
    }

    /** item_ref */
    method ItemRef(a: Addr)
      requires LogValid() && a in mem && 0 < mem[a].refcount < 0xffff
      modifies this`mem
      ensures LogValid()
      ensures mem == Ref(old(mem), a)
    {
      hide LogOk, ActiveLinks, FreeLinks;
      var c := (mem[a].refcount + 1) % 0x1_0000;
      assert c == mem[a].refcount + 1;
      LogRecount(mem, segs, segSize, active, free, reserved, a, c);
      mem := mem[a := mem[a].(refcount := c)];
      assert LogOk(mem, segs, segSize, active, free, reserved);
    }

    /** item_tryref */
    method ItemTryRef(a: Addr) returns (ok: bool)
      requires LogValid() && a in mem && mem[a].refcount < 0xffff
      modifies this`mem
      ensures LogValid()
      ensures ok <==> old(mem)[a].refcount > 0
      ensures mem == if ok then Ref(old(mem), a) else old(mem)
    {
      var c := mem[a].refcount;
      if c == 0 {
        return false;
      }
      ItemRef(a);
      return true;
    }

    /** segment_item_free */
    method SegmentItemFree(h: nat, total: nat)
      requires h in segs && segs[h].freed + total <= segSize
      modifies this`segs
      ensures segs == old(segs)[h := old(segs)[h].(freed := old(segs)[h].freed + total)]
    {
      segs := segs[h := segs[h].(freed := segs[h].freed + total)];
    }

    /** item_unref and ialloc_free: the last reference frees the item's bytes. */
    method ItemUnref(a: Addr)
      requires LogValid() && a in mem && mem[a].refcount > 0
      modifies this`mem, this`segs
      ensures LogValid()
      ensures mem == Drop(old(mem), a)
      ensures a.seg in old(segs)
      ensures segs == if old(mem)[a].refcount > 1 then old(segs)
                      else old(segs)[a.seg := old(segs)[a.seg].(freed := old(segs)[a.seg].freed + Total(old(mem)[a]))]
    {
      hide LogOk, ActiveLinks, FreeLinks;
      LiveIsActive(mem, segs, segSize, active, free, reserved, a);
      var c := mem[a].refcount - 1;
      ghost var mem0 := mem;
      mem := mem[a := mem[a].(refcount := c)];
      if c == 0 {
        LogItemDies(mem0, segs, segSize, active, free, reserved, a);
        SegmentItemFree(a.seg, Total(mem[a]));
        LinksKept(old(segs), segs, segSize, active, free, oldest, cur, freeSegments);
      } else {
        LogRecount(mem0, segs, segSize, active, free, reserved, a, c);
      }
      assert LogOk(mem, segs, segSize, active, free, reserved);
    }

    /** item_key_matches */
    function KeyMatches(a: Addr, key: seq<byte>): bool
      requires a in mem
      reads this`mem
    {
      |key| == |mem[a].key| && mem[a].key == key
    }

    /** The search of the overflow chain behind the last slot's item, with the item before the one found. */
    method ChainFind(ghost n: nat, last: Addr, ghost chain: seq<Addr>, key: seq<byte>, hv: nat)
      returns (prev: Addr, it: Option<Addr>, ghost j: nat)
      requires ChainOk(mem, index, n, Some(last), chain)
      ensures j <= |chain| && it == (if j < |chain| then Some(chain[j]) else None)
      ensures prev in mem && prev == if j == 0 then last else chain[j - 1]
      ensures it.Some? ==> Member(mem, index, n, it.value) && KeyOf(mem[it.value]) == Key(hv, key)
      ensures forall x :: 0 <= x < j ==> KeyOf(mem[chain[x]]) != Key(hv, key)
    {
      hide KeyOf, ChainOk, InTable;
      ChainAt(mem, index, n, last, chain, 0);
      prev, it, j := last, mem[last].next, 0;
      while it.Some? && !(mem[it.value].hv == hv && KeyMatches(it.value, key))
        invariant j <= |chain|
        invariant it == if j < |chain| then Some(chain[j]) else None
        invariant prev == if j == 0 then last else chain[j - 1]
        invariant forall x :: 0 <= x < j ==> chain[x] in mem && KeyOf(mem[chain[x]]) != Key(hv, key)
        invariant prev in mem && (it.Some? ==> it.value in mem)
        decreases |chain| - j
      {
        ChainAt(mem, index, n, last, chain, j);
        ChainAt(mem, index, n, last, chain, j + 1);
        KeyOfMatch(mem[chain[j]], hv, key);
        prev := it.value;
        it := mem[prev].next;
        j := j + 1;
      }
      if it.Some? {
        ChainAt(mem, index, n, last, chain, j);
        KeyOfMatch(mem[it.value], hv, key);
      }
    }

    /** hasht_get */
    method HashtGet(key: seq<byte>, hv: nat) returns (r: Option<Addr>)
      requires CoreValid()
      requires Key(hv, key) in index ==> mem[index[Key(hv, key)]].refcount < 0xffff
      modifies this`mem, this`held
      ensures CoreValid() && (old(WalkValid()) ==> WalkValid())
      ensures r.Some? <==> Key(hv, key) in index
      ensures r.Some? ==> r.value == index[Key(hv, key)]
      ensures held == if r.Some? then old(held) + multiset{r.value} else old(held)
      ensures r.Some? ==> r.value in old(mem)
      ensures mem == if r.Some? then Ref(old(mem), r.value) else old(mem)
    {
      hide LogOk, ActiveLinks, FreeLinks, Below, RingOk, RefsOk, TableOk, Covers, WalkOk, ChainOk, SlotsFirst;
      var b := hv % N_BUCKETS;
      BucketIn(mem, index, buckets, chains, b);
      ghost var chain := chains[b];
      var bucket := buckets[b];
      SlotKeys(mem, index, b, bucket, hv, key);
      var it: Option<Addr> := None;
      var i := 0;
      while i < N_SLOTS && it.None?
        invariant i <= N_SLOTS
        invariant it.Some? ==> Member(mem, index, b, it.value) && KeyOf(mem[it.value]) == Key(hv, key)
        invariant it.None? ==> forall j :: 0 <= j < i && bucket.items[j].Some? ==>
                    KeyOf(mem[bucket.items[j].value]) != Key(hv, key)
      {
        if bucket.items[i].Some? && bucket.hashes[i] == hv {
          if KeyMatches(bucket.items[i].value, key) {
            it := bucket.items[i];
          }
        }
        i := i + 1;
      }
      if it.None? {
        if bucket.items[N_SLOTS - 1].Some? {
          var _, found, _ := ChainFind(b, bucket.items[N_SLOTS - 1].value, chain, key, hv);
          it := found;
        }
        if it.None? {
          Missed(mem, index, b, bucket, chain, Key(hv, key));
        }
      }
      r := it;
      if it.Some? {
        ReferencedIsLive(mem, index, queue, held);
        ItemRefHeld(it.value);
      }
    }

    /** item_ref by somebody who keeps the reference. */
    method ItemRefHeld(a: Addr)
      requires CoreValid() && a in mem && 0 < mem[a].refcount < 0xffff
      modifies this`mem, this`held
      ensures CoreValid() && (old(WalkValid()) ==> WalkValid())
      ensures mem == Ref(old(mem), a)
      ensures held == old(held) + multiset{a}
    {
      hide LogOk, ActiveLinks, FreeLinks, Below, RingOk, RefsOk, TableOk, WalkOk;
      ItemRef(a);
      Referenced(old(mem), index, buckets, chains, queue, held, a);
      if old(WalkValid()) {
        WalkFrame(old(mem), mem, segs, segs, segSize, active, active, cur, cur, cleaning, cleanOffset, visited);
      }
      held := held + multiset{a};
    }

    /** Whether hasht_put stores `nit`: always, or under compare-and-set only for the current item of a direct slot. */
    ghost predicate Stores(nit: Addr, cas: Option<Addr>)
      requires nit in mem && |buckets| == N_BUCKETS
      reads this`mem, this`index, this`buckets
    {
      var k := KeyOf(mem[nit]);
      cas.None? || (k in index && index[k] == cas.value && cas in buckets[BucketOf(k.hv)].items)
    }

    /** A compare-and-set of a copy on its original succeeds exactly if the original is movable. */
    lemma StoresIfMovable(nit: Addr, it: Addr)
      requires nit in mem && it in mem && KeyOf(mem[nit]) == KeyOf(mem[it]) && |buckets| == N_BUCKETS
      ensures Stores(nit, Some(it)) <==> Movable(mem, index, buckets, it)
      ensures Movable(mem, index, buckets, it) ==> KeyOf(mem[nit]) in index && index[KeyOf(mem[nit])] == it
    {
    }

    /** hasht_put */
    method HashtPut(nit: Addr, cas: Option<Addr>)
      requires CoreValid()
      requires nit in held && !InTable(mem, index, nit) && mem[nit].refcount < 0xffff
      modifies this`mem, this`segs, this`index, this`chains, this`buckets
      ensures CoreValid() && (old(WalkValid()) ==> WalkValid())
      ensures OnlyFreed(old(segs), segs)
      ensures if old(Stores(nit, cas)) then Stored(old(mem), old(index), mem, index, nit)
              else mem == old(mem) && index == old(index) && buckets == old(buckets)
      ensures old(Stores(nit, cas)) && cas.Some? ==>
                SlotTaken(old(buckets), buckets, BucketOf(old(mem)[nit].hv), cas.value, nit)
    {
      hide LogOk, ActiveLinks, FreeLinks, Below, RingOk, RefsOk, TableOk, Covers, WalkOk, Stored, ChainOk;
      BucketIn(mem, index, buckets, chains, 0);
      ReferencedIsLive(mem, index, queue, held);
      var hv, key := mem[nit].hv, mem[nit].key;
      var b := hv % N_BUCKETS;
      BucketIn(mem, index, buckets, chains, b);
      var bucket := buckets[b];
      ghost var chain := chains[b];
      SlotKeys(mem, index, b, bucket, hv, key);
      var di, hasDirect := 0, false;
      var i := 0;
      while i < N_SLOTS
        invariant i <= N_SLOTS && di < N_SLOTS
        invariant hasDirect ==> bucket.items[di].None?
        invariant !hasDirect ==> forall j :: 0 <= j < i ==> bucket.items[j].Some?
        invariant forall j :: 0 <= j < i && bucket.items[j].Some? ==> KeyOf(mem[bucket.items[j].value]) != Key(hv, key)
      {
        if bucket.items[i].None? {
          hasDirect, di := true, i;
        } else if bucket.hashes[i] == hv {
          var it := bucket.items[i].value;
          if KeyMatches(it, key) {
            if cas.Some? && cas != Some(it) {
              return;
            }
            assert it == index[Key(hv, key)] && bucket.items[i] in bucket.items;
            ReplaceInSlot(b, i, nit, it);
            return;
          }
        }
        i := i + 1;
      }
      if cas.Some? {
        return;
      }
      if bucket.items[N_SLOTS - 1].None? {
        ChainEmpty(mem, index, b, chain);
      } else {
        var prev, it, j := ChainFind(b, bucket.items[N_SLOTS - 1].value, chain, key, hv);
        if it.Some? {
          ReplaceInChain(b, j, nit, prev, it.value);
          return;
        }
      }
      Missed(mem, index, b, bucket, chain, Key(hv, key));
      if !hasDirect {
        di := N_SLOTS - 1;
      }
      InsertNew(b, di, nit);
    }

    method ReplaceInSlot(b: nat, i: nat, nit: Addr, it: Addr)
      requires CoreValid()
      requires nit in held && !InTable(mem, index, nit) && mem[nit].refcount < 0xffff
      requires b == BucketOf(mem[nit].hv) && b < |buckets| && i < N_SLOTS == |buckets[b].items|
      requires buckets[b].items[i] == Some(it) && InTable(mem, index, it) && KeyOf(mem[it]) == KeyOf(mem[nit])
      modifies this`mem, this`segs, this`index, this`buckets
      ensures CoreValid() && (old(WalkValid()) ==> WalkValid())
      ensures Stored(old(mem), old(index), mem, index, nit) && OnlyFreed(old(segs), segs)
      ensures SlotTaken(old(buckets), buckets, b, it, nit)
    {
      hide LogOk, ActiveLinks, FreeLinks, Below, RingOk, RefsOk, TableOk, Stored, WalkOk;
      TableItemIsLive(mem, index, queue, held, it);
      HeldIsLive(mem, index, queue, held, nit);
      LinkInstead(nit, it);
      buckets := buckets[b := buckets[b].(items := buckets[b].items[i := Some(nit)])];
      index := index[KeyOf(mem[nit]) := nit];
      PutInSlot(old(mem), old(index), old(buckets), chains, queue, held, b, i, nit, it, mem);
      KeepWalk(old(mem), old(index), old(segs), nit);
    }

    method ReplaceInChain(b: nat, ghost j: nat, nit: Addr, prev: Addr, it: Addr)
      requires CoreValid()
      requires nit in held && !InTable(mem, index, nit) && mem[nit].refcount < 0xffff
      requires b == BucketOf(mem[nit].hv) && b < |buckets| == |chains|
      requires IsPrev(buckets[b], chains[b], j, prev) && it == chains[b][j] && prev in mem
      requires InTable(mem, index, it) && KeyOf(mem[it]) == KeyOf(mem[nit])
      modifies this`mem, this`segs, this`index, this`chains
      ensures CoreValid() && (old(WalkValid()) ==> WalkValid())
      ensures Stored(old(mem), old(index), mem, index, nit) && OnlyFreed(old(segs), segs)
    {
      hide LogOk, ActiveLinks, FreeLinks, Below, RingOk, RefsOk, TableOk, Stored, WalkOk, BucketOk, Covers;
      TableItemIsLive(mem, index, queue, held, it);
      HeldIsLive(mem, index, queue, held, nit);
      LinkBehind(nit, prev, it);
      index := index[KeyOf(mem[nit]) := nit];
      chains := chains[b := chains[b][j := nit]];
      PutInChain(old(mem), old(index), buckets, old(chains), queue, held, b, j, nit, prev, it, mem);
      KeepWalk(old(mem), old(index), old(segs), nit);
    }

    /** hasht_put, the link and the references when the item of a slot is replaced */
    method LinkInstead(nit: Addr, it: Addr)
      requires LogValid() && nit in mem && it in mem && it != nit
      requires 0 < mem[nit].refcount < 0xffff && mem[it].refcount > 0
      modifies this`mem, this`segs
      ensures LogValid() && OnlyFreed(old(segs), segs)
      ensures mem == (var m := Ref(old(mem), nit); Drop(Link(m, nit, m[it].next), it))
    {
      hide LogOk, ActiveLinks, FreeLinks, Below;
      ItemRef(nit);
      SetNext(nit, mem[it].next);
      ItemUnref(it);
    }

    /** hasht_put, the link and the reference of an item put into a slot */
    method LinkBefore(nit: Addr, next: Option<Addr>)
      requires LogValid() && nit in mem && 0 < mem[nit].refcount < 0xffff
      modifies this`mem
      ensures LogValid()
      ensures mem == Link(Ref(old(mem), nit), nit, next)
    {
      hide LogOk, ActiveLinks, FreeLinks, Below;
      ItemRef(nit);
      SetNext(nit, next);
    }

    /** hasht_put, the links and references when an item of the chain is replaced */
    method LinkBehind(nit: Addr, prev: Addr, it: Addr)
      requires LogValid() && nit in mem && prev in mem && it in mem && it != nit
      requires 0 < mem[nit].refcount < 0xffff && mem[it].refcount > 0
      modifies this`mem, this`segs
      ensures LogValid() && OnlyFreed(old(segs), segs)
      ensures mem == (var m := Ref(old(mem), nit); Drop(Link(Link(m, nit, m[it].next), prev, Some(nit)), it))
    {
      hide LogOk, ActiveLinks, FreeLinks, Below;
      ItemRef(nit);
      SetNext(nit, mem[it].next);
      SetNext(prev, Some(nit));
      ItemUnref(it);
    }

    method InsertNew(b: nat, di: nat, nit: Addr)
      requires CoreValid()
      requires nit in held && !InTable(mem, index, nit) && mem[nit].refcount < 0xffff
      requires b == BucketOf(mem[nit].hv) && b < |buckets| == |chains| && KeyOf(mem[nit]) !in index
      requires di < N_SLOTS == |buckets[b].items| == |buckets[b].hashes|
      requires buckets[b].items[di].Some? ==> di == N_SLOTS - 1 && None !in buckets[b].items
      modifies this`mem, this`segs, this`index, this`chains, this`buckets
      ensures CoreValid() && (old(WalkValid()) ==> WalkValid())
      ensures Stored(old(mem), old(index), mem, index, nit) && OnlyFreed(old(segs), segs)
    {
      hide LogOk, ActiveLinks, FreeLinks, Below, RingOk, RefsOk, TableOk, Stored, WalkOk;
      HeldIsLive(mem, index, queue, held, nit);
      ghost var pushed := buckets[b].items[di];
      LinkBefore(nit, buckets[b].items[di]);
      buckets := buckets[b := Bucket(buckets[b].items[di := Some(nit)], buckets[b].hashes[di := mem[nit].hv])];
      index := index[KeyOf(mem[nit]) := nit];
      chains := chains[b := if pushed.Some? then [pushed.value] + chains[b] else chains[b]];
      PutNew(old(mem), old(index), old(buckets), old(chains), queue, held, b, di, nit, mem);
      KeepWalk(old(mem), old(index), old(segs), nit);
    }

    lemma KeepWalk(mem0: Memory, index0: Index, segs0: SegMap, nit: Addr)
      requires nit in mem0 && Stored(mem0, index0, mem, index, nit)
      requires forall s :: s in segs0 ==> s in segs
      ensures WalkOk(mem0, segs0, segSize, active, cur, cleaning, cleanOffset, visited) ==> WalkValid()
    {
      hide WalkOk;
      if WalkOk(mem0, segs0, segSize, active, cur, cleaning, cleanOffset, visited) {
        WalkFrame(mem0, mem, segs0, segs, segSize, active, active, cur, cur, cleaning, cleanOffset, visited);
      }
    }

    method SetNext(a: Addr, next: Option<Addr>)
      requires LogValid() && a in mem
      modifies this`mem
      ensures LogValid()
      ensures mem == Link(old(mem), a, next)
    {
      hide LogOk, ActiveLinks, FreeLinks;
      LogRelink(mem, segs, segSize, active, free, reserved, a, next);
      mem := mem[a := mem[a].(next := next)];
    }

    /** item_unref of a reference somebody holds */
    method Unref(a: Addr)
      requires CoreValid() && a in held
      modifies this`mem, this`segs, this`held
      ensures CoreValid() && (old(WalkValid()) ==> WalkValid())
      ensures a in old(mem) && old(mem)[a].refcount > 0 && mem == Drop(old(mem), a)
      ensures held == old(held) - multiset{a} && OnlyFreed(old(segs), segs)
    {
      hide LogOk, ActiveLinks, FreeLinks, Below, RingOk, RefsOk, TableOk, WalkOk;
      HeldIsLive(mem, index, queue, held, a);
      ItemUnref(a);
      Unreferenced(old(mem), index, buckets, chains, queue, held, a);
      if old(WalkValid()) {
        WalkFrame(old(mem), mem, old(segs), segs, segSize, active, active, cur, cur, cleaning, cleanOffset, visited);
      }
      held := held - multiset{a};
    }

    /** segment_alloc */
    method SegmentAlloc() returns (r: SegmentResult)
      requires LogValid()
      modifies this`mem, this`segs, this`freeSegments, this`segAlloced, this`free
      ensures LogValid()
      ensures r.SegmentExit? <==> old(freeSegments).None? && old(segAlloced) >= segMaxNum
      ensures r.NoHeader? <==> old(freeSegments).None? && old(segAlloced) < segMaxNum && !headerOk(old(segAlloced))
      ensures r.Segment? ==>
                && r.h !in active && r.h !in free && reserved != Some(r.h)
                && Unused(mem, segs, r.h)
                && (forall s :: s in old(segs) && s != r.h ==> s in segs && segs[s] == old(segs)[s])
      ensures !r.Segment? ==> mem == old(mem) && segs == old(segs)
      ensures Allocated(old(mem), mem, active, None)
      ensures forall a :: a in old(mem) && a.seg in active ==> a in mem
      ensures !r.Segment? ==> OutOfSegments()
      ensures segAlloced == if r.SegmentExit? || old(freeSegments).Some? then old(segAlloced) else old(segAlloced) + 1
      ensures old(freeSegments).None? ==> freeSegments.None?
    {
      hide LogOk, ActiveLinks, FreeLinks, Below;
      if freeSegments.Some? {
        var h := TakeFreeSegment();
        return Segment(h);
      }
      var i := segAlloced;
      if i >= segMaxNum {
        return SegmentExit;
      }
      NotYetAllocated(segs, i, FRESH);
      segAlloced := segAlloced + 1;
      if !headerOk(i) {
        return NoHeader;
      }
      NewSegmentIsEmpty(mem, segs, segSize, active, free, reserved, i);
      LogInit(mem, segs, segSize, active, free, reserved, i, FRESH);
      LinksFrame(segs, segs[i := FRESH], segSize, active, oldest, cur, free, freeSegments, i);
      segs := segs[i := FRESH];
      return Segment(i);
    }

    /** segment_alloc, from the free list */
    method TakeFreeSegment() returns (h: nat)
      requires LogValid() && freeSegments.Some?
      modifies this`mem, this`segs, this`freeSegments, this`free
      ensures LogValid()
      ensures h !in active && h !in free && reserved != Some(h)
      ensures Unused(mem, segs, h)
      ensures forall s :: s in old(segs) && s != h ==> s in segs && segs[s] == old(segs)[s]
      ensures Allocated(old(mem), mem, active, None)
      ensures forall a :: a in old(mem) && a.seg in active ==> a in mem
    {
      hide LogOk, ActiveLinks, Below, FreeLinks, Allocated;
      h := freeSegments.value;
      FreeHead(segs, free, freeSegments);
      LogTakeFree(mem, segs, segSize, active, free, reserved);
      ForgetDead(mem, h, active);
      ghost var hdr := segs[h].(offset := 0, inactive := false, cleaned := false, freed := 0);
      LogInit(Forget(mem, h), segs, segSize, active, free[1..], reserved, h, hdr);
      FreeTail(segs, segs[h := hdr], segSize, active, oldest, cur, free, freeSegments);
      BelowUpdate(segs, segAlloced, h, hdr);
      freeSegments := segs[h].next;
      free := free[1..];
      segs := segs[h := segs[h].(offset := 0, inactive := false, cleaned := false, freed := 0)];
      mem := Forget(mem, h);
    }

    /** segment_item_alloc_pointer */
    method SegmentItemAllocPointer(h: nat, total: nat) returns (r: Option<Addr>)
      requires h in segs && SegOk(mem, h, segs[h], segSize)
      requires ITEM_SIZE <= total <= MAX_TOTAL
      modifies this`mem, this`segs
      ensures h in segs && SegOk(mem, h, segs[h], segSize)
      ensures r.Some? <==> old(segs)[h].offset + total <= segSize
      ensures var hdr := old(segs)[h];
              if r.Some? then
                && r.value == Addr(h, hdr.offset) && r.value !in old(mem)
                && mem == old(mem)[r.value := Blank(total)]
                && segs == old(segs)[h := hdr.(offset := hdr.offset + total)]
              else
                var avail := segSize - hdr.offset;
                && segs == old(segs)[h := hdr.(offset := segSize, freed := hdr.freed + avail)]
                && Addr(h, hdr.offset) !in old(mem)
                && mem == if avail < ITEM_SIZE then old(mem) else old(mem)[Addr(h, hdr.offset) := Filler(avail)]
    {
      hide SegOk;
      SegRoom(mem, h, segs[h], segSize);
      var hdr := segs[h];
      var it := Addr(h, hdr.offset);
      var avail := segSize - hdr.offset;
      if avail == 0 {
        assert segs[h := hdr.(offset := segSize, freed := hdr.freed + avail)] == segs;
        return None;
      } else if avail < total {
        if ITEM_SIZE <= avail {
          FillerFits(avail);
          SegAppend(mem, h, hdr, segSize, Filler(avail));
          mem := mem[it := Filler(avail)];
        } else {
          SegWaste(mem, h, hdr, segSize);
        }
        SegmentItemFree(h, avail);
        segs := segs[h := segs[h].(offset := segs[h].offset + avail)];
        return None;
      }
      SegAppend(mem, h, hdr, segSize, Blank(total));
      mem := mem[it := Blank(total)];
      segs := segs[h := hdr.(offset := hdr.offset + total)];
      return Some(it);
    }

    /** segment_item_alloc_pointer on the current segment */
    method AllocInCurrent(total: nat) returns (r: Option<Addr>)
      requires LogValid()
      requires ITEM_SIZE <= total <= MAX_TOTAL
      modifies this`mem, this`segs
      ensures LogValid()
      ensures cur in old(segs) && cur in segs && segs.Keys == old(segs).Keys
      ensures segs[cur] == old(segs)[cur].(offset := segs[cur].offset, freed := segs[cur].freed)
      ensures r.Some? <==> old(segs)[cur].offset + total <= segSize
      ensures r.Some? ==> segs[cur].offset == old(segs)[cur].offset + total
      ensures r.Some? ==> r.value == Addr(cur, old(segs)[cur].offset) && r.value in mem && mem[r.value] == Blank(total)
      ensures r.None? ==> segs[cur].offset == segSize
      ensures Allocated(old(mem), mem, active, r)
      ensures forall s :: s in segs && s != cur ==> segs[s] == old(segs)[s]
    {
      hide LogOk, ActiveLinks, FreeLinks, Below, SegOk, Allocated;
      CurIsActive(mem, segs, segSize, active, free, reserved, oldest, cur);
      r := SegmentItemAllocPointer(cur, total);
      ghost var avail := segSize - old(segs)[cur].offset;
      ghost var it := if r.Some? then Blank(total) else if avail < ITEM_SIZE then Filler(ITEM_SIZE) else Filler(avail);
      AllocatedOne(old(mem), mem, active, Addr(cur, old(segs)[cur].offset), it, r);
      LogCurChanged(old(mem), mem, old(segs), segSize, active, free, reserved, cur, segs[cur], it);
      assert segs == old(segs)[cur := segs[cur]];
      LinksCur(old(segs), segs, segSize, active, free, oldest, cur, freeSegments);
      BelowUpdate(old(segs), segAlloced, cur, segs[cur]);
    }

    /** ialloc_alloc, the segment to go on with: for cleaning, as a last resort, the reserved one */
    method NextSegment(cleanup: bool) returns (r: SegmentResult)
      requires LogValid() && (reserved.Some? || cleanup)
      modifies this`mem, this`segs, this`freeSegments, this`segAlloced, this`free, this`reserved
      ensures LogValid()
      ensures r.Segment? ==> Unused(mem, segs, r.h) && r.h !in active && r.h !in free && reserved != Some(r.h)
      ensures forall s :: s in old(segs) ==> s in segs && (s in active ==> segs[s] == old(segs)[s])
      ensures Allocated(old(mem), mem, active, None)
      ensures forall a :: a in old(mem) && a.seg in active ==> a in mem
      ensures !r.Segment? ==> OutOfSegments()
      ensures r.SegmentExit? <==> old(freeSegments).None? && old(segAlloced) >= segMaxNum
      ensures var failed := old(freeSegments).None? && old(segAlloced) < segMaxNum && !headerOk(old(segAlloced));
              && (r.NoHeader? <==> failed && !(cleanup && old(reserved).Some?))
              && reserved == if cleanup && failed then None else old(reserved)
      ensures old(freeSegments).None? ==> freeSegments.None?
      ensures old(freeSegments).None? && !r.SegmentExit? ==> segAlloced == old(segAlloced) + 1
      ensures SpaceUsed(headerOk, old(SpaceLeft()), SpaceLeft(), cleanup, r.NoHeader?)
    {
      hide LogOk, ActiveLinks, FreeLinks, Below, Allocated;
      r := SegmentAlloc();
      if r.NoHeader? && cleanup && reserved.Some? {
        r := Segment(reserved.value);
        LogUnreserve(mem, segs, segSize, active, free, reserved.value);
        reserved := None;
      }
    }

    /** ialloc_alloc, the step to a new current segment */
    method SwitchTo(h: nat)
      requires LogValid()
      requires Unused(mem, segs, h) && h !in active && h !in free && reserved != Some(h)
      requires cur in segs && segs[cur].offset == segSize
      modifies this`segs, this`cur, this`active
      ensures LogValid()
      ensures cur == h && active == old(active) + [h] && segs.Keys == old(segs).Keys
      ensures segs[h].offset == 0 && !segs[h].cleaned
      ensures forall s :: s in segs ==> segs[s].cleaned == old(segs)[s].cleaned
    {
      hide LogOk, ActiveLinks, FreeLinks, Below;
      CurIsActive(mem, segs, segSize, active, free, reserved, oldest, cur);
      ghost var segs0 := segs;
      segs := segs[cur := segs[cur].(next := Some(h))];
      segs := segs[h := segs[h].(next := None)];
      segs := segs[cur := segs[cur].(inactive := true)];
      LogExtend(mem, segs0, segs, segSize, active, free, reserved, h, cur);
      LinksExtend(segs0, segs, segSize, active, oldest, cur, free, freeSegments, h);
      BelowKeys(segs0, segs, segAlloced);
      cur := h;
      active := active + [h];
    }

    /** ialloc_alloc, once the current segment is full */
    method AllocInNext(total: nat, cleanup: bool) returns (r: ItemResult)
      requires LogValid() && (reserved.Some? || cleanup)
      requires ITEM_SIZE <= total <= segSize && total <= MAX_TOTAL
      requires cur in segs && segs[cur].offset == segSize
      modifies this`mem, this`segs, this`freeSegments, this`segAlloced, this`free, this`reserved, this`cur, this`active
      ensures LogValid()
      ensures forall s :: s in old(segs) ==> s in segs
      ensures forall s :: s in old(active) ==> s in old(segs) && s in segs && segs[s].cleaned == old(segs)[s].cleaned
      ensures Allocated(old(mem), mem, old(active), if r.Got? then Some(r.it) else None)
      ensures !r.Got? ==> active == old(active) && cur == old(cur) && OutOfSegments()
      ensures r.Got? ==> r.it == Addr(cur, 0) && cur !in old(active) && active == old(active) + [cur]
      ensures r.Got? ==> r.it in mem && mem[r.it] == Blank(total)
      ensures r.Got? ==> cur in segs && !segs[cur].cleaned && segs[cur].offset == total
      ensures SpaceUsed(headerOk, old(SpaceLeft()), SpaceLeft(), cleanup, r.Null?)
      ensures r.Exit? <==> old(Exhausted(total))
      ensures r.Null? <==> old(HeaderFails(total)) && !(cleanup && old(reserved).Some?)
      ensures reserved == if cleanup && old(HeaderFails(total)) then None else old(reserved)
      ensures old(freeSegments).None? ==> freeSegments.None? && (r.Got? ==> segAlloced == old(segAlloced) + 1)
    {
      hide LogOk, ActiveLinks, FreeLinks, Below, SegOk, Unused, SpaceUsed, Allocated;
      CurIsActive(mem, segs, segSize, active, free, reserved, oldest, cur);
      ListsApart(mem, segs, segSize, active, free, reserved);
      var s := NextSegment(cleanup);
      match s {
        case SegmentExit => return Exit;
        case NoHeader => return Null;
        case Segment(h) =>
          ghost var mem1 := mem;
          SwitchTo(h);
          var it := AllocInCurrent(total);
          if it.None? {
            return Null;
          }
          AllocatedTrans(old(mem), mem1, mem, old(active), active, it);
          return Got(it.value);
      }
    }

    /** ialloc_alloc, as far as the log is concerned */
    method IallocAlloc(total: nat, cleanup: bool) returns (r: ItemResult)
      requires LogValid()
      requires ITEM_SIZE <= total <= segSize && total <= MAX_TOTAL
      modifies this`mem, this`segs, this`freeSegments, this`segAlloced, this`free, this`reserved, this`cur, this`active
      ensures LogValid()
      ensures forall s :: s in old(segs) ==> s in segs
      ensures Grown(old(active), old(cur), active, cur)
      ensures Allocated(old(mem), mem, old(active), if r.Got? then Some(r.it) else None)
      ensures r.Got? ==> r.it in mem && mem[r.it] == Blank(total)
      ensures r.Got? ==> Placed(old(segs), old(active), old(cur), segSize, total, segs, active, cur, r.it)
      ensures old(reserved).None? && !cleanup ==> r.Null? && mem == old(mem)
      ensures !r.Got? ==> (old(reserved).None? && !cleanup) || OutOfSegments()
      ensures SpaceUsed(headerOk, old(SpaceLeft()), SpaceLeft(), cleanup, r.Null?)
      ensures old(cur) in old(segs)
      ensures r.Exit? <==> (old(reserved).Some? || cleanup) && old(Exhausted(total))
      ensures r.Null? <==> if old(reserved).None? then !cleanup || old(HeaderFails(total))
                           else !cleanup && old(HeaderFails(total))
      ensures reserved == if cleanup && old(HeaderFails(total)) then None else old(reserved)
      ensures (old(reserved).None? && !cleanup) || !old(Full(total)) ==>
                freeSegments == old(freeSegments) && segAlloced == old(segAlloced)
      ensures old(freeSegments).None? ==> freeSegments.None?
      ensures old(freeSegments).None? && r.Got? && old(Full(total)) ==> segAlloced == old(segAlloced) + 1
    {
      hide LogOk, ActiveLinks, FreeLinks, Below, SegOk, Placed, Unused, SpaceUsed;
      NoSpaceUsed(headerOk, SpaceLeft(), cleanup);
      CurIsActive(mem, segs, segSize, active, free, reserved, oldest, cur);
      ListsApart(mem, segs, segSize, active, free, reserved);
      if reserved.None? && !cleanup {
        return Null;
      }
      ghost var active1 := active;
      var it := AllocInCurrent(total);
      if it.Some? {
        PlacedHere(old(segs), active, cur, segSize, total, segs, it.value);
        return Got(it.value);
      }
      ghost var mem1, segs1 := mem, segs;
      r := AllocInNext(total, cleanup);
      AllocatedTrans(old(mem), mem1, mem, active1, active1, if r.Got? then Some(r.it) else None);
      if r.Got? {
        PlacedThere(old(segs), active1, old(cur), segSize, total, segs1, segs, cur, r.it);
      }
    }

    /** ialloc_alloc: the caller holds the only reference to the new item. */
    method Alloc(total: nat, cleanup: bool) returns (r: ItemResult)
      requires CoreValid()
      requires ITEM_SIZE <= total <= segSize && total <= MAX_TOTAL
      modifies this`mem, this`segs, this`freeSegments, this`segAlloced, this`free, this`reserved
      modifies this`cur, this`active, this`held
      ensures CoreValid() && (old(WalkValid()) ==> WalkValid())
      ensures held == if r.Got? then old(held) + multiset{r.it} else old(held)
      ensures r.Got? ==> r.it in mem && mem[r.it] == Blank(total) && !InTable(mem, index, r.it) && r.it !in old(held)
      ensures r.Got? && r.it in old(mem) ==> old(mem)[r.it].refcount == 0 && r.it.seg !in old(active)
      ensures r.Got? ==> Placed(old(segs), old(active), old(cur), segSize, total, segs, active, cur, r.it)
      ensures Grown(old(active), old(cur), active, cur)
      ensures Kept(old(mem), mem, old(active)) && SameView(old(mem), mem, index)
      ensures forall a :: a in old(mem) && old(mem)[a].refcount > 0 ==> a in mem && mem[a] == old(mem)[a]
      ensures old(reserved).None? && !cleanup ==> r.Null? && mem == old(mem)
      ensures !r.Got? ==> (old(reserved).None? && !cleanup) || OutOfSegments()
      ensures SpaceUsed(headerOk, old(SpaceLeft()), SpaceLeft(), cleanup, r.Null?)
      ensures r.Exit? <==> (old(reserved).Some? || cleanup) && old(Exhausted(total))
      ensures r.Null? <==> if old(reserved).None? then !cleanup || old(HeaderFails(total))
                           else !cleanup && old(HeaderFails(total))
      ensures reserved == if cleanup && old(HeaderFails(total)) then None else old(reserved)
      ensures (old(reserved).None? && !cleanup) || !old(Full(total)) ==>
                freeSegments == old(freeSegments) && segAlloced == old(segAlloced)
      ensures old(freeSegments).None? ==> freeSegments.None?
      ensures old(freeSegments).None? && r.Got? && old(Full(total)) ==> segAlloced == old(segAlloced) + 1
    {
      hide LogOk, ActiveLinks, FreeLinks, Below, TableOk, RefsOk, RingOk, WalkOk, Allocated, Kept;
      hide SameView, Placed, SpaceUsed;
      r := IallocAlloc(total, cleanup);
      ghost var added := if r.Got? then Some(r.it) else None;
      AllocKeeps(old(mem), mem, index, buckets, chains, queue, held, old(active), added);
      AllocLive(old(mem), mem, old(active), added);
      if old(WalkValid()) {
        AllocWalk(old(mem), mem, old(active), old(cur), added);
        WalkFrame(old(mem), mem, old(segs), segs, segSize, old(active), active, old(cur), cur, cleaning, cleanOffset,
                  visited);
      }
      if r.Got? {
        if r.it in held { HeldIsLive(old(mem), index, queue, held, r.it); }
        held := held + multiset{r.it};
      }
    }

    /** The owner of a fresh item fills in its lengths, key and value. */
    method Fill(a: Addr, hv: nat, key: seq<byte>, val: seq<byte>)
      requires CoreValid() && a in held && a in mem && mem[a].refcount == 1
      requires ITEM_SIZE + |key| + |val| == Total(mem[a])
      modifies this`mem
      ensures CoreValid() && (old(WalkValid()) ==> WalkValid())
      ensures mem == old(mem)[a := old(mem)[a].(hv := hv, key := key, val := val)]
      ensures !InTable(mem, index, a)
      ensures SameView(old(mem), mem, index)
    {
      hide LogOk, ActiveLinks, FreeLinks, Below, TableOk, RefsOk, RingOk, WalkOk;
      ghost var mem' := mem[a := mem[a].(hv := hv, key := key, val := val)];
      FillKeeps(mem, mem', index, buckets, chains, queue, held, a);
      LogFrame(mem, mem', segs, segSize, active, free, reserved);
      if WalkValid() {
        WalkFrame(mem, mem', segs, segs, segSize, active, active, cur, cur, cleaning, cleanOffset, visited);
      }
      mem := mem[a := mem[a].(hv := hv, key := key, val := val)];
    }

    lemma Housing()
      requires CoreValid()
      ensures Housed(mem, index, active) && LiveInside(mem, active) && |buckets| == N_BUCKETS
      ensures forall a :: a in queue ==> a in mem && mem[a].refcount > 0 && a.seg in active
    {
      hide LogOk, ActiveLinks, FreeLinks, Below, TableOk, RefsOk, RingOk;
      BucketIn(mem, index, buckets, chains, 0);
      AllHoused(mem, segs, segSize, active, free, reserved, index, queue, held);
    }

    lemma LiveIsInside()
      requires CoreValid()
      ensures LiveInside(mem, active)
    {
      Housing();
    }

    /** ialloc_cleanup_item, its second half: get a new reserved segment if cleaning has used up the last one.
        Returns whether the process has ended. */
    method Reserve() returns (ended: bool)
      requires CoreValid()
      modifies this`mem, this`segs, this`freeSegments, this`segAlloced, this`free, this`reserved
      ensures CoreValid() && (old(WalkValid()) ==> WalkValid())
      ensures Kept(old(mem), mem, active) && SameView(old(mem), mem, index)
      ensures forall a :: a in old(mem) && old(mem)[a].refcount > 0 ==> a in mem && mem[a] == old(mem)[a]
      ensures old(reserved).Some? ==> !ended
      ensures old(reserved).Some? ==> unchanged(this`mem, this`segs, this`freeSegments, this`segAlloced, this`reserved)
      ensures ended ==> OutOfSegments()
      ensures Spent(headerOk, old(SpaceLeft()), SpaceLeft())
    {
      hide LogOk, ActiveLinks, FreeLinks, Below, TableOk, RefsOk, RingOk, WalkOk, Allocated, Kept, SameView;
      ended := false;
      if reserved.None? {
        var s := SegmentAlloc();
        AllocKeeps(old(mem), mem, index, buckets, chains, queue, held, active, None);
        AllocLive(old(mem), mem, active, None);
        if old(WalkValid()) {
          AllocWalk(old(mem), mem, active, cur, None);
          WalkFrame(old(mem), mem, old(segs), segs, segSize, active, active, cur, cur, cleaning, cleanOffset, visited);
        }
        if s.Segment? {
          LogReserve(mem, segs, segSize, active, free, s.h);
          reserved := Some(s.h);
        }
        ended := s.SegmentExit?;
      } else {
        KeptSame(mem, index, buckets, chains, active);
      }
    }

    /** ialloc_cleanup_item: the oldest item of the cleanup queue, if the limit per request permits. The caller takes
        over the queue's reference. */
    method CleanupItem(idle: bool) returns (it: Option<Addr>, ended: bool)
      requires CoreValid()
      modifies this`mem, this`segs, this`freeSegments, this`segAlloced, this`free, this`reserved
      modifies this`cleanupCount, this`cqHead, this`queue, this`held, cleanupQueue
      ensures CoreValid() && Cleans(headerOk, old(held), old(Here()), Here())
      ensures !ended ==> (it.Some? <==> old(queue) != [] && (idle || old(cleanupCount) < 32))
      ensures it.Some? ==> old(queue) != [] && it.value == old(queue)[0] && queue == old(queue)[1..]
      ensures it.None? ==> queue == old(queue)
      ensures it.Some? ==> it.value in old(mem) && it.value in mem && mem[it.value] == old(mem)[it.value]
      ensures held == if it.Some? then old(held) + multiset{it.value} else old(held)
      ensures cleanupCount == if idle || old(cleanupCount) >= 32 then old(cleanupCount) else old(cleanupCount) + 1
      ensures ended ==> OutOfSegments()
      ensures old(reserved).Some? ==> !ended
      ensures old(reserved).Some? ==> unchanged(this`mem, this`segs, this`freeSegments, this`segAlloced, this`reserved)
    {
      hide LogOk, ActiveLinks, FreeLinks, Below, TableOk, RefsOk, RingOk, WalkOk, Kept, SameView, ViewOf;
      hide BucketOk, Covers, IndexOk, Housed, LiveInside;
      KeptSame(mem, index, buckets, chains, active);
      Housing();
      if !idle {
        if cleanupCount >= 32 {
          return None, false;
        }
        cleanupCount := cleanupCount + 1;
      }
      it, ended := TakeItem();
    }

    /** ialloc_cleanup_item, from the ring on */
    method TakeItem() returns (it: Option<Addr>, ended: bool)
      requires CoreValid()
      modifies this`mem, this`segs, this`freeSegments, this`segAlloced, this`free, this`reserved
      modifies this`cqHead, this`queue, this`held, cleanupQueue
      ensures CoreValid() && (old(WalkValid()) ==> WalkValid())
      ensures Kept(old(mem), mem, active) && View() == old(View())
      ensures forall a :: a in old(mem) && old(mem)[a].refcount > 0 ==> a in mem && mem[a] == old(mem)[a]
      ensures it.Some? <==> old(queue) != []
      ensures it.Some? ==> it.value == old(queue)[0] && queue == old(queue)[1..]
      ensures it.None? ==> queue == old(queue)
      ensures held == if it.Some? then old(held) + multiset{it.value} else old(held)
      ensures ended ==> OutOfSegments()
      ensures Spent(headerOk, old(SpaceLeft()), SpaceLeft())
      ensures old(reserved).Some? ==> !ended
      ensures old(reserved).Some? ==> unchanged(this`mem, this`segs, this`freeSegments, this`segAlloced, this`reserved)
    {
      hide LogOk, ActiveLinks, FreeLinks, Below, TableOk, RefsOk, RingOk, WalkOk, Kept, SameView, ViewOf;
      hide BucketOk, Covers, IndexOk;
      it := TakeFromRing();
      BucketIn(mem, index, buckets, chains, 0);
      ended := Reserve();
      BucketIn(mem, index, buckets, chains, 0);
      ViewKept(old(mem), mem, index);
    }

    method TakeFromRing() returns (it: Option<Addr>)
      requires CoreValid()
      modifies this`cqHead, this`queue, this`held, cleanupQueue
      ensures CoreValid()
      ensures it.Some? <==> old(queue) != []
      ensures it.Some? ==> it.value == old(queue)[0] && queue == old(queue)[1..]
      ensures it.None? ==> queue == old(queue)
      ensures held == if it.Some? then old(held) + multiset{it.value} else old(held)
    {
      hide LogOk, ActiveLinks, FreeLinks, Below, TableOk, RefsOk, WalkOk;
      RingEnds(cleanupQueue[..], cqHead, cqTail, queue);
      var i := cqHead;
      it := cleanupQueue[i];
      if it.Some? {
        RingPop(cleanupQueue[..], cqHead, cqTail, queue);
        RefsDequeued(mem, index, queue, held);
        hide RingOk;
        ghost var ring := cleanupQueue[..];
        cleanupQueue[i] := None;
        assert cleanupQueue[..] == ring[i := None];
        cqHead := (i + 1) % cleanupQueue.Length;
        held := held + multiset{queue[0]};
        queue := queue[1..];
      }
    }

    /** clean_log, for one item of the queue: copy it to the current segment if anybody but the queue refers to it,
        let the copy replace it in the table, and drop the queue's reference. */
    method CleanItem(it: Addr) returns (ended: bool)
      requires CoreValid() && it in held
      modifies this`mem, this`segs, this`freeSegments, this`segAlloced, this`free, this`reserved, this`cur, this`active
      modifies this`held, this`index, this`chains, this`buckets
      ensures CoreValid() && Cleans(headerOk, old(held), old(Here()), Here())
      ensures !ended ==> held == old(held) - multiset{it}
      ensures ended ==> OutOfSegments()
      ensures !ended ==>
                Handled(old(mem), old(index), old(buckets), old(active), mem, index, buckets, active, cur, it, 1)
      ensures ended <==> old(Stuck(it))
      ensures ended ==> reserved == old(reserved)
    {
      hide LogOk, ActiveLinks, FreeLinks, Below, TableOk, RefsOk, RingOk, WalkOk, Kept, SameView;
      hide Stored, InTable, ViewOf, NoneEntered;
      SameEntered(index, held);
      HeldIsLive(mem, index, queue, held, it);
      KeptSame(mem, index, buckets, chains, active);
      if mem[it].refcount != 1 {
        ended := MoveItem(it);
        if ended {
          return;
        }
      } else {
        OnlyQueued(mem, index, queue, held, it);
        NotMoved(mem, index, buckets, active, cur, it);
      }
      ghost var mem1 := mem;
      GiveUp(it);
      HandledDrop(old(mem), old(index), old(buckets), old(active), mem1, index, buckets, active, cur, it);
      KeptTrans(old(mem), mem1, mem, old(active), active);
      ended := false;
    }

    /** clean_log, the copy: the same key and value at a new place, held by the worker alone. */
    method CopyItem(it: Addr) returns (nit: Option<Addr>)
      requires CoreValid() && it in held && it in mem
      modifies this`mem, this`segs, this`freeSegments, this`segAlloced, this`free, this`reserved
      modifies this`cur, this`active, this`held
      ensures CoreValid() && (old(WalkValid()) ==> WalkValid())
      ensures View() == old(View())
      ensures Grown(old(active), old(cur), active, cur) && Kept(old(mem), mem, old(active))
      ensures it in mem && mem[it] == old(mem)[it]
      ensures held == if nit.Some? then old(held) + multiset{nit.value} else old(held)
      ensures nit.Some? ==>
                nit.value in mem && nit.value != it && !InTable(mem, index, nit.value) && mem[nit.value].refcount == 1
      ensures nit.Some? ==> KeyOf(mem[nit.value]) == KeyOf(mem[it]) && mem[nit.value].val == mem[it].val
      ensures nit.None? ==> OutOfSegments()
      ensures nit.Some? ==> nit.value !in old(held) && nit.value.seg == cur && cur in active
      ensures nit.Some? && nit.value in old(mem) ==>
                old(mem)[nit.value].refcount == 0 && nit.value.seg !in old(active)
      ensures Spent(headerOk, old(SpaceLeft()), SpaceLeft())
      ensures nit.None? <==> old(NoPlace(Total(mem[it])))
      ensures nit.None? ==> reserved == old(reserved)
    {
      hide LogOk, ActiveLinks, FreeLinks, Below, TableOk, RefsOk, RingOk, WalkOk, Kept, SameView;
      hide InTable, ViewOf, Spent, SpaceUsed, Placed;
      HeldIsLive(mem, index, queue, held, it);
      BucketIn(mem, index, buckets, chains, 0);
      ItemFits(mem, segs, segSize, active, free, reserved, it);
      var r := Alloc(Total(mem[it]), true);
      BucketIn(mem, index, buckets, chains, 0);
      ViewKept(old(mem), mem, index);
      UsedIsSpent(headerOk, old(SpaceLeft()), SpaceLeft(), true, r.Null?);
      if !r.Got? {
        return None;
      }
      ghost var mem1 := mem;
      PlacedInCur(old(segs), old(active), old(cur), segSize, Total(old(mem)[it]), segs, active, cur, r.it);
      Fill(r.it, mem[it].hv, mem[it].key, mem[it].val);
      KeptFill(old(mem), mem1, old(active), r.it, mem[r.it]);
      BucketIn(mem, index, buckets, chains, 0);
      ViewKept(mem1, mem, index);
      CurIsActive(mem, segs, segSize, active, free, reserved, oldest, cur);
      return Some(r.it);
    }

    /** clean_log, the move: the copy replaces the item where the item is current, and is given up otherwise. */
    method MoveItem(it: Addr) returns (ended: bool)
      requires CoreValid() && it in held && it in mem
      modifies this`mem, this`segs, this`freeSegments, this`segAlloced, this`free, this`reserved, this`cur, this`active
      modifies this`held, this`index, this`chains, this`buckets
      ensures CoreValid() && (old(WalkValid()) ==> WalkValid())
      ensures View() == old(View())
      ensures Grown(old(active), old(cur), active, cur) && Kept(old(mem), mem, old(active))
      ensures !ended ==> held == old(held)
      ensures ended ==> OutOfSegments()
      ensures NoneEntered(old(index), index, old(held))
      ensures Spent(headerOk, old(SpaceLeft()), SpaceLeft())
      ensures !ended ==>
                Handled(old(mem), old(index), old(buckets), old(active), mem, index, buckets, active, cur, it, 0)
      ensures ended <==> old(NoPlace(Total(mem[it])))
      ensures ended ==> reserved == old(reserved)
    {
      hide LogOk, ActiveLinks, FreeLinks, Below, TableOk, RefsOk, RingOk, WalkOk, Kept, SameView;
      hide Stored, InTable, ViewOf, Spent, NoneEntered, CoreValid, NoPlace, Movable, SlotTaken, Handled;
      SameEntered(index, held);
      var copy := CopyItem(it);
      if copy.None? {
        return true;
      }
      var nit := copy.value;
      ghost var mem1 := mem;
      MovableSame(old(mem), mem, index, buckets, it);
      PutCopy(nit, it, old(held));
      KeptTrans(old(mem), mem1, mem, old(active), active);
      ghost var mem2 := mem;
      GiveUp(nit);
      CopyPut(old(mem), mem1, old(index), old(buckets), old(active), mem2, index, buckets, active, cur, it, nit);
      KeptTrans(old(mem), mem2, mem, old(active), active);
      return false;
    }

    /** hasht_put of a copy with compare-and-set on the original */
    method PutCopy(nit: Addr, it: Addr, ghost others: multiset<Addr>)
      requires CoreValid() && nit in held && nit in mem && !InTable(mem, index, nit) && mem[nit].refcount == 1
      requires it in mem && KeyOf(mem[nit]) == KeyOf(mem[it]) && mem[nit].val == mem[it].val
      modifies this`mem, this`segs, this`index, this`chains, this`buckets
      ensures CoreValid() && (old(WalkValid()) ==> WalkValid())
      ensures View() == old(View()) && Kept(old(mem), mem, active)
      ensures nit in old(mem) && old(|buckets|) == N_BUCKETS
      ensures if old(Movable(mem, index, buckets, it)) then
                && Stored(old(mem), old(index), mem, index, nit)
                && SlotTaken(old(buckets), buckets, BucketOf(old(mem)[nit].hv), it, nit)
              else mem == old(mem) && index == old(index) && buckets == old(buckets)
      ensures nit !in others ==> NoneEntered(old(index), index, others)
    {
      hide LogOk, ActiveLinks, FreeLinks, Below, TableOk, RefsOk, RingOk, WalkOk, Kept, Stored;
      hide InTable, ViewOf, NoneEntered, SlotTaken, Stores;
      BucketIn(mem, index, buckets, chains, 0);
      KeptSame(mem, index, buckets, chains, active);
      StoresIfMovable(nit, it);
      HashtPut(nit, Some(it));
      BucketIn(mem, index, buckets, chains, 0);
      SameEntered(old(index), others);
      if old(Movable(mem, index, buckets, it)) {
        StoredEnters(old(mem), old(index), mem, index, nit, others);
        KeptStored(old(mem), old(index), mem, index, active, nit);
        MoveKeepsView(old(mem), old(index), mem, index, nit, it);
      }
    }

    /** item_unref, with what it leaves unchanged */
    method GiveUp(a: Addr)
      requires CoreValid() && a in held
      modifies this`mem, this`segs, this`held
      ensures CoreValid() && (old(WalkValid()) ==> WalkValid())
      ensures View() == old(View()) && Kept(old(mem), mem, active)
      ensures a in old(mem) && old(mem)[a].refcount > 0 && mem == Drop(old(mem), a)
      ensures held == old(held) - multiset{a} && OnlyFreed(old(segs), segs)
    {
      hide LogOk, ActiveLinks, FreeLinks, Below, TableOk, RefsOk, RingOk, WalkOk, Kept, SameView, InTable, ViewOf;
      BucketIn(mem, index, buckets, chains, 0);
      Unref(a);
      KeptDrop(old(mem), active, a);
      BucketIn(mem, index, buckets, chains, 0);
      RefCountView(old(mem), index, a);
      ViewKept(old(mem), mem, index);
    }

    lemma RefsKnown()
      requires CoreValid()
      ensures RefsOk(mem, index, queue, held) && IndexOk(mem, index)
    {
      hide LogOk, ActiveLinks, FreeLinks, Below, RefsOk, RingOk;
      BucketIn(mem, index, buckets, chains, 0);
    }

    lemma Fullness()
      requires CoreValid()
      ensures FullSegs(mem, segs, segSize, active, cur)
    {
      AllFull(mem, segs, segSize, active, free, reserved, oldest, cur);
    }

    /** What is known of the state in which cleaning began. */
    lemma Origin()
      requires CoreValid()
      ensures Began(Here(), segSize, queue, held)
    {
      Housing();
      RefsKnown();
      Fullness();
    }

    /** clean_log, the item that was taken from the queue, seen from before it was taken */
    method CleanTaken(it: Addr, ghost was: Snap, ghost buckets0: seq<Bucket>, ghost held0: multiset<Addr>)
      returns (ended: bool)
      requires CoreValid() && held == held0 + multiset{it} && Cleans(headerOk, held0, was, Here())
      requires was.index == index && buckets0 == buckets && was.active == active && LiveInside(was.mem, active)
      requires it in was.mem && it in mem && mem[it] == was.mem[it]
      modifies this`mem, this`segs, this`freeSegments, this`segAlloced, this`free, this`reserved, this`cur, this`active
      modifies this`held, this`index, this`chains, this`buckets
      ensures CoreValid() && Cleans(headerOk, held0, was, Here())
      ensures !ended ==> held == held0
      ensures !ended ==> Handled(was.mem, was.index, buckets0, was.active, mem, index, buckets, active, cur, it, 1)
      ensures ended ==> OutOfSegments() && reserved == old(reserved)
      ensures ended <==> old(Stuck(it))
    {
      hide CoreValid, WalkValid, View, OutOfSegments, Handled, LiveInside, Movable, InTable, Cleans, Stuck;
      ghost var mid := Here();
      CleansKeeps(headerOk, held0, was, mid);
      TakenAndGiven(held0, it);
      ended := CleanItem(it);
      if !ended {
        HandledLater(was.mem, mid.mem, was.index, buckets0, was.active, mem, index, buckets, active, cur, it);
      }
      CleansTwice(headerOk, held0, held0 + multiset{it}, was, mid, Here());
    }

    /** clean_log, one round of its loop */
    method CleanStep(idle: bool) returns (more: bool, ended: bool)
      requires CoreValid()
      modifies this`mem, this`segs, this`freeSegments, this`segAlloced, this`free, this`reserved, this`cur, this`active
      modifies this`held, this`index, this`chains, this`buckets, this`cleanupCount, this`cqHead
      modifies this`queue, cleanupQueue
      ensures !more ==> index == old(index) && buckets == old(buckets) && active == old(active)
      ensures !ended ==> (more <==> old(queue) != [] && (idle || old(cleanupCount) < 32))
      ensures !ended ==> held == old(held) && queue == if more then old(queue)[1..] else old(queue)
      ensures !idle && more && !ended ==> cleanupCount == old(cleanupCount) + 1
      ensures ended ==> OutOfSegments()
      ensures old(reserved).Some? ==> (ended <==> (idle || old(cleanupCount) < 32) && old(Cornered()))
      ensures old(reserved).Some? && ended ==> reserved.Some?
      ensures CoreValid() && Cleans(headerOk, old(held), old(Here()), Here())
      ensures more && !ended ==>
                Handled(old(mem), old(index), old(buckets), old(active), mem, index, buckets, active, cur,
                        old(queue)[0], 1)
    {
      hide CoreValid, WalkValid, View, OutOfSegments, Handled, Housed, LiveInside, Movable, InTable, Cleans, Stuck;
      LiveIsInside();
      ghost var was, buckets0 := Here(), buckets;
      var it;
      it, ended := CleanupItem(idle);
      more := it.Some?;
      if !ended && more {
        ended := CleanTaken(it.value, was, buckets0, old(held));
      }
    }

    /** clean_log, one round of its loop, seen from where the loop began */
    method CleanRound(idle: bool, ghost was: Snap, ghost buckets0: seq<Bucket>, ghost queue0: seq<Addr>,
                      ghost held0: multiset<Addr>, ghost n: nat) returns (more: bool, ended: bool)
      requires CoreValid() && Cleans(headerOk, held0, was, Here()) && Began(was, segSize, queue0, held0)
      requires n <= |queue0| && queue == queue0[n..] && held == held0
      requires AllHandled(was.mem, was.index, buckets0, was.active, was.cur, queue0[..n], mem, index, buckets, active)
      modifies this`mem, this`segs, this`freeSegments, this`segAlloced, this`free, this`reserved, this`cur, this`active
      modifies this`held, this`index, this`chains, this`buckets, this`cleanupCount, this`cqHead
      modifies this`queue, cleanupQueue
      ensures !ended ==> (more <==> n < |queue0| && (idle || old(cleanupCount) < 32))
      ensures !ended ==> held == held0 && queue == queue0[if more then n + 1 else n..]
      ensures !idle && more && !ended ==> cleanupCount == old(cleanupCount) + 1
      ensures ended ==> OutOfSegments()
      ensures old(reserved).Some? && old(Cornered()) && (idle || old(cleanupCount) < 32) ==> ended && reserved.Some?
      ensures CoreValid() && Cleans(headerOk, held0, was, Here())
      ensures !ended ==> AllHandled(was.mem, was.index, buckets0, was.active, was.cur,
                                    queue0[..if more then n + 1 else n], mem, index, buckets, active)
      ensures !ended && !more ==> Lighter(was.mem, was.index, buckets0, was.active, queue0[..n], mem)
      ensures !ended && !more ==> NewIsTheTables(was.index, mem, index)
      ensures !ended && !more ==>
                Emptied(was.mem, was.index, buckets0, was.active, was.cur, queue0[..n], segs, segSize)
    {
      hide Cornered, Handled, AllHandled, Housed, LiveInside, Lighter, NewIsTheTables, Cleans, IndexOk, RefsOk;
      hide FullSegs, Emptied, Onward;
      hide OutOfSegments, WalkValid, View, SpaceLeft, CoreValid;
      ghost var mid, buckets1 := Here(), buckets;
      Housing();
      more, ended := CleanStep(idle);
      CleansTwice(headerOk, held0, held0, was, mid, Here());
      if ended {
        return;
      }
      if more {
        HandledOn(headerOk, held0, was, buckets0, queue0[..n], mid, buckets1, queue0[n], Here(), buckets);
        assert queue0[..n + 1] == queue0[..n] + [queue0[n]];
      } else {
        CleansKeeps(headerOk, held0, mid, Here());
        CleansKeeps(headerOk, held0, was, Here());
        RefsKnown();
        StillHandled(was.mem, was.index, buckets0, was.active, was.cur, queue0[..n], mid.mem, mem, index, buckets,
                     active);
        HandledLighter(was.mem, was.index, buckets0, was.active, was.cur, queue0, held0, n,
                       mem, index, buckets, active);
        Fullness();
        HandledEmpties(was.mem, was.segs, was.index, buckets0, was.active, was.cur, queue0[..n],
                       mem, segs, active, cur, segSize);
      }
    }

    /** clean_log: the map is as before; the oldest items of the queue are done with, each with one reference less; the
        current ones of them that sit in direct slots, and no others, have been replaced by copies, to which only the
        table refers, and have lost the table's reference as well. */
    method CleanLog(idle: bool) returns (n: nat, ended: bool)
      requires CoreValid()
      modifies this`mem, this`segs, this`freeSegments, this`segAlloced, this`free, this`reserved, this`cur, this`active
      modifies this`held, this`index, this`chains, this`buckets, this`cleanupCount, this`cqHead
      modifies this`queue, cleanupQueue
      ensures !ended ==> n == if idle || |old(queue)| < 32 then |old(queue)| else 32
      ensures !ended ==> queue == old(queue)[n..] && held == old(held)
      ensures ended ==> OutOfSegments()
      ensures old(reserved).Some? && old(Cornered()) ==> ended && reserved.Some?
      ensures CoreValid() && Cleans(headerOk, old(held), old(Here()), Here())
      ensures !ended ==> AllHandled(old(mem), old(index), old(buckets), old(active), old(cur), old(queue)[..n],
                                    mem, index, buckets, active)
      ensures !ended ==> Lighter(old(mem), old(index), old(buckets), old(active), old(queue)[..n], mem)
      ensures !ended ==> NewIsTheTables(old(index), mem, index)
      ensures !ended ==>
                Emptied(old(mem), old(index), old(buckets), old(active), old(cur), old(queue)[..n], segs, segSize)
    {
      hide Cornered, AllHandled, Lighter, NewIsTheTables, Emptied, Cleans, OutOfSegments, WalkValid, View, SpaceLeft;
      NoneHandled(mem, index, buckets, active, cur);
      SameCleans(headerOk, held, Here());
      hide CoreValid, Began;
      Origin();
      ghost var was, corner := Here(), reserved.Some? && Cornered();
      ghost var buckets0, queue0, held0 := buckets, queue, held;
      if !idle {
        cleanupCount := 0;
      }
      n := 0;
      while true
        invariant CoreValid() && Cleans(headerOk, held0, was, Here())
        invariant n <= |queue0| && queue == queue0[n..] && held == held0
        invariant AllHandled(was.mem, was.index, buckets0, was.active, was.cur, queue0[..n],
                             mem, index, buckets, active)
        invariant !idle ==> cleanupCount == n <= 32
        invariant corner ==> n == 0 && reserved.Some? && Cornered()
        decreases |queue|
      {
        var more;
        more, ended := CleanRound(idle, was, buckets0, queue0, held0, n);
        if ended || !more {
          return;
        }
        n := n + 1;
      }
    }

    /** segment_free */
    method SegmentFree(h: nat)
      requires h in segs
      modifies this`segs, this`freeSegments
      ensures segs == old(segs)[h := old(segs)[h].(offset := 0, next := old(freeSegments))]
      ensures freeSegments == Some(h)
    {
      segs := segs[h := segs[h].(offset := 0, next := freeSegments)];
      freeSegments := Some(h);
    }

    /** ialloc_maintenance, the recycling of a dead segment */
    method Recycle(h: nat, prev: Option<nat>, ghost p: nat)
      requires LogValid()
      requires p + 1 < |active| && h == active[p] && prev == (if p == 0 then None else Some(active[p - 1]))
      requires h in segs && segs[h].freed == segSize
      modifies this`segs, this`freeSegments, this`oldest, this`active, this`free
      ensures LogValid()
      ensures active == old(active)[..p] + old(active)[p + 1..] && free == [h] + old(free)
      ensures segs.Keys == old(segs).Keys
      ensures forall s :: s in segs && s != h ==> segs[s] == old(segs)[s].(next := segs[s].next)
      ensures AllDead(mem, h)
    {
      hide LogOk, ActiveLinks, FreeLinks, Below;
      CurIsActive(mem, segs, segSize, active, free, reserved, oldest, cur);
      ListsApart(mem, segs, segSize, active, free, reserved);
      assert p > 0 ==> active[p - 1] in active && active[p - 1] != h;
      ghost var segs0, oldest0 := segs, oldest;
      if prev.None? {
        oldest := segs[h].next;
      } else {
        segs := segs[prev.value := segs[prev.value].(next := segs[h].next)];
      }
      SegmentFree(h);
      LogRecycle(mem, segs0, segs, segSize, active, free, reserved, p, prev, old(freeSegments));
      LinksRecycle(segs0, segs, segSize, active, oldest0, cur, free, old(freeSegments), p, prev, oldest);
      BelowKeys(segs0, segs, segAlloced);
      active := active[..p] + active[p + 1..];
      free := [h] + free;
    }

    /** ialloc_maintenance, first part: dead segments leave the log, and of those that stay the emptiest one not yet
        cleaned becomes the candidate for cleaning. */
    method RecycleSegments() returns (cand: Option<nat>)
      requires LogValid()
      modifies this`segs, this`freeSegments, this`oldest, this`active, this`free
      ensures LogValid()
      ensures |old(active)| > 0 && (forall s :: s in old(active) ==> s in old(segs))
      ensures var n := |old(active)| - 1;
              active == Survivors(old(segs), segSize, old(active)[..n]) + [old(active)[n]]
      ensures CandidateOk(segs, segSize, active[..|active| - 1], cand)
      ensures segs.Keys == old(segs).Keys
      ensures |active| == |old(active)| ==> freeSegments == old(freeSegments)
      ensures forall s :: s in active ==> s in old(segs) && segs[s] == old(segs)[s].(next := segs[s].next)
      ensures forall s :: s in old(active) && s !in active ==> AllDead(mem, s)
    {
      hide LogOk, Below, Ratio, AllDead, FreeLinks, ActiveLinks, Scan, Chosen, Survivors, CandidateOk;
      CurIsActive(mem, segs, segSize, active, free, reserved, oldest, cur);
      ListsApart(mem, segs, segSize, active, free, reserved);
      cand := None;
      var candRatio := 0.0;
      var h := oldest;
      var prev: Option<nat> := None;
      ghost var active0, segs0 := active, segs;
      ghost var p, q := 0, 0;
      ScanStart(mem, segSize, segs, active);
      NotLast(segs, segSize, active, oldest, cur, 0);
      while h.Some? && segs[h.value].next.Some? && segs[h.value].inactive
        invariant LogValid()
        invariant |active| <= |active0| && (|active| == |active0| ==> freeSegments == old(freeSegments))
        invariant Scan(mem, segSize, segs0, active0, q, segs, active, p)
        invariant p < |active| && Chosen(segs, segSize, active[..p], cand, candRatio)
        invariant active[p] in segs && h == Some(active[p]) && prev == if p == 0 then None else Some(active[p - 1])
        decreases |active| - p
      {
        ListsApart(mem, segs, segSize, active, free, reserved);
        ScanSplit(mem, segSize, segs0, active0, q, segs, active, p);
        NotLast(segs, segSize, active, oldest, cur, p);
        var next := segs[h.value].next;
        if segs[h.value].freed == segSize {
          ghost var segs1, active1 := segs, active;
          Recycle(h.value, prev, p);
          ScanRecycled(mem, segSize, segs0, active0, q, segs1, active1, p, segs, active);
          TakeRemoved(active1, p);
          ChosenFrame(segs1, segs, segSize, active[..p], cand, candRatio);
          h := prev;
        } else {
          ghost var cand1, ratio1 := cand, candRatio;
          if !segs[h.value].cleaned {
            var ratio := Ratio(segs[h.value], segSize);
            if ratio >= 0.8 && ratio > candRatio {
              candRatio := ratio;
              cand := h;
            }
          }
          ChosenStep(segs, segSize, active[..p], h.value, cand1, ratio1, cand, candRatio);
          TakeNext(active, p);
          ScanStays(mem, segSize, segs0, active0, q, segs, active, p);
          p := p + 1;
        }
        prev := h;
        h := next;
        q := q + 1;
        ScanSplit(mem, segSize, segs0, active0, q, segs, active, p);
      }
      NotLast(segs, segSize, active, oldest, cur, p);
      ScanEnd(mem, segSize, segs0, active0, q, segs, active, p, cand, candRatio);
    }

    /** ialloc_maintenance, the loop body's offer of one item to the worker; `tail` is where the queue ends. */
    method OfferItem(it: Addr, tail: nat) returns (tail': nat)
      requires CoreValidAt(tail) && tail < cleanupQueue.Length && cleanupQueue[tail] == None
      requires it in mem && mem[it].refcount < 0xffff
      modifies this`mem, this`queue, cleanupQueue
      ensures CoreValidAt(tail') && tail' < cleanupQueue.Length
      ensures if old(mem)[it].refcount == 0 then mem == old(mem) && queue == old(queue) && tail' == tail
              else mem == Ref(old(mem), it) && queue == old(queue) + [it]
    {
      hide LogOk, ActiveLinks, FreeLinks, Below, TableOk, RefsOk;
      tail' := tail;
      var ok := ItemTryRef(it);
      if ok {
        Queued(old(mem), index, buckets, chains, queue, held, it);
        RingPush(cleanupQueue[..], cqHead, tail, queue, it);
        hide RingOk;
        ghost var ring := cleanupQueue[..];
        cleanupQueue[tail] := Some(it);
        assert cleanupQueue[..] == ring[tail := Some(it)];
        tail' := (tail + 1) % cleanupQueue.Length;
        queue := queue + [it];
      }
    }

    /** ialloc_maintenance, its last loop: enqueue live items of segment `h` from the offset reached, until the
        segment ends or the queue is full. */
    method WalkSegment(h: nat, size: nat)
      requires CoreValid() && size == segSize && cleanOffset <= size
      requires Tiled(mem, h, cleanOffset, size, size)
      requires forall a :: a in mem && a.seg == h ==> mem[a].refcount < 0xffff
      modifies this`mem, this`queue, this`cqTail, this`cleanOffset, cleanupQueue
      ensures CoreValid()
      ensures Walked(old(mem), mem, h, size, old(cleanOffset), cleanOffset, old(queue), queue)
      ensures cleanOffset == size || |queue| == cleanupQueue.Length
      ensures |old(queue)| == cleanupQueue.Length ==> cleanOffset == old(cleanOffset)
    {
      hide LogOk, ActiveLinks, FreeLinks, Below, TableOk, RefsOk, RingOk, Walked, Tiled;
      var off: nat, idx: nat := cleanOffset, cqTail;
      WalkedStart(mem, h, size, off, queue);
      RingEnds(cleanupQueue[..], cqHead, idx, queue);
      ghost var mem0, queue0 := mem, queue;
      while off < size && cleanupQueue[idx] == None
        invariant CoreValidAt(idx) && idx < cleanupQueue.Length
        invariant off <= size && Walked(mem0, mem, h, size, old(cleanOffset), off, queue0, queue)
        invariant (cleanupQueue[idx] == None <==> |queue| < cleanupQueue.Length) && |queue| <= cleanupQueue.Length
        invariant |queue0| <= |queue| && (|queue0| == cleanupQueue.Length ==> off == old(cleanOffset))
        decreases size - off
      {
        if size - off < ITEM_SIZE {
          WalkedWaste(mem0, mem, h, size, old(cleanOffset), off, queue0, queue);
          off := size;
          break;
        }
        var it := Addr(h, off);
        WalkedItem(mem0, mem, h, size, old(cleanOffset), off, queue0, queue);
        ghost var mem1, queue1 := mem, queue;
        idx := OfferItem(it, idx);
        WalkedStep(mem0, mem1, h, size, old(cleanOffset), off, queue0, queue1, mem, queue);
        RingEnds(cleanupQueue[..], cqHead, idx, queue);
        off := off + Total(mem[it]);
      }
      cqTail := idx;
      cleanOffset := off;
    }

    /** The segment under cleaning has died before the walk reached its end, and the cleanup queue is full. */
    ghost predicate Stale()
      reads this, cleanupQueue
    {
      && cleaning.Some? && cleanOffset < segSize
      && cleaning.value in segs && segs[cleaning.value].freed == segSize
      && cqTail < cleanupQueue.Length && cleanupQueue[cqTail].Some?
    }

    /** Stale, as a caller can check it before calling maintenance */
    method IsStale() returns (b: bool)
      requires Valid()
      ensures b <==> Stale()
    {
      hide LogOk, ActiveLinks, FreeLinks, Below, TableOk, RefsOk;
      RingEnds(cleanupQueue[..], cqHead, cqTail, queue);
      if cleaning.Some? && cleanOffset < segSize {
        return segs[cleaning.value].freed == segSize && cleanupQueue[cqTail].Some?;
      }
      return false;
    }

    /** ialloc_maintenance, second part: start with the candidate if there is no segment under cleaning. */
    method StartCleaning(cand: Option<nat>)
      requires CoreValid()
      requires cand.Some? ==> cand.value in active[..|active| - 1]
      modifies this`segs, this`cleaning, this`cleanOffset, this`visited
      ensures CoreValid()
      ensures cleaning == cand && cleanOffset == 0 && Flagged(old(segs), segs, cand)
      ensures cand.Some? ==> cand.value in active && cand.value != cur && cand.value in segs
      ensures cand.Some? ==> Position(mem, segSize, cand.value, 0, visited)
    {
      hide LogOk, ActiveLinks, FreeLinks, Below, TableOk, RefsOk, RingOk, Position;
      cleaning := cand;
      cleanOffset := 0;
      visited := [];
      if cand.Some? {
        WalkBegin(mem, segs, segSize, active, free, reserved, oldest, cur, cand.value);
        LogFlag(mem, segs, segSize, active, free, reserved, oldest, cur, freeSegments, cand.value, segAlloced);
        segs := segs[cand.value := segs[cand.value].(cleaned := true)];
      }
    }

    ghost method Visit(headers: seq<nat>)
      requires CoreValid()
      modifies this`visited
      ensures CoreValid() && visited == old(visited) + headers
    {
      visited := visited + headers;
    }

    /** ialloc_maintenance, second part: go on with the segment under cleaning, or start with the candidate. */
    method ContinueCleaning(cand: Option<nat>)
      requires CoreValid()
      requires forall a :: a in mem ==> mem[a].refcount < 0xffff
      requires cand.Some? ==> cand.value in active[..|active| - 1]
      requires cleaning.Some? ==> cleaning.value in segs && cleanOffset <= segSize
      requires cleaning.Some? && cleanOffset < segSize ==> Position(mem, segSize, cleaning.value, cleanOffset, visited)
      modifies this`mem, this`segs, this`queue, this`cqTail, this`cleaning, this`cleanOffset, this`visited, cleanupQueue
      ensures CoreValid()
      ensures Continued(old(mem), mem, segSize, old(cleaning), old(cleanOffset), cand, cleaning, cleanOffset,
                        old(queue), queue, cleanupQueue.Length, visited)
      ensures Flagged(old(segs), segs, if old(cleaning).Some? && old(cleanOffset) < segSize then None else cand)
      ensures cleaning.None? ==> WalkValid()
      ensures cleaning.Some? ==>
                (WalkValid() <==> cleanOffset == segSize || (cleaning.value in active && cleaning.value != cur))
    {
      hide LogOk, ActiveLinks, FreeLinks, Below, TableOk, RefsOk, RingOk, Walked, Tiled, Headers;
      hide Position, BucketOk, Covers, IndexOk, CoreValid;
      var h := cleaning;
      var size := if h.None? then 0 else segSize;
      if h.None? || cleanOffset == size {
        StartCleaning(cand);
        h := cand;
      }
      if h.None? {
        return;
      }
      ghost var off0, visited0 := cleanOffset, visited;
      PositionTiled(mem, segSize, h.value, off0, visited);
      if cleanOffset < size {
        WalkSegment(h.value, size);
      } else {
        WalkedStart(mem, h.value, segSize, cleanOffset, queue);
      }
      WalkedParts(old(mem), mem, h.value, segSize, off0, cleanOffset, old(queue), queue);
      WalkFinish(old(mem), mem, segSize, h.value, off0, cleanOffset, old(queue), queue, visited);
      Visit(Headers(old(mem), h.value, off0, cleanOffset, segSize));
      PositionOk(mem, segs, segSize, active, cur, h.value, cleanOffset, visited);
    }

    /** ialloc_maintenance, first part, in terms of the state before it */
    method RecycleAndChoose() returns (cand: Option<nat>)
      requires LogValid()
      modifies this`segs, this`freeSegments, this`oldest, this`active, this`free
      ensures LogValid() && segs.Keys == old(segs).Keys
      ensures |active| == |old(active)| ==> freeSegments == old(freeSegments)
      ensures forall s :: s in active ==> s in segs && s in old(segs) && segs[s] == old(segs)[s].(next := segs[s].next)
      ensures |old(active)| > 0 && forall s :: s in old(active) ==> s in old(segs)
      ensures var n := |old(active)| - 1;
              active == Survivors(old(segs), segSize, old(active)[..n]) + [old(active)[n]]
      ensures forall s :: s in old(active) && s != cur ==> (s in active <==> old(segs)[s].freed != segSize)
      ensures forall s :: s in old(active) && s !in active ==> old(segs)[s].freed == segSize && AllDead(mem, s)
      ensures CandidateOk(old(segs), segSize, active[..|active| - 1], cand)
      ensures cand.Some? ==> cand.value in active[..|active| - 1] && cand.value in active && cand.value != cur
    {
      hide LogOk, ActiveLinks, FreeLinks, Below, AllDead, CandidateOk, Survivors, Distinct;
      CurIsActive(mem, segs, segSize, active, free, reserved, oldest, cur);
      ListsApart(mem, segs, segSize, active, free, reserved);
      NotLast(segs, segSize, active, oldest, cur, 0);
      cand := RecycleSegments();
      RecycleFacts(old(segs), segSize, old(active), active);
      CandidateIn(segs, old(segs), segSize, active, cand);
      ListsApart(mem, segs, segSize, active, free, reserved);
      NotCur(segs, segSize, active, oldest, cur, cand);
    }

    /** ialloc_maintenance. Segments leave the log exactly when all of their bytes are freed, which means that nothing
        in them is referred to; then cleaning goes on. The walk stays sound unless the segment it works on has just
        been recycled under it while the queue is full. */
    method Maintenance()
      requires Valid()
      requires forall a :: a in mem ==> mem[a].refcount < 0xffff
      modifies this`mem, this`segs, this`freeSegments, this`oldest, this`active, this`free
      modifies this`queue, this`cqTail, this`cleaning, this`cleanOffset, this`visited, cleanupQueue
      ensures CoreValid()
      ensures WalkValid() <==> !old(Stale())
      ensures View() == old(View()) && Kept(old(mem), mem, old(active))
      ensures |active| == |old(active)| ==> freeSegments == old(freeSegments)
      ensures |old(active)| > 0 && (forall s :: s in old(active) ==> s in old(segs))
      ensures var n := |old(active)| - 1;
              active == Survivors(old(segs), segSize, old(active)[..n]) + [old(active)[n]]
      ensures forall s :: s in old(active) && s !in active ==> old(segs)[s].freed == segSize && AllDead(old(mem), s)
      ensures Marked(old(segs), segs, active,
                     if old(cleaning).Some? && old(cleanOffset) < segSize then None else cleaning)
      ensures forall a :: a in old(mem) && a.seg == cur ==> a in mem && mem[a] == old(mem)[a]
      ensures exists cand ::
                CandidateOk(old(segs), segSize, active[..|active| - 1], cand)
                && Continued(old(mem), mem, segSize, old(cleaning), old(cleanOffset), cand, cleaning, cleanOffset,
                             old(queue), queue, cleanupQueue.Length, visited)
    {
      hide LogOk, ActiveLinks, FreeLinks, Below, TableOk, RefsOk, Continued, WalkOk, ViewOf, Kept;
      hide AllDead, CandidateOk, Survivors, Distinct, Flagged, Marked;
      hide BucketOk, Covers, IndexOk, Position, Tiled, Walked, Headers, SameView, NextIn, Survivors;
      RingEnds(cleanupQueue[..], cqHead, cqTail, queue);
      hide RingOk;
      BucketIn(mem, index, buckets, chains, 0);
      WalkTarget(mem, segs, segSize, active, cur, cleaning, cleanOffset, visited);
      var cand := RecycleAndChoose();
      ghost var segs1 := segs;
      ContinueCleaning(cand);
      ContinuedElsewhere(old(mem), mem, segSize, old(cleaning), old(cleanOffset), cand,
                         cleaning, cleanOffset, old(queue), queue, cleanupQueue.Length, visited, cur);
      FlaggedMarks(old(segs), segs1, segs, active,
                   if old(cleaning).Some? && old(cleanOffset) < segSize then None else cand);
      assert WalkValid() <==> !old(Stale()) by {
        WalkSound(old(mem), mem, segSize, old(segs), old(active), active, cur, old(cleaning), old(cleanOffset), cand,
                  cleaning, cleanOffset, old(queue), queue, cleanupQueue.Length, visited);
      }
      ContinuedKept(old(mem), mem, segSize, old(cleaning), old(cleanOffset), cand,
                    cleaning, cleanOffset, old(queue), queue, cleanupQueue.Length, visited, index, old(active));
    }
  }
}
