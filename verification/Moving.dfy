/** What cleaning does to the items it handles: the current ones, if they sit in direct slots, are moved. */
module Moving {
  import opened Wrappers
  import opened Bytes
  import opened LogLayout
  import opened HashTable
  import opened Segments
  import opened References

  /** The item sits in a direct slot of the bucket of its hash. */
  predicate Direct(buckets: seq<Bucket>, hv: nat, a: Addr) {
    |buckets| == N_BUCKETS && Some(a) in buckets[BucketOf(hv)].items
  }

  /** `b` has taken over a direct slot of bucket `n` from `a`. */
  ghost predicate SlotTaken(buckets: seq<Bucket>, buckets': seq<Bucket>, n: nat, a: Addr, b: Addr) {
    && n < |buckets|
    && exists i :: (0 <= i < |buckets[n].items| && buckets[n].items[i] == Some(a)
                    && buckets' == buckets[n := buckets[n].(items := buckets[n].items[i := Some(b)])])
  }

  /** The item is the current one of its key, and a lookup finds it without following the chain. */
  ghost predicate Movable(mem: Memory, index: Index, buckets: seq<Bucket>, a: Addr) {
    InTable(mem, index, a) && Direct(buckets, mem[a].hv, a)
  }

  lemma MovableSame(mem: Memory, mem': Memory, index: Index, buckets: seq<Bucket>, a: Addr)
    requires a in mem && a in mem' && mem'[a] == mem[a]
    ensures Movable(mem', index, buckets, a) <==> Movable(mem, index, buckets, a)
  {
  }

  /** `b` has the key and the value of `a`, and lies where nothing live was. */
  ghost predicate CopyOf(mem: Memory, mem': Memory, active: seq<nat>, active': seq<nat>, a: Addr, b: Addr) {
    && a in mem && b in mem' && b != a && KeyOf(mem'[b]) == KeyOf(mem[a]) && mem'[b].val == mem[a].val
    && b.seg in active' && (b in mem ==> mem[b].refcount == 0 && b.seg !in active)
  }

  /** The item has been handled: if it was movable, a copy in the current segment, referred to by the table alone, has
      replaced it in the table and in its slot; otherwise the table is as it was. Besides the table's it has lost `less`
      references. */
  ghost predicate Handled(mem: Memory, index: Index, buckets: seq<Bucket>, active: seq<nat>,
                          mem': Memory, index': Index, buckets': seq<Bucket>, active': seq<nat>, cur': nat, it: Addr,
                          less: nat) {
    && it in mem && it in mem'
    && mem'[it].refcount == mem[it].refcount - less - One(Movable(mem, index, buckets, it))
    && var k := KeyOf(mem[it]);
       if Movable(mem, index, buckets, it) then
         && k in index' && index' == index[k := index'[k]]
         && CopyOf(mem, mem', active, active', it, index'[k])
         && index'[k].seg == cur' && mem'[index'[k]].refcount == 1
         && SlotTaken(buckets, buckets', BucketOf(k.hv), it, index'[k])
       else index' == index && buckets' == buckets
  }

  /** What has become of a key's item: if it is one of those handled, and in a direct slot, there is a copy instead, in
      the segment that was current or in a later one. Who sat in a direct slot still does. */
  ghost predicate KeyHandled(mem: Memory, index: Index, buckets: seq<Bucket>, active: seq<nat>, cur: nat, qs: seq<Addr>,
                             mem': Memory, index': Index, buckets': seq<Bucket>, active': seq<nat>, k: Key)
    requires k in index
  {
    && k in index'
    && (if index[k] in qs && Direct(buckets, k.hv, index[k]) then
          && CopyOf(mem, mem', active, active', index[k], index'[k])
          && (index'[k].seg == cur || index'[k].seg !in active)
        else index'[k] == index[k])
    && (Direct(buckets', k.hv, index'[k]) <==> Direct(buckets, k.hv, index[k]))
  }

  /** The items `qs` have been handled: exactly the movable ones among them have been replaced. */
  ghost predicate AllHandled(mem: Memory, index: Index, buckets: seq<Bucket>, active: seq<nat>, cur: nat, qs: seq<Addr>,
                             mem': Memory, index': Index, buckets': seq<Bucket>, active': seq<nat>) {
    && (forall k :: k in index' ==> k in index)
    && (forall k :: k in index ==>
                      KeyHandled(mem, index, buckets, active, cur, qs, mem', index', buckets', active', k))
  }

  /** The active list has only grown, and the current segment is the same or a later one. */
  ghost predicate Onward(active: seq<nat>, cur: nat, active': seq<nat>, cur': nat) {
    Includes(active', active) && (cur' == cur || cur' !in active)
  }

  lemma OnwardSame(active: seq<nat>, cur: nat)
    ensures Onward(active, cur, active, cur)
  {
  }

  lemma OnwardGrown(active: seq<nat>, cur: nat, active1: seq<nat>, cur1: nat, active2: seq<nat>, cur2: nat)
    requires Onward(active, cur, active1, cur1) && Grown(active1, cur1, active2, cur2)
    ensures Onward(active, cur, active2, cur2) && Includes(active2, active1) && Includes(active1, active)
  {
  }

  lemma KeptOn(mem: Memory, mem1: Memory, mem2: Memory, active: seq<nat>, active1: seq<nat>)
    requires Kept(mem, mem1, active) && Kept(mem1, mem2, active1) && Includes(active1, active)
    ensures Kept(mem, mem2, active)
  {
  }

  lemma NoneHandled(mem: Memory, index: Index, buckets: seq<Bucket>, active: seq<nat>, cur: nat)
    ensures AllHandled(mem, index, buckets, active, cur, [], mem, index, buckets, active)
  {
  }

  /** The items of the table are live, each under its key, in active segments. */
  ghost predicate Housed(mem: Memory, index: Index, active: seq<nat>) {
    forall k :: k in index ==>
                  index[k] in mem && KeyOf(mem[index[k]]) == k && mem[index[k]].refcount > 0 && index[k].seg in active
  }

  /** Everything live lies in an active segment. */
  ghost predicate LiveInside(mem: Memory, active: seq<nat>) {
    forall a :: a in mem && mem[a].refcount > 0 ==> a.seg in active
  }

  lemma SlotKept(buckets: seq<Bucket>, buckets': seq<Bucket>, n: nat, a: Addr, b: Addr, hv: nat, c: Addr)
    requires |buckets| == N_BUCKETS && SlotTaken(buckets, buckets', n, a, b) && c != a && c != b
    ensures Direct(buckets', hv, c) <==> Direct(buckets, hv, c)
  {
    var i :| 0 <= i < |buckets[n].items| && buckets[n].items[i] == Some(a)
             && buckets' == buckets[n := buckets[n].(items := buckets[n].items[i := Some(b)])];
    if n == BucketOf(hv) {
      var s, s' := buckets[n].items, buckets'[n].items;
      assert forall j :: 0 <= j < |s| && j != i ==> s'[j] == s[j];
      if Some(c) in s { var j :| 0 <= j < |s| && s[j] == Some(c); assert s'[j] == Some(c); }
    }
  }

  lemma SlotOfNew(buckets: seq<Bucket>, buckets': seq<Bucket>, n: nat, a: Addr, b: Addr, hv: nat)
    requires |buckets| == N_BUCKETS && SlotTaken(buckets, buckets', n, a, b) && n == BucketOf(hv)
    ensures Direct(buckets', hv, b) && Direct(buckets, hv, a)
  {
    var i :| 0 <= i < |buckets[n].items| && buckets[n].items[i] == Some(a)
             && buckets' == buckets[n := buckets[n].(items := buckets[n].items[i := Some(b)])];
    assert buckets'[n].items[i] == Some(b);
  }

  /** One key when one more item is handled. */
  lemma HandledKey(mem: Memory, index: Index, buckets: seq<Bucket>, active: seq<nat>, cur: nat, qs: seq<Addr>,
                   mem1: Memory, index1: Index, buckets1: seq<Bucket>, active1: seq<nat>,
                   mem2: Memory, index2: Index, buckets2: seq<Bucket>, active2: seq<nat>, cur2: nat, it: Addr, k: Key)
    requires AllHandled(mem, index, buckets, active, cur, qs, mem1, index1, buckets1, active1)
    requires Handled(mem1, index1, buckets1, active1, mem2, index2, buckets2, active2, cur2, it, 1)
    requires Kept(mem, mem1, active) && Includes(active1, active)
    requires Kept(mem1, mem2, active1) && Includes(active2, active1)
    requires Housed(mem, index, active) && Housed(mem1, index1, active1) && LiveInside(mem, active)
    requires it in mem && it.seg in active && (cur2 == cur || cur2 !in active) && |buckets1| == N_BUCKETS && k in index
    ensures KeyHandled(mem, index, buckets, active, cur, qs + [it], mem2, index2, buckets2, active2, k)
  {
    assert KeyHandled(mem, index, buckets, active, cur, qs, mem1, index1, buckets1, active1, k);
    var k1 := KeyOf(mem1[it]);
    if Movable(mem1, index1, buckets1, it) {
      var nit := index2[k1];
      if k == k1 {
        SlotOfNew(buckets1, buckets2, BucketOf(k.hv), it, nit, k.hv);
      } else {
        SlotKept(buckets1, buckets2, BucketOf(k1.hv), it, nit, k.hv, index1[k]);
      }
    }
  }

  lemma OneMoreHandled(mem: Memory, index: Index, buckets: seq<Bucket>, active: seq<nat>, cur: nat, qs: seq<Addr>,
                       mem1: Memory, index1: Index, buckets1: seq<Bucket>, active1: seq<nat>,
                       mem2: Memory, index2: Index, buckets2: seq<Bucket>, active2: seq<nat>, cur2: nat, it: Addr)
    requires AllHandled(mem, index, buckets, active, cur, qs, mem1, index1, buckets1, active1)
    requires Handled(mem1, index1, buckets1, active1, mem2, index2, buckets2, active2, cur2, it, 1)
    requires Kept(mem, mem1, active) && Includes(active1, active)
    requires Kept(mem1, mem2, active1) && Includes(active2, active1)
    requires Housed(mem, index, active) && Housed(mem1, index1, active1) && LiveInside(mem, active)
    requires it in mem && it.seg in active && Onward(active, cur, active2, cur2) && |buckets1| == N_BUCKETS
    ensures AllHandled(mem, index, buckets, active, cur, qs + [it], mem2, index2, buckets2, active2)
  {
    hide KeyHandled, Handled, Kept, Housed, LiveInside;
    forall k | k in index
      ensures KeyHandled(mem, index, buckets, active, cur, qs + [it], mem2, index2, buckets2, active2, k)
    {
      HandledKey(mem, index, buckets, active, cur, qs, mem1, index1, buckets1, active1,
                 mem2, index2, buckets2, active2, cur2, it, k);
    }
    HandledKeys(mem1, index1, buckets1, active1, mem2, index2, buckets2, active2, cur2, it);
  }

  lemma HandledKeys(mem: Memory, index: Index, buckets: seq<Bucket>, active: seq<nat>,
                    mem': Memory, index': Index, buckets': seq<Bucket>, active': seq<nat>, cur': nat, it: Addr)
    requires Handled(mem, index, buckets, active, mem', index', buckets', active', cur', it, 1)
    ensures forall k :: k in index' ==> k in index
  {
  }

  /** The invariants of the store say so. */
  lemma AllHoused(mem: Memory, segs: SegMap, size: nat, active: seq<nat>, free: seq<nat>, reserved: Option<nat>,
                  index: Index, queue: seq<Addr>, held: multiset<Addr>)
    requires LogOk(mem, segs, size, active, free, reserved) && IndexOk(mem, index) && RefsOk(mem, index, queue, held)
    ensures Housed(mem, index, active) && LiveInside(mem, active)
    ensures forall a :: a in queue ==> a in mem && mem[a].refcount > 0 && a.seg in active
  {
    ReferencedIsLive(mem, index, queue, held);
    hide RefsOk, LogOk;
    forall a | a in mem && mem[a].refcount > 0 ensures a.seg in active {
      LiveIsActive(mem, segs, size, active, free, reserved, a);
    }
  }

  /** Only the queue refers to it, so it is not current. */
  lemma OnlyQueued(mem: Memory, index: Index, queue: seq<Addr>, held: multiset<Addr>, it: Addr)
    requires RefsOk(mem, index, queue, held) && it in held && it in mem && mem[it].refcount == 1
    ensures !InTable(mem, index, it)
  {
  }

  /** The copy `nit` has been put in the place of `it`, with compare-and-set, and given up. */
  lemma CopyPut(mem: Memory, mem1: Memory, index: Index, buckets: seq<Bucket>, active: seq<nat>,
                mem2: Memory, index2: Index, buckets2: seq<Bucket>, active2: seq<nat>, cur2: nat, it: Addr, nit: Addr)
    requires it in mem && it in mem1 && mem1[it] == mem[it] && nit in mem1 && nit in mem2 && nit != it
    requires mem1[nit].refcount == 1 && KeyOf(mem1[nit]) == KeyOf(mem[it]) && mem1[nit].val == mem[it].val
    requires cur2 in active2 && nit.seg == cur2 && (nit in mem ==> mem[nit].refcount == 0 && nit.seg !in active)
    requires if Movable(mem, index, buckets, it) then
               && Stored(mem1, index, mem2, index2, nit)
               && SlotTaken(buckets, buckets2, BucketOf(mem[it].hv), it, nit)
             else mem2 == mem1 && index2 == index && buckets2 == buckets
    ensures Handled(mem, index, buckets, active, Drop(mem2, nit), index2, buckets2, active2, cur2, it, 0)
  {
    if Movable(mem, index, buckets, it) { assert it in mem2.Keys && nit in mem2.Keys; }
  }

  lemma NotMoved(mem: Memory, index: Index, buckets: seq<Bucket>, active: seq<nat>, cur: nat, it: Addr)
    requires it in mem && !InTable(mem, index, it)
    ensures Handled(mem, index, buckets, active, mem, index, buckets, active, cur, it, 0)
  {
  }

  lemma HandledDrop(mem: Memory, index: Index, buckets: seq<Bucket>, active: seq<nat>,
                    mem': Memory, index': Index, buckets': seq<Bucket>, active': seq<nat>, cur': nat, it: Addr)
    requires Handled(mem, index, buckets, active, mem', index', buckets', active', cur', it, 0)
    requires it in mem' && mem'[it].refcount > 0
    ensures Handled(mem, index, buckets, active, Drop(mem', it), index', buckets', active', cur', it, 1)
  {
  }

  /** Before the item was handled memory that held nothing live may have been forgotten. */
  lemma HandledLater(mem: Memory, mem1: Memory, index: Index, buckets: seq<Bucket>, active: seq<nat>,
                     mem': Memory, index': Index, buckets': seq<Bucket>, active': seq<nat>, cur': nat, it: Addr)
    requires Handled(mem1, index, buckets, active, mem', index', buckets', active', cur', it, 1)
    requires Kept(mem, mem1, active) && LiveInside(mem, active) && it in mem && it in mem1 && mem1[it] == mem[it]
    ensures Handled(mem, index, buckets, active, mem', index', buckets', active', cur', it, 1)
  {
  }

  /** How many references to an item are left when the first entries of the queue have been handled. */
  ghost predicate Lighter(mem: Memory, index: Index, buckets: seq<Bucket>, active: seq<nat>, qs: seq<Addr>,
                          mem': Memory) {
    forall a :: a in mem && a.seg in active ==>
                  && a in mem'
                  && mem'[a].refcount == mem[a].refcount - multiset(qs)[a]
                                         - One(a in qs && Movable(mem, index, buckets, a))
  }

  /** Only the table refers to what is newly current. */
  ghost predicate NewIsTheTables(index: Index, mem': Memory, index': Index) {
    forall k :: k in index && k in index' && index'[k] != index[k] ==>
                  index'[k] in mem' && mem'[index'[k]].refcount == 1
  }

  lemma HandledLighter(mem: Memory, index: Index, buckets: seq<Bucket>, active: seq<nat>, cur: nat, queue: seq<Addr>,
                       held: multiset<Addr>, n: nat,
                       mem': Memory, index': Index, buckets': seq<Bucket>, active': seq<nat>)
    requires n <= |queue| && RefsOk(mem, index, queue, held) && RefsOk(mem', index', queue[n..], held)
    requires AllHandled(mem, index, buckets, active, cur, queue[..n], mem', index', buckets', active')
    requires LiveInside(mem, active) && Kept(mem, mem', active) && IndexOk(mem, index)
    ensures Lighter(mem, index, buckets, active, queue[..n], mem') && NewIsTheTables(index, mem', index')
  {
    assert queue == queue[..n] + queue[n..];
    forall a | a in mem && a.seg in active
      ensures a in mem' && One(InTable(mem', index', a)) ==
                           One(InTable(mem, index, a)) - One(a in queue[..n] && Movable(mem, index, buckets, a))
    {
      var k := KeyOf(mem[a]);
      if k in index {
        assert KeyHandled(mem, index, buckets, active, cur, queue[..n], mem', index', buckets', active', k);
      }
    }
    forall k | k in index && k in index' && index'[k] != index[k]
      ensures index'[k] in mem' && mem'[index'[k]].refcount == 1
    {
      assert KeyHandled(mem, index, buckets, active, cur, queue[..n], mem', index', buckets', active', k);
      NotReferred(mem, index, queue, held, index'[k]);
    }
  }

  lemma NotReferred(mem: Memory, index: Index, queue: seq<Addr>, held: multiset<Addr>, a: Addr)
    requires RefsOk(mem, index, queue, held) && (a in mem ==> mem[a].refcount == 0)
    ensures multiset(queue)[a] == 0 && held[a] == 0
  {
    QueueMember(queue, a);
  }

  lemma StillHandled(mem: Memory, index: Index, buckets: seq<Bucket>, active: seq<nat>, cur: nat, qs: seq<Addr>,
                     mem1: Memory, mem2: Memory, index': Index, buckets': seq<Bucket>, active': seq<nat>)
    requires AllHandled(mem, index, buckets, active, cur, qs, mem1, index', buckets', active')
    requires Kept(mem1, mem2, active')
    ensures AllHandled(mem, index, buckets, active, cur, qs, mem2, index', buckets', active')
  {
    forall k | k in index ensures KeyHandled(mem, index, buckets, active, cur, qs, mem2, index', buckets', active', k) {
      assert KeyHandled(mem, index, buckets, active, cur, qs, mem1, index', buckets', active', k);
    }
  }

  /** All segments but the current one are full, and in order. */
  ghost predicate FullSegs(mem: Memory, segs: SegMap, size: nat, active: seq<nat>, cur: nat) {
    forall g :: g in active && g != cur ==> g in segs && segs[g].offset == size && SegOk(mem, g, segs[g], size)
  }

  lemma AllFull(mem: Memory, segs: SegMap, size: nat, active: seq<nat>, free: seq<nat>, reserved: Option<nat>,
                oldest: Option<nat>, cur: nat)
    requires LogOk(mem, segs, size, active, free, reserved) && ActiveLinks(segs, size, active, oldest, cur)
    ensures FullSegs(mem, segs, size, active, cur)
  {
    hide SegOk;
  }

  /** What is live in the segment is handled, movable, and referred to by nobody but the table and those entries. */
  ghost predicate Doomed(mem: Memory, index: Index, buckets: seq<Bucket>, qs: seq<Addr>, g: nat) {
    forall a :: a in mem && a.seg == g && mem[a].refcount > 0 ==>
                  a in qs && Movable(mem, index, buckets, a) && mem[a].refcount == multiset(qs)[a] + 1
  }

  /** Such segments have been freed entirely. */
  ghost predicate Emptied(mem: Memory, index: Index, buckets: seq<Bucket>, active: seq<nat>, cur: nat, qs: seq<Addr>,
                          segs': SegMap, size: nat) {
    forall g :: g in active && g != cur && Doomed(mem, index, buckets, qs, g) ==>
                  g in segs' && segs'[g].freed == size
  }

  lemma DoomedIsFreed(mem: Memory, mem': Memory, index: Index, buckets: seq<Bucket>, active: seq<nat>, qs: seq<Addr>,
                      g: nat, h: SegHeader, h': SegHeader, size: nat)
    requires SegOk(mem, g, h, size) && SegOk(mem', g, h', size) && h.offset == size == h'.offset && g in active
    requires Kept(mem, mem', active) && Lighter(mem, index, buckets, active, qs, mem')
    requires Doomed(mem, index, buckets, qs, g)
    requires forall a :: a in qs ==> a in mem && mem[a].refcount > 0
    ensures h'.freed == size
  {
    LayoutFrame(mem, mem', g, 0, size, size);
    forall a | a in mem' && a.seg == g ensures mem'[a].refcount == 0 {
      assert a == Addr(g, a.off);
      HeaderBounds(mem, g, 0, size, size, a.off);
    }
    FreedIffDead(mem', g, h', size);
  }

  /** What cleaning is for. */
  lemma HandledEmpties(mem: Memory, segs: SegMap, index: Index, buckets: seq<Bucket>, active: seq<nat>, cur: nat,
                       qs: seq<Addr>, mem': Memory, segs': SegMap, active': seq<nat>, cur': nat, size: nat)
    requires FullSegs(mem, segs, size, active, cur) && FullSegs(mem', segs', size, active', cur')
    requires Onward(active, cur, active', cur') && Kept(mem, mem', active)
    requires Lighter(mem, index, buckets, active, qs, mem')
    requires forall a :: a in qs ==> a in mem && mem[a].refcount > 0
    ensures Emptied(mem, index, buckets, active, cur, qs, segs', size)
  {
    hide SegOk, Kept, Lighter, Doomed;
    forall g | g in active && g != cur && Doomed(mem, index, buckets, qs, g)
      ensures g in segs' && segs'[g].freed == size
    {
      DoomedIsFreed(mem, mem', index, buckets, active, qs, g, segs[g], segs'[g], size);
    }
  }
}
