/** Reference accounting across the store, and how storing, allocating and dropping items move references. */
module References {
  import opened Wrappers
  import opened Bytes
  import opened LogLayout
  import opened HashTable
  import opened Segments

  function One(b: bool): nat { if b then 1 else 0 }

  /** Every reference is the table's, the cleanup queue's, or held by somebody; none is lost and none invented. */
  ghost predicate RefsOk(mem: Memory, index: Index, queue: seq<Addr>, held: multiset<Addr>) {
    && (forall a :: a in mem ==>
          mem[a].refcount == One(InTable(mem, index, a)) + multiset(queue)[a] + held[a] && mem[a].refcount < 0x1_0000)
    && (forall a :: a in queue ==> a in mem)
    && (forall a :: a in held ==> a in mem)
  }

  lemma NoReferences()
    ensures RefsOk(map[], map[], [], multiset{})
  {
  }

  lemma QueueMember(queue: seq<Addr>, a: Addr)
    ensures a in queue <==> multiset(queue)[a] > 0
  {
  }

  lemma TableItemIsLive(mem: Memory, index: Index, queue: seq<Addr>, held: multiset<Addr>, a: Addr)
    requires RefsOk(mem, index, queue, held) && InTable(mem, index, a)
    ensures a in mem && mem[a].refcount > 0
  {
  }

  lemma HeldIsLive(mem: Memory, index: Index, queue: seq<Addr>, held: multiset<Addr>, a: Addr)
    requires RefsOk(mem, index, queue, held) && a in held
    ensures a in mem && mem[a].refcount > 0
  {
  }

  /** Whatever is referred to is live. */
  lemma ReferencedIsLive(mem: Memory, index: Index, queue: seq<Addr>, held: multiset<Addr>)
    requires RefsOk(mem, index, queue, held) && IndexOk(mem, index)
    ensures forall a :: a in queue ==> a in mem && mem[a].refcount > 0
    ensures forall a :: a in held ==> a in mem && mem[a].refcount > 0
    ensures forall k :: k in index ==> mem[index[k]].refcount > 0
  {
    forall a | a in queue ensures mem[a].refcount > 0 { QueueMember(queue, a); }
    forall k | k in index ensures mem[index[k]].refcount > 0 { assert InTable(mem, index, index[k]); }
  }

  /** The effect of storing `nit`: it becomes current for its key, and the table's reference moves to it. */
  ghost predicate Stored(mem: Memory, index: Index, mem': Memory, index': Index, nit: Addr)
    requires nit in mem
  {
    var k := KeyOf(mem[nit]);
    && index' == index[k := nit]
    && mem'.Keys == mem.Keys
    && (forall a :: a in mem ==> (
          && KeyOf(mem'[a]) == KeyOf(mem[a]) && mem'[a].val == mem[a].val
          && mem'[a].refcount == mem[a].refcount + One(a == nit) - One(k in index && a == index[k])))
  }

  /** No item that somebody holds has newly become current. */
  ghost predicate NoneEntered(index: Index, index': Index, held: multiset<Addr>) {
    forall k :: k in index' && index'[k] in held ==> k in index && index[k] == index'[k]
  }

  lemma SameEntered(index: Index, held: multiset<Addr>)
    ensures NoneEntered(index, index, held)
  {
  }

  lemma EnteredTwice(index: Index, index1: Index, index2: Index, held: multiset<Addr>)
    requires NoneEntered(index, index1, held) && NoneEntered(index1, index2, held)
    ensures NoneEntered(index, index2, held)
  {
  }

  lemma EnteredFewer(index: Index, index': Index, held: multiset<Addr>, a: Addr)
    requires NoneEntered(index, index', held + multiset{a})
    ensures NoneEntered(index, index', held)
  {
  }

  lemma StoredEnters(mem: Memory, index: Index, mem': Memory, index': Index, nit: Addr, held: multiset<Addr>)
    requires nit in mem && Stored(mem, index, mem', index', nit)
    ensures nit !in held ==> NoneEntered(index, index', held)
  {
  }

  /** `nit` replaces the item of its key, if there was one: the table's reference moves from that item to `nit`. */
  lemma RefsAfterPut(mem: Memory, mem': Memory, index: Index, index': Index, queue: seq<Addr>, held: multiset<Addr>,
                     nit: Addr)
    requires RefsOk(mem, index, queue, held) && IndexOk(mem, index)
    requires nit in mem && !InTable(mem, index, nit) && mem[nit].refcount < 0xffff
    requires Stored(mem, index, mem', index', nit)
    ensures RefsOk(mem', index', queue, held)
  {
    forall a | a in mem'
      ensures mem'[a].refcount == One(InTable(mem', index', a)) + multiset(queue)[a] + held[a]
      ensures mem'[a].refcount < 0x1_0000
    {
      assert a in mem.Keys;
    }
    forall a | a in queue || a in held ensures a in mem' { assert a in mem.Keys; }
  }

  function Ref(mem: Memory, a: Addr): Memory
    requires a in mem
  {
    mem[a := mem[a].(refcount := mem[a].refcount + 1)]
  }

  function Drop(mem: Memory, a: Addr): Memory
    requires a in mem && mem[a].refcount > 0
  {
    mem[a := mem[a].(refcount := mem[a].refcount - 1)]
  }

  function Link(mem: Memory, a: Addr, next: Option<Addr>): Memory
    requires a in mem
  {
    mem[a := mem[a].(next := next)]
  }

  /** Table and references after `nit` took the place of `it` in slot `i`. */
  lemma PutInSlot(mem: Memory, index: Index, buckets: seq<Bucket>, chains: seq<seq<Addr>>, queue: seq<Addr>,
                  held: multiset<Addr>,
                  b: nat, i: nat, nit: Addr, it: Addr, mem': Memory)
    requires TableOk(mem, index, buckets, chains) && RefsOk(mem, index, queue, held)
    requires nit in mem && !InTable(mem, index, nit) && mem[nit].refcount < 0xffff && b == BucketOf(mem[nit].hv)
    requires i < N_SLOTS && buckets[b].items[i] == Some(it)
    requires InTable(mem, index, it) && mem[it].refcount > 0 && KeyOf(mem[it]) == KeyOf(mem[nit])
    requires mem' == (var m := Ref(mem, nit); Drop(Link(m, nit, m[it].next), it))
    ensures var index' := index[KeyOf(mem[nit]) := nit];
            && TableOk(mem', index', buckets[b := buckets[b].(items := buckets[b].items[i := Some(nit)])], chains)
            && RefsOk(mem', index', queue, held)
            && Stored(mem, index, mem', index', nit)
  {
    hide TableOk, RefsOk;
    BucketIn(mem, index, buckets, chains, b);
    ReplacedInSlot(mem, mem', index, buckets, chains, b, i, nit, it);
    assert Stored(mem, index, mem', index[KeyOf(mem[nit]) := nit], nit);
    RefsAfterPut(mem, mem', index, index[KeyOf(mem[nit]) := nit], queue, held, nit);
  }

  lemma MovedInChain(mem: Memory, index: Index, nit: Addr, prev: Addr, it: Addr, mem': Memory)
    requires nit in mem && it in mem && prev in mem && nit != it && nit != prev && prev != it && mem[it].refcount > 0
    requires InTable(mem, index, it) && KeyOf(mem[it]) == KeyOf(mem[nit])
    requires mem' == (var m := Ref(mem, nit); Drop(Link(Link(m, nit, m[it].next), prev, Some(nit)), it))
    ensures Stored(mem, index, mem', index[KeyOf(mem[nit]) := nit], nit)
    ensures nit in mem' && KeyOf(mem'[nit]) == KeyOf(mem[nit]) && mem'[nit].next == mem[it].next
    ensures prev in mem' && KeyOf(mem'[prev]) == KeyOf(mem[prev]) && mem'[prev].next == Some(nit)
    ensures forall a :: a in mem && a != nit && a != prev ==> SameEntry(mem, mem', a)
  {
    assert mem'.Keys == mem.Keys;
  }

  /** Table and references after `nit` took the place of `it` in the chain of bucket `b`, behind `prev`. */
  lemma PutInChain(mem: Memory, index: Index, buckets: seq<Bucket>, chains: seq<seq<Addr>>, queue: seq<Addr>,
                   held: multiset<Addr>,
                   b: nat, j: nat, nit: Addr, prev: Addr, it: Addr, mem': Memory)
    requires TableOk(mem, index, buckets, chains) && RefsOk(mem, index, queue, held)
    requires nit in mem && !InTable(mem, index, nit) && mem[nit].refcount < 0xffff && b == BucketOf(mem[nit].hv)
    requires IsPrev(buckets[b], chains[b], j, prev) && chains[b][j] == it && prev in mem
    requires InTable(mem, index, it) && mem[it].refcount > 0 && KeyOf(mem[it]) == KeyOf(mem[nit])
    requires mem' == (var m := Ref(mem, nit); Drop(Link(Link(m, nit, m[it].next), prev, Some(nit)), it))
    ensures var index' := index[KeyOf(mem[nit]) := nit];
            && TableOk(mem', index', buckets, chains[b := chains[b][j := nit]])
            && RefsOk(mem', index', queue, held)
            && Stored(mem, index, mem', index', nit)
  {
    hide TableOk, RefsOk;
    hide BucketOk, Covers, IndexOk, Stored, SlotsOk, ChainOk;
    BucketIn(mem, index, buckets, chains, b);
    PrevDiffers(mem, index, b, buckets[b], chains[b], j, prev);
    MovedInChain(mem, index, nit, prev, it, mem');
    ReplacedInChain(mem, mem', index, buckets, chains, b, buckets[b], chains[b], j, nit, prev);
    RefsAfterPut(mem, mem', index, index[KeyOf(mem[nit]) := nit], queue, held, nit);
  }

  /** Table and references after `nit` was stored for a new key, in slot `di`. */
  lemma PutNew(mem: Memory, index: Index, buckets: seq<Bucket>, chains: seq<seq<Addr>>, queue: seq<Addr>,
               held: multiset<Addr>,
               b: nat, di: nat, nit: Addr, mem': Memory)
    requires TableOk(mem, index, buckets, chains) && RefsOk(mem, index, queue, held)
    requires nit in mem && !InTable(mem, index, nit) && mem[nit].refcount < 0xffff && b == BucketOf(mem[nit].hv)
    requires KeyOf(mem[nit]) !in index && di < N_SLOTS
    requires (buckets[b].items[di].Some? ==> di == N_SLOTS - 1 && None !in buckets[b].items)
    requires mem' == Link(Ref(mem, nit), nit, buckets[b].items[di])
    ensures var index', was := index[KeyOf(mem[nit]) := nit], buckets[b];
            && TableOk(mem', index', buckets[b := Bucket(was.items[di := Some(nit)], was.hashes[di := mem[nit].hv])],
                       chains[b := if was.items[di].Some? then [was.items[di].value] + chains[b] else chains[b]])
            && RefsOk(mem', index', queue, held)
            && Stored(mem, index, mem', index', nit)
  {
    hide TableOk, RefsOk, ChainOk, Covers, SlotsFirst, IndexOk;
    BucketIn(mem, index, buckets, chains, b);
    InsertedNew(mem, mem', index, buckets, chains, b, di, nit);
    assert Stored(mem, index, mem', index[KeyOf(mem[nit]) := nit], nit);
    RefsAfterPut(mem, mem', index, index[KeyOf(mem[nit]) := nit], queue, held, nit);
  }

  lemma RefsAdded(mem: Memory, index: Index, queue: seq<Addr>, held: multiset<Addr>, a: Addr)
    requires RefsOk(mem, index, queue, held) && a in mem && mem[a].refcount < 0xffff
    ensures RefsOk(Ref(mem, a), index, queue, held + multiset{a})
  {
  }

  lemma RefsDropped(mem: Memory, index: Index, queue: seq<Addr>, held: multiset<Addr>, a: Addr)
    requires RefsOk(mem, index, queue, held) && a in held && a in mem && mem[a].refcount > 0
    ensures RefsOk(Drop(mem, a), index, queue, held - multiset{a})
  {
    forall b | b in Drop(mem, a)
      ensures Drop(mem, a)[b].refcount ==
              One(InTable(Drop(mem, a), index, b)) + multiset(queue)[b] + (held - multiset{a})[b]
    {
      assert InTable(Drop(mem, a), index, b) <==> InTable(mem, index, b);
    }
  }

  /** One more holder. */
  lemma Referenced(mem: Memory, index: Index, buckets: seq<Bucket>, chains: seq<seq<Addr>>, queue: seq<Addr>,
                   held: multiset<Addr>, a: Addr)
    requires TableOk(mem, index, buckets, chains) && RefsOk(mem, index, queue, held)
    requires a in mem && mem[a].refcount < 0xffff
    ensures TableOk(Ref(mem, a), index, buckets, chains) && RefsOk(Ref(mem, a), index, queue, held + multiset{a})
  {
    hide TableOk, RefsOk;
    TableFrame(mem, Ref(mem, a), index, buckets, chains);
    RefsAdded(mem, index, queue, held, a);
  }

  /** One holder less. */
  lemma Unreferenced(mem: Memory, index: Index, buckets: seq<Bucket>, chains: seq<seq<Addr>>, queue: seq<Addr>,
                     held: multiset<Addr>, a: Addr)
    requires TableOk(mem, index, buckets, chains) && RefsOk(mem, index, queue, held)
    requires a in held && a in mem && mem[a].refcount > 0
    ensures TableOk(Drop(mem, a), index, buckets, chains) && RefsOk(Drop(mem, a), index, queue, held - multiset{a})
  {
    hide TableOk, RefsOk;
    TableFrame(mem, Drop(mem, a), index, buckets, chains);
    RefsDropped(mem, index, queue, held, a);
  }

  /** The items of the active segments, live or dead, keep their key and value. */
  ghost predicate Kept(mem: Memory, mem': Memory, active: seq<nat>) {
    forall a :: a in mem && a.seg in active ==>
                  a in mem' && KeyOf(mem'[a]) == KeyOf(mem[a]) && mem'[a].val == mem[a].val
  }

  /** The items of the table keep their values. */
  ghost predicate SameView(mem: Memory, mem': Memory, index: Index) {
    forall k :: k in index ==> index[k] in mem && index[k] in mem' && mem'[index[k]].val == mem[index[k]].val
  }

  lemma AllocInTable(mem: Memory, mem': Memory, index: Index, active: seq<nat>, added: Option<Addr>, a: Addr)
    requires Allocated(mem, mem', active, added)
    requires forall k :: k in index ==> index[k] in mem && mem[index[k]].refcount > 0
    ensures InTable(mem', index, a) <==> InTable(mem, index, a)
    ensures InTable(mem, index, a) ==> SameEntry(mem, mem', a)
  {
  }

  lemma AllocRef(mem: Memory, mem': Memory, index: Index, queue: seq<Addr>, held: multiset<Addr>,
                 active: seq<nat>, added: Option<Addr>, a: Addr)
    requires Allocated(mem, mem', active, added) && RefsOk(mem, index, queue, held)
    requires InTable(mem', index, a) <==> InTable(mem, index, a)
    requires a in mem'
    ensures var held' := if added.Some? then held + multiset{added.value} else held;
            && mem'[a].refcount == One(InTable(mem', index, a)) + multiset(queue)[a] + held'[a]
            && mem'[a].refcount < 0x1_0000
  {
    QueueMember(queue, a);
    if a !in mem { assert a !in queue && a !in held && !InTable(mem, index, a); }
  }

  lemma AllocTable(mem: Memory, mem': Memory, index: Index, buckets: seq<Bucket>, chains: seq<seq<Addr>>,
                   queue: seq<Addr>, held: multiset<Addr>, active: seq<nat>, added: Option<Addr>)
    requires TableOk(mem, index, buckets, chains) && RefsOk(mem, index, queue, held)
    requires Allocated(mem, mem', active, added)
    ensures TableOk(mem', index, buckets, chains) && SameView(mem, mem', index)
    ensures forall a :: InTable(mem', index, a) <==> InTable(mem, index, a)
  {
    hide TableOk, RefsOk;
    BucketIn(mem, index, buckets, chains, 0);
    ReferencedIsLive(mem, index, queue, held);
    forall a ensures InTable(mem', index, a) <==> InTable(mem, index, a)
      ensures InTable(mem, index, a) ==> SameEntry(mem, mem', a) {
      AllocInTable(mem, mem', index, active, added, a);
    }
    TableFrame(mem, mem', index, buckets, chains);
  }

  lemma AllocRefs(mem: Memory, mem': Memory, index: Index, queue: seq<Addr>, held: multiset<Addr>,
                  active: seq<nat>, added: Option<Addr>)
    requires RefsOk(mem, index, queue, held)
    requires Allocated(mem, mem', active, added)
    requires forall a :: InTable(mem', index, a) <==> InTable(mem, index, a)
    ensures RefsOk(mem', index, queue, if added.Some? then held + multiset{added.value} else held)
  {
    hide Allocated, InTable;
    var held' := if added.Some? then held + multiset{added.value} else held;
    AllocLive(mem, mem', active, added);
    forall a | a in mem'
      ensures mem'[a].refcount == One(InTable(mem', index, a)) + multiset(queue)[a] + held'[a]
      ensures mem'[a].refcount < 0x1_0000
    {
      AllocRef(mem, mem', index, queue, held, active, added, a);
    }
    forall a | a in queue ensures a in mem' { QueueMember(queue, a); }
  }

  /** An allocation touches neither the table nor anybody's references; the allocator's caller gets the only
      reference to the new item. */
  lemma AllocKeeps(mem: Memory, mem': Memory, index: Index, buckets: seq<Bucket>, chains: seq<seq<Addr>>,
                   queue: seq<Addr>, held: multiset<Addr>, active: seq<nat>, added: Option<Addr>)
    requires TableOk(mem, index, buckets, chains) && RefsOk(mem, index, queue, held)
    requires Allocated(mem, mem', active, added)
    ensures TableOk(mem', index, buckets, chains)
    ensures RefsOk(mem', index, queue, if added.Some? then held + multiset{added.value} else held)
    ensures added.Some? ==> added.value in mem' && !InTable(mem', index, added.value)
    ensures Kept(mem, mem', active) && SameView(mem, mem', index)
  {
    hide TableOk, RefsOk, InTable, Allocated, SameView;
    AllocTable(mem, mem', index, buckets, chains, queue, held, active, added);
    AllocRefs(mem, mem', index, queue, held, active, added);
    AllocLive(mem, mem', active, added);
    if added.Some? && InTable(mem', index, added.value) { TableItemIsLive(mem, index, queue, held, added.value); }
  }

  lemma AllocLive(mem: Memory, mem': Memory, active: seq<nat>, added: Option<Addr>)
    requires Allocated(mem, mem', active, added)
    ensures forall a :: a in mem && mem[a].refcount > 0 ==> a in mem' && mem'[a] == mem[a]
    ensures added.Some? ==> added.value in mem'
    ensures added.Some? && added.value in mem ==> mem[added.value].refcount == 0 && added.value.seg !in active
    ensures Kept(mem, mem', active)
  {
  }

  lemma TableLive(mem: Memory, index: Index, queue: seq<Addr>, held: multiset<Addr>)
    requires RefsOk(mem, index, queue, held)
    ensures forall a :: InTable(mem, index, a) ==> mem[a].refcount > 0
  {
  }

  /** Writing an item that only its owner refers to. */
  lemma FillKeeps(mem: Memory, mem': Memory, index: Index, buckets: seq<Bucket>, chains: seq<seq<Addr>>,
                  queue: seq<Addr>, held: multiset<Addr>, a: Addr)
    requires TableOk(mem, index, buckets, chains) && RefsOk(mem, index, queue, held)
    requires a in held && a in mem && mem[a].refcount == 1
    requires a in mem' && mem' == mem[a := mem'[a]] && mem'[a].refcount == 1
    ensures TableOk(mem', index, buckets, chains) && RefsOk(mem', index, queue, held)
    ensures !InTable(mem, index, a) && !InTable(mem', index, a)
    ensures forall k :: k in index ==> index[k] in mem && index[k] in mem' && mem'[index[k]] == mem[index[k]]
  {
    hide TableOk;
    BucketIn(mem, index, buckets, chains, 0);
    assert !InTable(mem, index, a);
    forall k | k in index ensures index[k] in mem && index[k] != a { assert InTable(mem, index, index[k]); }
    TableFrame(mem, mem', index, buckets, chains);
    forall b | b in mem && b != a ensures InTable(mem', index, b) <==> InTable(mem, index, b) {}
  }

  /** The worker takes over the reference of the oldest item in the queue. */
  lemma RefsDequeued(mem: Memory, index: Index, queue: seq<Addr>, held: multiset<Addr>)
    requires RefsOk(mem, index, queue, held) && queue != []
    ensures RefsOk(mem, index, queue[1..], held + multiset{queue[0]})
  {
    assert queue == [queue[0]] + queue[1..];
    assert multiset(queue) == multiset{queue[0]} + multiset(queue[1..]);
    forall a | a in queue[1..] || a == queue[0] ensures a in queue {}
  }

  /** What the table stores, as a map. */
  ghost function ViewOf(mem: Memory, index: Index): map<Key, seq<byte>> {
    map k | k in index && index[k] in mem :: mem[index[k]].val
  }

  lemma ViewKept(mem: Memory, mem': Memory, index: Index)
    requires IndexOk(mem, index) && IndexOk(mem', index) && SameView(mem, mem', index)
    ensures ViewOf(mem', index) == ViewOf(mem, index)
  {
  }

  /** Storing an item updates the map at its key. */
  lemma ViewStored(mem: Memory, index: Index, mem': Memory, index': Index, nit: Addr)
    requires IndexOk(mem, index) && IndexOk(mem', index')
    requires nit in mem && Stored(mem, index, mem', index', nit)
    ensures ViewOf(mem', index') == ViewOf(mem, index)[KeyOf(mem[nit]) := mem[nit].val]
  {
    assert forall a :: a in mem ==> a in mem.Keys && a in mem'.Keys;
  }

  /** Taking or dropping a reference changes no value. */
  lemma RefCountView(mem: Memory, index: Index, a: Addr)
    requires IndexOk(mem, index) && a in mem
    ensures SameView(mem, Ref(mem, a), index)
    ensures mem[a].refcount > 0 ==> SameView(mem, Drop(mem, a), index)
  {
  }

  lemma KeptSame(mem: Memory, index: Index, buckets: seq<Bucket>, chains: seq<seq<Addr>>, active: seq<nat>)
    requires TableOk(mem, index, buckets, chains)
    ensures Kept(mem, mem, active) && SameView(mem, mem, index)
  {
    hide TableOk;
    BucketIn(mem, index, buckets, chains, 0);
  }

  lemma KeptTrans(mem: Memory, mem1: Memory, mem2: Memory, active: seq<nat>, active1: seq<nat>)
    requires Kept(mem, mem1, active) && Kept(mem1, mem2, active1)
    requires forall s :: s in active ==> s in active1
    ensures Kept(mem, mem2, active)
  {
  }

  lemma KeptFill(mem: Memory, mem1: Memory, active: seq<nat>, nit: Addr, it: Item)
    requires Kept(mem, mem1, active) && (nit in mem ==> nit.seg !in active)
    ensures Kept(mem, mem1[nit := it], active)
  {
  }

  lemma KeptStored(mem: Memory, index: Index, mem1: Memory, index1: Index, active: seq<nat>, nit: Addr)
    requires nit in mem && Stored(mem, index, mem1, index1, nit)
    ensures Kept(mem, mem1, active)
  {
    forall a | a in mem ensures a in mem1 { assert a in mem.Keys; }
  }

  lemma KeptDrop(mem: Memory, active: seq<nat>, a: Addr)
    requires a in mem && mem[a].refcount > 0
    ensures Kept(mem, Drop(mem, a), active)
  {
  }

  /** Moving the current item of a key to a new place keeps the map. */
  lemma MoveKeepsView(mem: Memory, index: Index, mem': Memory, index': Index, nit: Addr, it: Addr)
    requires IndexOk(mem, index) && IndexOk(mem', index')
    requires nit in mem && it in mem && KeyOf(mem[it]) == KeyOf(mem[nit]) && mem[it].val == mem[nit].val
    requires KeyOf(mem[nit]) in index && index[KeyOf(mem[nit])] == it
    requires Stored(mem, index, mem', index', nit)
    ensures ViewOf(mem', index') == ViewOf(mem, index)
  {
    ViewStored(mem, index, mem', index', nit);
  }

  /** Maintenance puts an item in the queue with a reference of its own. */
  lemma Queued(mem: Memory, index: Index, buckets: seq<Bucket>, chains: seq<seq<Addr>>, queue: seq<Addr>,
               held: multiset<Addr>, a: Addr)
    requires TableOk(mem, index, buckets, chains) && RefsOk(mem, index, queue, held)
    requires a in mem && mem[a].refcount < 0xffff
    ensures TableOk(Ref(mem, a), index, buckets, chains) && RefsOk(Ref(mem, a), index, queue + [a], held)
  {
    hide TableOk, RefsOk;
    TableFrame(mem, Ref(mem, a), index, buckets, chains);
    RefsQueued(mem, index, queue, held, a);
  }

  lemma RefsQueued(mem: Memory, index: Index, queue: seq<Addr>, held: multiset<Addr>, a: Addr)
    requires RefsOk(mem, index, queue, held) && a in mem && mem[a].refcount < 0xffff
    ensures RefsOk(Ref(mem, a), index, queue + [a], held)
  {
    assert multiset(queue + [a]) == multiset(queue) + multiset{a};
    forall b | b in Ref(mem, a)
      ensures Ref(mem, a)[b].refcount == One(InTable(Ref(mem, a), index, b)) + multiset(queue + [a])[b] + held[b]
    {
      assert InTable(Ref(mem, a), index, b) <==> InTable(mem, index, b);
    }
  }

  /** A walk only adds references. */
  lemma WalkedKept(mem0: Memory, mem: Memory, h: nat, size: nat, off0: nat, off: nat, queue0: seq<Addr>,
                   queue: seq<Addr>,
                   index: Index, active: seq<nat>)
    requires Walked(mem0, mem, h, size, off0, off, queue0, queue) && IndexOk(mem0, index)
    ensures Kept(mem0, mem, active) && SameView(mem0, mem, index) && IndexOk(mem, index)
  {
    forall a | a in mem0 ensures a in mem && KeyOf(mem[a]) == KeyOf(mem0[a]) && mem[a].val == mem0[a].val {
      assert mem[a].(refcount := mem0[a].refcount) == mem0[a];
    }
  }

  lemma ContinuedKept(mem0: Memory, mem: Memory, size: nat, cleaning0: Option<nat>, off0: nat, cand: Option<nat>,
                      cleaning: Option<nat>, off: nat, queue0: seq<Addr>, queue: seq<Addr>, capacity: nat,
                      visited: seq<nat>,
                      index: Index, active: seq<nat>)
    requires Continued(mem0, mem, size, cleaning0, off0, cand, cleaning, off, queue0, queue, capacity, visited)
    requires IndexOk(mem0, index)
    ensures Kept(mem0, mem, active) && IndexOk(mem, index) && ViewOf(mem, index) == ViewOf(mem0, index)
  {
    hide Walked;
    if cleaning.Some? {
      WalkedKept(mem0, mem, cleaning.value, size, if cleaning0.Some? && off0 < size then off0 else 0, off, queue0,
                 queue, index, active);
    }
  }
}
