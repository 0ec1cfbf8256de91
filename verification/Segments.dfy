/** Segment headers, the active and free segment lists, and the space accounting that decides when to recycle. */
module Segments {
  import opened Wrappers
  import opened Sequences
  import opened LogLayout

  datatype SegHeader = SegHeader(offset: nat, freed: nat, inactive: bool, cleaned: bool, next: Option<nat>)

  type SegMap = map<nat, SegHeader>

  const FRESH := SegHeader(0, 0, false, false, None)

  /** The largest item whose place-holder at the end of a segment fits a 16-bit key length. */
  const MAX_TOTAL := ITEM_SIZE + 0x1_0000

  /** A segment is tiled by items up to its offset, and `freed` is exactly what of it is dead. */
  ghost predicate SegOk(mem: Memory, s: nat, h: SegHeader, size: nat) {
    && h.offset <= size
    && Tiled(mem, s, 0, h.offset, size)
    && h.freed == Dead(mem, s, 0, h.offset, size)
    && (forall a :: a in mem && a.seg == s ==> a.off in Headers(mem, s, 0, h.offset, size))
  }

  ghost predicate NoItems(mem: Memory, s: nat) {
    forall a :: a in mem ==> a.seg != s
  }

  ghost predicate AllDead(mem: Memory, s: nat) {
    forall a :: a in mem && a.seg == s ==> mem[a].refcount == 0
  }

  /** A segment that has just been handed out and is on no list. */
  ghost predicate Unused(mem: Memory, segs: SegMap, s: nat) {
    s in segs && segs[s].offset == 0 && segs[s].freed == 0 && !segs[s].inactive && !segs[s].cleaned && NoItems(mem, s)
  }

  ghost predicate LogOk(mem: Memory, segs: SegMap, size: nat, active: seq<nat>, free: seq<nat>, reserved: Option<nat>) {
    && Distinct(active) && Distinct(free)
    && (forall s :: s in active ==> s !in free && Some(s) != reserved && s in segs && SegOk(mem, s, segs[s], size))
    && (forall s :: s in free ==> Some(s) != reserved && s in segs && AllDead(mem, s))
    && (reserved.Some? ==> Unused(mem, segs, reserved.value))
    && (forall a :: a in mem ==> (a.seg in active || a.seg in free) && Total(mem[a]) <= MAX_TOTAL)
  }

  /** The successor of the i-th segment of a list. */
  function NextIn(l: seq<nat>, i: nat): Option<nat>
    requires i < |l|
  {
    if i + 1 < |l| then Some(l[i + 1]) else None
  }

  ghost predicate ActiveLinks(segs: SegMap, size: nat, active: seq<nat>, oldest: Option<nat>, cur: nat) {
    && |active| > 0 && oldest == Some(active[0]) && cur == active[|active| - 1]
    && (forall i :: 0 <= i < |active| ==> (
          && active[i] in segs
          && segs[active[i]].next == NextIn(active, i)
          && (segs[active[i]].inactive <==> i + 1 < |active|)
          && (segs[active[i]].inactive ==> segs[active[i]].offset == size)))
  }

  ghost predicate FreeLinks(segs: SegMap, free: seq<nat>, head: Option<nat>) {
    && (if free == [] then head == None else head == Some(free[0]))
    && (forall i :: 0 <= i < |free| ==> (
          && free[i] in segs
          && segs[free[i]].next == NextIn(free, i)))
  }

  /** A live item is in an active segment, at one of its item boundaries. */
  lemma LiveIsActive(mem: Memory, segs: SegMap, size: nat, active: seq<nat>, free: seq<nat>, reserved: Option<nat>,
                     a: Addr)
    requires LogOk(mem, segs, size, active, free, reserved)
    requires a in mem && mem[a].refcount > 0
    ensures a.seg in active && a.seg in segs && SegOk(mem, a.seg, segs[a.seg], size)
    ensures a.off in Headers(mem, a.seg, 0, segs[a.seg].offset, size)
    ensures a.off + Total(mem[a]) <= segs[a.seg].offset
  {
    HeaderBounds(mem, a.seg, 0, segs[a.seg].offset, size, a.off);
  }

  /** The property maintenance relies on: a segment is counted as entirely freed only when it is full and
      no item in it has a reference left, and then it is always counted so. */
  lemma FreedIffDead(mem: Memory, s: nat, h: SegHeader, size: nat)
    requires SegOk(mem, s, h, size)
    ensures h.freed <= h.offset
    ensures h.freed == size <==> h.offset == size && AllDead(mem, s)
  {
    DeadIffAllDead(mem, s, 0, h.offset, size);
    forall o | o in Headers(mem, s, 0, h.offset, size) ensures Addr(s, o) in mem {
      HeaderBounds(mem, s, 0, h.offset, size, o);
    }
    if h.offset == size && AllDead(mem, s) {
      forall o | o in Headers(mem, s, 0, h.offset, size) ensures mem[Addr(s, o)].refcount == 0 {}
    }
    if h.freed == size {
      forall a | a in mem && a.seg == s ensures mem[a].refcount == 0 { assert a == Addr(s, a.off); }
    }
  }

  lemma SegFrame(mem: Memory, mem': Memory, s: nat, h: SegHeader, size: nat)
    requires SegOk(mem, s, h, size)
    requires forall a :: a in mem && a.seg == s ==> SameShape(mem, mem', a)
    requires forall a :: a in mem' && a.seg == s ==> a in mem
    ensures SegOk(mem', s, h, size)
  {
    SegmentFrame(mem, mem', s, 0, h.offset, size);
  }

  /** Changing references without killing an item, or links, or contents of the same size, keeps the whole log. */
  lemma LogFrame(mem: Memory, mem': Memory, segs: SegMap, size: nat, active: seq<nat>, free: seq<nat>,
                 reserved: Option<nat>)
    requires LogOk(mem, segs, size, active, free, reserved)
    requires forall a :: a in mem ==> SameShape(mem, mem', a)
    requires mem'.Keys == mem.Keys
    ensures LogOk(mem', segs, size, active, free, reserved)
  {
    forall a | a in mem' ensures a in mem && SameShape(mem, mem', a) { assert a in mem.Keys; }
    forall s | s in active ensures SegOk(mem', s, segs[s], size) { SegFrame(mem, mem', s, segs[s], size); }
  }

  /** An item written at the offset of a segment extends it. */
  lemma SegAppend(mem: Memory, s: nat, h: SegHeader, size: nat, it: Item)
    requires SegOk(mem, s, h, size) && h.offset + Total(it) <= size
    ensures Addr(s, h.offset) !in mem
    ensures SegOk(mem[Addr(s, h.offset) := it], s,
                  h.(offset := h.offset + Total(it),
                     freed := h.freed + if it.refcount == 0 then Total(it) else 0), size)
  {
    var a := Addr(s, h.offset);
    if a in mem { HeaderBounds(mem, s, 0, h.offset, size, a.off); }
    var mem' := mem[a := it];
    SegmentFrame(mem, mem', s, 0, h.offset, size);
    Join(mem', s, 0, h.offset, h.offset + Total(it), size);
    assert Headers(mem', s, h.offset, h.offset + Total(it), size) == [h.offset];
  }

  /** What is left of a segment becomes waste when it cannot hold a header. */
  lemma SegWaste(mem: Memory, s: nat, h: SegHeader, size: nat)
    requires SegOk(mem, s, h, size) && size - h.offset < ITEM_SIZE
    ensures SegOk(mem, s, h.(offset := size, freed := h.freed + (size - h.offset)), size)
  {
    Join(mem, s, 0, h.offset, size, size);
  }

  /** The log as a whole after a change confined to active segment `s`. */
  lemma LogSegChanged(mem: Memory, mem': Memory, segs: SegMap, size: nat, active: seq<nat>, free: seq<nat>,
                      reserved: Option<nat>,
                      s: nat, h': SegHeader)
    requires LogOk(mem, segs, size, active, free, reserved)
    requires s in active && SegOk(mem', s, h', size)
    requires forall a :: a in mem && a.seg != s ==> a in mem' && mem'[a] == mem[a]
    requires forall a :: a in mem' && a.seg != s ==> a in mem
    requires forall a :: a in mem' && a.seg == s ==> Total(mem'[a]) <= MAX_TOTAL
    ensures LogOk(mem', segs[s := h'], size, active, free, reserved)
  {
    forall r | r in active && r != s ensures SegOk(mem', r, segs[r], size) {
      SegFrame(mem, mem', r, segs[r], size);
    }
  }

  /** The last reference to an item goes away and its size is added to `freed` of its segment. */
  lemma SegItemDies(mem: Memory, s: nat, h: SegHeader, size: nat, a: Addr)
    requires SegOk(mem, s, h, size)
    requires a in mem && mem[a].refcount > 0 && a.seg == s
    ensures SegOk(mem[a := mem[a].(refcount := 0)], s, h.(freed := h.freed + Total(mem[a])), size)
    ensures h.freed + Total(mem[a]) <= size
  {
    var mem' := mem[a := mem[a].(refcount := 0)];
    assert a == Addr(s, a.off);
    ItemDies(mem, mem', s, 0, h.offset, size, a.off);
    FreedIffDead(mem', s, h.(freed := h.freed + Total(mem[a])), size);
  }

  lemma LogItemDies(mem: Memory, segs: SegMap, size: nat, active: seq<nat>, free: seq<nat>, reserved: Option<nat>,
                    a: Addr)
    requires LogOk(mem, segs, size, active, free, reserved)
    requires a in mem && mem[a].refcount > 0 && a.seg in segs
    ensures var h := segs[a.seg];
            LogOk(mem[a := mem[a].(refcount := 0)], segs[a.seg := h.(freed := h.freed + Total(mem[a]))],
                  size, active, free, reserved)
    ensures segs[a.seg].freed + Total(mem[a]) <= size
  {
    LiveIsActive(mem, segs, size, active, free, reserved, a);
    SegItemDies(mem, a.seg, segs[a.seg], size, a);
    LogSegChanged(mem, mem[a := mem[a].(refcount := 0)], segs, size, active, free, reserved, a.seg,
                  segs[a.seg].(freed := segs[a.seg].freed + Total(mem[a])));
  }

  /** A live item stays live under another reference count. */
  lemma LogRecount(mem: Memory, segs: SegMap, size: nat, active: seq<nat>, free: seq<nat>, reserved: Option<nat>,
                   a: Addr, c: nat)
    requires LogOk(mem, segs, size, active, free, reserved)
    requires a in mem && mem[a].refcount > 0 && c > 0
    ensures LogOk(mem[a := mem[a].(refcount := c)], segs, size, active, free, reserved)
  {
    LogFrame(mem, mem[a := mem[a].(refcount := c)], segs, size, active, free, reserved);
  }

  /** Links between items are no concern of the log. */
  lemma LogRelink(mem: Memory, segs: SegMap, size: nat, active: seq<nat>, free: seq<nat>, reserved: Option<nat>,
                  a: Addr, l: Option<Addr>)
    requires LogOk(mem, segs, size, active, free, reserved)
    requires a in mem
    ensures LogOk(mem[a := mem[a].(next := l)], segs, size, active, free, reserved)
  {
    LogFrame(mem, mem[a := mem[a].(next := l)], segs, size, active, free, reserved);
  }

  /** The list structure does not depend on what is accounted as freed. */
  lemma LinksKept(segs: SegMap, segs': SegMap, size: nat, active: seq<nat>, free: seq<nat>, oldest: Option<nat>,
                  cur: nat, head: Option<nat>)
    requires ActiveLinks(segs, size, active, oldest, cur) && FreeLinks(segs, free, head)
    requires forall s :: s in segs ==> s in segs' && segs'[s].(freed := segs[s].freed) == segs[s]
    ensures ActiveLinks(segs', size, active, oldest, cur) && FreeLinks(segs', free, head)
  {
  }

  ghost predicate Below(segs: SegMap, n: nat) {
    forall s :: s in segs ==> s < n
  }

  /** The cleaner stands at an item boundary of segment `h`, having visited all headers before it. */
  ghost predicate Position(mem: Memory, size: nat, h: nat, off: nat, visited: seq<nat>) {
    && off <= size && Tiled(mem, h, 0, off, size) && Tiled(mem, h, off, size, size)
    && visited == Headers(mem, h, 0, off, size)
  }

  /** While the cleaner has not reached the end of the segment it is working on, that segment is still in the log,
      and the walk stands at an item boundary, having visited all headers before it. */
  ghost predicate WalkOk(mem: Memory, segs: SegMap, size: nat, active: seq<nat>, cur: nat,
                         cleaning: Option<nat>, off: nat, visited: seq<nat>) {
    && (cleaning.Some? ==> cleaning.value in segs && off <= size)
    && (cleaning.Some? && off < size ==> (
          && cleaning.value in active && cleaning.value != cur
          && Position(mem, size, cleaning.value, off, visited)))
  }

  lemma WalkFrame(mem: Memory, mem': Memory, segs: SegMap, segs': SegMap, size: nat, active: seq<nat>,
                  active': seq<nat>,
                  cur: nat, cur': nat, cleaning: Option<nat>, off: nat, visited: seq<nat>)
    requires WalkOk(mem, segs, size, active, cur, cleaning, off, visited)
    requires forall a :: a in mem && (a.seg in active && a.seg != cur) ==> a in mem' && Total(mem'[a]) == Total(mem[a])
    requires forall s :: s in segs ==> s in segs'
    requires forall s :: s in active && s != cur ==> s in active' && s != cur'
    ensures WalkOk(mem', segs', size, active', cur', cleaning, off, visited)
  {
    if cleaning.Some? && off < size {
      LayoutFrame(mem, mem', cleaning.value, 0, off, size);
      LayoutFrame(mem, mem', cleaning.value, off, size, size);
    }
  }

  /** Memory without whatever is left in segment `h`. */
  function Forget(mem: Memory, h: nat): Memory {
    map a | a in mem && a.seg != h :: mem[a]
  }

  lemma NewSegmentIsEmpty(mem: Memory, segs: SegMap, size: nat, active: seq<nat>, free: seq<nat>,
                          reserved: Option<nat>, h: nat)
    requires LogOk(mem, segs, size, active, free, reserved) && h !in segs
    ensures Forget(mem, h) == mem && NoItems(mem, h) && AllDead(mem, h) && h !in active && h !in free
    ensures reserved != Some(h)
  {
  }

  /** segment_alloc: a segment outside the lists is initialised, and what was in it is gone. */
  lemma LogInit(mem: Memory, segs: SegMap, size: nat, active: seq<nat>, free: seq<nat>, reserved: Option<nat>, h: nat,
                hdr: SegHeader)
    requires LogOk(mem, segs, size, active, free, reserved)
    requires h !in active && h !in free && reserved != Some(h)
    ensures LogOk(mem, segs[h := hdr], size, active, free, reserved)
  {
  }

  lemma LogTakeFree(mem: Memory, segs: SegMap, size: nat, active: seq<nat>, free: seq<nat>, reserved: Option<nat>)
    requires LogOk(mem, segs, size, active, free, reserved) && free != []
    ensures LogOk(Forget(mem, free[0]), segs, size, active, free[1..], reserved)
    ensures AllDead(mem, free[0]) && free[0] !in active && free[0] !in free[1..] && reserved != Some(free[0])
  {
    var mem' := Forget(mem, free[0]);
    assert free[0] in free;
    forall s | s in free[1..] ensures s in free && s != free[0] {}
    forall s | s in active ensures SegOk(mem', s, segs[s], size) { SegFrame(mem, mem', s, segs[s], size); }
  }

  lemma FreeHead(segs: SegMap, free: seq<nat>, head: Option<nat>)
    requires FreeLinks(segs, free, head) && head.Some?
    ensures free != [] && head.value == free[0] && free[0] in segs
  {
  }

  lemma FreeTail(segs: SegMap, segs': SegMap, size: nat, active: seq<nat>, oldest: Option<nat>, cur: nat,
                 free: seq<nat>, head: Option<nat>)
    requires ActiveLinks(segs, size, active, oldest, cur) && FreeLinks(segs, free, head) && free != []
    requires free[0] !in active && free[0] !in free[1..]
    requires forall s :: s in segs && s != free[0] ==> s in segs' && segs'[s] == segs[s]
    ensures free[0] in segs
    ensures ActiveLinks(segs', size, active, oldest, cur)
    ensures FreeLinks(segs', free[1..], segs[free[0]].next)
  {
    forall i | 0 <= i < |active|
      ensures active[i] in segs' && segs'[active[i]] == segs[active[i]]
    {
      assert active[i] in active;
    }
    var rest := free[1..];
    forall i | 0 <= i < |rest| ensures rest[i] in segs' && segs'[rest[i]].next == NextIn(rest, i) {
      assert rest[i] == free[i + 1] && rest[i] in rest;
      assert segs[free[i + 1]].next == NextIn(free, i + 1);
    }
    assert segs[free[0]].next == NextIn(free, 0);
  }

  /** The reserved segment leaves its place. */
  lemma LogUnreserve(mem: Memory, segs: SegMap, size: nat, active: seq<nat>, free: seq<nat>, h: nat)
    requires LogOk(mem, segs, size, active, free, Some(h))
    ensures LogOk(mem, segs, size, active, free, None)
    ensures Unused(mem, segs, h) && h !in active && h !in free
  {
  }

  /** ... or a fresh one takes it. */
  lemma LogReserve(mem: Memory, segs: SegMap, size: nat, active: seq<nat>, free: seq<nat>, h: nat)
    requires LogOk(mem, segs, size, active, free, None)
    requires Unused(mem, segs, h) && h !in active && h !in free
    ensures LogOk(mem, segs, size, active, free, Some(h))
  {
  }

  /** A fresh segment becomes the current one. */
  lemma LogExtend(mem: Memory, segs: SegMap, segs': SegMap, size: nat, active: seq<nat>, free: seq<nat>,
                  reserved: Option<nat>, h: nat, cur: nat)
    requires LogOk(mem, segs, size, active, free, reserved)
    requires Unused(mem, segs, h) && h !in active && h !in free && reserved != Some(h) && cur in active
    requires forall s :: s in segs ==>
               s in segs' && segs'[s].offset == segs[s].offset && segs'[s].freed == segs[s].freed
    requires forall s :: s in segs && s != h && s != cur ==> segs'[s] == segs[s]
    ensures LogOk(mem, segs', size, active + [h], free, reserved)
  {
    assert SegOk(mem, h, segs'[h], size);
    forall s | s in active ensures SegOk(mem, s, segs'[s], size) { assert SegOk(mem, s, segs[s], size); }
  }

  lemma LinksExtend(segs: SegMap, segs': SegMap, size: nat, active: seq<nat>, oldest: Option<nat>, cur: nat,
                    free: seq<nat>, head: Option<nat>, h: nat)
    requires ActiveLinks(segs, size, active, oldest, cur) && FreeLinks(segs, free, head)
    requires Distinct(active) && h !in active && h !in free && cur !in free && h in segs'
    requires segs[cur].offset == size
    requires forall s :: s in segs && s != cur && s != h ==> s in segs' && segs'[s] == segs[s]
    requires cur in segs' && segs'[cur] == segs[cur].(next := Some(h), inactive := true)
    requires segs'[h].next == None && !segs'[h].inactive
    ensures ActiveLinks(segs', size, active + [h], oldest, h) && FreeLinks(segs', free, head)
  {
    var active' := active + [h];
    forall i | 0 <= i < |active|
      ensures active[i] in segs' && (i + 1 < |active| ==> segs'[active[i]] == segs[active[i]])
    {
      assert active[i] in active;
    }
    forall i | 0 <= i < |free| ensures free[i] in segs' && segs'[free[i]] == segs[free[i]] { assert free[i] in free; }
  }

  /** What an allocation may do to memory: everything live, and everything in active segments, stays as it is; what
      is new is dead, except for the item allocated. */
  ghost predicate Allocated(mem: Memory, mem': Memory, active: seq<nat>, added: Option<Addr>) {
    && (forall a :: a in mem && mem[a].refcount > 0 ==> a in mem' && mem'[a] == mem[a])
    && (forall a :: a in mem && a.seg in active ==> a in mem' && mem'[a] == mem[a])
    && (forall a :: a in mem' ==> (a in mem && mem'[a] == mem[a]) || mem'[a].refcount == 0 || Some(a) == added)
    && (added.Some? ==> (
          && added.value in mem' && mem'[added.value].refcount == 1
          && (added.value in mem ==> mem[added.value].refcount == 0 && added.value.seg !in active)))
  }

  lemma ForgetDead(mem: Memory, h: nat, active: seq<nat>)
    requires AllDead(mem, h) && h !in active
    ensures Allocated(mem, Forget(mem, h), active, None)
  {
  }

  lemma AllocWalk(mem: Memory, mem': Memory, active: seq<nat>, cur: nat, added: Option<Addr>)
    requires Allocated(mem, mem', active, added)
    ensures forall a :: a in mem && (a.seg in active && a.seg != cur) ==> a in mem' && Total(mem'[a]) == Total(mem[a])
  {
  }

  lemma AllocatedTrans(mem: Memory, mem1: Memory, mem2: Memory, active: seq<nat>, active1: seq<nat>,
                       added: Option<Addr>)
    requires Allocated(mem, mem1, active, None) && Allocated(mem1, mem2, active1, added)
    requires forall s :: s in active ==> s in active1
    ensures Allocated(mem, mem2, active, added)
  {
  }

  lemma AllocatedOne(mem: Memory, mem': Memory, active: seq<nat>, a: Addr, it: Item, added: Option<Addr>)
    requires a !in mem && (mem' == mem || mem' == mem[a := it])
    requires if added == Some(a) then mem' == mem[a := it] && it.refcount == 1 else added.None? && it.refcount == 0
    ensures Allocated(mem, mem', active, added)
  {
  }

  lemma NotYetAllocated(segs: SegMap, n: nat, hdr: SegHeader)
    requires Below(segs, n)
    ensures n !in segs
    ensures Below(segs, n + 1) && Below(segs[n := hdr], n + 1)
  {
  }

  lemma BelowUpdate(segs: SegMap, n: nat, s: nat, hdr: SegHeader)
    requires Below(segs, n) && s in segs
    ensures s < n && Below(segs[s := hdr], n)
  {
  }

  lemma LinksFrame(segs: SegMap, segs': SegMap, size: nat, active: seq<nat>, oldest: Option<nat>, cur: nat,
                   free: seq<nat>, head: Option<nat>, h: nat)
    requires ActiveLinks(segs, size, active, oldest, cur) && FreeLinks(segs, free, head)
    requires h !in active && h !in free
    requires forall s :: s in segs && s != h ==> s in segs' && segs'[s] == segs[s]
    ensures ActiveLinks(segs', size, active, oldest, cur) && FreeLinks(segs', free, head)
  {
    forall i | 0 <= i < |active|
      ensures active[i] in segs' && segs'[active[i]] == segs[active[i]]
    {
      assert active[i] in active;
    }
    forall i | 0 <= i < |free| ensures free[i] in segs' && segs'[free[i]] == segs[free[i]] { assert free[i] in free; }
  }

  /** A fresh item of `total` bytes, before its owner fills it in. */
  function Blank(total: nat): Item
    requires ITEM_SIZE <= total
  {
    Item(None, 0, 1, [], Zeros(total - ITEM_SIZE))
  }

  /** The place-holder for the rest of a segment; its key length is a 16-bit field. */
  function Filler(avail: nat): Item
    requires ITEM_SIZE <= avail
  {
    Item(None, 0, 0, Zeros((avail - ITEM_SIZE) % 0x1_0000), [])
  }

  /** The place-holder spans the rest of the segment exactly when that is short enough for a 16-bit key length. */
  lemma FillerFits(avail: nat)
    requires ITEM_SIZE <= avail
    ensures Total(Filler(avail)) == avail <==> avail - ITEM_SIZE < 0x1_0000
  {
  }

  lemma SegRoom(mem: Memory, s: nat, h: SegHeader, size: nat)
    requires SegOk(mem, s, h, size)
    ensures h.offset <= size && h.freed <= h.offset && Addr(s, h.offset) !in mem
  {
    FreedIffDead(mem, s, h, size);
    if Addr(s, h.offset) in mem { HeaderBounds(mem, s, 0, h.offset, size, h.offset); }
  }

  lemma CurIsActive(mem: Memory, segs: SegMap, size: nat, active: seq<nat>, free: seq<nat>, reserved: Option<nat>,
                    oldest: Option<nat>, cur: nat)
    requires LogOk(mem, segs, size, active, free, reserved) && ActiveLinks(segs, size, active, oldest, cur)
    ensures cur in active && cur !in free && cur in segs && SegOk(mem, cur, segs[cur], size)
    ensures segs[cur].offset <= size && Distinct(active)
  {
  }

  lemma LinksCur(segs: SegMap, segs': SegMap, size: nat, active: seq<nat>, free: seq<nat>, oldest: Option<nat>,
                 cur: nat, head: Option<nat>)
    requires ActiveLinks(segs, size, active, oldest, cur) && FreeLinks(segs, free, head)
    requires Distinct(active)
    requires forall s :: s in segs ==>
               s in segs' && segs'[s].next == segs[s].next && segs'[s].inactive == segs[s].inactive
    requires forall s :: s in segs && s != cur ==> segs'[s].offset == segs[s].offset
    ensures ActiveLinks(segs', size, active, oldest, cur) && FreeLinks(segs', free, head)
  {
  }

  /** The log after segment_item_alloc_pointer on the current segment. */
  lemma LogCurChanged(mem: Memory, mem': Memory, segs: SegMap, size: nat, active: seq<nat>, free: seq<nat>,
                      reserved: Option<nat>,
                      cur: nat, h': SegHeader, it: Item)
    requires LogOk(mem, segs, size, active, free, reserved)
    requires cur in active && cur in segs && SegOk(mem', cur, h', size) && Total(it) <= MAX_TOTAL
    requires Addr(cur, segs[cur].offset) !in mem
    requires mem' == mem || mem' == mem[Addr(cur, segs[cur].offset) := it]
    ensures LogOk(mem', segs[cur := h'], size, active, free, reserved)
  {
    LogSegChanged(mem, mem', segs, size, active, free, reserved, cur, h');
  }

  lemma BelowKeys(segs: SegMap, segs': SegMap, n: nat)
    requires Below(segs, n) && segs'.Keys == segs.Keys
    ensures Below(segs', n)
  {
    forall s | s in segs' ensures s < n { assert s in segs.Keys; }
  }

  /** The active list got at most a new current segment. */
  ghost predicate Grown(active: seq<nat>, cur: nat, active': seq<nat>, cur': nat) {
    (active' == active && cur' == cur) || (active' == active + [cur'] && cur' !in active)
  }

  lemma SameGrown(active: seq<nat>, cur: nat)
    ensures Grown(active, cur, active, cur)
  {
  }

  /** The log in the beginning: one empty segment, and one in reserve if there is memory for its header. */
  lemma LogBegins(reserved: bool, size: nat)
    ensures var segs := if reserved then map[0 := FRESH, 1 := FRESH] else map[0 := FRESH];
            && LogOk(map[], segs, size, [0], [], if reserved then Some(1) else None)
            && ActiveLinks(segs, size, [0], Some(0), 0) && FreeLinks(segs, [], None) && Below(segs, 2)
  {
  }

  /** An item of `total` bytes was put behind the others of the current segment if it fits there, and at the start of
      a new one otherwise. */
  ghost predicate Placed(segs: SegMap, active: seq<nat>, cur: nat, size: nat, total: nat, segs': SegMap,
                         active': seq<nat>, cur': nat, it: Addr) {
    && cur in segs && cur' in segs' && it.seg == cur' && segs'[cur'].offset == it.off + total
    && (if segs[cur].offset + total <= size then active' == active && cur' == cur && it.off == segs[cur].offset
        else active' == active + [cur'] && it.off == 0 && !segs'[cur'].cleaned)
    && (forall s :: s in active ==> s in segs && s in segs' && segs'[s].cleaned == segs[s].cleaned)
  }

  lemma PlacedHere(segs: SegMap, active: seq<nat>, cur: nat, size: nat, total: nat, segs': SegMap, it: Addr)
    requires cur in segs && it == Addr(cur, segs[cur].offset) && segs[cur].offset + total <= size
    requires cur in segs' && segs'[cur] == segs[cur].(offset := segs[cur].offset + total, freed := segs'[cur].freed)
    requires (forall s :: s in active ==> s in segs)
    requires forall s :: s in segs && s != cur ==> s in segs' && segs'[s] == segs[s]
    ensures Placed(segs, active, cur, size, total, segs', active, cur, it)
  {
  }

  lemma PlacedThere(segs: SegMap, active: seq<nat>, cur: nat, size: nat, total: nat, segs1: SegMap, segs': SegMap,
                    h: nat, it: Addr)
    requires cur in segs && it == Addr(h, 0) && segs[cur].offset + total > size && h !in active
    requires h in segs' && !segs'[h].cleaned && segs'[h].offset == total
    requires forall s :: s in active ==> s in segs && s in segs1 && s in segs'
    requires forall s :: s in active ==> segs1[s].cleaned == segs[s].cleaned && segs'[s].cleaned == segs1[s].cleaned
    ensures Placed(segs, active, cur, size, total, segs', active + [h], h, it)
  {
  }

  lemma PlacedInCur(segs: SegMap, active: seq<nat>, cur: nat, size: nat, total: nat, segs': SegMap,
                    active': seq<nat>, cur': nat, it: Addr)
    requires Placed(segs, active, cur, size, total, segs', active', cur', it)
    ensures it.seg == cur'
  {
  }

  lemma ItemFits(mem: Memory, segs: SegMap, size: nat, active: seq<nat>, free: seq<nat>, reserved: Option<nat>, a: Addr)
    requires LogOk(mem, segs, size, active, free, reserved)
    requires a in mem && mem[a].refcount > 0
    ensures ITEM_SIZE <= Total(mem[a]) <= size && Total(mem[a]) <= MAX_TOTAL
  {
    LiveIsActive(mem, segs, size, active, free, reserved, a);
  }

  /** The segments of a list that maintenance leaves in the log. */
  function Survivors(segs: SegMap, size: nat, l: seq<nat>): seq<nat>
    requires forall s :: s in l ==> s in segs
  {
    if l == [] then []
    else
      var s := l[|l| - 1];
      Survivors(segs, size, l[..|l| - 1]) + (if segs[s].freed == size then [] else [s])
  }

  lemma {:induction false} SurvivorsIn(segs: SegMap, size: nat, l: seq<nat>)
    requires forall s :: s in l ==> s in segs
    ensures forall s :: s in Survivors(segs, size, l) <==> s in l && segs[s].freed != size
  {
    if l != [] {
      SurvivorsIn(segs, size, l[..|l| - 1]);
      assert l == l[..|l| - 1] + [l[|l| - 1]];
    }
  }

  /** What recycling `h` (between `prev` and its successor) does to the headers: unlink it, put it on the free list. */
  ghost predicate Unlinked(segs: SegMap, segs': SegMap, h: nat, prev: Option<nat>, head: Option<nat>) {
    && h in segs && segs'.Keys == segs.Keys
    && (prev.Some? ==> prev.value in segs && segs'[prev.value] == segs[prev.value].(next := segs[h].next))
    && segs'[h] == segs[h].(offset := 0, next := head)
    && (forall s :: s in segs && s != h && Some(s) != prev ==> segs'[s] == segs[s])
  }

  lemma LogRecycle(mem: Memory, segs: SegMap, segs': SegMap, size: nat, active: seq<nat>, free: seq<nat>,
                   reserved: Option<nat>,
                   p: nat, prev: Option<nat>, head: Option<nat>)
    requires LogOk(mem, segs, size, active, free, reserved)
    requires p < |active| && prev != Some(active[p]) && (prev.Some? ==> prev.value in active)
    requires Unlinked(segs, segs', active[p], prev, head) && segs[active[p]].freed == size
    ensures LogOk(mem, segs', size, active[..p] + active[p + 1..], [active[p]] + free, reserved)
    ensures AllDead(mem, active[p])
  {
    var h := active[p];
    assert h in active && h in segs && SegOk(mem, h, segs[h], size);
    FreedIffDead(mem, h, segs[h], size);
    var active', free' := active[..p] + active[p + 1..], [h] + free;
    RemovedDistinct(active, p);
    forall s ensures s in active' <==> s in active && s != h { InRemoved(active, p, s); }
    forall s | s in active' ensures s !in free' && Some(s) != reserved && s in segs' && SegOk(mem, s, segs'[s], size) {
      assert s in active && s in segs && SegOk(mem, s, segs[s], size);
    }
    forall s | s in free' ensures Some(s) != reserved && s in segs' && AllDead(mem, s) {
      assert s == h || s in free;
    }
    assert reserved.Some? ==> Unused(mem, segs', reserved.value) by {
      hide SegOk;
      if reserved.Some? { assert Unused(mem, segs, reserved.value) && reserved.value != h && reserved != prev; }
    }
    assert Distinct(free') by { forall i | 0 < i < |free'| ensures free'[i] == free[i - 1] && free[i - 1] in free {} }
    forall a | a in mem ensures a.seg in active' || a.seg in free' { assert a.seg in active || a.seg in free; }
  }

  lemma RemovedDistinct(l: seq<nat>, p: nat)
    requires p < |l| && Distinct(l)
    ensures Distinct(l[..p] + l[p + 1..])
  {
    var l' := l[..p] + l[p + 1..];
    assert forall i :: 0 <= i < |l'| ==> l'[i] == l[if i < p then i else i + 1];
  }

  lemma InRemoved(l: seq<nat>, p: nat, s: nat)
    requires p < |l| && Distinct(l)
    ensures s in l[..p] + l[p + 1..] <==> s in l && s != l[p]
  {
    if s in l && s != l[p] {
      var i :| 0 <= i < |l| && l[i] == s;
      if i < p { assert l[..p][i] == s; } else { assert l[p + 1..][i - p - 1] == s; }
    }
  }

  lemma ActiveRecycle(segs: SegMap, segs': SegMap, size: nat, active: seq<nat>, oldest: Option<nat>, cur: nat,
                      head: Option<nat>, p: nat, prev: Option<nat>, oldest': Option<nat>)
    requires ActiveLinks(segs, size, active, oldest, cur) && Distinct(active)
    requires p + 1 < |active| && prev == (if p == 0 then None else Some(active[p - 1]))
    requires Unlinked(segs, segs', active[p], prev, head)
    requires oldest' == if p == 0 then segs[active[p]].next else oldest
    ensures ActiveLinks(segs', size, active[..p] + active[p + 1..], oldest', cur)
  {
    var active' := active[..p] + active[p + 1..];
    assert segs[active[p]].next == NextIn(active, p);
    forall i | 0 <= i < |active'|
      ensures active'[i] in segs' && segs'[active'[i]].next == NextIn(active', i)
      ensures segs'[active'[i]].inactive == (i + 1 < |active'|)
      ensures segs'[active'[i]].inactive ==> segs'[active'[i]].offset == size
    {
      var j := if i < p then i else i + 1;
      assert active'[i] == active[j] && segs[active[j]].next == NextIn(active, j);
      StillLinked(segs, segs', active, head, p, prev, j);
      NextRemoved(active, p, i);
    }
  }

  /** Only the predecessor of the removed segment has another successor. */
  lemma StillLinked(segs: SegMap, segs': SegMap, active: seq<nat>, head: Option<nat>, p: nat, prev: Option<nat>, j: nat)
    requires Distinct(active) && p < |active| && j < |active| && j != p && active[j] in segs
    requires prev == (if p == 0 then None else Some(active[p - 1])) && Unlinked(segs, segs', active[p], prev, head)
    ensures active[j] in segs'
    ensures segs'[active[j]] == if j + 1 == p then segs[active[j]].(next := segs[active[p]].next) else segs[active[j]]
  {
    assert active[j] != active[p] && (j + 1 == p <==> Some(active[j]) == prev);
  }

  lemma NextRemoved(l: seq<nat>, p: nat, i: nat)
    requires p < |l| && i + 1 < |l|
    ensures var l', j := l[..p] + l[p + 1..], if i < p then i else i + 1;
            l'[i] == l[j] && NextIn(l', i) == if j + 1 == p then NextIn(l, p) else NextIn(l, j)
  {
  }

  lemma FreeRecycle(segs: SegMap, segs': SegMap, free: seq<nat>, head: Option<nat>, h: nat, prev: Option<nat>)
    requires FreeLinks(segs, free, head) && h !in free && (prev.Some? ==> prev.value !in free)
    requires Unlinked(segs, segs', h, prev, head)
    ensures FreeLinks(segs', [h] + free, Some(h))
  {
    var free' := [h] + free;
    forall i | 0 <= i < |free'| ensures free'[i] in segs' && segs'[free'[i]].next == NextIn(free', i) {
      if i > 0 {
        assert free'[i] == free[i - 1] && free[i - 1] in free && segs[free[i - 1]].next == NextIn(free, i - 1);
      }
    }
  }

  lemma LinksRecycle(segs: SegMap, segs': SegMap, size: nat, active: seq<nat>, oldest: Option<nat>, cur: nat,
                     free: seq<nat>, head: Option<nat>, p: nat, prev: Option<nat>, oldest': Option<nat>)
    requires ActiveLinks(segs, size, active, oldest, cur) && FreeLinks(segs, free, head)
    requires Distinct(active) && Distinct(free) && (forall s :: s in active ==> s !in free)
    requires p + 1 < |active| && prev == (if p == 0 then None else Some(active[p - 1]))
    requires Unlinked(segs, segs', active[p], prev, head)
    requires oldest' == if p == 0 then segs[active[p]].next else oldest
    ensures ActiveLinks(segs', size, active[..p] + active[p + 1..], oldest', cur)
    ensures FreeLinks(segs', [active[p]] + free, Some(active[p]))
  {
    ActiveRecycle(segs, segs', size, active, oldest, cur, head, p, prev, oldest');
    assert active[p] in active && (prev.Some? ==> prev.value in active);
    FreeRecycle(segs, segs', free, head, active[p], prev);
  }

  function Ratio(h: SegHeader, size: nat): real
    requires size > 0
  {
    h.freed as real / size as real
  }

  /** The segment to clean next: the emptiest one of which at least 80% is freed and that was not cleaned before. */
  ghost predicate CandidateOk(segs: SegMap, size: nat, l: seq<nat>, cand: Option<nat>)
    requires size > 0
  {
    && (forall s :: s in l ==> s in segs)
    && (cand.Some? ==> cand.value in l && !segs[cand.value].cleaned && Ratio(segs[cand.value], size) >= 0.8)
    && (forall s :: s in l && !segs[s].cleaned && Ratio(segs[s], size) >= 0.8 ==>
                      cand.Some? && Ratio(segs[s], size) <= Ratio(segs[cand.value], size))
  }

  lemma ListsApart(mem: Memory, segs: SegMap, size: nat, active: seq<nat>, free: seq<nat>, reserved: Option<nat>)
    requires LogOk(mem, segs, size, active, free, reserved)
    ensures Distinct(active) && Distinct(free)
    ensures forall s :: s in active ==> s !in free && s in segs
  {
  }

  ghost predicate Includes(l': seq<nat>, l: seq<nat>) {
    forall s :: s in l ==> s in l'
  }

  /** Maintenance has looked at the first `q` segments of the list it found, and `p` of them stayed. */
  ghost predicate Scan(mem: Memory, size: nat, segs0: SegMap, active0: seq<nat>, q: nat, segs: SegMap,
                       active: seq<nat>, p: nat) {
    && p < |active| && q < |active0| && (forall s :: s in active0 ==> s in segs0)
    && active[p..] == active0[q..]
    && active[..p] == Survivors(segs0, size, active0[..q])
    && segs.Keys == segs0.Keys
    && (forall s :: s in active ==> s in segs0 && segs[s] == segs0[s].(next := segs[s].next))
    && (forall s :: s in active0 && s !in active ==> AllDead(mem, s))
  }

  ghost predicate Chosen(segs: SegMap, size: nat, l: seq<nat>, cand: Option<nat>, ratio: real)
    requires size > 0
  {
    CandidateOk(segs, size, l, cand) && ratio == if cand.Some? then Ratio(segs[cand.value], size) else 0.0
  }

  lemma ScanSplit(mem: Memory, size: nat, segs0: SegMap, active0: seq<nat>, q: nat, segs: SegMap, active: seq<nat>,
                  p: nat)
    requires Scan(mem, size, segs0, active0, q, segs, active, p)
    ensures |active| - p == |active0| - q && active[p] == active0[q]
    ensures active[p] in segs0 && active[p] in segs && segs[active[p]].freed == segs0[active[p]].freed
  {
    assert active[p] == active[p..][0] == active0[q..][0];
  }

  lemma ScanRecycled(mem: Memory, size: nat, segs0: SegMap, active0: seq<nat>, q: nat, segs: SegMap, active: seq<nat>,
                     p: nat,
                     segs': SegMap, active': seq<nat>)
    requires Scan(mem, size, segs0, active0, q, segs, active, p) && Distinct(active)
    requires p + 1 < |active| && active[p] in segs && segs[active[p]].freed == size && AllDead(mem, active[p])
    requires active' == active[..p] + active[p + 1..] && segs'.Keys == segs.Keys
    requires forall s :: s in segs' && s != active[p] ==> segs'[s] == segs[s].(next := segs'[s].next)
    ensures Scan(mem, size, segs0, active0, q + 1, segs', active', p)
  {
    hide AllDead;
    ScanSplit(mem, size, segs0, active0, q, segs, active, p);
    assert active'[..p] == active[..p];
    assert active'[p..] == active[p..][1..] == active0[q..][1..] == active0[q + 1..];
    assert active0[..q + 1][..q] == active0[..q];
    forall s ensures s in active' <==> s in active && s != active[p] { InRemoved(active, p, s); }
    forall s | s in active' ensures s in segs0 && segs'[s] == segs0[s].(next := segs'[s].next) {
      assert s in segs' by { assert s in segs0.Keys; }
    }
  }

  lemma ScanStays(mem: Memory, size: nat, segs0: SegMap, active0: seq<nat>, q: nat, segs: SegMap, active: seq<nat>,
                  p: nat)
    requires Scan(mem, size, segs0, active0, q, segs, active, p)
    requires p + 1 < |active| && active[p] in segs && segs[active[p]].freed != size
    ensures Scan(mem, size, segs0, active0, q + 1, segs, active, p + 1)
  {
    hide AllDead;
    ScanSplit(mem, size, segs0, active0, q, segs, active, p);
    assert active[p + 1..] == active[p..][1..] == active0[q..][1..] == active0[q + 1..];
    assert active0[..q + 1][..q] == active0[..q];
    assert active[..p + 1] == active[..p] + [active[p]];
  }

  /** The choice does not depend on where segments are linked. */
  lemma ChosenFrame(segs: SegMap, segs': SegMap, size: nat, l: seq<nat>, cand: Option<nat>, ratio: real)
    requires size > 0 && Chosen(segs, size, l, cand, ratio)
    requires forall s :: s in l ==> s in segs' && segs'[s].freed == segs[s].freed && segs'[s].cleaned == segs[s].cleaned
    ensures Chosen(segs', size, l, cand, ratio)
  {
  }

  /** One more segment is considered. */
  lemma ChosenStep(segs: SegMap, size: nat, l: seq<nat>, h: nat, cand: Option<nat>, ratio: real, cand': Option<nat>,
                   ratio': real)
    requires size > 0 && Chosen(segs, size, l, cand, ratio) && h in segs
    requires if !segs[h].cleaned && Ratio(segs[h], size) >= 0.8 && Ratio(segs[h], size) > ratio
             then cand' == Some(h) && ratio' == Ratio(segs[h], size)
             else cand' == cand && ratio' == ratio
    ensures Chosen(segs, size, l + [h], cand', ratio')
  {
    hide Ratio;
  }

  lemma ScanStart(mem: Memory, size: nat, segs: SegMap, active: seq<nat>)
    requires size > 0 && |active| > 0 && forall s :: s in active ==> s in segs
    ensures Scan(mem, size, segs, active, 0, segs, active, 0) && Chosen(segs, size, active[..0], None, 0.0)
  {
  }

  lemma ScanEnd(mem: Memory, size: nat, segs0: SegMap, active0: seq<nat>, q: nat, segs: SegMap, active: seq<nat>,
                p: nat,
                cand: Option<nat>, ratio: real)
    requires size > 0 && Scan(mem, size, segs0, active0, q, segs, active, p) && p + 1 == |active|
    requires Chosen(segs, size, active[..p], cand, ratio)
    ensures q + 1 == |active0| && forall s :: s in active0 ==> s in segs0
    ensures active == Survivors(segs0, size, active0[..q]) + [active0[q]]
    ensures CandidateOk(segs, size, active[..p], cand)
    ensures segs.Keys == segs0.Keys
    ensures forall s :: s in active ==> s in segs0 && segs[s] == segs0[s].(next := segs[s].next)
    ensures forall s :: s in active0 && s !in active ==> AllDead(mem, s)
  {
    ScanSplit(mem, size, segs0, active0, q, segs, active, p);
    assert active == active[..p] + [active[p]];
  }

  lemma TakeNext(l: seq<nat>, p: nat)
    requires p < |l|
    ensures l[..p + 1] == l[..p] + [l[p]]
  {
  }

  lemma TakeRemoved(l: seq<nat>, p: nat)
    requires p < |l|
    ensures (l[..p] + l[p + 1..])[..p] == l[..p]
    ensures p + 1 < |l| ==> (l[..p] + l[p + 1..])[p] == l[p + 1]
    ensures p > 0 ==> (l[..p] + l[p + 1..])[p - 1] == l[p - 1]
  {
  }

  /** The walk along the active list stops at its last segment, and nowhere before. */
  lemma NotLast(segs: SegMap, size: nat, active: seq<nat>, oldest: Option<nat>, cur: nat, p: nat)
    requires ActiveLinks(segs, size, active, oldest, cur) && p < |active|
    ensures active[p] in segs && segs[active[p]].next == NextIn(active, p)
    ensures segs[active[p]].inactive <==> p + 1 < |active|
    ensures oldest == Some(active[0])
    ensures cur == active[|active| - 1]
  {
  }

  /** The cleaner has walked segment `h` from `off0` to `off`: it stands at an item boundary, and what it has added to
      the queue is what was live on its way. */
  ghost predicate Walked(mem0: Memory, mem: Memory, h: nat, size: nat, off0: nat, off: nat, queue0: seq<Addr>,
                         queue: seq<Addr>) {
    && off0 <= off <= size
    && Tiled(mem0, h, off0, off, size) && Tiled(mem0, h, off, size, size)
    && queue == queue0 + Live(mem0, h, off0, off, size)
    && mem.Keys == mem0.Keys
    && (forall a :: a in mem0 ==>
                      a in mem && SameShape(mem0, mem, a) && mem[a].(refcount := mem0[a].refcount) == mem0[a])
    && (forall a :: a in mem0 && (a.seg != h || a.off >= off) ==> mem[a] == mem0[a])
  }

  lemma WalkedStart(mem: Memory, h: nat, size: nat, off: nat, queue: seq<Addr>)
    requires off <= size && Tiled(mem, h, off, size, size)
    ensures Walked(mem, mem, h, size, off, off, queue, queue)
  {
  }

  lemma WalkedItem(mem0: Memory, mem: Memory, h: nat, size: nat, off0: nat, off: nat, queue0: seq<Addr>,
                   queue: seq<Addr>)
    requires Walked(mem0, mem, h, size, off0, off, queue0, queue) && off + ITEM_SIZE <= size
    ensures Addr(h, off) in mem0 && Addr(h, off) in mem && mem[Addr(h, off)] == mem0[Addr(h, off)]
    ensures off + Total(mem0[Addr(h, off)]) <= size
  {
  }

  lemma LiveOfOne(mem: Memory, h: nat, size: nat, off: nat)
    requires var a := Addr(h, off); a in mem && off + Total(mem[a]) <= size
    ensures var a := Addr(h, off);
            && Tiled(mem, h, off, off + Total(mem[a]), size)
            && Live(mem, h, off, off + Total(mem[a]), size) == (if mem[a].refcount == 0 then [] else [a])
            && Headers(mem, h, off, off + Total(mem[a]), size) == [off]
  {
    var a := Addr(h, off);
    var n := off + Total(mem[a]);
    assert Tiled(mem, h, n, n, size) && Live(mem, h, n, n, size) == [] && Headers(mem, h, n, n, size) == [];
  }

  lemma WalkedStep(mem0: Memory, mem: Memory, h: nat, size: nat, off0: nat, off: nat, queue0: seq<Addr>,
                   queue: seq<Addr>,
                   mem': Memory, queue': seq<Addr>)
    requires Walked(mem0, mem, h, size, off0, off, queue0, queue) && off + ITEM_SIZE <= size
    requires Addr(h, off) in mem0 && Addr(h, off) in mem && mem[Addr(h, off)] == mem0[Addr(h, off)]
    requires var a := Addr(h, off);
             if mem0[a].refcount == 0 then mem' == mem && queue' == queue
             else mem' == mem[a := mem[a].(refcount := mem[a].refcount + 1)] && queue' == queue + [a]
    ensures Walked(mem0, mem', h, size, off0, off + Total(mem0[Addr(h, off)]), queue0, queue')
  {
    WalkedItem(mem0, mem, h, size, off0, off, queue0, queue);
    var n := off + Total(mem0[Addr(h, off)]);
    LiveOfOne(mem0, h, size, off);
    Join(mem0, h, off0, off, n, size);
    assert Tiled(mem0, h, n, size, size);
  }

  /** The rest of a segment that cannot hold a header is skipped. */
  lemma WalkedWaste(mem0: Memory, mem: Memory, h: nat, size: nat, off0: nat, off: nat, queue0: seq<Addr>,
                    queue: seq<Addr>)
    requires Walked(mem0, mem, h, size, off0, off, queue0, queue) && size < off + ITEM_SIZE
    ensures Walked(mem0, mem, h, size, off0, size, queue0, queue)
  {
    Join(mem0, h, off0, off, size, size);
    if off < size { assert Tiled(mem0, h, off, size, size); }
  }

  lemma {:induction false} LiveOfDead(mem: Memory, h: nat, off: nat, end: nat, size: nat)
    requires off <= end <= size && Tiled(mem, h, off, end, size) && AllDead(mem, h)
    ensures Live(mem, h, off, end, size) == []
    decreases end - off
  {
    if off != end && !Waste(off, end, size) {
      LiveOfDead(mem, h, off + Total(mem[Addr(h, off)]), end, size);
    }
  }

  lemma WalkedParts(mem0: Memory, mem: Memory, h: nat, size: nat, off0: nat, off: nat, queue0: seq<Addr>,
                    queue: seq<Addr>)
    requires Walked(mem0, mem, h, size, off0, off, queue0, queue)
    ensures off0 <= off <= size && Tiled(mem0, h, off0, off, size)
    ensures AllDead(mem0, h) ==> queue == queue0
  {
    if AllDead(mem0, h) { LiveOfDead(mem0, h, off0, off, size); }
  }

  /** The walk's new position: the headers it passed follow those visited before. */
  lemma WalkFinish(mem0: Memory, mem: Memory, size: nat, h: nat, off0: nat, off: nat,
                   queue0: seq<Addr>, queue: seq<Addr>, visited: seq<nat>)
    requires Walked(mem0, mem, h, size, off0, off, queue0, queue) && Tiled(mem0, h, off0, off, size)
    requires Position(mem0, size, h, off0, visited)
    ensures Position(mem, size, h, off, visited + Headers(mem0, h, off0, off, size))
  {
    Join(mem0, h, 0, off0, off, size);
    LayoutFrame(mem0, mem, h, 0, off, size);
    LayoutFrame(mem0, mem, h, off, size, size);
  }

  lemma PositionOk(mem: Memory, segs: SegMap, size: nat, active: seq<nat>, cur: nat, h: nat, off: nat,
                   visited: seq<nat>)
    requires Position(mem, size, h, off, visited) && h in segs
    ensures WalkOk(mem, segs, size, active, cur, Some(h), off, visited) <==> off == size || (h in active && h != cur)
  {
  }

  /** A segment of the list other than the current one is full, so a walk may start in it. */
  lemma WalkBegin(mem: Memory, segs: SegMap, size: nat, active: seq<nat>, free: seq<nat>, reserved: Option<nat>,
                  oldest: Option<nat>, cur: nat, h: nat)
    requires LogOk(mem, segs, size, active, free, reserved) && ActiveLinks(segs, size, active, oldest, cur)
    requires h in active[..|active| - 1]
    ensures h in active && h in segs && h != cur && Position(mem, size, h, 0, [])
  {
    var i :| 0 <= i < |active| - 1 && active[i] == h;
    assert segs[active[i]].inactive;
    assert SegOk(mem, h, segs[h], size);
  }

  lemma LogFlag(mem: Memory, segs: SegMap, size: nat, active: seq<nat>, free: seq<nat>, reserved: Option<nat>,
                oldest: Option<nat>, cur: nat, head: Option<nat>, h: nat, n: nat)
    requires LogOk(mem, segs, size, active, free, reserved) && ActiveLinks(segs, size, active, oldest, cur)
    requires FreeLinks(segs, free, head) && Below(segs, n)
    requires h in active && h in segs
    ensures var segs' := segs[h := segs[h].(cleaned := true)];
            && LogOk(mem, segs', size, active, free, reserved) && ActiveLinks(segs', size, active, oldest, cur)
            && FreeLinks(segs', free, head) && Below(segs', n)
  {
    var segs' := segs[h := segs[h].(cleaned := true)];
    forall s | s in active ensures SegOk(mem, s, segs'[s], size) { assert SegOk(mem, s, segs[s], size); }
  }

  lemma PositionTiled(mem: Memory, size: nat, h: nat, off: nat, visited: seq<nat>)
    requires Position(mem, size, h, off, visited)
    ensures off <= size && Tiled(mem, h, off, size, size)
  {
  }

  /** Segment headers as they were, but for one flag. */
  ghost predicate Flagged(segs: SegMap, segs': SegMap, cand: Option<nat>) {
    && segs'.Keys == segs.Keys
    && (forall s :: s in segs ==> s in segs' && segs'[s] == segs[s].(cleaned := segs[s].cleaned || Some(s) == cand))
  }

  /** What maintenance does to the headers of the segments that stay: links, and the flag of the one it begins to
      clean. */
  ghost predicate Marked(segs: SegMap, segs': SegMap, active: seq<nat>, cand: Option<nat>) {
    forall s :: s in active ==> (
      && s in segs && s in segs'
      && segs'[s] == segs[s].(next := segs'[s].next, cleaned := segs[s].cleaned || Some(s) == cand))
  }

  lemma FlaggedMarks(segs: SegMap, segs1: SegMap, segs2: SegMap, active: seq<nat>, cand: Option<nat>)
    requires forall s :: s in active ==> s in segs && s in segs1 && segs1[s] == segs[s].(next := segs1[s].next)
    requires Flagged(segs1, segs2, cand)
    ensures Marked(segs, segs2, active, cand)
  {
  }

  /** Segment headers as they were, but for the bytes counted as freed. */
  ghost predicate OnlyFreed(segs: SegMap, segs': SegMap) {
    && segs'.Keys == segs.Keys
    && (forall s :: s in segs ==> s in segs' && segs'[s] == segs[s].(freed := segs'[s].freed))
  }

  /** One call's share of the cleaning: it goes on where the last call stopped, or starts with the candidate (whose
      walk begins at once only if another segment was cleaned before); it queues what is live on its way, and stops
      only at the end of the segment or when the queue is full. */
  ghost predicate Continued(mem0: Memory, mem: Memory, size: nat, cleaning0: Option<nat>, off0: nat, cand: Option<nat>,
                            cleaning: Option<nat>, off: nat, queue0: seq<Addr>, queue: seq<Addr>, capacity: nat,
                            visited: seq<nat>) {
    var resumed := cleaning0.Some? && off0 < size;
    && cleaning == (if resumed then cleaning0 else cand)
    && (cleaning.None? ==> mem == mem0 && queue == queue0)
    && (cleaning.Some? ==> (
          && Walked(mem0, mem, cleaning.value, size, if resumed then off0 else 0, off, queue0, queue)
          && Position(mem, size, cleaning.value, off, visited)
          && (cleaning0.Some? ==> off == size || |queue| == capacity)
          && (cleaning0.None? || |queue0| == capacity ==> off == if resumed then off0 else 0)))
  }

  /** Cleaning touches no item of the current segment. */
  lemma ContinuedElsewhere(mem0: Memory, mem: Memory, size: nat, cleaning0: Option<nat>, off0: nat, cand: Option<nat>,
                           cleaning: Option<nat>, off: nat, queue0: seq<Addr>, queue: seq<Addr>, capacity: nat,
                           visited: seq<nat>, cur: nat)
    requires Continued(mem0, mem, size, cleaning0, off0, cand, cleaning, off, queue0, queue, capacity, visited)
    requires cand != Some(cur) && (cleaning0.Some? && off0 < size ==> cleaning0.value != cur)
    ensures cleaning == if cleaning0.Some? && off0 < size then cleaning0 else cand
    ensures forall a :: a in mem0 && a.seg == cur ==> a in mem && mem[a] == mem0[a]
  {
  }

  lemma RecycleFacts(segs: SegMap, size: nat, active: seq<nat>, active': seq<nat>)
    requires |active| > 0 && Distinct(active) && forall s :: s in active ==> s in segs
    requires active' == Survivors(segs, size, active[..|active| - 1]) + [active[|active| - 1]]
    ensures forall s :: s in active && s != active[|active| - 1] ==> (s in active' <==> segs[s].freed != size)
    ensures forall s :: s in active && s !in active' ==> segs[s].freed == size
    ensures forall s :: s in active' ==> s in active
  {
    var n := |active| - 1;
    SurvivorsIn(segs, size, active[..n]);
    assert active == active[..n] + [active[n]];
    forall s ensures s in active' <==> s in Survivors(segs, size, active[..n]) || s == active[n] {}
  }

  lemma CandidateIn(segs: SegMap, segs': SegMap, size: nat, active: seq<nat>, cand: Option<nat>)
    requires size > 0 && |active| > 0 && CandidateOk(segs, size, active[..|active| - 1], cand)
    requires forall s :: s in active ==> s in segs && s in segs' && segs[s] == segs'[s].(next := segs[s].next)
    ensures CandidateOk(segs', size, active[..|active| - 1], cand)
    ensures cand.Some? ==> cand.value in active[..|active| - 1]
  {
    forall s | s in active[..|active| - 1] ensures s in active {}
  }

  /** Whether the walk is still sound after a segment it works on may have been recycled. */
  lemma WalkSound(mem0: Memory, mem: Memory, size: nat, segs: SegMap, active: seq<nat>, active': seq<nat>, cur: nat,
                  cleaning0: Option<nat>, off0: nat, cand: Option<nat>, cleaning: Option<nat>, off: nat,
                  queue0: seq<Addr>, queue: seq<Addr>, capacity: nat, visited: seq<nat>)
    requires Continued(mem0, mem, size, cleaning0, off0, cand, cleaning, off, queue0, queue, capacity, visited)
    requires |queue0| <= capacity
    requires cand.Some? ==> cand.value in active' && cand.value != cur
    requires cleaning0.Some? && off0 < size ==>
               cleaning0.value in active && cleaning0.value in segs && cleaning0.value != cur
    requires forall s :: s in active && s != cur ==> s in segs && (s in active' <==> segs[s].freed != size)
    requires forall s :: s in active && s !in active' ==> AllDead(mem0, s)
    ensures cleaning.None? || off == size || (cleaning.value in active' && cleaning.value != cur) <==>
            !(cleaning0.Some? && off0 < size && segs[cleaning0.value].freed == size && |queue0| == capacity)
  {
    hide Walked, Position;
    if cleaning0.Some? && off0 < size {
      WalkedParts(mem0, mem, cleaning.value, size, off0, off, queue0, queue);
    }
  }

  lemma NotCur(segs: SegMap, size: nat, active: seq<nat>, oldest: Option<nat>, cur: nat, s: Option<nat>)
    requires ActiveLinks(segs, size, active, oldest, cur) && Distinct(active)
    requires s.Some? ==> s.value in active[..|active| - 1]
    ensures s.Some? ==> s.value in active && s.value != cur
  {
  }

  lemma WalkTarget(mem: Memory, segs: SegMap, size: nat, active: seq<nat>, cur: nat, cleaning: Option<nat>, off: nat,
                   visited: seq<nat>)
    requires WalkOk(mem, segs, size, active, cur, cleaning, off, visited)
    ensures cleaning.Some? ==> cleaning.value in segs && off <= size
    ensures cleaning.Some? && off < size ==>
              cleaning.value in active && cleaning.value != cur && Position(mem, size, cleaning.value, off, visited)
  {
  }
}
