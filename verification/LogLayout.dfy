/** Items laid out back to back in the fixed-size segments of the log. */
module LogLayout {
  import opened Wrappers
  import opened Bytes

  /** A pointer into the log: the byte at offset `off` of segment `seg`. */
  datatype Addr = Addr(seg: nat, off: nat)

  /** The item header together with the key and value bytes behind it. */
  datatype Item = Item(next: Option<Addr>, hv: nat, refcount: nat, key: seq<byte>, val: seq<byte>)

  type Memory = map<Addr, Item>

  /** sizeof(item) */
  const ITEM_SIZE := 32

  /** item_totalsz: header, key and value. */
  function Total(it: Item): nat {
    ITEM_SIZE + |it.key| + |it.val|
  }

  /** Bytes nobody has written yet. */
  function Zeros(n: nat): (r: seq<byte>)
    ensures |r| == n
  {
    seq(n, _ => 0)
  }

  /** The last bytes of a segment when they are too few to hold even a header. */
  predicate Waste(off: nat, end: nat, size: nat) {
    off <= end == size && size - off < ITEM_SIZE
  }

  /** Bytes [off, end) of segment `s` hold whole items one after the other, except for waste at the very end. */
  ghost predicate Tiled(mem: Memory, s: nat, off: nat, end: nat, size: nat)
    requires off <= end <= size
    decreases end - off
  {
    off == end || Waste(off, end, size) ||
    (var a := Addr(s, off);
     a in mem && off + Total(mem[a]) <= end && Tiled(mem, s, off + Total(mem[a]), end, size))
  }

  /** Offsets of the item headers in [off, end), in the order a walk meets them. */
  ghost function Headers(mem: Memory, s: nat, off: nat, end: nat, size: nat): seq<nat>
    requires off <= end <= size && Tiled(mem, s, off, end, size)
    decreases end - off
  {
    if off == end || Waste(off, end, size) then []
    else [off] + Headers(mem, s, off + Total(mem[Addr(s, off)]), end, size)
  }

  /** Bytes of [off, end) that nobody refers to: dead items and the waste at the end. */
  ghost function Dead(mem: Memory, s: nat, off: nat, end: nat, size: nat): nat
    requires off <= end <= size && Tiled(mem, s, off, end, size)
    decreases end - off
  {
    if off == end then 0
    else if Waste(off, end, size) then end - off
    else
      var it := mem[Addr(s, off)];
      (if it.refcount == 0 then Total(it) else 0) + Dead(mem, s, off + Total(it), end, size)
  }

  /** The live items of [off, end), in walk order: what the cleaner has to move. */
  ghost function Live(mem: Memory, s: nat, off: nat, end: nat, size: nat): seq<Addr>
    requires off <= end <= size && Tiled(mem, s, off, end, size)
    decreases end - off
  {
    if off == end || Waste(off, end, size) then []
    else
      var a := Addr(s, off);
      (if mem[a].refcount == 0 then [] else [a]) + Live(mem, s, off + Total(mem[a]), end, size)
  }

  /** Two memories give an item the same extent and agree on whether it is dead. */
  ghost predicate SameShape(mem: Memory, mem': Memory, a: Addr) {
    a in mem && a in mem' && Total(mem'[a]) == Total(mem[a]) && (mem'[a].refcount == 0 <==> mem[a].refcount == 0)
  }

  lemma {:induction false} HeaderBounds(mem: Memory, s: nat, off: nat, end: nat, size: nat, h: nat)
    requires off <= end <= size && Tiled(mem, s, off, end, size)
    requires h in Headers(mem, s, off, end, size)
    ensures off <= h && Addr(s, h) in mem && h + Total(mem[Addr(s, h)]) <= end
    decreases end - off
  {
    var n := off + Total(mem[Addr(s, off)]);
    if h != off {
      assert h in Headers(mem, s, n, end, size);
      HeaderBounds(mem, s, n, end, size, h);
    }
  }

  /** A dead range is a range all of whose items have refcount 0; never more bytes are dead than there are. */
  lemma {:induction false} DeadIffAllDead(mem: Memory, s: nat, off: nat, end: nat, size: nat)
    requires off <= end <= size && Tiled(mem, s, off, end, size)
    ensures Dead(mem, s, off, end, size) <= end - off
    ensures Dead(mem, s, off, end, size) == end - off <==>
            forall h :: h in Headers(mem, s, off, end, size) ==> Addr(s, h) in mem && mem[Addr(s, h)].refcount == 0
    decreases end - off
  {
    if off != end && !Waste(off, end, size) {
      var n := off + Total(mem[Addr(s, off)]);
      DeadIffAllDead(mem, s, n, end, size);
      var hs, rest := Headers(mem, s, off, end, size), Headers(mem, s, n, end, size);
      assert hs == [off] + rest;
      assert off in hs;
      forall h | h in rest ensures Addr(s, h) in mem { HeaderBounds(mem, s, n, end, size, h); }
      forall h | h in hs && h != off ensures h in rest {}
    }
  }

  /** Layout and accounting of a segment depend only on the shape of its own items. */
  lemma {:induction false} SegmentFrame(mem: Memory, mem': Memory, s: nat, off: nat, end: nat, size: nat)
    requires off <= end <= size && Tiled(mem, s, off, end, size)
    requires forall a :: a in mem && a.seg == s ==> SameShape(mem, mem', a)
    ensures Tiled(mem', s, off, end, size)
    ensures Headers(mem', s, off, end, size) == Headers(mem, s, off, end, size)
    ensures Dead(mem', s, off, end, size) == Dead(mem, s, off, end, size)
    ensures Live(mem', s, off, end, size) == Live(mem, s, off, end, size)
    decreases end - off
  {
    if off != end && !Waste(off, end, size) {
      var a := Addr(s, off);
      assert SameShape(mem, mem', a);
      SegmentFrame(mem, mem', s, off + Total(mem[a]), end, size);
    }
  }

  /** The death of one live item adds exactly its size to the dead bytes of its segment. */
  lemma {:induction false} ItemDies(mem: Memory, mem': Memory, s: nat, off: nat, end: nat, size: nat, h: nat)
    requires off <= end <= size && Tiled(mem, s, off, end, size)
    requires h in Headers(mem, s, off, end, size)
    requires var a := Addr(s, h);
             && a in mem && a in mem' && Total(mem'[a]) == Total(mem[a])
             && mem[a].refcount > 0 && mem'[a].refcount == 0
    requires forall a :: a in mem && a.seg == s && a.off != h ==> SameShape(mem, mem', a)
    ensures Tiled(mem', s, off, end, size)
    ensures Headers(mem', s, off, end, size) == Headers(mem, s, off, end, size)
    ensures Dead(mem', s, off, end, size) == Dead(mem, s, off, end, size) + Total(mem[Addr(s, h)])
    decreases end - off
  {
    var a := Addr(s, off);
    var n := off + Total(mem[a]);
    if h == off {
      TailFrame(mem, mem', s, n, end, size, h);
    } else {
      assert SameShape(mem, mem', a);
      assert h in Headers(mem, s, n, end, size);
      ItemDies(mem, mem', s, n, end, size, h);
    }
  }

  /** As SegmentFrame, for the part of a segment behind a changed item. */
  lemma {:induction false} TailFrame(mem: Memory, mem': Memory, s: nat, off: nat, end: nat, size: nat, h: nat)
    requires h < off <= end <= size && Tiled(mem, s, off, end, size)
    requires forall a :: a in mem && a.seg == s && a.off != h ==> SameShape(mem, mem', a)
    ensures Tiled(mem', s, off, end, size)
    ensures Headers(mem', s, off, end, size) == Headers(mem, s, off, end, size)
    ensures Dead(mem', s, off, end, size) == Dead(mem, s, off, end, size)
    decreases end - off
  {
    if off != end && !Waste(off, end, size) {
      assert SameShape(mem, mem', Addr(s, off));
      TailFrame(mem, mem', s, off + Total(mem[Addr(s, off)]), end, size, h);
    }
  }

  /** Cutting a layout at an item boundary cuts the walk there: every header lies in exactly one part. */
  lemma {:induction false} Join(mem: Memory, s: nat, off: nat, mid: nat, end: nat, size: nat)
    requires off <= mid <= end <= size
    requires Tiled(mem, s, off, mid, size) && Tiled(mem, s, mid, end, size)
    ensures Tiled(mem, s, off, end, size)
    ensures Headers(mem, s, off, end, size) == Headers(mem, s, off, mid, size) + Headers(mem, s, mid, end, size)
    ensures Live(mem, s, off, end, size) == Live(mem, s, off, mid, size) + Live(mem, s, mid, end, size)
    ensures Dead(mem, s, off, end, size) == Dead(mem, s, off, mid, size) + Dead(mem, s, mid, end, size)
    decreases mid - off
  {
    if off == mid {
    } else if Waste(off, mid, size) {
      assert mid == end;
    } else {
      var a := Addr(s, off);
      var n := off + Total(mem[a]);
      Join(mem, s, n, mid, end, size);
      var l := if mem[a].refcount == 0 then [] else [a];
      assert [off] + (Headers(mem, s, n, mid, size) + Headers(mem, s, mid, end, size))
          == ([off] + Headers(mem, s, n, mid, size)) + Headers(mem, s, mid, end, size);
      assert l + (Live(mem, s, n, mid, size) + Live(mem, s, mid, end, size))
          == (l + Live(mem, s, n, mid, size)) + Live(mem, s, mid, end, size);
    }
  }

  /** Where the headers are depends only on the sizes of the items. */
  lemma {:induction false} LayoutFrame(mem: Memory, mem': Memory, s: nat, off: nat, end: nat, size: nat)
    requires off <= end <= size && Tiled(mem, s, off, end, size)
    requires forall a :: a in mem && a.seg == s ==> a in mem' && Total(mem'[a]) == Total(mem[a])
    ensures Tiled(mem', s, off, end, size)
    ensures Headers(mem', s, off, end, size) == Headers(mem, s, off, end, size)
    decreases end - off
  {
    if off != end && !Waste(off, end, size) {
      LayoutFrame(mem, mem', s, off + Total(mem[Addr(s, off)]), end, size);
    }
  }
}
