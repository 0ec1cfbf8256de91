/** Whole requests, as the application chains them from the operations of the store. */
module Server {
  import opened Wrappers
  import opened Bytes
  import opened LogLayout
  import opened HashTable
  import opened Segments
  import opened CleanupRing
  import opened References
  import opened KvStore

  datatype Reply = Done | Refused | Found(val: seq<byte>) | Missing | Ended

  /** GetItemSpec, HashPut and Unref: store a value, unless there is no room. */
  method Put(s: Store, hash: seq<byte> -> nat, key: seq<byte>, val: seq<byte>) returns (r: Reply)
    requires s.Valid() && ITEM_SIZE + |key| + |val| <= s.segSize && ITEM_SIZE + |key| + |val| <= MAX_TOTAL
    modifies s
    ensures s.Valid() && s.held == old(s.held) && s.queue == old(s.queue)
    ensures r.Done? || r.Refused? || r.Ended?
    ensures !r.Done? ==> old(s.reserved).None? || s.OutOfSegments()
    ensures r.Ended? ==> s.OutOfSegments()
    ensures s.View() == if r.Done? then old(s.View())[Key(hash(key), key) := val] else old(s.View())
  {
    hide LogOk, ActiveLinks, FreeLinks, Below, TableOk, RefsOk, RingOk, WalkOk, Kept, SameView, InTable, Stored, ViewOf;
    hide BucketOk, Covers, IndexOk, Grown;
    hide s.OutOfSegments, s.CoreValid;
    var a := s.Alloc(ITEM_SIZE + |key| + |val|, false);
    AllocView(s, old(s.mem));
    match a {
      case Exit => return Ended;
      case Null => return Refused;
      case Got(it) =>
        ghost var mem1 := s.mem;
        s.Fill(it, hash(key), key, val);
        AllocView(s, mem1);
        PutFresh(s, it);
        s.GiveUp(it);
        return Done;
    }
  }

  /** hasht_put of a fresh item, without compare-and-set */
  method PutFresh(s: Store, it: Addr)
    requires s.Valid() && it in s.held && it in s.mem && !InTable(s.mem, s.index, it) && s.mem[it].refcount == 1
    modifies s
    ensures s.Valid() && s.held == old(s.held) && s.queue == old(s.queue)
    ensures s.View() == old(s.View())[KeyOf(old(s.mem)[it]) := old(s.mem)[it].val]
  {
    hide LogOk, ActiveLinks, FreeLinks, Below, TableOk, RefsOk, RingOk, WalkOk, InTable, Stored, ViewOf;
    BucketIn(s.mem, s.index, s.buckets, s.chains, 0);
    s.HashtPut(it, None);
    BucketIn(s.mem, s.index, s.buckets, s.chains, 0);
    ViewStored(old(s.mem), old(s.index), s.mem, s.index, it);
  }

  lemma AllocView(s: Store, mem0: Memory)
    requires s.CoreValid() && SameView(mem0, s.mem, s.index)
    ensures s.View() == ViewOf(mem0, s.index)
  {
    hide LogOk, ActiveLinks, FreeLinks, Below, TableOk, RefsOk, RingOk, BucketOk, Covers;
    BucketIn(s.mem, s.index, s.buckets, s.chains, 0);
  }

  /** HashGet and Unref: look a key up. */
  method Lookup(s: Store, hash: seq<byte> -> nat, key: seq<byte>) returns (r: Reply)
    requires s.Valid()
    requires forall a :: a in s.mem ==> s.mem[a].refcount < 0xffff
    modifies s
    ensures s.Valid() && s.held == old(s.held) && s.queue == old(s.queue)
    ensures s.View() == old(s.View())
    ensures var k := Key(hash(key), key); r == if k in s.View() then Found(s.View()[k]) else Missing
  {
    hide LogOk, ActiveLinks, FreeLinks, Below, TableOk, RefsOk, RingOk, WalkOk, Kept, InTable;
    BucketIn(s.mem, s.index, s.buckets, s.chains, 0);
    var it := s.HashtGet(key, hash(key));
    if it.None? {
      return Missing;
    }
    RefCountView(old(s.mem), s.index, it.value);
    ViewKept(old(s.mem), s.mem, s.index) by { BucketIn(s.mem, s.index, s.buckets, s.chains, 0); }
    r := Found(s.mem[it.value].val);
    hide ViewOf;
    s.GiveUp(it.value);
  }
}
