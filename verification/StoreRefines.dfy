/** The store gives the replies of the specification, whatever its clients, maintenance and cleaning do in between. */
module StoreRefines {
  import opened Wrappers
  import opened Bytes
  import opened LogLayout
  import opened HashTable
  import opened Segments
  import opened CleanupRing
  import opened References
  import opened Moving
  import opened KvStore
  import opened StoreRuns

  function RefOf(a: Option<Addr>): multiset<Addr> {
    if a.Some? then multiset{a.value} else multiset{}
  }

  /** The references behind the handles. */
  function HeldBy(at: seq<Option<Addr>>): multiset<Addr> {
    if at == [] then multiset{} else HeldBy(at[..|at| - 1]) + RefOf(at[|at| - 1])
  }

  lemma HeldMore(at: seq<Option<Addr>>, a: Addr)
    ensures HeldBy(at + [Some(a)]) == HeldBy(at) + multiset{a}
  {
    assert (at + [Some(a)])[..|at|] == at;
  }

  lemma HeldLast(at: seq<Option<Addr>>)
    requires at != []
    ensures HeldBy(at) == HeldBy(at[..|at| - 1]) + RefOf(at[|at| - 1])
  {
  }

  lemma OneFewer(held: multiset<Addr>, more: multiset<Addr>, a: Addr)
    requires a in held
    ensures a in held + more && (held - multiset{a}) + more == (held + more) - multiset{a}
  {
  }

  lemma {:induction false} HeldLess(at: seq<Option<Addr>>, h: nat)
    requires h < |at| && at[h].Some?
    ensures at[h].value in HeldBy(at) && HeldBy(at[h := None]) == HeldBy(at) - multiset{at[h].value}
  {
    hide HeldBy;
    var n, at', a := |at| - 1, at[h := None], at[h].value;
    HeldLast(at);
    HeldLast(at');
    if h == n {
      assert at'[..n] == at[..n];
      assert HeldBy(at) == HeldBy(at') + multiset{a};
    } else {
      hide RefOf;
      var r := at[..n];
      assert at'[..n] == r[h := None] && at'[n] == at[n] && r[h] == at[h];
      HeldLess(r, h);
      OneFewer(HeldBy(r), RefOf(at[n]), a);
    }
  }

  /** An item with a single holder is behind no other handle. */
  lemma OnlyHandle(at: seq<Option<Addr>>, h: nat, i: nat)
    requires h < |at| && at[h].Some? && HeldBy(at)[at[h].value] == 1 && i < |at| && i != h
    ensures at[i] != at[h]
  {
    if at[i] == at[h] {
      HeldLess(at, h);
      HeldLess(at[h := None], i);
    }
  }

  lemma {:induction false} HeldCount(at: seq<Option<Addr>>, handles: seq<Option<Handle>>)
    requires |at| == |handles| && forall i :: 0 <= i < |at| ==> (at[i].Some? <==> handles[i].Some?)
    ensures |HeldBy(at)| == Count(handles)
  {
    if at != [] { HeldCount(at[..|at| - 1], handles[..|at| - 1]); }
  }

  lemma {:induction false} CountSet(handles: seq<Option<Handle>>, h: nat, x: Option<Handle>)
    requires h < |handles| && handles[h].Some?
    ensures Count(handles[h := x]) <= Count(handles)
  {
    var n := |handles| - 1;
    assert handles[h := x][..n] == if h == n then handles[..n] else handles[..n][h := x];
    if h < n { CountSet(handles[..n], h, x); }
  }

  lemma CountMore(handles: seq<Option<Handle>>, x: Handle)
    ensures Count(handles + [Some(x)]) == Count(handles) + 1
  {
    assert (handles + [Some(x)])[..|handles|] == handles;
  }

  ghost predicate Filled(it: Item, hash: Str -> nat, key: Str, val: Str) {
    it.hv == hash(key) && it.key == key && it.val == val
  }

  /** The part of the store's state that handles depend on. */
  datatype Now = Now(mem: Memory, index: Index, held: multiset<Addr>, cur: nat)

  /** The item behind a handle is what the handle says. */
  ghost predicate HandleOk(now: Now, hash: Str -> nat, m: map<Str, Entry>, a: Addr, x: Handle, stamp: nat) {
    && a in now.mem
    && match x
       case Raw(total) => a.seg == now.cur && now.mem[a].refcount == 1 && Total(now.mem[a]) == total && now.held[a] == 1
       case Ready(key, val) => Filled(now.mem[a], hash, key, val) && !InTable(now.mem, now.index, a) && now.held[a] == 1
       case Shared(key, val) =>
         && Filled(now.mem[a], hash, key, val)
         && (InTable(now.mem, now.index, a) ==> key in m && m[key] == Entry(val, stamp))
  }

  ghost predicate HandlesOk(now: Now, hash: Str -> nat, m: Model, at: seq<Option<Addr>>) {
    && |at| == |m.handles| == |m.stamps| && now.held == HeldBy(at)
    && (forall i :: 0 <= i < |at| ==> (at[i].Some? <==> m.handles[i].Some?))
    && (forall i :: 0 <= i < |at| && at[i].Some? ==>
                      HandleOk(now, hash, m.m, at[i].value, m.handles[i].value, m.stamps[i]))
  }

  /** The item behind the handle is in the table if it is the one that the last put of its key stored. */
  ghost predicate InPlace(now: Now, m: map<Str, Entry>, a: Addr, x: Handle, stamp: nat) {
    x.Shared? && x.key in m && m[x.key] == Entry(x.val, stamp) ==> InTable(now.mem, now.index, a)
  }

  /** That is so until an item may have been moved. */
  ghost predicate SteadyOk(now: Now, m: Model, at: seq<Option<Addr>>) {
    forall h :: h in m.steady && h < |at| && h < |m.handles| && h < |m.stamps| && at[h].Some? && m.handles[h].Some? ==>
                  InPlace(now, m.m, at[h].value, m.handles[h].value, m.stamps[h])
  }

  /** The table stores the map, each key with its hash. */
  ghost predicate MapOk(view: map<Key, Str>, m: map<Str, Entry>, hash: Str -> nat) {
    && (forall k :: k in m <==> Key(hash(k), k) in view)
    && (forall k :: k in m ==> view[Key(hash(k), k)] == m[k].val)
    && (forall k :: k in view ==> k.hv == hash(k.bytes))
  }

  /** The store, with its clients' handles, is in the state `m`. */
  ghost predicate Represents(s: Store, hash: Str -> nat, at: seq<Option<Addr>>, m: Model)
    reads s, s.cleanupQueue
  {
    && s.Valid() && m.space == s.SpaceLeft() && Countable(m.handles, s.cleanupQueue.Length) && Stamped(m)
    && MapOk(s.View(), m.m, hash)
    && HandlesOk(NowOf(s), hash, m, at) && SteadyOk(NowOf(s), m, at)
  }

  function SetupOf(s: Store, hash: Str -> nat): Setup {
    Setup(s.headerOk, hash, s.segSize, s.cleanupQueue.Length)
  }

  /** What an operation must leave alone of an item that another handle refers to. */
  ghost predicate Spared(was: Now, now: Now, a: Addr, x: Handle) {
    a in was.mem ==>
      && a in now.mem && KeyOf(now.mem[a]) == KeyOf(was.mem[a]) && now.mem[a].val == was.mem[a].val
      && (InTable(now.mem, now.index, a) ==> InTable(was.mem, was.index, a))
      && (!x.Shared? && was.held[a] == 1 ==> now.held[a] == 1)
      && (x.Raw? && was.mem[a].refcount == 1 && a.seg == was.cur ==> now.cur == was.cur && now.mem[a].refcount == 1)
  }

  lemma HandleSpared(was: Now, now: Now, hash: Str -> nat, m: map<Str, Entry>, a: Addr, x: Handle, stamp: nat)
    requires HandleOk(was, hash, m, a, x, stamp) && Spared(was, now, a, x)
    ensures HandleOk(now, hash, m, a, x, stamp)
    ensures now.index == was.index && InPlace(was, m, a, x, stamp) ==> InPlace(now, m, a, x, stamp)
  {
  }

  /** Every handle is spared. */
  lemma AllSpared(was: Now, now: Now, hash: Str -> nat, m: Model, m': Model, at: seq<Option<Addr>>)
    requires HandlesOk(was, hash, m, at) && SteadyOk(was, m, at) && now.held == was.held
    requires m'.m == m.m && m'.handles == m.handles && m'.stamps == m.stamps
    requires m'.steady == {} || (m'.steady == m.steady && now.index == was.index)
    requires forall i :: 0 <= i < |at| && at[i].Some? ==> Spared(was, now, at[i].value, m.handles[i].value)
    ensures HandlesOk(now, hash, m', at) && SteadyOk(now, m', at)
  {
    hide Spared, HandleOk, InPlace, HeldBy;
    forall i | 0 <= i < |at| && at[i].Some?
      ensures HandleOk(now, hash, m.m, at[i].value, m.handles[i].value, m.stamps[i])
      ensures i in m'.steady ==> InPlace(now, m.m, at[i].value, m.handles[i].value, m.stamps[i])
    {
      HandleSpared(was, now, hash, m.m, at[i].value, m.handles[i].value, m.stamps[i]);
    }
  }

  /** Every handle is spared, and there is a new one. */
  lemma OneMore(was: Now, now: Now, hash: Str -> nat, m: Model, m': Model, at: seq<Option<Addr>>, a: Addr, x: Handle,
                stamp: nat)
    requires HandlesOk(was, hash, m, at) && SteadyOk(was, m, at)
    requires now.held == was.held + multiset{a} && now.index == was.index
    requires m' == AddHandle(m, x, stamp).(space := m'.space, steady := m'.steady)
    requires m'.steady <= m.steady + {|m.handles|}
    requires forall i :: 0 <= i < |at| && at[i].Some? ==> Spared(was, now, at[i].value, m.handles[i].value)
    requires HandleOk(now, hash, m.m, a, x, stamp) && InPlace(now, m.m, a, x, stamp)
    ensures HandlesOk(now, hash, m', at + [Some(a)]) && SteadyOk(now, m', at + [Some(a)])
  {
    hide Spared, HandleOk, InPlace, HeldBy;
    HeldMore(at, a);
    forall i | 0 <= i < |at| && at[i].Some?
      ensures HandleOk(now, hash, m.m, at[i].value, m.handles[i].value, m.stamps[i])
      ensures i in m.steady ==> InPlace(now, m.m, at[i].value, m.handles[i].value, m.stamps[i])
    {
      HandleSpared(was, now, hash, m.m, at[i].value, m.handles[i].value, m.stamps[i]);
    }
  }

  /** What the invariants of the store say about items that are held. */
  lemma HeldItems(s: Store)
    requires s.CoreValid()
    ensures IndexOk(s.mem, s.index)
    ensures forall a :: a in s.held ==> a in s.mem && s.mem[a].refcount > 0 && a.seg in s.active
    ensures forall a :: a in s.mem && s.mem[a].refcount == 1 && s.held[a] == 1 ==> !InTable(s.mem, s.index, a)
    ensures forall a :: a in s.mem ==> s.mem[a].refcount <= 1 + s.cleanupQueue.Length + |s.held|
  {
    hide LogOk, ActiveLinks, FreeLinks, Below, TableOk, RefsOk, RingOk;
    BucketIn(s.mem, s.index, s.buckets, s.chains, 0);
    ReferencedIsLive(s.mem, s.index, s.queue, s.held);
    forall a | a in s.held ensures a.seg in s.active {
      LiveIsActive(s.mem, s.segs, s.segSize, s.active, s.free, s.reserved, a);
    }
    RingEnds(s.cleanupQueue[..], s.cqHead, s.cqTail, s.queue);
    SmallCounts(s.mem, s.index, s.queue, s.held);
  }

  /** Counts are bounded by the number of references there can be. */
  lemma SmallCounts(mem: Memory, index: Index, queue: seq<Addr>, held: multiset<Addr>)
    requires RefsOk(mem, index, queue, held)
    ensures forall a :: a in mem && mem[a].refcount == 1 && held[a] == 1 ==> !InTable(mem, index, a)
    ensures forall a :: a in mem ==> mem[a].refcount <= 1 + |queue| + |held|
  {
    forall a | a in mem ensures mem[a].refcount <= 1 + |queue| + |held| {
      assert multiset(queue)[a] <= |multiset(queue)| == |queue|;
      assert held[a] <= |held|;
    }
  }

  /** The handle `h` is gone, the others are spared. */
  lemma OneLess(was: Now, now: Now, hash: Str -> nat, m: Model, at: seq<Option<Addr>>, h: nat)
    requires HandlesOk(was, hash, m, at) && SteadyOk(was, m, at)
    requires h < |at| && at[h].Some? && now.held == was.held - multiset{at[h].value} && now.index == was.index
    requires forall i :: 0 <= i < |at| && i != h && at[i].Some? ==> Spared(was, now, at[i].value, m.handles[i].value)
    ensures var m' := m.(handles := m.handles[h := None]);
            HandlesOk(now, hash, m', at[h := None]) && SteadyOk(now, m', at[h := None])
  {
    hide Spared, HandleOk, InPlace, HeldBy;
    HeldLess(at, h);
    forall i | 0 <= i < |at| && i != h && at[i].Some?
      ensures HandleOk(now, hash, m.m, at[i].value, m.handles[i].value, m.stamps[i])
      ensures i in m.steady ==> InPlace(now, m.m, at[i].value, m.handles[i].value, m.stamps[i])
    {
      HandleSpared(was, now, hash, m.m, at[i].value, m.handles[i].value, m.stamps[i]);
    }
  }

  /** What stands behind the handle `h` has changed, and the map perhaps. */
  lemma OneChanged(was: Now, now: Now, hash: Str -> nat, m: Model, m': Model, at: seq<Option<Addr>>, h: nat)
    requires HandlesOk(was, hash, m, at) && h < |at| && at[h].Some? && now.held == was.held
    requires |m'.handles| == |m.handles| && |m'.stamps| == |m.stamps|
    requires forall i :: 0 <= i < |at| && i != h ==> m'.handles[i] == m.handles[i] && m'.stamps[i] == m.stamps[i]
    requires m'.handles[h].Some? && HandleOk(now, hash, m'.m, at[h].value, m'.handles[h].value, m'.stamps[h])
    requires forall i :: 0 <= i < |at| && i != h && at[i].Some? ==>
               HandleOk(now, hash, m'.m, at[i].value, m.handles[i].value, m.stamps[i])
    requires m'.steady <= m.steady + {h} && InPlace(now, m'.m, at[h].value, m'.handles[h].value, m'.stamps[h])
    requires forall i :: 0 <= i < |at| && i != h && at[i].Some? && i in m.steady ==>
                           InPlace(now, m'.m, at[i].value, m.handles[i].value, m.stamps[i])
    ensures HandlesOk(now, hash, m', at) && SteadyOk(now, m', at)
  {
    hide HandleOk, InPlace, HeldBy;
  }

  /** Items with one holder only are not in the table. */
  ghost predicate SoleApart(now: Now) {
    forall a :: a in now.mem && now.mem[a].refcount == 1 && now.held[a] == 1 ==> !InTable(now.mem, now.index, a)
  }

  lemma RefSpares(was: Now, hash: Str -> nat, m: map<Str, Entry>, b: Addr, x: Handle, stamp: nat, a: Addr)
    requires HandleOk(was, hash, m, b, x, stamp) && SoleApart(was) && a in was.mem && InTable(was.mem, was.index, a)
    ensures Spared(was, was.(mem := Ref(was.mem, a), held := was.held + multiset{a}), b, x)
  {
  }

  lemma DropSpares(was: Now, hash: Str -> nat, m: map<Str, Entry>, b: Addr, x: Handle, stamp: nat, a: Addr)
    requires HandleOk(was, hash, m, b, x, stamp) && a in was.mem && was.mem[a].refcount > 0 && (x.Shared? || a != b)
    ensures Spared(was, was.(mem := Drop(was.mem, a), held := was.held - multiset{a}), b, x)
  {
  }

  lemma FillSpares(was: Now, hash: Str -> nat, m: map<Str, Entry>, b: Addr, x: Handle, stamp: nat, a: Addr, it: Item)
    requires HandleOk(was, hash, m, b, x, stamp) && a != b
    ensures HandleOk(was.(mem := was.mem[a := it]), hash, m, b, x, stamp)
    ensures InPlace(was, m, b, x, stamp) ==> InPlace(was.(mem := was.mem[a := it]), m, b, x, stamp)
  {
  }

  /** A put leaves alone what stands behind the other handles. */
  lemma PutSpares(was: Now, now: Now, hash: Str -> nat, m: map<Str, Entry>, b: Addr, x: Handle, stamp: nat, a: Addr,
                  key: Str, e: Entry)
    requires HandleOk(was, hash, m, b, x, stamp) && SoleApart(was) && IndexOk(was.mem, was.index)
    requires a in was.mem && a != b && KeyOf(was.mem[a]) == Key(hash(key), key)
    requires Stored(was.mem, was.index, now.mem, now.index, a) && now.held == was.held && now.cur == was.cur
    ensures HandleOk(now, hash, m[key := e], b, x, stamp)
    ensures stamp < e.stamp && InPlace(was, m, b, x, stamp) ==> InPlace(now, m[key := e], b, x, stamp)
  {
    assert b in was.mem.Keys && b in now.mem.Keys;
  }

  lemma PutShares(was: Now, now: Now, hash: Str -> nat, m: map<Str, Entry>, a: Addr, key: Str, val: Str, stamp: nat,
                  n: nat)
    requires HandleOk(was, hash, m, a, Ready(key, val), stamp)
    requires Stored(was.mem, was.index, now.mem, now.index, a)
    ensures HandleOk(now, hash, m[key := Entry(val, n)], a, Shared(key, val), n)
    ensures InPlace(now, m[key := Entry(val, n)], a, Shared(key, val), n)
  {
    assert a in was.mem.Keys && a in now.mem.Keys;
  }

  /** Maintenance and cleaning keep what is held. */
  lemma CleanSpares(was: Now, now: Now, active: seq<nat>, b: Addr, x: Handle)
    requires Kept(was.mem, now.mem, active) && b.seg in active && b in was.held && now.held == was.held
    requires NoneEntered(was.index, now.index, was.held) && now.cur == was.cur
    requires x.Raw? && b in was.mem && b.seg == was.cur ==> b in now.mem && now.mem[b] == was.mem[b]
    ensures Spared(was, now, b, x)
  {
  }

  /** Cleaning moves on to a new segment only when no item is being filled in. */
  lemma CleanSparesFilled(was: Now, now: Now, active: seq<nat>, b: Addr, x: Handle)
    requires Kept(was.mem, now.mem, active) && b.seg in active && b in was.held && now.held == was.held
    requires NoneEntered(was.index, now.index, was.held) && !x.Raw?
    ensures Spared(was, now, b, x)
  {
  }

  lemma AllocSpares(was: Now, now: Now, b: Addr, x: Handle, a: Addr)
    requires b in was.held && b in was.mem && b in now.mem && now.mem[b] == was.mem[b] && now.index == was.index
    requires !x.Raw?
    requires now.held == was.held + multiset{a} && a != b
    ensures Spared(was, now, b, x)
  {
  }

  lemma ViewHas(mem: Memory, index: Index, k: Key)
    requires IndexOk(mem, index)
    ensures k in ViewOf(mem, index) <==> k in index
    ensures k in index ==> index[k] in mem && KeyOf(mem[index[k]]) == k && ViewOf(mem, index)[k] == mem[index[k]].val
  {
  }

  ghost function NowOf(s: Store): Now
    reads s`mem, s`index, s`held, s`cur
  {
    Now(s.mem, s.index, s.held, s.cur)
  }

  // The operations.

  type Handles = seq<Option<Handle>>
  type Refs = seq<Option<Addr>>

  /** What an allowed command may rely on. */
  lemma Facts(s: Store, hash: Str -> nat, at: Refs, m: Model)
    requires Represents(s, hash, at, m)
    ensures s.Valid() && IndexOk(s.mem, s.index) && SoleApart(NowOf(s))
    ensures forall a :: a in s.held ==> a in s.mem && s.mem[a].refcount > 0 && a.seg in s.active
    ensures forall a :: a in s.mem ==> s.mem[a].refcount < 0xffff
    ensures |at| == |m.handles| == |m.stamps| && s.held == HeldBy(at)
    ensures forall i :: 0 <= i < |at| && at[i].Some? ==> at[i].value in s.held
    ensures forall i :: 0 <= i < |at| ==> (at[i].Some? <==> m.handles[i].Some?)
    ensures forall i :: 0 <= i < |at| && at[i].Some? ==>
              HandleOk(NowOf(s), hash, m.m, at[i].value, m.handles[i].value, m.stamps[i])
    ensures forall i :: 0 <= i < |at| && at[i].Some? && i in m.steady ==>
                          InPlace(NowOf(s), m.m, at[i].value, m.handles[i].value, m.stamps[i])
  {
    hide s.CoreValid, HandleOk, MapOk, HeldBy, InPlace;
    HeldItems(s);
    HeldCount(at, m.handles);
    forall i | 0 <= i < |at| && at[i].Some? ensures at[i].value in s.held { HeldLess(at, i); }
  }

  lemma Indexed(s: Store)
    requires s.CoreValid()
    ensures IndexOk(s.mem, s.index)
  {
    hide LogOk, ActiveLinks, FreeLinks, Below, TableOk, RefsOk, RingOk;
    BucketIn(s.mem, s.index, s.buckets, s.chains, 0);
  }

  /** HashGet */
  method GetItem(s: Store, hash: Str -> nat, key: Str, at: Refs, handles: Handles, ghost m: Model)
    returns (r: Reply, at': Refs, handles': Handles, ghost m': Model)
    requires Represents(s, hash, at, m) && handles == m.handles
    requires Allowed(handles, Get(key), s.segSize, s.cleanupQueue.Length)
    modifies s
    ensures Represents(s, hash, at', m') && handles' == m'.handles && Step(SetupOf(s, hash), m, Get(key), r, m')
    ensures !r.Ended?
  {
    hide s.CoreValid, s.WalkValid, HandleOk, HandlesOk, InPlace, SteadyOk, HeldBy, Spared, InTable;
    hide SoleApart, Count, IndexOk, ViewOf, MapOk, Stamped;
    Facts(s, hash, at, m);
    MapHas(s.View(), m.m, hash, key);
    ViewHas(s.mem, s.index, Key(hash(key), key));
    ghost var was := NowOf(s);
    var it := s.HashtGet(key, hash(key));
    Indexed(s);
    if it.None? {
      return Missing, at, handles, m;
    }
    var a := it.value;
    var x := Shared(key, s.mem[a].val);
    forall i | 0 <= i < |at| && at[i].Some? ensures Spared(was, NowOf(s), at[i].value, m.handles[i].value) {
      CurrentIn(was.mem, was.index, Key(hash(key), key));
      RefSpares(was, hash, m.m, at[i].value, m.handles[i].value, m.stamps[i], a);
    }
    RefCountView(was.mem, s.index, a);
    ViewKept(was.mem, s.mem, s.index);
    Looked(NowOf(s), hash, m.m, key, a);
    r, at', handles', m' := Holding(|handles|), at + [it], handles + [Some(x)], AddCurrent(m, key);
    StampedMore(m, x, m.m[key].stamp, key);
    OneMore(was, NowOf(s), hash, m, m', at, a, x, m.m[key].stamp);
    CountMore(handles, x);
    CountMore(handles, Raw(0));
  }

  lemma MapHas(view: map<Key, Str>, m: map<Str, Entry>, hash: Str -> nat, key: Str)
    requires MapOk(view, m, hash)
    ensures key in m <==> Key(hash(key), key) in view
    ensures key in m ==> view[Key(hash(key), key)] == m[key].val
  {
  }

  lemma StampedMore(m: Model, x: Handle, stamp: nat, key: Str)
    requires Stamped(m) && (stamp == 0 || (key in m.m && stamp == m.m[key].stamp))
    ensures Stamped(AddHandle(m, x, stamp)) && Stamped(AddHandle(m, x, stamp).(steady := m.steady + {|m.handles|}))
  {
  }

  lemma Looked(now: Now, hash: Str -> nat, m: map<Str, Entry>, key: Str, a: Addr)
    requires IndexOk(now.mem, now.index) && Key(hash(key), key) in now.index && now.index[Key(hash(key), key)] == a
    requires key in m && m[key].val == now.mem[a].val
    ensures HandleOk(now, hash, m, a, Shared(key, now.mem[a].val), m[key].stamp)
    ensures InPlace(now, m, a, Shared(key, now.mem[a].val), m[key].stamp)
  {
  }

  lemma CurrentIn(mem: Memory, index: Index, k: Key)
    requires IndexOk(mem, index) && k in index
    ensures InTable(mem, index, index[k])
  {
  }

  lemma AllocatedItem(now: Now, hash: Str -> nat, m: map<Str, Entry>, a: Addr, total: nat)
    requires ITEM_SIZE <= total && a in now.mem && now.mem[a] == Blank(total) && a.seg == now.cur && now.held[a] == 1
    ensures HandleOk(now, hash, m, a, Raw(total), 0) && InPlace(now, m, a, Raw(total), 0)
  {
  }

  /** GetItemSpec, its allocation */
  method AllocItem(s: Store, hash: Str -> nat, total: nat, at: Refs, handles: Handles, ghost m: Model)
    returns (r: Reply, at': Refs, handles': Handles, ghost m': Model)
    requires Represents(s, hash, at, m) && handles == m.handles
    requires Allowed(handles, Alloc(total), s.segSize, s.cleanupQueue.Length)
    modifies s
    ensures r.Ended? ==> s.OutOfSegments()
    ensures !r.Ended? ==>
              Represents(s, hash, at', m') && handles' == m'.handles && Step(SetupOf(s, hash), m, Alloc(total), r, m')
  {
    hide s.CoreValid, s.WalkValid, s.OutOfSegments, HandleOk, HandlesOk, InPlace, SteadyOk, HeldBy, Spared,
      InTable, SoleApart, Count, IndexOk, ViewOf, MapOk, Stamped, SameView, Kept, Grown, SpaceUsed;
    Facts(s, hash, at, m);
    ghost var was := NowOf(s);
    var it := s.Alloc(total, false);
    at', handles', m' := at, handles, m.(space := s.SpaceLeft());
    if it.Exit? {
      return Ended, at', handles', m';
    }
    Indexed(s);
    ViewKept(was.mem, s.mem, s.index);
    if it.Null? {
      forall i | 0 <= i < |at| && at[i].Some? ensures Spared(was, NowOf(s), at[i].value, m.handles[i].value) {
        SameSpares(was, NowOf(s), at[i].value, m.handles[i].value);
      }
      AllSpared(was, NowOf(s), hash, m, m', at);
      StampedSpace(m, m'.space);
      return Refused, at', handles', m';
    }
    var a := it.it;
    forall i | 0 <= i < |at| && at[i].Some? ensures Spared(was, NowOf(s), at[i].value, m.handles[i].value) {
      AllocSpares(was, NowOf(s), at[i].value, m.handles[i].value, a);
    }
    AllocatedItem(NowOf(s), hash, m.m, a, total);
    m' := AddHandle(m, Raw(total), 0).(space := m'.space);
    OneMore(was, NowOf(s), hash, m, m', at, a, Raw(total), 0);
    StampedMore(m, Raw(total), 0, []);
    StampedSpace(AddHandle(m, Raw(total), 0), m'.space);
    r, at', handles' := Holding(|handles|), at + [Some(a)], handles + [Some(Raw(total))];
  }

  lemma SameSpares(was: Now, now: Now, b: Addr, x: Handle)
    requires b in was.held && b in was.mem && b in now.mem && now.mem[b] == was.mem[b] && now.index == was.index
    requires !x.Raw?
    requires now.held == was.held
    ensures Spared(was, now, b, x)
  {
  }

  lemma StampedSpace(m: Model, space: Space)
    requires Stamped(m)
    ensures Stamped(m.(space := space)) && Stamped(m.(space := space, steady := {}))
  {
  }

  lemma StampedSet(m: Model, h: nat, x: Option<Handle>)
    requires Stamped(m) && h < |m.handles|
    ensures Stamped(m.(handles := m.handles[h := x]))
  {
  }

  /** GetItemSpec, the rest: lengths, key and value are written. */
  method FillItem(s: Store, hash: Str -> nat, h: nat, key: Str, val: Str, at: Refs, handles: Handles, ghost m: Model)
    returns (handles': Handles, ghost m': Model)
    requires Represents(s, hash, at, m) && handles == m.handles
    requires Allowed(handles, Fill(h, key, val), s.segSize, s.cleanupQueue.Length)
    modifies s
    ensures Represents(s, hash, at, m') && handles' == m'.handles
    ensures Step(SetupOf(s, hash), m, Fill(h, key, val), Done, m')
  {
    hide s.CoreValid, s.WalkValid, HandleOk, HandlesOk, InPlace, SteadyOk, HeldBy, Spared, InTable;
    hide SoleApart, Count, IndexOk, ViewOf, MapOk, Stamped, SameView;
    Facts(s, hash, at, m);
    ghost var was := NowOf(s);
    var a := at[h].value;
    RawItem(was, hash, m.m, a, handles[h].value, m.stamps[h]);
    s.Fill(a, hash(key), key, val);
    Indexed(s);
    ViewKept(was.mem, s.mem, s.index);
    handles', m' := handles[h := Some(Ready(key, val))], m.(handles := m.handles[h := Some(Ready(key, val))]);
    forall i | 0 <= i < |at| && i != h && at[i].Some?
      ensures HandleOk(NowOf(s), hash, m.m, at[i].value, m.handles[i].value, m.stamps[i])
      ensures i in m.steady ==> InPlace(NowOf(s), m.m, at[i].value, m.handles[i].value, m.stamps[i])
    {
      OnlyHandle(at, h, i);
      FillSpares(was, hash, m.m, at[i].value, m.handles[i].value, m.stamps[i], a, s.mem[a]);
    }
    FilledItem(NowOf(s), hash, m.m, a, key, val, m.stamps[h]);
    OneChanged(was, NowOf(s), hash, m, m', at, h);
    CountSet(handles, h, Some(Ready(key, val)));
    StampedSet(m, h, Some(Ready(key, val)));
  }

  lemma RawItem(now: Now, hash: Str -> nat, m: map<Str, Entry>, a: Addr, x: Handle, stamp: nat)
    requires HandleOk(now, hash, m, a, x, stamp) && x.Raw?
    ensures a in now.mem && now.mem[a].refcount == 1 && Total(now.mem[a]) == x.total && now.held[a] == 1
  {
  }

  lemma FilledItem(now: Now, hash: Str -> nat, m: map<Str, Entry>, a: Addr, key: Str, val: Str, stamp: nat)
    requires a in now.mem && Filled(now.mem[a], hash, key, val) && !InTable(now.mem, now.index, a) && now.held[a] == 1
    ensures HandleOk(now, hash, m, a, Ready(key, val), stamp) && InPlace(now, m, a, Ready(key, val), stamp)
  {
  }

  /** Reading an item through a handle. */
  method ReadItem(s: Store, hash: Str -> nat, h: nat, at: Refs, handles: Handles, ghost m: Model) returns (r: Reply)
    requires Represents(s, hash, at, m) && handles == m.handles
    requires Allowed(handles, Read(h), s.segSize, s.cleanupQueue.Length)
    ensures Step(SetupOf(s, hash), m, Read(h), r, m) && !r.Ended?
  {
    hide s.CoreValid, s.WalkValid, HandlesOk, HeldBy, Spared, InTable, SoleApart, Count, IndexOk;
    hide ViewOf, MapOk, Stamped;
    Facts(s, hash, at, m);
    r := Found(s.mem[at[h].value].key, s.mem[at[h].value].val);
  }

  /** Unref */
  method UnrefItem(s: Store, hash: Str -> nat, h: nat, at: Refs, handles: Handles, ghost m: Model)
    returns (at': Refs, handles': Handles, ghost m': Model)
    requires Represents(s, hash, at, m) && handles == m.handles
    requires Allowed(handles, Unref(h), s.segSize, s.cleanupQueue.Length)
    modifies s
    ensures Represents(s, hash, at', m') && handles' == m'.handles && Step(SetupOf(s, hash), m, Unref(h), Done, m')
  {
    hide s.CoreValid, s.WalkValid, HandleOk, HandlesOk, InPlace, SteadyOk, HeldBy, Spared, InTable;
    hide SoleApart, Count, IndexOk, ViewOf, MapOk, Stamped, Kept;
    Facts(s, hash, at, m);
    ghost var was := NowOf(s);
    var a := at[h].value;
    s.GiveUp(a);
    forall i | 0 <= i < |at| && i != h && at[i].Some? ensures Spared(was, NowOf(s), at[i].value, m.handles[i].value) {
      SoleHolder(was, hash, m.m, at[i].value, m.handles[i].value, m.stamps[i]);
      if !m.handles[i].value.Shared? { OnlyHandle(at, i, h); }
      DropSpares(was, hash, m.m, at[i].value, m.handles[i].value, m.stamps[i], a);
    }
    OneLess(was, NowOf(s), hash, m, at, h);
    CountSet(handles, h, None);
    StampedSet(m, h, None);
    at', handles', m' := at[h := None], handles[h := None], m.(handles := m.handles[h := None]);
  }

  lemma SoleHolder(now: Now, hash: Str -> nat, m: map<Str, Entry>, a: Addr, x: Handle, stamp: nat)
    requires HandleOk(now, hash, m, a, x, stamp)
    ensures !x.Shared? ==> now.held[a] == 1
  {
  }

  lemma ReadyItem(now: Now, hash: Str -> nat, m: map<Str, Entry>, a: Addr, x: Handle, stamp: nat)
    requires HandleOk(now, hash, m, a, x, stamp) && x.Ready?
    ensures a in now.mem && KeyOf(now.mem[a]) == Key(hash(x.key), x.key) && now.mem[a].val == x.val
    ensures !InTable(now.mem, now.index, a) && now.held[a] == 1
  {
  }

  /** A compare-and-set that finds its item finds what the last put of the key stored. */
  lemma CasCurrent(now: Now, hash: Str -> nat, m: Model, key: Str, a: Addr, h: nat)
    requires IndexOk(now.mem, now.index) && Key(hash(key), key) in now.index && now.index[Key(hash(key), key)] == a
    requires SoleApart(now)
    requires Open(m.handles, h) && h < |m.stamps| && HandleOk(now, hash, m.m, a, m.handles[h].value, m.stamps[h])
    ensures Current(m, h, key)
  {
    CurrentIn(now.mem, now.index, Key(hash(key), key));
  }

  lemma MapPut(view: map<Key, Str>, m: map<Str, Entry>, hash: Str -> nat, key: Str, val: Str, n: nat)
    requires MapOk(view, m, hash)
    ensures MapOk(view[Key(hash(key), key) := val], m[key := Entry(val, n)], hash)
  {
  }

  lemma StampedOffer(m: Model, h: nat, stored: bool)
    requires Stamped(m) && Open(m.handles, h) && m.handles[h].value.Ready?
    ensures Stamped(Offered(m, h, stored))
  {
  }

  lemma NotStored(now: Now, hash: Str -> nat, m: map<Str, Entry>, a: Addr, key: Str, val: Str, stamp: nat, n: nat)
    requires HandleOk(now, hash, m, a, Ready(key, val), stamp)
    ensures HandleOk(now, hash, m, a, Shared(key, val), n)
    ensures (key in m ==> m[key].stamp < n) ==> InPlace(now, m, a, Shared(key, val), n)
  {
  }

  lemma StampsBelow(m: Model)
    requires Stamped(m)
    ensures forall k :: k in m.m ==> m.m[k].stamp < m.puts + 1
    ensures forall h :: 0 <= h < |m.stamps| ==> m.stamps[h] < m.puts + 1
  {
  }

  lemma {:induction false} NoMoreKeys(ks: set<Key>, ss: set<Str>, hash: Str -> nat)
    requires forall k :: k in ks ==> k.hv == hash(k.bytes) && k.bytes in ss
    ensures |ks| <= |ss|
  {
    if ks != {} {
      var k :| k in ks;
      NoMoreKeys(ks - {k}, ss - {k.bytes}, hash);
    }
  }

  /** A bucket that is not crowded in the map is not crowded in the table. */
  lemma RoomyTable(s: Store, hash: Str -> nat, m: map<Str, Entry>, key: Str)
    requires s.CoreValid() && MapOk(s.View(), m, hash) && Roomy(m, hash, key) && Key(hash(key), key) in s.index
    ensures |s.buckets| == N_BUCKETS && Some(s.index[Key(hash(key), key)]) in s.buckets[BucketOf(hash(key))].items
  {
    hide LogOk, ActiveLinks, FreeLinks, Below, RefsOk, RingOk;
    var n := BucketOf(hash(key));
    BucketIn(s.mem, s.index, s.buckets, s.chains, 0);
    hide BucketOk, Covers, IndexOk;
    forall k | k in KeysOf(s.index, n) ensures k.hv == hash(k.bytes) && k.bytes in Sharing(m, hash, n) {
      assert k in s.View();
    }
    NoMoreKeys(KeysOf(s.index, n), Sharing(m, hash, n), hash);
    DirectIfFew(s.mem, s.index, s.buckets, s.chains, Key(hash(key), key));
  }

  /** A compare-and-set that cannot fail in the specification does not. */
  lemma MustStore(s: Store, hash: Str -> nat, m: Model, key: Str, nit: Addr, h: nat, it: Addr)
    requires s.CoreValid() && MapOk(s.View(), m.m, hash) && CannotFail(SetupOf(s, hash), m, h, key)
    requires nit in s.mem && KeyOf(s.mem[nit]) == Key(hash(key), key)
    requires HandleOk(NowOf(s), hash, m.m, it, m.handles[h].value, m.stamps[h])
    requires InPlace(NowOf(s), m.m, it, m.handles[h].value, m.stamps[h])
    ensures |s.buckets| == N_BUCKETS && s.Stores(nit, Some(it))
  {
    hide s.CoreValid, MapOk, Roomy;
    assert InTable(s.mem, s.index, it) && KeyOf(s.mem[it]) == Key(hash(key), key);
    RoomyTable(s, hash, m.m, key);
  }

  lemma TableSize(s: Store)
    requires s.CoreValid()
    ensures |s.buckets| == N_BUCKETS
  {
    hide LogOk, ActiveLinks, FreeLinks, Below, RefsOk, RingOk;
  }

  /** hasht_put of an item that has been filled in, with or without compare-and-set */
  method PutItem(s: Store, hash: Str -> nat, h: nat, cas: Option<nat>, at: Refs, handles: Handles, ghost m: Model)
    returns (handles': Handles, ghost m': Model)
    requires Represents(s, hash, at, m) && handles == m.handles
    requires Allowed(handles, Put(h, cas), s.segSize, s.cleanupQueue.Length)
    modifies s
    ensures Represents(s, hash, at, m') && handles' == m'.handles && Step(SetupOf(s, hash), m, Put(h, cas), Done, m')
  {
    hide s.CoreValid, s.WalkValid, HandleOk, HandlesOk, InPlace, SteadyOk, HeldBy, Spared, InTable, SoleApart,
      Count, IndexOk, ViewOf, MapOk, Stamped, Kept, Stored, Current;
    Facts(s, hash, at, m);
    TableSize(s);
    ghost var was, view := NowOf(s), s.View();
    var a, x := at[h].value, handles[h].value;
    ReadyItem(was, hash, m.m, a, x, m.stamps[h]);
    var it := if cas.Some? then at[cas.value] else None;
    ghost var stored := s.Stores(a, it);
    if cas.Some? && CannotFail(SetupOf(s, hash), m, cas.value, x.key) {
      MustStore(s, hash, m, x.key, a, cas.value, it.value);
    }
    s.HashtPut(a, it);
    Indexed(s);
    handles', m' := handles[h := Some(Shared(x.key, x.val))], Offered(m, h, stored);
    if stored {
      ViewStored(was.mem, was.index, s.mem, s.index, a);
      MapPut(view, m.m, hash, x.key, x.val, m.puts + 1);
      PutShares(was, NowOf(s), hash, m.m, a, x.key, x.val, m.stamps[h], m.puts + 1);
      if cas.Some? { CasCurrent(was, hash, m, x.key, it.value, cas.value); }
    } else {
      NotStored(was, hash, m.m, a, x.key, x.val, m.stamps[h], m.puts + 1);
    }
    StampsBelow(m);
    forall i | 0 <= i < |at| && i != h && at[i].Some?
      ensures HandleOk(NowOf(s), hash, m'.m, at[i].value, m.handles[i].value, m.stamps[i])
      ensures i in m.steady ==> InPlace(NowOf(s), m'.m, at[i].value, m.handles[i].value, m.stamps[i])
    {
      OnlyHandle(at, h, i);
      if stored {
        PutSpares(was, NowOf(s), hash, m.m, at[i].value, m.handles[i].value, m.stamps[i], a, x.key,
                  Entry(x.val, m.puts + 1));
      }
    }
    OneChanged(was, NowOf(s), hash, m, m', at, h);
    CountSet(handles, h, Some(Shared(x.key, x.val)));
    StampedOffer(m, h, stored);
  }

  /** Maintenance and cleaning */
  method MaintainStore(s: Store, hash: Str -> nat, at: Refs, ghost m: Model)
    requires Represents(s, hash, at, m) && !s.Stale()
    modifies s, s.cleanupQueue
    ensures Represents(s, hash, at, m)
  {
    hide s.CoreValid, s.WalkValid, HandleOk, HandlesOk, InPlace, SteadyOk, HeldBy, Spared, InTable, SoleApart,
      Count, IndexOk, ViewOf, MapOk, Stamped, Kept, NoneEntered, Survivors, CandidateOk, Continued, AllDead,
      Marked, s.Stale;
    Facts(s, hash, at, m);
    ghost var was, active := NowOf(s), s.active;
    s.Maintenance();
    SameEntered(s.index, s.held);
    forall i | 0 <= i < |at| && at[i].Some? ensures Spared(was, NowOf(s), at[i].value, m.handles[i].value) {
      CleanSpares(was, NowOf(s), active, at[i].value, m.handles[i].value);
    }
    AllSpared(was, NowOf(s), hash, m, m, at);
  }

  lemma CleanedFacts(headerOk: nat -> bool, others: multiset<Addr>, a: Snap, b: Snap)
    requires Cleans(headerOk, others, a, b)
    ensures b.view == a.view && Kept(a.mem, b.mem, a.active) && NoneEntered(a.index, b.index, others)
    ensures Spent(headerOk, a.space, b.space) && (a.walk ==> b.walk)
  {
  }

  method CleanStore(s: Store, hash: Str -> nat, idle: bool, at: Refs, handles: Handles, ghost m: Model)
    returns (r: Reply, ghost m': Model)
    requires Represents(s, hash, at, m) && handles == m.handles
    requires Allowed(handles, Clean(idle), s.segSize, s.cleanupQueue.Length)
    modifies s, s.cleanupQueue
    ensures r.Ended? ==> s.OutOfSegments()
    ensures !r.Ended? ==>
              Represents(s, hash, at, m') && handles == m'.handles && Step(SetupOf(s, hash), m, Clean(idle), r, m')
  {
    hide s.CoreValid, s.WalkValid, s.OutOfSegments, HandleOk, HandlesOk, InPlace, SteadyOk, HeldBy, Spared,
      InTable, SoleApart, Count, IndexOk, ViewOf, MapOk, Stamped, Kept, NoneEntered, Spent, AllHandled, Lighter,
      NewIsTheTables, Emptied, Cleans, s.Cornered;
    Facts(s, hash, at, m);
    ghost var was, active := NowOf(s), s.active;
    ghost var here, held := s.Here(), s.held;
    var n, ended := s.CleanLog(idle);
    CleanedFacts(s.headerOk, held, here, s.Here());
    m' := m.(space := s.SpaceLeft(), steady := {});
    if ended {
      return Ended, m';
    }
    forall i | 0 <= i < |at| && at[i].Some? ensures Spared(was, NowOf(s), at[i].value, m.handles[i].value) {
      CleanSparesFilled(was, NowOf(s), active, at[i].value, m.handles[i].value);
    }
    AllSpared(was, NowOf(s), hash, m, m', at);
    StampedSpace(m, m'.space);
    r := Done;
  }

  /** A store that has just been set up, without clients. */
  lemma Begins(s: Store, hash: Str -> nat)
    requires s.Valid() && s.index == map[] && s.held == multiset{} && s.cleanupQueue.Length < 0xfffe
    ensures Represents(s, hash, [], Model(map[], [], [], {}, 0, s.SpaceLeft()))
  {
    hide s.CoreValid, s.WalkValid;
  }

  datatype Stop = AllDone | ProcessEnded | WalkUnsound | NotAllowed

  /** One command. */
  method Serve(s: Store, hash: Str -> nat, c: Command, at: Refs, handles: Handles, ghost m: Model)
    returns (r: Reply, at': Refs, handles': Handles, ghost m': Model)
    requires Represents(s, hash, at, m) && handles == m.handles && Allowed(handles, c, s.segSize, s.cleanupQueue.Length)
    requires c.Maintain? ==> !s.Stale()
    modifies s, s.cleanupQueue
    ensures r.Ended? ==> s.OutOfSegments() && (c.Alloc? || c.Clean?)
    ensures !r.Ended? ==> Represents(s, hash, at', m') && handles' == m'.handles && Step(SetupOf(s, hash), m, c, r, m')
  {
    hide Represents, Step, Allowed, s.OutOfSegments, s.Stale;
    r, at', handles', m' := Done, at, handles, m;
    match c
    case Alloc(total) => r, at', handles', m' := AllocItem(s, hash, total, at, handles, m);
    case Fill(h, key, val) => handles', m' := FillItem(s, hash, h, key, val, at, handles, m);
    case Put(h, cas) => handles', m' := PutItem(s, hash, h, cas, at, handles, m);
    case Get(key) => r, at', handles', m' := GetItem(s, hash, key, at, handles, m);
    case Read(h) => r := ReadItem(s, hash, h, at, handles, m);
    case Unref(h) => at', handles', m' := UnrefItem(s, hash, h, at, handles, m);
    case Maintain =>
      MaintainStore(s, hash, at, m);
      Maintained(SetupOf(s, hash), m);
    case Clean(idle) => r, m' := CleanStore(s, hash, idle, at, handles, m);
  }

  lemma Maintained(p: Setup, m: Model)
    ensures Step(p, m, Maintain, Done, m)
  {
  }

  method MaintenanceStale(s: Store, hash: Str -> nat, at: Refs, ghost m: Model) returns (stale: bool)
    requires Represents(s, hash, at, m)
    ensures stale <==> s.Stale()
  {
    hide s.Stale, s.CoreValid, s.WalkValid, Countable, Stamped, MapOk, HandlesOk, SteadyOk;
    stale := s.IsStale();
  }

  /** Whatever the clients do, however many items they hold, and however maintenance and cleaning come in between, items
      move and memory is reused: the replies are those of the specification. The run stops early only where the process
      ends, where maintenance would lose its place because it has to recycle the segment it is cleaning while the
      cleanup queue is full, or where a client does what the store does not allow. */
  method Run(s: Store, hash: Str -> nat, cs: seq<Command>, at0: Refs, handles0: Handles, ghost m0: Model)
    returns (rs: seq<Reply>, stop: Stop, at: Refs, handles: Handles, ghost ms: seq<Model>)
    requires Represents(s, hash, at0, m0) && handles0 == m0.handles
    modifies s, s.cleanupQueue
    ensures Explains(SetupOf(s, hash), ms, cs, rs) && ms[0] == m0
    ensures stop.AllDone? ==> |rs| == |cs|
    ensures !stop.AllDone? ==> |rs| < |cs|
    ensures stop.ProcessEnded? ==> s.OutOfSegments() && (cs[|rs|].Alloc? || cs[|rs|].Clean?)
    ensures stop.WalkUnsound? ==> cs[|rs|] == Maintain && s.Stale()
    ensures stop.NotAllowed? ==> !Allowed(ms[|rs|].handles, cs[|rs|], s.segSize, s.cleanupQueue.Length)
    ensures !stop.ProcessEnded? ==> Represents(s, hash, at, ms[|rs|]) && handles == ms[|rs|].handles
  {
    hide Represents, Step, Allowed, s.OutOfSegments, s.Stale;
    rs, stop, at, handles, ms := [], AllDone, at0, handles0, [m0];
    while |rs| < |cs|
      invariant |rs| <= |cs| && Explains(SetupOf(s, hash), ms, cs, rs) && ms[0] == m0
      invariant Represents(s, hash, at, ms[|rs|]) && handles == ms[|rs|].handles
    {
      var c := cs[|rs|];
      if !Allowed(handles, c, s.segSize, s.cleanupQueue.Length) {
        return rs, NotAllowed, at, handles, ms;
      }
      if c.Maintain? {
        var stale := MaintenanceStale(s, hash, at, ms[|rs|]);
        if stale {
          return rs, WalkUnsound, at, handles, ms;
        }
      }
      var r, at', handles', m' := Serve(s, hash, c, at, handles, ms[|rs|]);
      if r.Ended? {
        return rs, ProcessEnded, at, handles, ms;
      }
      rs, at, handles, ms := rs + [r], at', handles', ms + [m'];
    }
  }
}
