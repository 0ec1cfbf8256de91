/** Every run of the store: clients allocate, fill in, put, look up, read and give up items in any order, and hold as
    many as they like, while maintenance and cleaning go on. */
module StoreRuns {
  import opened Wrappers
  import opened Bytes
  import opened LogLayout
  import opened HashTable
  import opened Segments
  import opened CleanupRing
  import opened References
  import opened KvStore

  type Str = seq<byte>

  /** What a client knows of an item it holds a reference to: allocated; filled in but not put yet; put or looked up. */
  datatype Handle = Raw(total: nat) | Ready(key: Str, val: Str) | Shared(key: Str, val: Str)

  /** Handles are numbered in the order in which they are handed out. */
  datatype Command =
    | Alloc(total: nat)
    | Fill(h: nat, key: Str, val: Str)
    | Put(h: nat, cas: Option<nat>)
    | Get(key: Str)
    | Read(h: nat)
    | Unref(h: nat)
    | Maintain
    | Clean(idle: bool)

  datatype Reply = Done | Refused | Missing | Holding(h: nat) | Found(key: Str, val: Str) | Ended

  predicate Open(handles: seq<Option<Handle>>, h: nat) {
    h < |handles| && handles[h].Some?
  }

  /** Items that are being filled in. */
  predicate NoneRaw(handles: seq<Option<Handle>>) {
    forall i :: 0 <= i < |handles| ==> !(handles[i].Some? && handles[i].value.Raw?)
  }

  function Count(handles: seq<Option<Handle>>): nat {
    if handles == [] then 0
    else Count(handles[..|handles| - 1]) + if handles[|handles| - 1].Some? then 1 else 0
  }

  /** How many references there can be beside the table's, so that a 16-bit count never overflows. */
  predicate Countable(handles: seq<Option<Handle>>, ring: nat) {
    Count(handles) + ring < 0xfffe
  }

  /** What the store demands of its callers. The thread that allocates an item fills it in before it allocates or cleans
      again, so that the item is still in the current segment. */
  predicate Allowed(handles: seq<Option<Handle>>, c: Command, segSize: nat, ring: nat) {
    match c
    case Alloc(total) =>
      && ITEM_SIZE <= total <= segSize && total <= MAX_TOTAL
      && NoneRaw(handles) && Countable(handles + [Some(Raw(total))], ring)
    case Fill(h, key, val) => Open(handles, h) && handles[h].value == Raw(ITEM_SIZE + |key| + |val|) && |key| < 0x1_0000
    case Put(h, cas) => Open(handles, h) && handles[h].value.Ready? && (cas.Some? ==> Open(handles, cas.value))
    case Get(key) => Countable(handles + [Some(Raw(0))], ring)
    case Read(h) => Open(handles, h) && !handles[h].value.Raw?
    case Unref(h) => Open(handles, h) && !handles[h].value.Raw?
    case Maintain => true
    case Clean(_) => NoneRaw(handles)
  }

  // The specification: a plain map, and what the clients hold.

  /** A value, and the number of the put that stored it. */
  datatype Entry = Entry(val: Str, stamp: nat)

  /** The map, the handles with the put that each item comes from, which of them were put or looked up since the last
      cleaning, how many puts there were, and the space left. */
  datatype Model =
    Model(m: map<Str, Entry>, handles: seq<Option<Handle>>, stamps: seq<nat>, steady: set<nat>, puts: nat, space: Space)

  /** What a store is set up with, and the hash function of its clients. */
  datatype Setup = Setup(headerOk: nat -> bool, hash: Str -> nat, segSize: nat, ring: nat)

  function AddHandle(m: Model, x: Handle, stamp: nat): Model {
    m.(handles := m.handles + [Some(x)], stamps := m.stamps + [stamp])
  }

  /** A handle on the item that the last put of the key stored. */
  function AddCurrent(m: Model, key: Str): Model
    requires key in m.m
  {
    AddHandle(m, Shared(key, m.m[key].val), m.m[key].stamp).(steady := m.steady + {|m.handles|})
  }

  /** The item of handle `h` has been put, and is now the value of its key unless a compare-and-set has failed. */
  function Offered(m: Model, h: nat, stored: bool): Model
    requires Open(m.handles, h) && m.handles[h].value.Ready? && h < |m.stamps|
  {
    var x, n := m.handles[h].value, m.puts + 1;
    m.(m := if stored then m.m[x.key := Entry(x.val, n)] else m.m,
       handles := m.handles[h := Some(Shared(x.key, x.val))], stamps := m.stamps[h := n],
       steady := m.steady + {h}, puts := n)
  }

  /** The item of handle `h` is the one that the last put of its key stored. */
  predicate Current(m: Model, h: nat, key: Str) {
    && Open(m.handles, h) && h < |m.stamps| && m.handles[h].value.Shared? && m.handles[h].value.key == key
    && key in m.m && m.m[key] == Entry(m.handles[h].value.val, m.stamps[h])
  }

  /** No more keys share the bucket of `key` than it has direct slots. */
  predicate Roomy(m: map<Str, Entry>, hash: Str -> nat, key: Str) {
    |Sharing(m, hash, BucketOf(hash(key)))| <= N_SLOTS
  }

  function Sharing(m: map<Str, Entry>, hash: Str -> nat, n: nat): set<Str> {
    set k | k in m && BucketOf(hash(k)) == n
  }

  ghost predicate CannotFail(p: Setup, m: Model, h: nat, key: Str) {
    Current(m, h, key) && h in m.steady && Roomy(m.m, p.hash, key)
  }

  /** A compare-and-set succeeds only if it is given a handle on the current item, and if it is, only cleaning, which
      may have moved the item, and a crowded bucket can make it fail. */
  ghost predicate Step(p: Setup, m: Model, c: Command, r: Reply, m': Model) {
    match c
    case Alloc(total) =>
      && SpaceUsed(p.headerOk, m.space, m'.space, false, r.Refused?)
      && (r == Refused || r == Holding(|m.handles|))
      && m' == (if r.Refused? then m else AddHandle(m, Raw(total), 0)).(space := m'.space)
    case Fill(h, key, val) =>
      r == Done && h < |m.handles| && m' == m.(handles := m.handles[h := Some(Ready(key, val))])
    case Put(h, cas) =>
      && r == Done && Open(m.handles, h) && m.handles[h].value.Ready? && h < |m.stamps|
      && (|| (m' == Offered(m, h, true) && (cas.Some? ==> Current(m, cas.value, m.handles[h].value.key)))
          || (m' == Offered(m, h, false) && cas.Some? && !CannotFail(p, m, cas.value, m.handles[h].value.key)))
    case Get(key) =>
      if key in m.m then r == Holding(|m.handles|) && m' == AddCurrent(m, key)
      else r == Missing && m' == m
    case Read(h) =>
      && Open(m.handles, h) && !m.handles[h].value.Raw?
      && r == Found(m.handles[h].value.key, m.handles[h].value.val) && m' == m
    case Unref(h) => r == Done && h < |m.handles| && m' == m.(handles := m.handles[h := None])
    case Maintain => r == Done && m' == m
    case Clean(_) => r == Done && Spent(p.headerOk, m.space, m'.space) && m' == m.(space := m'.space, steady := {})
  }

  /** What a run looks like to the clients: each command was allowed, and each reply is one the specification gives. */
  ghost predicate Explains(p: Setup, ms: seq<Model>, cs: seq<Command>, rs: seq<Reply>) {
    && |ms| == |rs| + 1 && |rs| <= |cs|
    && (forall i :: 0 <= i < |rs| ==> (
          && Allowed(ms[i].handles, cs[i], p.segSize, p.ring)
          && Step(p, ms[i], cs[i], rs[i], ms[i + 1])))
  }

  // What follows for the clients.

  /** As long as a client holds an item that has been filled in, it stays as it is. */
  lemma {:induction false} HandleKeeps(p: Setup, ms: seq<Model>, cs: seq<Command>, rs: seq<Reply>,
                                       h: nat, i: nat, j: nat)
    requires Explains(p, ms, cs, rs) && i <= j <= |rs|
    requires Open(ms[i].handles, h) && !ms[i].handles[h].value.Raw?
    requires forall k :: i <= k < j ==> cs[k] != Unref(h)
    ensures Open(ms[j].handles, h) && !ms[j].handles[h].value.Raw?
    ensures ms[j].handles[h].value.key == ms[i].handles[h].value.key
    ensures ms[j].handles[h].value.val == ms[i].handles[h].value.val
    decreases j
  {
    if i < j {
      HandleKeeps(p, ms, cs, rs, h, i, j - 1);
      assert Step(p, ms[j - 1], cs[j - 1], rs[j - 1], ms[j]);
    }
  }

  /** The i-th command of the run stores a value under `key`. */
  ghost predicate StoresAt(ms: seq<Model>, cs: seq<Command>, i: nat, key: Str)
    requires i < |cs| && i + 1 < |ms|
  {
    && cs[i].Put? && Open(ms[i].handles, cs[i].h) && cs[i].h < |ms[i].stamps|
    && ms[i].handles[cs[i].h].value.Ready? && ms[i].handles[cs[i].h].value.key == key
    && ms[i + 1] == Offered(ms[i], cs[i].h, true)
  }

  lemma {:induction false} EntryKeeps(p: Setup, ms: seq<Model>, cs: seq<Command>, rs: seq<Reply>,
                                      key: Str, i: nat, j: nat)
    requires Explains(p, ms, cs, rs) && i <= j <= |rs|
    requires forall k :: i <= k < j ==> !StoresAt(ms, cs, k, key)
    ensures key in ms[j].m <==> key in ms[i].m
    ensures key in ms[i].m ==> ms[j].m[key] == ms[i].m[key]
    decreases j
  {
    if i < j {
      EntryKeeps(p, ms, cs, rs, key, i, j - 1);
      assert Step(p, ms[j - 1], cs[j - 1], rs[j - 1], ms[j]) && !StoresAt(ms, cs, j - 1, key);
    }
  }

  /** A lookup finds exactly what the last put of the key stored. */
  lemma GetFindsLastPut(p: Setup, ms: seq<Model>, cs: seq<Command>, rs: seq<Reply>,
                        key: Str, i: nat, j: nat)
    requires Explains(p, ms, cs, rs) && i < j < |rs| && StoresAt(ms, cs, i, key) && cs[j] == Get(key)
    requires forall k :: i < k < j ==> !StoresAt(ms, cs, k, key)
    ensures var h := |ms[j].handles|;
            && rs[j] == Holding(h) && Open(ms[j + 1].handles, h)
            && ms[j + 1].handles[h].value == Shared(key, ms[i].handles[cs[i].h].value.val)
  {
    EntryKeeps(p, ms, cs, rs, key, i + 1, j);
    assert Step(p, ms[j], cs[j], rs[j], ms[j + 1]);
  }

  /** A key that was not there and has not been put since is missing. */
  lemma GetMisses(p: Setup, ms: seq<Model>, cs: seq<Command>, rs: seq<Reply>, key: Str, j: nat)
    requires Explains(p, ms, cs, rs) && j < |rs| && key !in ms[0].m && cs[j] == Get(key)
    requires forall k :: 0 <= k < j ==> !StoresAt(ms, cs, k, key)
    ensures rs[j] == Missing
  {
    EntryKeeps(p, ms, cs, rs, key, 0, j);
    assert Step(p, ms[j], cs[j], rs[j], ms[j + 1]);
  }

  ghost predicate Stamped(m: Model) {
    && |m.stamps| == |m.handles|
    && (forall k :: k in m.m ==> m.m[k].stamp <= m.puts) && (forall h :: 0 <= h < |m.stamps| ==> m.stamps[h] <= m.puts)
    && (forall h :: h in m.steady ==> h < |m.handles|)
  }

  lemma StepStamps(p: Setup, m: Model, c: Command, r: Reply, m': Model, key: Str)
    requires Step(p, m, c, r, m') && Stamped(m)
    ensures Stamped(m') && m.puts <= m'.puts
    ensures key in m.m ==> key in m'.m && m.m[key].stamp <= m'.m[key].stamp
  {
    hide SpaceUsed, Spent, Current;
  }

  lemma {:induction false} StampsGrow(p: Setup, ms: seq<Model>, cs: seq<Command>, rs: seq<Reply>,
                                      key: Str, i: nat, j: nat)
    requires Explains(p, ms, cs, rs) && i <= j <= |rs| && Stamped(ms[i])
    ensures Stamped(ms[j]) && ms[i].puts <= ms[j].puts
    ensures key in ms[i].m ==> key in ms[j].m && ms[i].m[key].stamp <= ms[j].m[key].stamp
    decreases j
  {
    hide Step, Stamped, Allowed;
    if i < j {
      StampsGrow(p, ms, cs, rs, key, i, j - 1);
      StepStamps(p, ms[j - 1], cs[j - 1], rs[j - 1], ms[j], key);
    }
  }

  lemma {:induction false} StampStays(p: Setup, ms: seq<Model>, cs: seq<Command>, rs: seq<Reply>,
                                      h: nat, i: nat, j: nat)
    requires Explains(p, ms, cs, rs) && i <= j <= |rs| && Stamped(ms[i])
    requires h < |ms[i].handles| && (Open(ms[i].handles, h) ==> ms[i].handles[h].value.Shared?)
    ensures Stamped(ms[j]) && h < |ms[j].handles| && ms[j].stamps[h] == ms[i].stamps[h]
    ensures Open(ms[j].handles, h) ==> ms[j].handles[h].value.Shared?
    decreases j
  {
    hide Step, Stamped, Allowed;
    if i < j {
      StampStays(p, ms, cs, rs, h, i, j - 1);
      StampsGrow(p, ms, cs, rs, [], i, j);
      StepAt(p, ms, cs, rs, j - 1);
      StampStep(p, ms[j - 1], cs[j - 1], rs[j - 1], ms[j], h);
    }
  }

  lemma StampStep(p: Setup, m: Model, c: Command, r: Reply, m': Model, h: nat)
    requires Step(p, m, c, r, m') && Allowed(m.handles, c, p.segSize, p.ring) && Stamped(m)
    requires h < |m.handles| && (Open(m.handles, h) ==> m.handles[h].value.Shared?)
    ensures h < |m'.handles| == |m'.stamps| && |m.stamps| == |m.handles| && m'.stamps[h] == m.stamps[h]
    ensures Open(m'.handles, h) ==> m'.handles[h].value.Shared?
  {
    hide SpaceUsed, Spent, CannotFail;
  }

  lemma StepAt(p: Setup, ms: seq<Model>, cs: seq<Command>, rs: seq<Reply>, i: nat)
    requires Explains(p, ms, cs, rs) && i < |rs|
    ensures |ms| == |rs| + 1 && |rs| <= |cs| && Step(p, ms[i], cs[i], rs[i], ms[i + 1])
    ensures Allowed(ms[i].handles, cs[i], p.segSize, p.ring)
  {
  }

  lemma InRange(m: Model, h: nat)
    requires Stamped(m) && Open(m.handles, h)
    ensures h < |m.handles| == |m.stamps|
  {
  }

  lemma StoreStamps(ms: seq<Model>, cs: seq<Command>, key: Str, l: nat)
    requires l < |cs| && l + 1 < |ms| && StoresAt(ms, cs, l, key)
    ensures key in ms[l + 1].m && ms[l + 1].m[key].stamp == ms[l].puts + 1
  {
  }

  lemma GetStamps(p: Setup, m: Model, key: Str, r: Reply, m': Model)
    requires Step(p, m, Get(key), r, m') && r.Holding? && Stamped(m)
    ensures Stamped(m') && Open(m'.handles, r.h) && m'.handles[r.h].value.Shared? && m'.stamps[r.h] <= m.puts == m'.puts
  {
  }

  lemma CasStamps(p: Setup, ms: seq<Model>, cs: seq<Command>, rs: seq<Reply>, key: Str, j: nat)
    requires j < |cs| && j + 1 < |ms| && j < |rs| && Step(p, ms[j], cs[j], rs[j], ms[j + 1])
    requires StoresAt(ms, cs, j, key) && cs[j].cas.Some? && Stamped(ms[j])
    ensures var h := cs[j].cas.value; h < |ms[j].stamps| && key in ms[j].m && ms[j].m[key].stamp == ms[j].stamps[h]
  {
    assert ms[j + 1].m[key].stamp == ms[j].puts + 1;
  }

  /** A compare-and-set on a looked-up item succeeds only if nobody has stored the key since the lookup, although
      items move and memory is reused. */
  lemma CasSucceeds(p: Setup, ms: seq<Model>, cs: seq<Command>, rs: seq<Reply>,
                    key: Str, i: nat, l: nat, j: nat)
    requires Explains(p, ms, cs, rs) && Stamped(ms[0]) && i < l < j < |rs|
    requires cs[i] == Get(key) && rs[i].Holding? && StoresAt(ms, cs, j, key) && cs[j].cas == Some(rs[i].h)
    ensures !StoresAt(ms, cs, l, key)
  {
    hide Step, Offered, Explains, StoresAt, Stamped, Current, Open;
    StepAt(p, ms, cs, rs, i);
    StepAt(p, ms, cs, rs, j);
    StampsGrow(p, ms, cs, rs, key, 0, i);
    GetStamps(p, ms[i], key, rs[i], ms[i + 1]);
    InRange(ms[i + 1], rs[i].h);
    StampStays(p, ms, cs, rs, rs[i].h, i + 1, j);
    CasStamps(p, ms, cs, rs, key, j);
    if StoresAt(ms, cs, l, key) {
      StoreStamps(ms, cs, key, l);
      StampsGrow(p, ms, cs, rs, key, i + 1, l);
      StampsGrow(p, ms, cs, rs, key, i + 1, l + 1);
      StampsGrow(p, ms, cs, rs, key, l + 1, j);
    }
  }

  lemma OpenBefore(p: Setup, m: Model, c: Command, r: Reply, m': Model, h: nat)
    requires Step(p, m, c, r, m') && Allowed(m.handles, c, p.segSize, p.ring) && h < |m.handles| && Open(m'.handles, h)
    ensures Open(m.handles, h)
  {
  }

  lemma CurrentStep(p: Setup, ms: seq<Model>, cs: seq<Command>, rs: seq<Reply>, key: Str, h: nat, k: nat)
    requires k < |cs| && k + 1 < |ms| && k < |rs| && Step(p, ms[k], cs[k], rs[k], ms[k + 1]) && Stamped(ms[k])
    requires Current(ms[k], h, key) && h in ms[k].steady && Open(ms[k + 1].handles, h)
    requires !StoresAt(ms, cs, k, key) && !cs[k].Clean? && Allowed(ms[k].handles, cs[k], p.segSize, p.ring)
    ensures Current(ms[k + 1], h, key) && h in ms[k + 1].steady
  {
    hide SpaceUsed, Spent, CannotFail;
  }

  /** A handle on the current item stays one as long as nobody stores the key and nothing is cleaned. */
  lemma {:induction false} CurrentKeeps(p: Setup, ms: seq<Model>, cs: seq<Command>, rs: seq<Reply>, key: Str, h: nat,
                                        i: nat, j: nat)
    requires Explains(p, ms, cs, rs) && i <= j <= |rs| && Stamped(ms[i])
    requires Current(ms[i], h, key) && h in ms[i].steady && Open(ms[j].handles, h)
    requires forall k :: i <= k < j ==> !StoresAt(ms, cs, k, key) && !cs[k].Clean?
    ensures Current(ms[j], h, key) && h in ms[j].steady
    decreases j
  {
    hide Step, Stamped, StoresAt, Allowed;
    if i < j {
      StepAt(p, ms, cs, rs, j - 1);
      StampsGrow(p, ms, cs, rs, key, i, j - 1);
      HandlesGrow(p, ms, cs, rs, i, j - 1);
      OpenBefore(p, ms[j - 1], cs[j - 1], rs[j - 1], ms[j], h);
      CurrentKeeps(p, ms, cs, rs, key, h, i, j - 1);
      CurrentStep(p, ms, cs, rs, key, h, j - 1);
    }
  }

  lemma {:induction false} HandlesGrow(p: Setup, ms: seq<Model>, cs: seq<Command>, rs: seq<Reply>, i: nat, j: nat)
    requires Explains(p, ms, cs, rs) && i <= j <= |rs|
    ensures |ms[i].handles| <= |ms[j].handles|
    decreases j
  {
    if i < j {
      HandlesGrow(p, ms, cs, rs, i, j - 1);
      assert Step(p, ms[j - 1], cs[j - 1], rs[j - 1], ms[j]);
    }
  }

  lemma GetIsCurrent(p: Setup, m: Model, key: Str, r: Reply, m': Model)
    requires Step(p, m, Get(key), r, m') && r.Holding? && Stamped(m)
    ensures Current(m', r.h, key) && r.h in m'.steady
  {
  }

  lemma PutDecided(p: Setup, ms: seq<Model>, cs: seq<Command>, rs: seq<Reply>, key: Str, j: nat)
    requires j < |cs| && j + 1 < |ms| && j < |rs| && Step(p, ms[j], cs[j], rs[j], ms[j + 1])
    requires cs[j].Put? && cs[j].cas.Some? && Open(ms[j].handles, cs[j].h)
    requires ms[j].handles[cs[j].h].value == Ready(key, ms[j].handles[cs[j].h].value.val)
    requires CannotFail(p, ms[j], cs[j].cas.value, key)
    ensures StoresAt(ms, cs, j, key)
  {
  }

  /** While nothing is cleaned and the key's bucket is not crowded, a compare-and-set on a looked-up item succeeds if
      and only if nobody has stored the key since the lookup. */
  lemma CasDecided(p: Setup, ms: seq<Model>, cs: seq<Command>, rs: seq<Reply>, key: Str, i: nat, j: nat)
    requires Explains(p, ms, cs, rs) && Stamped(ms[0]) && i < j < |rs|
    requires cs[i] == Get(key) && rs[i].Holding? && cs[j].Put? && cs[j].cas == Some(rs[i].h)
    requires Open(ms[j].handles, cs[j].h) && ms[j].handles[cs[j].h].value.Ready?
    requires ms[j].handles[cs[j].h].value.key == key
    requires Roomy(ms[j].m, p.hash, key) && forall k :: i < k < j ==> !cs[k].Clean?
    ensures StoresAt(ms, cs, j, key) <==> forall l :: i < l < j ==> !StoresAt(ms, cs, l, key)
  {
    hide Step, StoresAt, Stamped, Roomy, Current;
    if StoresAt(ms, cs, j, key) {
      forall l | i < l < j ensures !StoresAt(ms, cs, l, key) { CasSucceeds(p, ms, cs, rs, key, i, l, j); }
    } else if forall l :: i < l < j ==> !StoresAt(ms, cs, l, key) {
      StepAt(p, ms, cs, rs, i);
      StepAt(p, ms, cs, rs, j);
      StampsGrow(p, ms, cs, rs, key, 0, i);
      StampsGrow(p, ms, cs, rs, key, 0, i + 1);
      GetIsCurrent(p, ms[i], key, rs[i], ms[i + 1]);
      CurrentKeeps(p, ms, cs, rs, key, rs[i].h, i + 1, j);
      PutDecided(p, ms, cs, rs, key, j);
    }
  }
}
