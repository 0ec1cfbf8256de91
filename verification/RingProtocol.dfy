/** The queue that queue_custom emits, as a state machine: every load that matters, compare-and-set and store of any
    number of producers and consumers is one step. */
module RingProtocol {
  import opened Wrappers

  const FLAG_OWN: bv8 := 1
  const FLAG_INUSE: bv8 := 4
  const FLAG_BOTH: bv8 := FLAG_OWN | FLAG_INUSE

  /** The bytes of an entry in front of its status field. */
  type Entry = seq<bv8>

  datatype Slot = Slot(status: bv8, content: Entry)

  /** Where a thread stands in the emitted code; `at` is its local copy `old` of an offset. */
  datatype Pc =
    | Idle
    // enqueue, non-blocking: offset read; slot claimed; lost the offset
    | Try(x: Entry, at: nat) | Claimed(x: Entry, at: nat) | BackOut(at: nat)
    // enqueue, blocking: about to (re)read the offset; offset read; waiting for the slot
    | Reload(x: Entry) | Advance(x: Entry, at: nat) | AwaitFree(x: Entry, at: nat)
    // enqueue: `k` bytes copied
    | Copying(x: Entry, at: nat, k: nat)
    // dequeue, non-blocking
    | TryTake(at: nat) | Took(at: nat) | PutBack(at: nat)
    // dequeue, blocking
    | ReloadTake | AdvanceTake(at: nat) | AwaitOwn(at: nat)

  datatype Op = TryEnqueue(x: Entry) | Enqueue(x: Entry) | TryDequeue | Dequeue

  /** A thread starts an operation, a thread does its next step, or the receiver of a buffer releases it. */
  datatype Action = Begin(t: nat, op: Op) | Step(t: nat) | Release(slot: nat)

  /** Who is responsible for a slot, and for which published entry. */
  datatype Phase = Free | Reserving(t: nat) | Filling(t: nat) | Ready(id: nat) | Taking(t: nat, id: nat) | Held(id: nat)

  /** What became of a published entry: it is in a slot, or it was the k-th to be delivered. */
  datatype Fate = InRing(slot: nat) | Delivered(k: nat)

  datatype Delivery = Delivery(id: nat, entry: Entry)

  /** Entries have `size` bytes. The shared memory and the threads, followed by the history that the theorems speak
      about: `accepted` in the order of the offset updates of non-blocking enqueues, `published` in the order of the
      stores of FLAG_OWN, `delivered` in the order in which dequeues succeed. */
  datatype State = State(size: nat, enq: nat, deq: nat, slots: seq<Slot>, pcs: seq<Pc>, out: set<nat>,
                         accepted: seq<Entry>, published: seq<Entry>, delivered: seq<Delivery>,
                         phase: seq<Phase>, fate: seq<Fate>, ticket: seq<nat>)

  ghost predicate Shaped(s: State) {
    && 0 < |s.slots| == |s.phase| == |s.ticket|
    && s.enq < |s.slots| && s.deq < |s.slots|
    && |s.fate| == |s.published|
    && (forall i :: 0 <= i < |s.slots| ==> |s.slots[i].content| == s.size)
  }

  function MoveTo(s: State, t: nat, pc: Pc): State
    requires t < |s.pcs|
  {
    s.(pcs := s.pcs[t := pc])
  }

  function Status(s: State, i: nat, status: bv8, phase: Phase): State
    requires i < |s.slots| && i < |s.phase|
  {
    s.(slots := s.slots[i := s.slots[i].(status := status)], phase := s.phase[i := phase])
  }

  function BeginNext(s: State, t: nat, op: Op): State
    requires t < |s.pcs|
  {
    match op
    case TryEnqueue(x) => MoveTo(s, t, Try(x, s.enq))
    case Enqueue(x) => MoveTo(s, t, Reload(x))
    case TryDequeue => MoveTo(s, t, TryTake(s.deq))
    case Dequeue => MoveTo(s, t, ReloadTake)
  }

  /** A dequeue has succeeded: the buffer goes to the caller. */
  function Deliver(s: State, i: nat): State
    requires Shaped(s) && i < |s.slots| && (s.phase[i].Ready? || s.phase[i].Taking?) && s.phase[i].id < |s.fate|
  {
    var id := s.phase[i].id;
    s.(out := s.out + {i}, delivered := s.delivered + [Delivery(id, s.slots[i].content)],
       fate := s.fate[id := Delivered(|s.delivered|)], phase := s.phase[i := Held(id)])
  }

  /** The store of FLAG_OWN after the copy. */
  function Publish(s: State, i: nat, x: Entry): State
    requires Shaped(s) && i < |s.slots|
  {
    Status(s, i, FLAG_OWN, Ready(|s.published|)).(published := s.published + [x], fate := s.fate + [InRing(i)])
  }

  /** The next step of thread `t`. */
  function StepNext(s: State, t: nat): State
    requires Inv(s) && t < |s.pcs|
  {
    var n := |s.slots|;
    assert ThreadOk(s, t);
    match s.pcs[t]
    case Idle => s
    case Try(x, at) =>
      if s.slots[at].status == 0 then Status(MoveTo(s, t, Claimed(x, at)), at, FLAG_INUSE, Reserving(t))
      else MoveTo(s, t, Idle)
    case Claimed(x, at) =>
      if s.enq == at then
        MoveTo(s, t, Copying(x, at, 0)).(enq := (at + 1) % n, phase := s.phase[at := Filling(t)],
                                       ticket := s.ticket[at := |s.accepted|], accepted := s.accepted + [x])
      else MoveTo(s, t, BackOut(at))
    case BackOut(at) => Status(MoveTo(s, t, Idle), at, 0, Free)
    case Reload(x) => MoveTo(s, t, Advance(x, s.enq))
    case Advance(x, at) =>
      if s.enq == at then MoveTo(s, t, AwaitFree(x, at)).(enq := (at + 1) % n) else MoveTo(s, t, Reload(x))
    case AwaitFree(x, at) =>
      if s.slots[at].status == 0 then Status(MoveTo(s, t, Copying(x, at, 0)), at, FLAG_INUSE, Filling(t)) else s
    case Copying(x, at, k) =>
      if k < |x| then
        MoveTo(s, t, Copying(x, at, k + 1)).(
          slots := s.slots[at := s.slots[at].(content := s.slots[at].content[k := x[k]])])
      else Publish(MoveTo(s, t, Idle), at, x)
    case TryTake(at) =>
      if s.slots[at].status == FLAG_OWN then
        assert SlotOk(s, at);
        Status(MoveTo(s, t, Took(at)), at, FLAG_BOTH, Taking(t, s.phase[at].id))
      else MoveTo(s, t, Idle)
    case Took(at) =>
      if s.deq == at then
        assert SlotOk(s, at);
        Deliver(MoveTo(s, t, Idle), at).(deq := (at + 1) % n)
      else MoveTo(s, t, PutBack(at))
    case PutBack(at) => Status(MoveTo(s, t, Idle), at, FLAG_OWN, Ready(s.phase[at].id))
    case ReloadTake => MoveTo(s, t, AdvanceTake(s.deq))
    case AdvanceTake(at) =>
      if s.deq == at then MoveTo(s, t, AwaitOwn(at)).(deq := (at + 1) % n) else MoveTo(s, t, ReloadTake)
    case AwaitOwn(at) =>
      if s.slots[at].status == FLAG_OWN then
        assert SlotOk(s, at);
        var s1 := Deliver(MoveTo(s, t, Idle), at);
        s1.(slots := s.slots[at := s.slots[at].(status := FLAG_BOTH)])
      else s
  }

  /** Can the action happen? A buffer is released by whoever got it, once. */
  predicate Enabled(s: State, a: Action) {
    match a
    case Begin(t, op) => t < |s.pcs| && s.pcs[t].Idle? && (op.TryEnqueue? || op.Enqueue? ==> |op.x| == s.size)
    case Step(t) => t < |s.pcs|
    case Release(i) => i in s.out
  }

  function Next(s: State, a: Action): State
    requires Inv(s) && Enabled(s, a)
  {
    match a
    case Begin(t, op) => BeginNext(s, t, op)
    case Step(t) => StepNext(s, t)
    case Release(i) => assert SlotOk(s, i); Status(s, i, 0, Free).(out := s.out - {i})
  }

  /** A slot with a published entry that nobody has received. */
  predicate Waiting(p: Phase) {
    p.Ready? || p.Taking?
  }

  ghost predicate SlotOk(s: State, i: nat)
    requires Shaped(s) && i < |s.slots|
  {
    && (i in s.out <==> s.phase[i].Held?)
    && (Waiting(s.phase[i]) || s.phase[i].Held? ==>
          && s.phase[i].id < |s.published| && s.slots[i].content == s.published[s.phase[i].id]
          && (if Waiting(s.phase[i]) then s.fate[s.phase[i].id] == InRing(i) else s.fate[s.phase[i].id].Delivered?))
    && match s.phase[i]
       case Free => s.slots[i].status == 0
       case Reserving(t) =>
         && s.slots[i].status == FLAG_INUSE && t < |s.pcs|
         && (s.pcs[t].Claimed? || s.pcs[t].BackOut?) && s.pcs[t].at == i
       case Filling(t) => s.slots[i].status == FLAG_INUSE && t < |s.pcs| && s.pcs[t].Copying? && s.pcs[t].at == i
       case Ready(id) => s.slots[i].status == FLAG_OWN
       case Taking(t, id) =>
         && s.slots[i].status == FLAG_BOTH && t < |s.pcs|
         && (s.pcs[t].Took? || s.pcs[t].PutBack?) && s.pcs[t].at == i
       case Held(id) => s.slots[i].status == FLAG_BOTH
  }

  ghost predicate ThreadOk(s: State, t: nat)
    requires Shaped(s) && t < |s.pcs|
  {
    var n := |s.slots|;
    match s.pcs[t]
    case Idle => true
    case Reload(x) => |x| == s.size
    case ReloadTake => true
    case Try(x, at) => at < n && |x| == s.size
    case Advance(x, at) => at < n && |x| == s.size
    case AwaitFree(x, at) => at < n && |x| == s.size
    case TryTake(at) => at < n
    case AdvanceTake(at) => at < n
    case AwaitOwn(at) => at < n
    case Claimed(x, at) => at < n && |x| == s.size && s.phase[at] == Reserving(t)
    case BackOut(at) => at < n && s.phase[at] == Reserving(t)
    case Copying(x, at, k) =>
      && at < n && s.phase[at] == Filling(t)
      && k <= |x| == s.size && s.slots[at].content[..k] == x[..k]
    case Took(at) => at < n && s.phase[at].Taking? && s.phase[at].t == t
    case PutBack(at) => at < n && s.phase[at].Taking? && s.phase[at].t == t
  }

  ghost predicate FateOk(s: State, id: nat)
    requires Shaped(s) && id < |s.fate|
  {
    match s.fate[id]
    case InRing(i) => i < |s.slots| && Waiting(s.phase[i]) && s.phase[i].id == id
    case Delivered(k) => k < |s.delivered| && s.delivered[k] == Delivery(id, s.published[id])
  }

  ghost predicate DeliveryOk(s: State, k: nat)
    requires Shaped(s) && k < |s.delivered|
  {
    s.delivered[k].id < |s.fate| && s.fate[s.delivered[k].id] == Delivered(k)
  }

  /** What every step keeps, whichever mix of operations runs on the queue. */
  ghost predicate Inv(s: State) {
    && Shaped(s)
    && (forall i :: i in s.out ==> i < |s.slots|)
    && (forall i :: 0 <= i < |s.slots| ==> SlotOk(s, i))
    && (forall t :: 0 <= t < |s.pcs| ==> ThreadOk(s, t))
    && (forall id :: 0 <= id < |s.fate| ==> FateOk(s, id))
    && (forall k :: 0 <= k < |s.delivered| ==> DeliveryOk(s, k))
  }

  function Owner(p: Phase): Option<nat> {
    match p
    case Reserving(t) => Some(t)
    case Filling(t) => Some(t)
    case Taking(t, _) => Some(t)
    case _ => None
  }

  /** A step of thread `t` that touches no slot but `i`, which no other thread owns. */
  ghost predicate Touches(s: State, s': State, t: nat, i: nat)
    requires Shaped(s) && Shaped(s')
  {
    && s'.size == s.size && |s'.slots| == |s.slots| && |s'.pcs| == |s.pcs|
    && (forall j :: 0 <= j < |s.slots| && j != i ==> s'.slots[j] == s.slots[j] && s'.phase[j] == s.phase[j])
    && (forall j :: 0 <= j < |s.slots| && j != i ==> Owner(s.phase[j]) != Some(t))
    && (forall u :: 0 <= u < |s.pcs| && u != t ==> s'.pcs[u] == s.pcs[u])
    && (i < |s.slots| ==> forall u :: 0 <= u < |s.pcs| && u != t ==> Owner(s.phase[i]) != Some(u))
    && (forall j :: j != i ==> (j in s'.out <==> j in s.out))
    && (i in s'.out ==> i < |s.slots|)
  }

  /** The history only grows; the fate of an entry changes only when it leaves slot `i`. */
  ghost predicate Grows(s: State, s': State, i: nat) {
    && s.published <= s'.published && s.delivered <= s'.delivered && |s.fate| <= |s'.fate|
    && (forall id :: 0 <= id < |s.fate| && s.fate[id] != InRing(i) ==> s'.fate[id] == s.fate[id])
  }

  lemma OthersKept(s: State, s': State, t: nat, i: nat)
    requires Inv(s) && Shaped(s') && Touches(s, s', t, i) && Grows(s, s', i)
    ensures forall j :: 0 <= j < |s'.slots| && j != i ==> SlotOk(s', j)
    ensures forall u :: 0 <= u < |s'.pcs| && u != t ==> ThreadOk(s', u)
  {
    forall j | 0 <= j < |s'.slots| && j != i ensures SlotOk(s', j) {
      assert SlotOk(s, j) && s'.phase[j] == s.phase[j];
    }
    forall u | 0 <= u < |s'.pcs| && u != t ensures ThreadOk(s', u) {
      assert ThreadOk(s, u) && s'.pcs[u] == s.pcs[u];
      assert i < |s.slots| ==> Owner(s.phase[i]) != Some(u);
    }
  }

  lemma HistoryKept(s: State, s': State, t: nat, i: nat)
    requires Inv(s) && Shaped(s') && Touches(s, s', t, i) && Grows(s, s', i)
    ensures forall id :: 0 <= id < |s.fate| && s.fate[id] != InRing(i) ==> FateOk(s', id)
    ensures forall k :: 0 <= k < |s.delivered| ==> DeliveryOk(s', k)
    ensures forall id :: 0 <= id < |s.fate| && s.fate[id] == InRing(i) ==>
              i < |s.slots| && Waiting(s.phase[i]) && s.phase[i].id == id
  {
    forall id | 0 <= id < |s.fate| && s.fate[id] != InRing(i) ensures FateOk(s', id) { assert FateOk(s, id); }
    forall k | 0 <= k < |s.delivered| ensures DeliveryOk(s', k) { assert DeliveryOk(s, k); }
    forall id | 0 <= id < |s.fate| && s.fate[id] == InRing(i)
      ensures i < |s.slots| && Waiting(s.phase[i]) && s.phase[i].id == id
    {
      assert FateOk(s, id);
    }
  }

  lemma Keeps(s: State, s': State, t: nat, i: nat)
    requires Inv(s) && Shaped(s') && Touches(s, s', t, i) && Grows(s, s', i)
    requires t < |s.pcs| ==> ThreadOk(s', t)
    requires i < |s.slots| ==> SlotOk(s', i)
    requires i < |s.slots| && Waiting(s.phase[i]) ==> s.phase[i].id < |s'.fate| && FateOk(s', s.phase[i].id)
    requires forall id :: |s.fate| <= id < |s'.fate| ==> FateOk(s', id)
    requires forall k :: |s.delivered| <= k < |s'.delivered| ==> DeliveryOk(s', k)
    ensures Inv(s')
  {
    OthersKept(s, s', t, i);
    HistoryKept(s, s', t, i);
    hide SlotOk, ThreadOk, FateOk, DeliveryOk;
  }

  /** A thread owns at most the slot its program counter names. */
  lemma OwnsOne(s: State, t: nat, j: nat)
    requires Inv(s) && t < |s.pcs| && j < |s.slots| && Owner(s.phase[j]) == Some(t)
    ensures s.pcs[t].Claimed? || s.pcs[t].BackOut? || s.pcs[t].Copying? || s.pcs[t].Took? || s.pcs[t].PutBack?
    ensures s.pcs[t].at == j
  {
    assert SlotOk(s, j);
  }

  /** The slot a step of thread `t` may change. */
  function TouchedSlot(s: State, t: nat): nat
    requires t < |s.pcs|
  {
    match s.pcs[t]
    case Try(_, at) => if at < |s.slots| && s.slots[at].status == 0 then at else |s.slots|
    case Claimed(_, at) => at
    case BackOut(at) => at
    case AwaitFree(_, at) => if at < |s.slots| && s.slots[at].status == 0 then at else |s.slots|
    case Copying(_, at, _) => at
    case TryTake(at) => if at < |s.slots| && s.slots[at].status == FLAG_OWN then at else |s.slots|
    case Took(at) => at
    case PutBack(at) => at
    case AwaitOwn(at) => if at < |s.slots| && s.slots[at].status == FLAG_OWN then at else |s.slots|
    case _ => |s.slots|
  }

  lemma StepTouches(s: State, t: nat)
    requires Inv(s) && t < |s.pcs| && Shaped(StepNext(s, t))
    ensures Touches(s, StepNext(s, t), t, TouchedSlot(s, t)) && Grows(s, StepNext(s, t), TouchedSlot(s, t))
  {
    var s', i := StepNext(s, t), TouchedSlot(s, t);
    assert ThreadOk(s, t);
    if i < |s.slots| { assert SlotOk(s, i); }
    forall j | 0 <= j < |s.slots| && j != i ensures Owner(s.phase[j]) != Some(t) {
      if Owner(s.phase[j]) == Some(t) { OwnsOne(s, t, j); }
    }
  }

  lemma StepShaped(s: State, t: nat)
    requires Inv(s) && t < |s.pcs|
    ensures Shaped(StepNext(s, t))
  {
    var s', i := StepNext(s, t), TouchedSlot(s, t);
    assert ThreadOk(s, t);
    if i < |s.slots| { assert SlotOk(s, i); }
  }

  lemma StepSelf(s: State, t: nat)
    requires Inv(s) && t < |s.pcs| && Shaped(StepNext(s, t)) && |StepNext(s, t).pcs| == |s.pcs|
    ensures ThreadOk(StepNext(s, t), t)
    ensures TouchedSlot(s, t) < |s.slots| ==> SlotOk(StepNext(s, t), TouchedSlot(s, t))
  {
    var s', i := StepNext(s, t), TouchedSlot(s, t);
    assert ThreadOk(s, t);
    if i < |s.slots| { assert SlotOk(s, i); }
  }

  lemma StepHistory(s: State, t: nat)
    requires Inv(s) && t < |s.pcs| && Shaped(StepNext(s, t))
    ensures var s', i := StepNext(s, t), TouchedSlot(s, t);
            && (i < |s.slots| && Waiting(s.phase[i]) ==> s.phase[i].id < |s'.fate| && FateOk(s', s.phase[i].id))
            && (forall id :: |s.fate| <= id < |s'.fate| ==> FateOk(s', id))
            && (forall k :: |s.delivered| <= k < |s'.delivered| ==> DeliveryOk(s', k))
  {
    var s', i := StepNext(s, t), TouchedSlot(s, t);
    assert ThreadOk(s, t);
    if i < |s.slots| { assert SlotOk(s, i); }
  }

  lemma StepKeeps(s: State, t: nat)
    requires Inv(s) && t < |s.pcs|
    ensures Inv(StepNext(s, t))
  {
    StepShaped(s, t);
    StepTouches(s, t);
    StepSelf(s, t);
    StepHistory(s, t);
    Keeps(s, StepNext(s, t), t, TouchedSlot(s, t));
  }

  lemma BeginKeeps(s: State, t: nat, op: Op)
    requires Inv(s) && Enabled(s, Begin(t, op))
    ensures Inv(BeginNext(s, t, op))
  {
    forall j | 0 <= j < |s.slots| ensures Owner(s.phase[j]) != Some(t) {
      if Owner(s.phase[j]) == Some(t) { OwnsOne(s, t, j); }
    }
    Keeps(s, BeginNext(s, t, op), t, |s.slots|);
  }

  lemma ReleaseKeeps(s: State, i: nat)
    requires Inv(s) && Enabled(s, Release(i))
    ensures Inv(Next(s, Release(i)))
  {
    assert SlotOk(s, i);
    forall j | 0 <= j < |s.slots| ensures Owner(s.phase[j]) != Some(|s.pcs|) {
      assert SlotOk(s, j);
    }
    Keeps(s, Next(s, Release(i)), |s.pcs|, i);
  }

  /** A queue of `n` empty slots and some idle threads. */
  function Init(n: nat, size: nat, threads: nat): (s: State)
    requires 0 < n
    ensures Inv(s)
  {
    State(size, 0, 0, seq(n, _ => Slot(0, seq(size, _ => 0))), seq(threads, _ => Idle), {},
          [], [], [], seq(n, _ => Free), [], seq(n, _ => 0))
  }

  /** `acts` is an interleaving of the threads that leads from `s` to `s'`. */
  ghost predicate Reaches(s: State, acts: seq<Action>, s': State)
    requires Inv(s)
    decreases |acts|
  {
    if acts == [] then s' == s
    else Enabled(s, acts[0]) && (NextKeeps(s, acts[0]); Reaches(Next(s, acts[0]), acts[1..], s'))
  }

  lemma NextKeeps(s: State, a: Action)
    requires Inv(s) && Enabled(s, a)
    ensures Inv(Next(s, a))
  {
    match a
    case Begin(t, op) => BeginKeeps(s, t, op);
    case Step(t) => StepKeeps(s, t);
    case Release(i) => ReleaseKeeps(s, i);
  }

  /** Does the thread write or claim slot `at`? */
  predicate Busy(pc: Pc) {
    pc.Claimed? || pc.BackOut? || pc.Copying? || pc.Took? || pc.PutBack?
  }

  /** The slot holds a published entry that has not been released. */
  predicate Occupied(sl: Slot) {
    sl.status == FLAG_OWN || sl.status == FLAG_BOTH
  }

  /** One writer or reader per slot: no two threads are busy with the same slot, a thread filling a slot finds it
      unpublished, and a buffer that was handed out is nobody's business until its release. */
  ghost predicate Exclusive(s: State) {
    && (forall t, u :: 0 <= t < u < |s.pcs| && Busy(s.pcs[t]) && Busy(s.pcs[u]) ==> s.pcs[t].at != s.pcs[u].at)
    && (forall t :: 0 <= t < |s.pcs| && Busy(s.pcs[t]) ==> s.pcs[t].at !in s.out && s.pcs[t].at < |s.slots|)
    && (forall t :: 0 <= t < |s.pcs| && s.pcs[t].Copying? ==>
                      s.pcs[t].at < |s.slots| && !Occupied(s.slots[s.pcs[t].at]))
    && (forall i :: i in s.out ==> i < |s.slots| && s.slots[i].status == FLAG_BOTH)
  }

  /** The entries that are published and not yet delivered. */
  function Pending(slots: seq<Slot>, out: set<nat>, n: nat): multiset<Entry>
    requires n <= |slots|
  {
    if n == 0 then multiset{}
    else Pending(slots, out, n - 1) +
         (if Occupied(slots[n - 1]) && n - 1 !in out then multiset{slots[n - 1].content} else multiset{})
  }

  function Entries(ds: seq<Delivery>): (r: seq<Entry>)
    ensures |r| == |ds| && forall k :: 0 <= k < |ds| ==> r[k] == ds[k].entry
  {
    seq(|ds|, k requires 0 <= k < |ds| => ds[k].entry)
  }

  /** Nothing is lost, invented or duplicated; an entry published twice is two entries. */
  ghost predicate Conserved(s: State) {
    && multiset(s.published) == multiset(Entries(s.delivered)) + Pending(s.slots, s.out, |s.slots|)
    && (forall j, k :: 0 <= j < k < |s.delivered| ==> s.delivered[j].id != s.delivered[k].id)
    && (forall k :: 0 <= k < |s.delivered| ==>
          s.delivered[k].id < |s.published| && s.delivered[k].entry == s.published[s.delivered[k].id])
  }

  lemma {:induction false} PendingFrame(slots: seq<Slot>, out: set<nat>, slots': seq<Slot>, out': set<nat>, n: nat)
    requires n <= |slots| && n <= |slots'|
    requires forall i :: 0 <= i < n && Occupied(slots[i]) ==> slots'[i].content == slots[i].content
    requires forall i :: 0 <= i < n ==> (Occupied(slots[i]) && i !in out <==> Occupied(slots'[i]) && i !in out')
    ensures Pending(slots', out', n) == Pending(slots, out, n)
  {
    if n > 0 {
      PendingFrame(slots, out, slots', out', n - 1);
      assert Occupied(slots[n - 1]) ==> slots'[n - 1].content == slots[n - 1].content;
      assert Occupied(slots[n - 1]) && n - 1 !in out <==> Occupied(slots'[n - 1]) && n - 1 !in out';
    }
  }

  /** One more slot is pending after the step than before. */
  lemma {:induction false} PendingMore(slots: seq<Slot>, out: set<nat>, slots': seq<Slot>, out': set<nat>, i: nat,
                                       n: nat)
    requires i < n <= |slots| && n <= |slots'|
    requires forall j :: 0 <= j < n && j != i ==> slots'[j] == slots[j] && (j in out' <==> j in out)
    requires !(Occupied(slots[i]) && i !in out) && Occupied(slots'[i]) && i !in out'
    ensures Pending(slots', out', n) == Pending(slots, out, n) + multiset{slots'[i].content}
  {
    if i == n - 1 {
      PendingFrame(slots, out, slots', out', n - 1);
    } else {
      PendingMore(slots, out, slots', out', i, n - 1);
    }
  }

  lemma {:induction false} PendingNone(slots: seq<Slot>, out: set<nat>, n: nat)
    requires n <= |slots| && (forall i :: 0 <= i < n ==> !Occupied(slots[i]))
    ensures Pending(slots, out, n) == multiset{}
  {
    if n > 0 { PendingNone(slots, out, n - 1); }
  }

  ghost predicate Balanced(s: State) {
    multiset(s.published) == multiset(Entries(s.delivered)) + Pending(s.slots, s.out, |s.slots|)
  }

  lemma DeliverBalance(s: State, s': State, i: nat)
    requires Shaped(s) && Balanced(s) && i < |s.slots| && |s'.slots| == |s.slots| && s'.published == s.published
    requires Occupied(s.slots[i]) && i !in s.out
    requires forall j :: 0 <= j < |s.slots| && j != i ==> s'.slots[j] == s.slots[j] && (j in s'.out <==> j in s.out)
    requires i in s'.out && s'.slots[i].content == s.slots[i].content
    requires exists d :: s'.delivered == s.delivered + [d] && d.entry == s.slots[i].content
    ensures Balanced(s')
  {
    PendingMore(s'.slots, s'.out, s.slots, s.out, i, |s.slots|);
    assert Entries(s'.delivered) == Entries(s.delivered) + [s.slots[i].content];
  }

  lemma PublishBalance(s: State, s': State, i: nat)
    requires Shaped(s) && Balanced(s) && i < |s.slots| && |s'.slots| == |s.slots| && s'.delivered == s.delivered
    requires !Occupied(s.slots[i]) && Occupied(s'.slots[i]) && i !in s'.out
    requires forall j :: 0 <= j < |s.slots| && j != i ==> s'.slots[j] == s.slots[j] && (j in s'.out <==> j in s.out)
    requires s'.published == s.published + [s'.slots[i].content]
    ensures Balanced(s')
  {
    PendingMore(s.slots, s.out, s'.slots, s'.out, i, |s.slots|);
  }

  lemma QuietBalance(s: State, s': State)
    requires Shaped(s) && Balanced(s) && |s'.slots| == |s.slots|
    requires s'.delivered == s.delivered && s'.published == s.published
    requires forall i :: 0 <= i < |s.slots| && Occupied(s.slots[i]) ==> s'.slots[i].content == s.slots[i].content
    requires forall i :: 0 <= i < |s.slots| ==>
               (Occupied(s.slots[i]) && i !in s.out <==> Occupied(s'.slots[i]) && i !in s'.out)
    ensures Balanced(s')
  {
    PendingFrame(s.slots, s.out, s'.slots, s'.out, |s.slots|);
  }

  lemma CopiedBalance(s: State, t: nat)
    requires Inv(s) && t < |s.pcs| && Balanced(s) && s.pcs[t].Copying? && s.pcs[t].k == s.size
    ensures Balanced(StepNext(s, t))
  {
    hide Balanced;
    assert ThreadOk(s, t);
    var i := s.pcs[t].at;
    assert SlotOk(s, i);
    assert s.slots[i].content == s.slots[i].content[..s.size] == s.pcs[t].x[..s.size] == s.pcs[t].x;
    PublishBalance(s, StepNext(s, t), i);
  }

  ghost predicate Delivers(s: State, t: nat)
    requires Shaped(s) && t < |s.pcs|
  {
    || (s.pcs[t].Took? && s.deq == s.pcs[t].at)
    || (s.pcs[t].AwaitOwn? && s.pcs[t].at < |s.slots| && s.slots[s.pcs[t].at].status == FLAG_OWN)
  }

  lemma DeliveredBalance(s: State, t: nat)
    requires Inv(s) && t < |s.pcs| && Balanced(s) && Delivers(s, t)
    ensures Balanced(StepNext(s, t))
  {
    hide Balanced;
    assert ThreadOk(s, t);
    var i, s' := s.pcs[t].at, StepNext(s, t);
    assert SlotOk(s, i);
    assert s'.delivered == s.delivered + [s'.delivered[|s.delivered|]];
    DeliverBalance(s, s', i);
  }

  lemma OtherBalance(s: State, t: nat)
    requires Inv(s) && t < |s.pcs| && Balanced(s) && !Delivers(s, t)
    requires !(s.pcs[t].Copying? && s.pcs[t].k == s.size)
    ensures Balanced(StepNext(s, t))
  {
    hide Balanced;
    assert ThreadOk(s, t);
    if TouchedSlot(s, t) < |s.slots| { assert SlotOk(s, TouchedSlot(s, t)); }
    QuietBalance(s, StepNext(s, t));
  }

  lemma NextBalance(s: State, a: Action)
    requires Inv(s) && Enabled(s, a) && Balanced(s)
    ensures Balanced(Next(s, a))
  {
    hide Balanced;
    if a.Release? {
      assert SlotOk(s, a.slot);
      QuietBalance(s, Next(s, a));
    } else if a.Begin? {
      QuietBalance(s, Next(s, a));
    } else if s.pcs[a.t].Copying? && s.pcs[a.t].k == s.size {
      CopiedBalance(s, a.t);
    } else if Delivers(s, a.t) {
      DeliveredBalance(s, a.t);
    } else {
      OtherBalance(s, a.t);
    }
  }

  lemma InvExclusive(s: State)
    requires Inv(s)
    ensures Exclusive(s)
  {
    forall t | 0 <= t < |s.pcs| && Busy(s.pcs[t])
      ensures s.pcs[t].at < |s.slots| && s.pcs[t].at !in s.out && Owner(s.phase[s.pcs[t].at]) == Some(t)
      ensures s.pcs[t].Copying? ==> !Occupied(s.slots[s.pcs[t].at])
    {
      assert ThreadOk(s, t) && SlotOk(s, s.pcs[t].at);
    }
    forall i | i in s.out ensures s.slots[i].status == FLAG_BOTH { assert SlotOk(s, i); }
  }

  lemma InvDelivered(s: State)
    requires Inv(s) && Balanced(s)
    ensures Conserved(s)
  {
    forall k | 0 <= k < |s.delivered|
      ensures s.delivered[k].id < |s.published| && s.fate[s.delivered[k].id] == Delivered(k)
      ensures s.delivered[k].entry == s.published[s.delivered[k].id]
    {
      assert DeliveryOk(s, k) && FateOk(s, s.delivered[k].id);
    }
  }

  lemma InitBalance(n: nat, size: nat, threads: nat)
    requires 0 < n
    ensures Balanced(Init(n, size, threads))
  {
    var s := Init(n, size, threads);
    PendingNone(s.slots, s.out, n);
  }

  lemma {:induction false} RunKeeps(s: State, acts: seq<Action>, s': State)
    requires Inv(s) && Balanced(s) && Reaches(s, acts, s')
    ensures Inv(s') && Balanced(s')
    decreases |acts|
  {
    if acts != [] {
      NextKeeps(s, acts[0]);
      NextBalance(s, acts[0]);
      RunKeeps(Next(s, acts[0]), acts[1..], s');
    }
  }

  /** In every interleaving of any mix of blocking and non-blocking operations. */
  lemma Safety(n: nat, size: nat, threads: nat, acts: seq<Action>, s: State)
    requires 0 < n
    requires Reaches(Init(n, size, threads), acts, s)
    ensures Exclusive(s) && Conserved(s)
  {
    InitBalance(n, size, threads);
    RunKeeps(Init(n, size, threads), acts, s);
    InvExclusive(s);
    InvDelivered(s);
  }

  /** A published entry stays what it is, whatever any thread does, until its receiver releases it. */
  lemma NotOverwritten(s: State, a: Action, i: nat)
    requires Inv(s) && Enabled(s, a) && i < |s.slots| && Occupied(s.slots[i]) && a != Release(i)
    ensures |Next(s, a).slots| == |s.slots|
    ensures Next(s, a).slots[i].content == s.slots[i].content && Occupied(Next(s, a).slots[i])
  {
    assert SlotOk(s, i);
    if a.Step? { assert ThreadOk(s, a.t); }
  }
}