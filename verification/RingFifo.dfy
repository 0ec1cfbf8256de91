/** With non-blocking operations only, the ring is a bounded first-in-first-out queue. */
module RingFifo {
  import opened Wrappers
  import opened RingProtocol

  predicate NonBlockingPc(pc: Pc) {
    !pc.Reload? && !pc.Advance? && !pc.AwaitFree? && !pc.ReloadTake? && !pc.AdvanceTake? && !pc.AwaitOwn?
  }

  predicate NonBlocking(a: Action) {
    a.Begin? ==> a.op.TryEnqueue? || a.op.TryDequeue?
  }

  /** The slot has a ticket: its entry was accepted and has not been dequeued. */
  predicate Live(p: Phase) {
    p.Filling? || Waiting(p)
  }

  /** The slot of the k-th entry. */
  function Home(k: nat, n: nat): (i: nat)
    requires 0 < n
    ensures i < n
  {
    k % n
  }

  /** Ticket `k` is the k-th accepted entry; its slot is `k` modulo the size of the ring. */
  ghost predicate TicketOk(s: State, i: nat)
    requires Shaped(s) && i < |s.slots|
  {
    && (Live(s.phase[i]) ==>
          && |s.delivered| <= s.ticket[i] < |s.accepted| && Home(s.ticket[i], |s.slots|) == i
          && (Waiting(s.phase[i]) ==> s.slots[i].content == s.accepted[s.ticket[i]]))
    && (s.phase[i].Held? ==>
          && s.ticket[i] < |s.delivered| && Home(s.ticket[i], |s.slots|) == i
          && s.delivered[s.ticket[i]].entry == s.slots[i].content)
    && (s.phase[i].Filling? && s.phase[i].t < |s.pcs| && s.pcs[s.phase[i].t].Copying? && Live(s.phase[i]) ==>
          s.accepted[s.ticket[i]] == s.pcs[s.phase[i].t].x)
  }

  ghost predicate PlaceOk(s: State, k: nat)
    requires Shaped(s)
  {
    var i := Home(k, |s.slots|);
    Live(s.phase[i]) && s.ticket[i] == k
  }

  ghost predicate FifoInv(s: State) {
    && Inv(s)
    && (forall t :: 0 <= t < |s.pcs| ==> NonBlockingPc(s.pcs[t]))
    && |s.delivered| <= |s.accepted|
    && s.enq == Home(|s.accepted|, |s.slots|) && s.deq == Home(|s.delivered|, |s.slots|)
    && (forall i :: 0 <= i < |s.slots| ==> TicketOk(s, i))
    && (forall k :: |s.delivered| <= k < |s.accepted| ==> PlaceOk(s, k))
    && (forall k :: 0 <= k < |s.delivered| ==> s.delivered[k].entry == s.accepted[k])
  }

  lemma ModIs(n: nat, q: int, r: nat)
    requires r < n
    ensures (n * q + r) % n == r
  {
    var x := n * q + r;
    var d := x / n - q;
    assert n * d == r - x % n;
    assert d >= 1 ==> n * d >= n;
    assert d <= -1 ==> n * d <= -1 * n;
  }

  lemma ModSucc(k: nat, n: nat)
    requires 0 < n
    ensures (Home(k, n) + 1) % n == Home(k + 1, n)
  {
    var q, r := k / n, k % n;
    if r + 1 == n {
      assert k + 1 == n * (q + 1) + 0 by { assert k == n * q + r && n * (q + 1) == n * q + n; }
      ModIs(n, q + 1, 0);
      ModIs(n, 1, 0);
    } else {
      ModIs(n, q, r + 1);
      ModIs(n, 0, r + 1);
    }
  }

  /** The queue that the ring implements. */
  function Queue(s: State): seq<Entry>
    requires |s.delivered| <= |s.accepted|
  {
    s.accepted[|s.delivered|..]
  }

  /** Tickets of the slots a step does not touch. */
  lemma OtherTickets(s: State, s': State, t: nat, i: nat, j: nat)
    requires FifoInv(s) && Shaped(s') && Touches(s, s', t, i) && j < |s.slots| && j != i
    requires s.accepted <= s'.accepted && s.delivered <= s'.delivered && s'.ticket[j] == s.ticket[j]
    requires Live(s.phase[j]) ==> |s'.delivered| <= s.ticket[j]
    ensures TicketOk(s', j)
  {
    assert TicketOk(s, j) && Owner(s.phase[j]) != Some(t);
  }

  /** A step that neither accepts nor delivers. */
  lemma QuietStep(s: State, s': State, t: nat, i: nat)
    requires FifoInv(s) && Inv(s') && Touches(s, s', t, i)
    requires s'.accepted == s.accepted && s'.delivered == s.delivered && s'.enq == s.enq && s'.deq == s.deq
    requires s'.ticket == s.ticket && (t < |s.pcs| ==> NonBlockingPc(s'.pcs[t]))
    requires i < |s.slots| ==> Live(s'.phase[i]) == Live(s.phase[i]) && TicketOk(s', i)
    ensures FifoInv(s')
  {
    hide SlotOk, ThreadOk, FateOk, DeliveryOk;
    forall j | 0 <= j < |s.slots| ensures TicketOk(s', j) {
      assert TicketOk(s, j);
      if j != i { OtherTickets(s, s', t, i, j); }
    }
    forall k | |s.delivered| <= k < |s.accepted| ensures PlaceOk(s', k) { assert PlaceOk(s, k); }
  }

  /** The offset update of an enqueue. */
  lemma AcceptStep(s: State, t: nat, x: Entry, i: nat)
    requires FifoInv(s) && t < |s.pcs| && s.pcs[t] == Claimed(x, i) && s.enq == i
    ensures FifoInv(StepNext(s, t))
  {
    var s', e := StepNext(s, t), |s.accepted|;
    StepKeeps(s, t);
    StepTouches(s, t);
    assert ThreadOk(s, t);
    ModSucc(e, |s.slots|);
    assert s' == MoveTo(s, t, Copying(x, i, 0)).(enq := (i + 1) % |s.slots|, phase := s.phase[i := Filling(t)],
                                              ticket := s.ticket[i := e], accepted := s.accepted + [x]);
    hide Home, Inv, StepNext;
    forall j | 0 <= j < |s.slots| ensures TicketOk(s', j) {
      assert TicketOk(s, j);
      if j != i { OtherTickets(s, s', t, i, j); }
    }
    forall k | |s.delivered| <= k < |s'.accepted| ensures PlaceOk(s', k) {
      if k < e { assert PlaceOk(s, k) && Home(k, |s.slots|) != i; }
    }
  }

  /** The offset update of a dequeue: the entry in the slot is the oldest one. */
  lemma TakeStep(s: State, t: nat, i: nat)
    requires FifoInv(s) && t < |s.pcs| && s.pcs[t] == Took(i) && s.deq == i
    ensures FifoInv(StepNext(s, t))
    ensures s.ticket[i] == |s.delivered|
  {
    var s', d := StepNext(s, t), |s.delivered|;
    StepKeeps(s, t);
    StepTouches(s, t);
    assert ThreadOk(s, t) && TicketOk(s, i);
    assert PlaceOk(s, d);
    ModSucc(d, |s.slots|);
    assert SlotOk(s, i);
    assert s' == Deliver(MoveTo(s, t, Idle), i).(deq := (i + 1) % |s.slots|);
    hide Home, Inv, StepNext;
    forall j | 0 <= j < |s.slots| ensures TicketOk(s', j) {
      assert TicketOk(s, j);
      if j != i {
        assert Live(s.phase[j]) ==> s.ticket[j] != d;
        OtherTickets(s, s', t, i, j);
      }
    }
    forall k | d + 1 <= k < |s'.accepted| ensures PlaceOk(s', k) { assert PlaceOk(s, k); }
  }

  ghost predicate Quiet(s: State, t: nat)
    requires t < |s.pcs|
  {
    !(s.pcs[t].Claimed? && s.enq == s.pcs[t].at) && !(s.pcs[t].Took? && s.deq == s.pcs[t].at)
  }

  lemma QuietHistory(s: State, t: nat)
    requires FifoInv(s) && t < |s.pcs| && Quiet(s, t)
    ensures var s' := StepNext(s, t);
            && s'.accepted == s.accepted && s'.delivered == s.delivered && s'.enq == s.enq && s'.deq == s.deq
            && s'.ticket == s.ticket && |s'.pcs| == |s.pcs| && NonBlockingPc(s'.pcs[t])
  {
    assert ThreadOk(s, t);
    hide Inv;
  }

  lemma QuietTicket(s: State, t: nat)
    requires FifoInv(s) && t < |s.pcs| && Quiet(s, t) && TouchedSlot(s, t) < |s.slots| && Shaped(StepNext(s, t))
    ensures Live(StepNext(s, t).phase[TouchedSlot(s, t)]) == Live(s.phase[TouchedSlot(s, t)])
    ensures TicketOk(StepNext(s, t), TouchedSlot(s, t))
  {
    var i := TouchedSlot(s, t);
    assert ThreadOk(s, t) && SlotOk(s, i) && TicketOk(s, i);
    if s.pcs[t].Copying? && s.pcs[t].k == s.size {
      assert s.slots[i].content == s.slots[i].content[..s.size] == s.pcs[t].x[..s.size] == s.pcs[t].x;
    }
  }

  lemma FifoStep(s: State, t: nat)
    requires FifoInv(s) && t < |s.pcs|
    ensures FifoInv(StepNext(s, t))
  {
    assert ThreadOk(s, t);
    if s.pcs[t].Claimed? && s.enq == s.pcs[t].at {
      AcceptStep(s, t, s.pcs[t].x, s.pcs[t].at);
    } else if s.pcs[t].Took? && s.deq == s.pcs[t].at {
      TakeStep(s, t, s.pcs[t].at);
    } else {
      var s', i := StepNext(s, t), TouchedSlot(s, t);
      StepKeeps(s, t);
      StepTouches(s, t);
      QuietHistory(s, t);
      if i < |s.slots| { QuietTicket(s, t); }
      hide StepNext, Inv, Home, TicketOk, PlaceOk, TouchedSlot, Live;
      QuietStep(s, s', t, i);
    }
  }

  lemma FifoNext(s: State, a: Action)
    requires FifoInv(s) && Enabled(s, a) && NonBlocking(a)
    ensures FifoInv(Next(s, a))
  {
    NextKeeps(s, a);
    match a
    case Step(t) => FifoStep(s, t);
    case Begin(t, op) =>
      forall j | 0 <= j < |s.slots| ensures Owner(s.phase[j]) != Some(t) {
        if Owner(s.phase[j]) == Some(t) { OwnsOne(s, t, j); }
      }
      QuietStep(s, Next(s, a), t, |s.slots|);
    case Release(i) =>
      assert SlotOk(s, i);
      forall j | 0 <= j < |s.slots| ensures Owner(s.phase[j]) != Some(|s.pcs|) { assert SlotOk(s, j); }
      QuietStep(s, Next(s, a), |s.pcs|, i);
  }

  /** Each step is a step of a bounded queue: it appends an entry and there is room for it, it hands out the oldest
      entry, or it changes nothing. */
  lemma RefinesQueue(s: State, a: Action)
    requires FifoInv(s) && Enabled(s, a) && NonBlocking(a)
    ensures FifoInv(Next(s, a))
    ensures var s', q := Next(s, a), Queue(s);
            || (s'.delivered == s.delivered && Queue(s') == q)
            || (s'.delivered == s.delivered && a.Step? && s.pcs[a.t].Claimed? && Queue(s') == q + [s.pcs[a.t].x])
            || (q != [] && Queue(s') == q[1..] && Entries(s'.delivered) == Entries(s.delivered) + [q[0]])
  {
    FifoNext(s, a);
    var s' := Next(s, a);
    assert a.Step? ==> ThreadOk(s, a.t);
    if |s'.delivered| > |s.delivered| {
      assert s'.delivered == s.delivered + [s'.delivered[|s.delivered|]];
      assert s'.accepted == s.accepted;
    }
  }

  function Slots(d: nat, e: nat, n: nat): set<nat>
    requires 0 < n
    decreases e - d
  {
    if d >= e then {} else {Home(d, n)} + Slots(d + 1, e, n)
  }

  lemma {:induction false} InSlots(d: nat, e: nat, n: nat, i: nat)
    requires 0 < n && i in Slots(d, e, n)
    ensures exists k :: d <= k < e && Home(k, n) == i
    decreases e - d
  {
    if i != Home(d, n) { InSlots(d + 1, e, n, i); }
  }

  lemma {:induction false} NotInSlots(d: nat, e: nat, n: nat, i: nat)
    requires 0 < n && (forall k :: d <= k < e ==> Home(k, n) != i)
    ensures i !in Slots(d, e, n)
    decreases e - d
  {
    if d < e { NotInSlots(d + 1, e, n, i); }
  }

  lemma {:induction false} SlotsCount(s: State, d: nat)
    requires FifoInv(s) && |s.delivered| <= d <= |s.accepted|
    ensures |Slots(d, |s.accepted|, |s.slots|)| == |s.accepted| - d
    decreases |s.accepted| - d
  {
    hide Home;
    if d < |s.accepted| {
      SlotsCount(s, d + 1);
      assert PlaceOk(s, d);
      forall k | d + 1 <= k < |s.accepted| ensures Home(k, |s.slots|) != Home(d, |s.slots|) { assert PlaceOk(s, k); }
      NotInSlots(d + 1, |s.accepted|, |s.slots|, Home(d, |s.slots|));
    }
  }

  lemma {:induction false} AtMost(a: set<nat>, n: nat)
    requires forall i :: i in a ==> i < n
    ensures |a| <= n
  {
    if n == 0 {
      assert a == {};
    } else {
      AtMost(a - {n - 1}, n - 1);
    }
  }

  /** At most as many entries are outstanding (accepted and not yet released) as there are slots. */
  lemma Bounded(s: State)
    requires FifoInv(s)
    ensures |Queue(s)| + |s.out| <= |s.slots|
  {
    var n := |s.slots|;
    var live := Slots(|s.delivered|, |s.accepted|, n);
    SlotsCount(s, |s.delivered|);
    forall i | i in live ensures i < n && i !in s.out {
      InSlots(|s.delivered|, |s.accepted|, n, i);
      var k :| |s.delivered| <= k < |s.accepted| && Home(k, n) == i;
      assert PlaceOk(s, k) && SlotOk(s, i);
    }
    AtMost(live + s.out, n);
    assert |live + s.out| == |live| + |s.out|;
  }

  /** Two numbers with the same remainder are a multiple of the modulus apart. */
  lemma Laps(k: nat, e: nat, n: nat)
    requires 0 < n && k < e && Home(k, n) == Home(e, n)
    ensures k + n <= e
  {
    var q := e / n - k / n;
    assert n * q == e - k;
    assert q <= 0 ==> n * q <= 0;
    assert q >= 1 ==> n * q >= n;
  }

  lemma NextLap(k: nat, n: nat)
    requires 0 < n
    ensures Home(k + n, n) == Home(k, n)
  {
    ModIs(n, k / n + 1, k % n);
    assert k + n == n * (k / n + 1) + k % n by { assert n * (k / n + 1) == n * (k / n) + n; }
  }

  ghost predicate AtRest(s: State) {
    s.out == {} && forall t :: 0 <= t < |s.pcs| ==> s.pcs[t].Idle?
  }

  lemma RestingSlot(s: State, i: nat)
    requires FifoInv(s) && AtRest(s) && i < |s.slots|
    ensures s.phase[i].Free? || s.phase[i].Ready?
    ensures s.slots[i].status == if s.phase[i].Ready? then FLAG_OWN else 0
    ensures s.phase[i].Ready? ==> |s.delivered| <= s.ticket[i] < |s.accepted| && Home(s.ticket[i], |s.slots|) == i
  {
    assert SlotOk(s, i) && TicketOk(s, i);
  }

  /** When no operation is under way and every buffer has been released, an enqueue is turned away only by a full
      queue, and a dequeue only by an empty one. */
  lemma ExactAtRest(s: State)
    requires FifoInv(s) && AtRest(s)
    ensures s.slots[s.enq].status == 0 <==> |Queue(s)| < |s.slots|
    ensures s.slots[s.deq].status == FLAG_OWN <==> Queue(s) != []
  {
    var n, d, e := |s.slots|, |s.delivered|, |s.accepted|;
    Bounded(s);
    RestingSlot(s, s.enq);
    RestingSlot(s, s.deq);
    NextLap(d, n);
    hide Inv, Home;
    if e > d { assert PlaceOk(s, d); }
    if s.phase[s.enq].Ready? { Laps(s.ticket[s.enq], e, n); }
  }

  lemma {:induction false} FifoRun(s: State, acts: seq<Action>, s': State)
    requires FifoInv(s) && Reaches(s, acts, s') && (forall a :: a in acts ==> NonBlocking(a))
    ensures FifoInv(s')
    decreases |acts|
  {
    if acts != [] {
      FifoNext(s, acts[0]);
      FifoRun(Next(s, acts[0]), acts[1..], s');
    }
  }

  lemma InitFifo(n: nat, size: nat, threads: nat)
    requires 0 < n
    ensures FifoInv(Init(n, size, threads))
  {
  }

  /** Slot `i` still holds what some dequeue from it returned. */
  ghost predicate Delivers(s: State, n: nat, i: nat)
    requires 0 < n == |s.slots| && i < n
  {
    exists k :: 0 <= k < |s.delivered| && Home(k, n) == i && s.slots[i].content == s.delivered[k].entry
  }

  /** In every interleaving of any number of non-blocking producers and consumers: the k-th successful dequeue
      returned the entry of the k-th successful enqueue, at most as many entries are outstanding as the ring has
      slots, and a buffer handed out still holds what its dequeue returned. */
  lemma Fifo(n: nat, size: nat, threads: nat, acts: seq<Action>, s: State)
    requires 0 < n
    requires Reaches(Init(n, size, threads), acts, s) && (forall a :: a in acts ==> NonBlocking(a))
    ensures Entries(s.delivered) <= s.accepted
    ensures |s.accepted| - |s.delivered| + |s.out| <= n == |s.slots|
    ensures forall i :: i in s.out ==> i < n && Delivers(s, n, i)
  {
    var s0 := Init(n, size, threads);
    InitFifo(n, size, threads);
    FifoRun(s0, acts, s);
    SameSize(s0, acts, s);
    Bounded(s);
    forall i | i in s.out ensures i < n && Delivers(s, n, i) {
      assert SlotOk(s, i) && TicketOk(s, i);
    }
  }

  lemma NextSize(s: State, a: Action)
    requires Inv(s) && Enabled(s, a)
    ensures |Next(s, a).slots| == |s.slots|
  {
    assert a.Step? ==> ThreadOk(s, a.t);
  }

  lemma {:induction false} SameSize(s: State, acts: seq<Action>, s': State)
    requires Inv(s) && Reaches(s, acts, s')
    ensures |s'.slots| == |s.slots|
    decreases |acts|
  {
    if acts != [] {
      NextSize(s, acts[0]);
      NextKeeps(s, acts[0]);
      SameSize(Next(s, acts[0]), acts[1..], s');
    }
  }
}