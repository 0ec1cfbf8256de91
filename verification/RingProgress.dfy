/** When the operations of the ring succeed: an enqueue or dequeue gives up only for a reason, and one that runs alone
    succeeds exactly when the queue has room, or an entry. */
module RingProgress {
  import opened Wrappers
  import opened RingProtocol
  import opened RingFifo

  /** At position `k` of the run thread `t` takes a step, in state `u`. */
  ghost predicate StepsAt(s: State, acts: seq<Action>, t: nat, k: nat, u: State)
    requires Inv(s)
  {
    k < |acts| && acts[k] == Step(t) && Reaches(s, acts[..k], u)
  }

  /** The actions of the run other than those of thread `t` begin no operation of `t`. */
  predicate OneOperation(acts: seq<Action>, t: nat) {
    forall i :: 0 <= i < |acts| ==> !(acts[i].Begin? && acts[i].t == t)
  }

  lemma {:induction false} ReachedKeeps(s: State, acts: seq<Action>, s': State)
    requires Inv(s) && Reaches(s, acts, s')
    ensures Inv(s') && |s'.pcs| == |s.pcs| && |s'.slots| == |s.slots| && s'.size == s.size
    decreases |acts|
  {
    if acts != [] {
      NextKeeps(s, acts[0]);
      NextShape(s, acts[0]);
      ReachedKeeps(Next(s, acts[0]), acts[1..], s');
    }
  }

  lemma NextShape(s: State, a: Action)
    requires Inv(s) && Enabled(s, a)
    ensures var s' := Next(s, a); |s'.pcs| == |s.pcs| && |s'.slots| == |s.slots| && s'.size == s.size
    ensures forall t :: 0 <= t < |s.pcs| && a != Step(t) && !(a.Begin? && a.t == t) ==> Next(s, a).pcs[t] == s.pcs[t]
  {
    if a.Step? {
      StepShaped(s, a.t);
      StepTouches(s, a.t);
    }
  }

  /** A moment of the rest of a run is a moment of the run. */
  lemma StepsLater(s: State, acts: seq<Action>, t: nat, k: nat, u: State)
    requires Inv(s) && acts != [] && Enabled(s, acts[0]) && Inv(Next(s, acts[0]))
    requires StepsAt(Next(s, acts[0]), acts[1..], t, k, u)
    ensures StepsAt(s, acts, t, k + 1, u)
  {
    assert acts[..k + 1][1..] == acts[1..][..k] && acts[..k + 1][0] == acts[0];
  }

  lemma StepsNow(s: State, acts: seq<Action>, t: nat)
    requires Inv(s) && acts != [] && acts[0] == Step(t)
    ensures StepsAt(s, acts, t, 0, s)
  {
    assert acts[..0] == [];
  }

  /** In the state `u` the next step of the thread publishes the entry. */
  ghost predicate Publishes(u: State, t: nat, x: Entry)
    requires Inv(u)
  {
    t < |u.pcs| && Next(u, Step(t)).published == u.published + [x]
  }

  /** ... accepts it: the offset moves past its slot. */
  ghost predicate Accepts(u: State, t: nat, x: Entry)
    requires Inv(u)
  {
    t < |u.pcs| && Next(u, Step(t)).accepted == u.accepted + [x]
  }

  /** ... delivers what is in slot `i`. */
  ghost predicate HandsOut(u: State, t: nat, i: nat)
    requires Inv(u)
  {
    && t < |u.pcs| && i < |u.slots|
    && Entries(Next(u, Step(t)).delivered) == Entries(u.delivered) + [u.slots[i].content]
    && Next(u, Step(t)).out == u.out + {i}
  }

  ghost predicate SomePublish(s: State, acts: seq<Action>, t: nat, x: Entry)
    requires Inv(s)
  {
    exists k, u :: StepsAt(s, acts, t, k, u) && Inv(u) && Publishes(u, t, x)
  }

  ghost predicate SomeAccept(s: State, acts: seq<Action>, t: nat, x: Entry)
    requires Inv(s)
  {
    exists k, u :: StepsAt(s, acts, t, k, u) && Inv(u) && Accepts(u, t, x)
  }

  ghost predicate SomeHandOut(s: State, acts: seq<Action>, t: nat, i: nat)
    requires Inv(s)
  {
    exists k, u :: StepsAt(s, acts, t, k, u) && Inv(u) && HandsOut(u, t, i)
  }

  /** The thread looked at slot `at` when it was not free, or at the offset when it was no longer `at`. */
  ghost predicate EnqueueExcused(s: State, acts: seq<Action>, t: nat, x: Entry, at: nat)
    requires Inv(s)
  {
    exists k, u :: StepsAt(s, acts, t, k, u) && t < |u.pcs| && at < |u.slots|
      && ((u.pcs[t] == Try(x, at) && u.slots[at].status != 0) || (u.pcs[t] == Claimed(x, at) && u.enq != at))
  }

  ghost predicate DequeueExcused(s: State, acts: seq<Action>, t: nat, at: nat)
    requires Inv(s)
  {
    exists k, u :: StepsAt(s, acts, t, k, u) && t < |u.pcs| && at < |u.slots|
      && ((u.pcs[t] == TryTake(at) && u.slots[at].status != FLAG_OWN) || (u.pcs[t] == Took(at) && u.deq != at))
  }

  /** A thread that has begun to copy goes on until it has published. */
  lemma {:induction false} CopyEnds(s: State, acts: seq<Action>, s': State, t: nat)
    requires Inv(s) && Reaches(s, acts, s') && OneOperation(acts, t) && t < |s.pcs| && t < |s'.pcs|
    requires s.pcs[t].Copying? && s'.pcs[t].Idle?
    ensures SomePublish(s, acts, t, s.pcs[t].x)
    decreases |acts|
  {
    var a, s1, x := acts[0], Next(s, acts[0]), s.pcs[t].x;
    NextKeeps(s, a);
    NextShape(s, a);
    assert ThreadOk(s, t);
    if a == Step(t) && s.pcs[t].k == |x| {
      StepsNow(s, acts, t);
      assert Publishes(s, t, x);
    } else {
      CopyEnds(s1, acts[1..], s', t);
      var k, u :| StepsAt(s1, acts[1..], t, k, u) && Inv(u) && Publishes(u, t, x);
      StepsLater(s, acts, t, k, u);
    }
  }

  lemma {:induction false} ClaimedEnds(s: State, acts: seq<Action>, s': State, t: nat, x: Entry, at: nat)
    requires Inv(s) && Reaches(s, acts, s') && OneOperation(acts, t) && t < |s.pcs| && t < |s'.pcs|
    requires s.pcs[t] == Claimed(x, at) && s'.pcs[t].Idle?
    ensures (SomeAccept(s, acts, t, x) && SomePublish(s, acts, t, x)) || EnqueueExcused(s, acts, t, x, at)
    decreases |acts|
  {
    var a, s1 := acts[0], Next(s, acts[0]);
    NextKeeps(s, a);
    NextShape(s, a);
    assert ThreadOk(s, t);
    if a == Step(t) {
      StepsNow(s, acts, t);
      if s.enq == at {
        assert Accepts(s, t, x);
        CopyEnds(s1, acts[1..], s', t);
        PublishLater(s, acts, t, x);
      }
    } else {
      ClaimedEnds(s1, acts[1..], s', t, x, at);
      EnqueueLater(s, acts, t, x, at);
    }
  }

  lemma PublishLater(s: State, acts: seq<Action>, t: nat, x: Entry)
    requires Inv(s) && acts != [] && Enabled(s, acts[0]) && Inv(Next(s, acts[0]))
    requires SomePublish(Next(s, acts[0]), acts[1..], t, x)
    ensures SomePublish(s, acts, t, x)
  {
    var k, u :| StepsAt(Next(s, acts[0]), acts[1..], t, k, u) && Inv(u) && Publishes(u, t, x);
    StepsLater(s, acts, t, k, u);
  }

  lemma EnqueueLater(s: State, acts: seq<Action>, t: nat, x: Entry, at: nat)
    requires Inv(s) && acts != [] && Enabled(s, acts[0]) && Inv(Next(s, acts[0]))
    ensures SomePublish(Next(s, acts[0]), acts[1..], t, x) ==> SomePublish(s, acts, t, x)
    ensures SomeAccept(Next(s, acts[0]), acts[1..], t, x) ==> SomeAccept(s, acts, t, x)
    ensures EnqueueExcused(Next(s, acts[0]), acts[1..], t, x, at) ==> EnqueueExcused(s, acts, t, x, at)
  {
    var s1 := Next(s, acts[0]);
    if SomePublish(s1, acts[1..], t, x) { PublishLater(s, acts, t, x); }
    if SomeAccept(s1, acts[1..], t, x) {
      var k, u :| StepsAt(s1, acts[1..], t, k, u) && Inv(u) && Accepts(u, t, x);
      StepsLater(s, acts, t, k, u);
    }
    if EnqueueExcused(s1, acts[1..], t, x, at) {
      var k, u :| StepsAt(s1, acts[1..], t, k, u) && t < |u.pcs| && at < |u.slots|
        && ((u.pcs[t] == Try(x, at) && u.slots[at].status != 0) || (u.pcs[t] == Claimed(x, at) && u.enq != at));
      StepsLater(s, acts, t, k, u);
    }
  }

  lemma {:induction false} TryEnds(s: State, acts: seq<Action>, s': State, t: nat, x: Entry, at: nat)
    requires Inv(s) && Reaches(s, acts, s') && OneOperation(acts, t) && t < |s.pcs| && t < |s'.pcs|
    requires s.pcs[t] == Try(x, at) && s'.pcs[t].Idle?
    ensures (SomeAccept(s, acts, t, x) && SomePublish(s, acts, t, x)) || EnqueueExcused(s, acts, t, x, at)
    decreases |acts|
  {
    var a, s1 := acts[0], Next(s, acts[0]);
    NextKeeps(s, a);
    NextShape(s, a);
    assert ThreadOk(s, t);
    if a == Step(t) {
      StepsNow(s, acts, t);
      if s.slots[at].status == 0 {
        ClaimedEnds(s1, acts[1..], s', t, x, at);
        EnqueueLater(s, acts, t, x, at);
      }
    } else {
      TryEnds(s1, acts[1..], s', t, x, at);
      EnqueueLater(s, acts, t, x, at);
    }
  }

  /** In every interleaving, with operations of any kind: a non-blocking enqueue that is over has had its entry accepted
      and published, unless it found the slot at the offset not free, or the offset no longer where it had read it. */
  lemma TryEnqueueEnds(s: State, t: nat, x: Entry, acts: seq<Action>, s': State)
    requires Inv(s) && Enabled(s, Begin(t, TryEnqueue(x))) && Inv(Next(s, Begin(t, TryEnqueue(x))))
    requires Reaches(Next(s, Begin(t, TryEnqueue(x))), acts, s') && OneOperation(acts, t)
    requires t < |s'.pcs| && s'.pcs[t].Idle?
    ensures var s1 := Next(s, Begin(t, TryEnqueue(x)));
            || (SomeAccept(s1, acts, t, x) && SomePublish(s1, acts, t, x))
            || EnqueueExcused(s1, acts, t, x, s.enq)
  {
    TryEnds(Next(s, Begin(t, TryEnqueue(x))), acts, s', t, x, s.enq);
  }

  lemma DequeueLater(s: State, acts: seq<Action>, t: nat, at: nat)
    requires Inv(s) && acts != [] && Enabled(s, acts[0]) && Inv(Next(s, acts[0]))
    ensures SomeHandOut(Next(s, acts[0]), acts[1..], t, at) ==> SomeHandOut(s, acts, t, at)
    ensures DequeueExcused(Next(s, acts[0]), acts[1..], t, at) ==> DequeueExcused(s, acts, t, at)
  {
    var s1 := Next(s, acts[0]);
    if SomeHandOut(s1, acts[1..], t, at) {
      var k, u :| StepsAt(s1, acts[1..], t, k, u) && Inv(u) && HandsOut(u, t, at);
      StepsLater(s, acts, t, k, u);
    }
    if DequeueExcused(s1, acts[1..], t, at) {
      var k, u :| StepsAt(s1, acts[1..], t, k, u) && t < |u.pcs| && at < |u.slots|
        && ((u.pcs[t] == TryTake(at) && u.slots[at].status != FLAG_OWN) || (u.pcs[t] == Took(at) && u.deq != at));
      StepsLater(s, acts, t, k, u);
    }
  }

  lemma HandsOutNow(u: State, t: nat, i: nat)
    requires Inv(u) && t < |u.pcs| && i < |u.slots|
    requires (u.pcs[t] == Took(i) && u.deq == i) || (u.pcs[t] == AwaitOwn(i) && u.slots[i].status == FLAG_OWN)
    ensures HandsOut(u, t, i)
  {
    assert ThreadOk(u, t) && SlotOk(u, i);
    var d := Delivery(u.phase[i].id, u.slots[i].content);
    assert Next(u, Step(t)).delivered == u.delivered + [d];
  }

  lemma {:induction false} TakeEnds(s: State, acts: seq<Action>, s': State, t: nat, at: nat)
    requires Inv(s) && Reaches(s, acts, s') && OneOperation(acts, t) && t < |s.pcs| && t < |s'.pcs|
    requires (s.pcs[t] == TryTake(at) || s.pcs[t] == Took(at)) && s'.pcs[t].Idle?
    ensures SomeHandOut(s, acts, t, at) || DequeueExcused(s, acts, t, at)
    decreases |acts|
  {
    var a, s1 := acts[0], Next(s, acts[0]);
    NextKeeps(s, a);
    NextShape(s, a);
    assert ThreadOk(s, t);
    if a == Step(t) && (if s.pcs[t].Took? then true else s.slots[at].status != FLAG_OWN) {
      StepsNow(s, acts, t);
      if s.pcs[t].Took? && s.deq == at { HandsOutNow(s, t, at); }
    } else {
      TakeEnds(s1, acts[1..], s', t, at);
      DequeueLater(s, acts, t, at);
    }
  }

  /** Likewise a non-blocking dequeue: it has been given the buffer at the offset, unless it found no entry there, or
      the offset no longer where it had read it. */
  lemma TryDequeueEnds(s: State, t: nat, acts: seq<Action>, s': State)
    requires Inv(s) && Enabled(s, Begin(t, TryDequeue)) && Inv(Next(s, Begin(t, TryDequeue)))
    requires Reaches(Next(s, Begin(t, TryDequeue)), acts, s') && OneOperation(acts, t)
    requires t < |s'.pcs| && s'.pcs[t].Idle?
    ensures var s1 := Next(s, Begin(t, TryDequeue));
            SomeHandOut(s1, acts, t, s.deq) || DequeueExcused(s1, acts, t, s.deq)
  {
    TakeEnds(Next(s, Begin(t, TryDequeue)), acts, s', t, s.deq);
  }

  lemma {:induction false} WaitEnds(s: State, acts: seq<Action>, s': State, t: nat, x: Entry)
    requires Inv(s) && Reaches(s, acts, s') && OneOperation(acts, t) && t < |s.pcs| && t < |s'.pcs|
    requires s.pcs[t].Reload? || s.pcs[t].Advance? || s.pcs[t].AwaitFree?
    requires s.pcs[t].x == x && s'.pcs[t].Idle?
    ensures SomePublish(s, acts, t, x)
    decreases |acts|
  {
    var a, s1 := acts[0], Next(s, acts[0]);
    NextKeeps(s, a);
    NextShape(s, a);
    assert ThreadOk(s, t);
    if s1.pcs[t].Copying? { CopyEnds(s1, acts[1..], s', t); } else { WaitEnds(s1, acts[1..], s', t, x); }
    PublishLater(s, acts, t, x);
  }

  /** A blocking enqueue is over only when it has published its entry. */
  lemma EnqueueEnds(s: State, t: nat, x: Entry, acts: seq<Action>, s': State)
    requires Inv(s) && Enabled(s, Begin(t, Enqueue(x))) && Inv(Next(s, Begin(t, Enqueue(x))))
    requires Reaches(Next(s, Begin(t, Enqueue(x))), acts, s') && OneOperation(acts, t)
    requires t < |s'.pcs| && s'.pcs[t].Idle?
    ensures SomePublish(Next(s, Begin(t, Enqueue(x))), acts, t, x)
  {
    WaitEnds(Next(s, Begin(t, Enqueue(x))), acts, s', t, x);
  }

  lemma {:induction false} WaitTakeEnds(s: State, acts: seq<Action>, s': State, t: nat)
    requires Inv(s) && Reaches(s, acts, s') && OneOperation(acts, t) && t < |s.pcs| && t < |s'.pcs|
    requires (s.pcs[t].ReloadTake? || s.pcs[t].AdvanceTake? || s.pcs[t].AwaitOwn?) && s'.pcs[t].Idle?
    ensures exists i :: SomeHandOut(s, acts, t, i)
    decreases |acts|
  {
    var a, s1 := acts[0], Next(s, acts[0]);
    NextKeeps(s, a);
    NextShape(s, a);
    assert ThreadOk(s, t);
    if s1.pcs[t].Idle? {
      StepsNow(s, acts, t);
      HandsOutNow(s, t, s.pcs[t].at);
      assert SomeHandOut(s, acts, t, s.pcs[t].at);
    } else {
      WaitTakeEnds(s1, acts[1..], s', t);
      var i :| SomeHandOut(s1, acts[1..], t, i);
      DequeueLater(s, acts, t, i);
    }
  }

  /** A blocking dequeue is over only when it has been given a buffer. */
  lemma DequeueEnds(s: State, t: nat, acts: seq<Action>, s': State)
    requires Inv(s) && Enabled(s, Begin(t, Dequeue)) && Inv(Next(s, Begin(t, Dequeue)))
    requires Reaches(Next(s, Begin(t, Dequeue)), acts, s') && OneOperation(acts, t)
    requires t < |s'.pcs| && s'.pcs[t].Idle?
    ensures exists i :: SomeHandOut(Next(s, Begin(t, Dequeue)), acts, t, i)
  {
    WaitTakeEnds(Next(s, Begin(t, Dequeue)), acts, s', t);
  }

  // A thread on its own.

  function Steps(t: nat, n: nat): seq<Action> {
    seq(n, _ => Step(t))
  }

  lemma StepsFirst(s: State, t: nat, n: nat, s': State)
    requires Inv(s) && t < |s.pcs| && Inv(StepNext(s, t)) && Reaches(StepNext(s, t), Steps(t, n), s')
    ensures Reaches(s, Steps(t, n + 1), s')
  {
    assert Steps(t, n + 1)[1..] == Steps(t, n) && Steps(t, n + 1)[0] == Step(t);
  }

  /** The thread begins the operation, and takes `n` steps while nobody else does anything. */
  ghost predicate Alone(s: State, t: nat, op: Op, n: nat, s': State)
    requires Inv(s)
  {
    Reaches(s, [Begin(t, op)] + Steps(t, n), s')
  }

  lemma BeginsAlone(s: State, t: nat, op: Op, n: nat, s': State)
    requires Inv(s) && Enabled(s, Begin(t, op))
    ensures Inv(BeginNext(s, t, op))
    ensures Alone(s, t, op, n, s') <==> Reaches(BeginNext(s, t, op), Steps(t, n), s')
  {
    BeginKeeps(s, t, op);
    var acts := [Begin(t, op)] + Steps(t, n);
    assert acts[0] == Begin(t, op) && acts[1..] == Steps(t, n);
  }

  lemma {:induction false} IdleStays(s: State, t: nat, n: nat, s': State)
    requires Inv(s) && t < |s.pcs| && s.pcs[t].Idle? && Reaches(s, Steps(t, n), s')
    ensures s' == s
  {
    if n > 0 {
      assert Steps(t, n)[1..] == Steps(t, n - 1);
      IdleStays(s, t, n - 1, s');
    }
  }

  lemma {:induction false} CopyAlone(s: State, t: nat) returns (n: nat, s': State)
    requires Inv(s) && t < |s.pcs| && s.pcs[t].Copying?
    ensures Reaches(s, Steps(t, n), s') && s'.published == s.published + [s.pcs[t].x] && s'.accepted == s.accepted
    decreases |s.pcs[t].x| - s.pcs[t].k
  {
    assert ThreadOk(s, t);
    StepKeeps(s, t);
    var s1 := StepNext(s, t);
    if s.pcs[t].k < |s.pcs[t].x| {
      n, s' := CopyAlone(s1, t);
      StepsFirst(s, t, n, s');
      n := n + 1;
    } else {
      n, s' := 1, s1;
      StepsFirst(s, t, 0, s1);
    }
  }

  /** From the moment its slot is its own a lone enqueue succeeds. */
  lemma EnqueueAlone(s: State, t: nat, x: Entry) returns (n: nat, s': State)
    requires Inv(s) && Enabled(s, Begin(t, TryEnqueue(x))) && s.slots[s.enq].status == 0
    ensures Alone(s, t, TryEnqueue(x), n, s')
    ensures s'.accepted == s.accepted + [x] && s'.published == s.published + [x]
  {
    BeginKeeps(s, t, TryEnqueue(x));
    var s1 := BeginNext(s, t, TryEnqueue(x));
    StepKeeps(s1, t);
    var s2 := StepNext(s1, t);
    StepKeeps(s2, t);
    var s3 := StepNext(s2, t);
    n, s' := CopyAlone(s3, t);
    StepsFirst(s2, t, n, s');
    StepsFirst(s1, t, n + 1, s');
    n := n + 2;
    BeginsAlone(s, t, TryEnqueue(x), n, s');
  }

  lemma RefusedAlone(s: State, t: nat, x: Entry, n: nat, s': State)
    requires Inv(s) && Enabled(s, Begin(t, TryEnqueue(x))) && s.slots[s.enq].status != 0
    requires Alone(s, t, TryEnqueue(x), n, s')
    ensures s'.accepted == s.accepted && s'.published == s.published
  {
    BeginsAlone(s, t, TryEnqueue(x), n, s');
    if n > 0 {
      var s1 := BeginNext(s, t, TryEnqueue(x));
      StepKeeps(s1, t);
      assert Steps(t, n)[1..] == Steps(t, n - 1);
      IdleStays(StepNext(s1, t), t, n - 1, s');
    }
  }

  lemma DequeueAlone(s: State, t: nat) returns (n: nat, s': State)
    requires Inv(s) && Enabled(s, Begin(t, TryDequeue)) && s.slots[s.deq].status == FLAG_OWN
    ensures Alone(s, t, TryDequeue, n, s')
    ensures Entries(s'.delivered) == Entries(s.delivered) + [s.slots[s.deq].content]
  {
    BeginKeeps(s, t, TryDequeue);
    var s1 := BeginNext(s, t, TryDequeue);
    StepKeeps(s1, t);
    var s2 := StepNext(s1, t);
    StepKeeps(s2, t);
    n, s' := 2, StepNext(s2, t);
    StepsFirst(s2, t, 0, s');
    StepsFirst(s1, t, 1, s');
    BeginsAlone(s, t, TryDequeue, n, s');
    HandsOutNow(s2, t, s.deq);
  }

  lemma NothingAlone(s: State, t: nat, n: nat, s': State)
    requires Inv(s) && Enabled(s, Begin(t, TryDequeue)) && s.slots[s.deq].status != FLAG_OWN
    requires Alone(s, t, TryDequeue, n, s')
    ensures s'.delivered == s.delivered
  {
    BeginsAlone(s, t, TryDequeue, n, s');
    if n > 0 {
      var s1 := BeginNext(s, t, TryDequeue);
      StepKeeps(s1, t);
      assert Steps(t, n)[1..] == Steps(t, n - 1);
      IdleStays(StepNext(s1, t), t, n - 1, s');
    }
  }

  /** From rest an enqueue that nobody disturbs gets its entry accepted and published if and only if the queue has
      room. */
  lemma RestEnqueue(s: State, t: nat, x: Entry)
    requires FifoInv(s) && AtRest(s) && t < |s.pcs| && |x| == s.size
    ensures |Queue(s)| < |s.slots| <==>
            exists n: nat, s': State ::
              Alone(s, t, TryEnqueue(x), n, s') && s'.accepted == s.accepted + [x] && s'.published == s.published + [x]
  {
    ExactAtRest(s);
    if |Queue(s)| < |s.slots| {
      var n, s' := EnqueueAlone(s, t, x);
    } else {
      forall n: nat, s': State | Alone(s, t, TryEnqueue(x), n, s') ensures s'.accepted == s.accepted {
        RefusedAlone(s, t, x, n, s');
      }
    }
  }

  /** And a dequeue is given the oldest entry if and only if there is one. */
  lemma RestDequeue(s: State, t: nat)
    requires FifoInv(s) && AtRest(s) && t < |s.pcs|
    ensures Queue(s) != [] <==>
            exists n: nat, s': State :: Alone(s, t, TryDequeue, n, s') && |s'.delivered| > |s.delivered|
    ensures Queue(s) != [] ==>
              exists n: nat, s': State ::
                Alone(s, t, TryDequeue, n, s') && Entries(s'.delivered) == Entries(s.delivered) + [Queue(s)[0]]
  {
    ExactAtRest(s);
    if Queue(s) != [] {
      OldestAtRest(s);
      var n, s' := DequeueAlone(s, t);
      assert |s'.delivered| == |Entries(s'.delivered)| == |s.delivered| + 1;
    } else {
      forall n: nat, s': State | Alone(s, t, TryDequeue, n, s') ensures s'.delivered == s.delivered {
        NothingAlone(s, t, n, s');
      }
    }
  }

  lemma OldestAtRest(s: State)
    requires FifoInv(s) && AtRest(s) && Queue(s) != []
    ensures s.slots[s.deq].content == Queue(s)[0]
  {
    ExactAtRest(s);
    assert PlaceOk(s, |s.delivered|) && TicketOk(s, s.deq) && SlotOk(s, s.deq);
    RestingSlot(s, s.deq);
  }

  /** A lone blocking enqueue publishes its entry once the slot at the offset is free, ... */
  lemma BlockingAlone(s: State, t: nat, x: Entry) returns (n: nat, s': State)
    requires Inv(s) && Enabled(s, Begin(t, Enqueue(x))) && s.slots[s.enq].status == 0
    ensures Alone(s, t, Enqueue(x), n, s') && s'.published == s.published + [x]
  {
    BeginKeeps(s, t, Enqueue(x));
    var s1 := BeginNext(s, t, Enqueue(x));
    StepKeeps(s1, t);
    var s2 := StepNext(s1, t);
    StepKeeps(s2, t);
    var s3 := StepNext(s2, t);
    StepKeeps(s3, t);
    n, s' := CopyAlone(StepNext(s3, t), t);
    StepsFirst(s3, t, n, s');
    StepsFirst(s2, t, n + 1, s');
    StepsFirst(s1, t, n + 2, s');
    n := n + 3;
    BeginsAlone(s, t, Enqueue(x), n, s');
  }

  /** ... and a lone blocking dequeue is given the entry there once it is published. */
  lemma BlockingTakeAlone(s: State, t: nat) returns (n: nat, s': State)
    requires Inv(s) && Enabled(s, Begin(t, Dequeue)) && s.slots[s.deq].status == FLAG_OWN
    ensures Alone(s, t, Dequeue, n, s') && Entries(s'.delivered) == Entries(s.delivered) + [s.slots[s.deq].content]
  {
    BeginKeeps(s, t, Dequeue);
    var s1 := BeginNext(s, t, Dequeue);
    StepKeeps(s1, t);
    var s2 := StepNext(s1, t);
    StepKeeps(s2, t);
    var s3 := StepNext(s2, t);
    StepKeeps(s3, t);
    n, s' := 3, StepNext(s3, t);
    StepsFirst(s3, t, 0, s');
    StepsFirst(s2, t, 1, s');
    StepsFirst(s1, t, 2, s');
    BeginsAlone(s, t, Dequeue, n, s');
    HandsOutNow(s3, t, s.deq);
  }
}
