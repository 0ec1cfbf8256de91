/** The emitted code over shared memory: each method is one atomic step of one thread, and any schedule of them is a
    run of the protocol. */
module RingCode {
  import opened Wrappers
  import opened RingProtocol
  import opened RingFifo

  /** __sync_bool_compare_and_swap32 on the status of a slot */
  method CasStatus(data: array<Slot>, i: nat, was: bv8, status: bv8) returns (ok: bool)
    requires i < data.Length
    modifies data
    ensures ok <==> old(data[i].status) == was
    ensures data[..] == if ok then old(data[..])[i := old(data[i]).(status := status)] else old(data[..])
  {
    ok := data[i].status == was;
    if ok { data[i] := data[i].(status := status); }
  }

  method SetStatus(data: array<Slot>, i: nat, status: bv8)
    requires i < data.Length
    modifies data
    ensures data[..] == old(data[..])[i := old(data[i]).(status := status)]
  {
    data[i] := data[i].(status := status);
  }

  method SetPc(pcs: array<Pc>, t: nat, pc: Pc)
    requires t < pcs.Length
    modifies pcs
    ensures pcs[..] == old(pcs[..])[t := pc]
  {
    pcs[t] := pc;
  }

  predicate Enqueues(pc: Pc) {
    pc.Try? || pc.Claimed? || pc.BackOut? || pc.Reload? || pc.Advance? || pc.AwaitFree? || pc.Copying?
  }

  class Ring {
    var enqOffset: nat
    var deqOffset: nat
    const size: nat
    const data: array<Slot>
    const pcs: array<Pc>
    /** The buffers that receivers have not released yet. */
    var out: set<nat>
    ghost var now: State

    ghost predicate Valid()
      reads this, data, pcs
    {
      && Inv(now)
      && now.size == size && now.out == out && now.enq == enqOffset && now.deq == deqOffset
      && now.slots == data[..] && now.pcs == pcs[..]
    }

    constructor (n: nat, size: nat, threads: nat)
      requires 0 < n
      ensures Valid() && now == Init(n, size, threads)
      ensures fresh(data) && fresh(pcs) && data.Length == n && pcs.Length == threads
    {
      enqOffset, deqOffset, out := 0, 0, {};
      this.size := size;
      data := new Slot[n](_ => Slot(0, seq(size, _ => 0)));
      pcs := new Pc[threads](_ => Idle);
      now := Init(n, size, threads);
      new;
      assert data[..] == now.slots;
      assert pcs[..] == now.pcs;
    }

    /** __sync_bool_compare_and_swap64 on an offset, (at + 1) % size as the new value */
    method CasEnq(at: nat) returns (ok: bool)
      requires 0 < data.Length
      modifies this`enqOffset
      ensures ok <==> old(enqOffset) == at
      ensures enqOffset == if ok then (at + 1) % data.Length else old(enqOffset)
    {
      ok := enqOffset == at;
      if ok { enqOffset := (at + 1) % data.Length; }
    }

    method CasDeq(at: nat) returns (ok: bool)
      requires 0 < data.Length
      modifies this`deqOffset
      ensures ok <==> old(deqOffset) == at
      ensures deqOffset == if ok then (at + 1) % data.Length else old(deqOffset)
    {
      ok := deqOffset == at;
      if ok { deqOffset := (at + 1) % data.Length; }
    }

    /** The next load, compare-and-set or store of a thread that enqueues. */
    method EnqueueStep(t: nat)
      requires Valid() && t < pcs.Length && Enqueues(pcs[t])
      modifies this, data, pcs
      ensures Valid() && now == StepNext(old(now), t)
    {
      StepKeeps(now, t);
      assert ThreadOk(now, t);
      hide Inv;
      now := StepNext(now, t);
      match pcs[t]
      case Try(x, at) =>
        var ok := CasStatus(data, at, 0, FLAG_INUSE);
        SetPc(pcs, t, if ok then Claimed(x, at) else Idle);
      case Claimed(x, at) =>
        var ok := CasEnq(at);
        SetPc(pcs, t, if ok then Copying(x, at, 0) else BackOut(at));
      case BackOut(at) =>
        SetStatus(data, at, 0);
        SetPc(pcs, t, Idle);
      case Reload(x) => SetPc(pcs, t, Advance(x, enqOffset));
      case Advance(x, at) =>
        var ok := CasEnq(at);
        SetPc(pcs, t, if ok then AwaitFree(x, at) else Reload(x));
      case AwaitFree(x, at) =>
        var ok := CasStatus(data, at, 0, FLAG_INUSE);
        if ok { SetPc(pcs, t, Copying(x, at, 0)); }
      case Copying(x, at, k) =>
        if k < |x| {
          data[at] := data[at].(content := data[at].content[k := x[k]]);
          SetPc(pcs, t, Copying(x, at, k + 1));
        } else {
          SetStatus(data, at, FLAG_OWN);
          SetPc(pcs, t, Idle);
        }
    }

    /** The next load, compare-and-set or store of a thread that dequeues. */
    method DequeueStep(t: nat)
      requires Valid() && t < pcs.Length && !Enqueues(pcs[t])
      modifies this, data, pcs
      ensures Valid() && now == StepNext(old(now), t)
    {
      StepKeeps(now, t);
      assert ThreadOk(now, t);
      hide Inv;
      now := StepNext(now, t);
      match pcs[t]
      case Idle =>
      case TryTake(at) =>
        var ok := CasStatus(data, at, FLAG_OWN, FLAG_BOTH);
        SetPc(pcs, t, if ok then Took(at) else Idle);
      case Took(at) =>
        var ok := CasDeq(at);
        if ok { out := out + {at}; }
        SetPc(pcs, t, if ok then Idle else PutBack(at));
      case PutBack(at) =>
        SetStatus(data, at, FLAG_OWN);
        SetPc(pcs, t, Idle);
      case ReloadTake => SetPc(pcs, t, AdvanceTake(deqOffset));
      case AdvanceTake(at) =>
        var ok := CasDeq(at);
        SetPc(pcs, t, if ok then AwaitOwn(at) else ReloadTake);
      case AwaitOwn(at) =>
        var ok := CasStatus(data, at, FLAG_OWN, FLAG_BOTH);
        if ok {
          out := out + {at};
          SetPc(pcs, t, Idle);
        }
    }

    method Step(t: nat)
      requires Valid() && t < pcs.Length
      modifies this, data, pcs
      ensures Valid() && now == StepNext(old(now), t)
    {
      if Enqueues(pcs[t]) { EnqueueStep(t); } else { DequeueStep(t); }
    }

    /** A thread calls an element; the non-blocking ones read the offset at once. */
    method Begin(t: nat, op: Op)
      requires Valid() && Enabled(now, Action.Begin(t, op))
      modifies this`now, pcs
      ensures Valid() && now == BeginNext(old(now), t, op)
    {
      BeginKeeps(now, t, op);
      now := BeginNext(now, t, op);
      match op
      case TryEnqueue(x) => SetPc(pcs, t, Try(x, enqOffset));
      case Enqueue(x) => SetPc(pcs, t, Reload(x));
      case TryDequeue => SetPc(pcs, t, TryTake(deqOffset));
      case Dequeue => SetPc(pcs, t, ReloadTake);
    }

    method Release(i: nat)
      requires Valid() && i in now.out
      modifies this`now, this`out, data
      ensures Valid() && now == Next(old(now), Action.Release(i))
    {
      ReleaseKeeps(now, i);
      now := Next(now, Action.Release(i));
      SetStatus(data, i, 0);
      out := out - {i};
    }

    method Can(a: Action) returns (can: bool)
      requires Valid()
      ensures can <==> Enabled(now, a)
    {
      match a
      case Begin(t, op) => can := t < pcs.Length && pcs[t].Idle? && (op.TryEnqueue? || op.Enqueue? ==> |op.x| == size);
      case Step(t) => can := t < pcs.Length;
      case Release(i) => can := i in out;
    }

    method Do(a: Action)
      requires Valid() && Enabled(now, a)
      modifies this, data, pcs
      ensures Valid() && now == Next(old(now), a)
    {
      match a
      case Begin(t, op) => Begin(t, op);
      case Step(t) => Step(t);
      case Release(i) => Release(i);
    }
  }

  /** Any schedule: actions that cannot happen are skipped. */
  method Interleave(n: nat, size: nat, threads: nat, schedule: seq<Action>) returns (r: Ring)
    requires 0 < n
    ensures fresh(r) && r.Valid() && Exclusive(r.now) && Conserved(r.now)
    ensures (forall a :: a in schedule ==> NonBlocking(a)) ==>
              Entries(r.now.delivered) <= r.now.accepted && |r.now.accepted| - |r.now.delivered| + |r.now.out| <= n
  {
    r := new Ring(n, size, threads);
    InitBalance(n, size, threads);
    InitFifo(n, size, threads);
    ghost var nonBlocking := forall a :: a in schedule ==> NonBlocking(a);
    for k := 0 to |schedule|
      invariant fresh(r) && fresh(r.data) && fresh(r.pcs) && r.Valid() && Balanced(r.now) && |r.now.slots| == n
      invariant nonBlocking ==> FifoInv(r.now)
    {
      hide Inv, FifoInv, Balanced, Next;
      var a := schedule[k];
      var can := r.Can(a);
      if can {
        NextBalance(r.now, a);
        NextSize(r.now, a);
        if nonBlocking { FifoNext(r.now, a); }
        r.Do(a);
      }
    }
    InvExclusive(r.now);
    InvDelivered(r.now);
    if nonBlocking { Bounded(r.now); }
  }
}