/** The NULL-slotted ring through which maintenance hands items to the worker. */
module CleanupRing {
  import opened Wrappers
  import opened LogLayout

  lemma ModOnce(x: nat, n: nat)
    requires 0 < n && x < 2 * n
    ensures x % n == if x < n then x else x - n
  {
    if n <= x {
      assert x == n * 1 + (x - n);
      assert x / n == 1;
    }
  }

  /** How far position `j` lies behind the head. */
  function Behind(head: nat, j: nat, n: nat): nat
    requires head < n && j < n
  {
    if head <= j then j - head else j + n - head
  }

  function SlotOf(head: nat, queue: seq<Addr>, j: nat, n: nat): Option<Addr>
    requires head < n && j < n
  {
    var d := Behind(head, j, n);
    if d < |queue| then Some(queue[d]) else None
  }

  /** The ring holds `queue`, oldest at `head`; all other slots are NULL. */
  ghost predicate RingOk(ring: seq<Option<Addr>>, head: nat, tail: nat, queue: seq<Addr>) {
    && head < |ring| && tail < |ring| && |queue| <= |ring|
    && (tail == head + |queue| || tail + |ring| == head + |queue|)
    && (forall j :: 0 <= j < |ring| ==> ring[j] == SlotOf(head, queue, j, |ring|))
  }

  lemma RingCleared(ring: seq<Option<Addr>>)
    requires 0 < |ring|
    ensures RingOk(ring, 0, 0, []) <==> forall i :: 0 <= i < |ring| ==> ring[i].None?
  {
  }

  lemma RingPush(ring: seq<Option<Addr>>, head: nat, tail: nat, queue: seq<Addr>, a: Addr)
    requires RingOk(ring, head, tail, queue) && ring[tail] == None
    ensures |queue| < |ring|
    ensures RingOk(ring[tail := Some(a)], head, (tail + 1) % |ring|, queue + [a])
  {
    ModOnce(tail + 1, |ring|);
  }

  lemma RingPop(ring: seq<Option<Addr>>, head: nat, tail: nat, queue: seq<Addr>)
    requires RingOk(ring, head, tail, queue) && ring[head].Some?
    ensures queue != [] && ring[head] == Some(queue[0])
    ensures RingOk(ring[head := None], (head + 1) % |ring|, tail, queue[1..])
  {
    ModOnce(head + 1, |ring|);
  }

  lemma RingEnds(ring: seq<Option<Addr>>, head: nat, tail: nat, queue: seq<Addr>)
    requires RingOk(ring, head, tail, queue)
    ensures head < |ring| && tail < |ring| && |queue| <= |ring|
    ensures ring[head].None? <==> queue == []
    ensures ring[tail].None? <==> |queue| < |ring|
  {
  }
}
