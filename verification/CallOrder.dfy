/** Ordering the output ports of an element so that every join buffer is complete when it is used. */
module CallOrder {
  import opened Wrappers
  import opened Sequences
  import opened FlowCollection
  import opened JoinAnalysis

  /** The pairs lead from each element of the path to the next. */
  ghost predicate IsPath(pairs: Pairs, path: seq<nat>) {
    forall i :: 0 <= i < |path| - 1 ==> (path[i], path[i + 1]) in pairs
  }

  ghost predicate IsCycle(pairs: Pairs, c: seq<nat>) {
    |c| >= 2 && c[0] == c[|c| - 1] && IsPath(pairs, c)
  }

  ghost predicate HasCycle(pairs: Pairs) {
    exists c :: IsCycle(pairs, c)
  }

  /** Successors come before (the order is built back to front). */
  ghost predicate Closed(pairs: Pairs, order: seq<nat>) {
    forall i, b :: 0 <= i < |order| && (order[i], b) in pairs ==> b in order[..i]
  }

  /** All ports, each once, the first of each pair before the second. */
  ghost predicate Sorted(ports: seq<nat>, pairs: Pairs, order: seq<nat>) {
    && Distinct(order) && (forall p :: p in order <==> p in ports)
    && (forall i, j :: 0 <= i < |order| && 0 <= j < |order| && (order[i], order[j]) in pairs ==> i < j)
  }

  lemma SucceededBy(pairs: Pairs, order: seq<nat>, p: nat)
    requires Closed(pairs, order) && forall b :: (p, b) in pairs ==> b in order
    ensures Closed(pairs, order + [p])
  {
    var o := order + [p];
    forall i, b | 0 <= i < |o| && (o[i], b) in pairs ensures b in o[..i] {
      if i < |order| {
        assert b in order[..i] && o[..i] == order[..i];
      } else {
        assert o[..i] == order;
      }
    }
  }

  class Sorter {
    const ports: seq<nat>
    const pairs: Pairs
    var order: seq<nat>
    var visit: seq<nat>

    constructor (ports: seq<nat>, pairs: Pairs)
      ensures this.ports == ports && this.pairs == pairs && order == [] && visit == []
    {
      this.ports, this.pairs, order, visit := ports, pairs, [], [];
    }

    /** `stack` holds the ports whose visit has begun and not ended. */
    ghost predicate Valid(stack: seq<nat>)
      reads this
    {
      && Distinct(order) && Distinct(visit) && Distinct(stack) && IsPath(pairs, stack) && Closed(pairs, order)
      && (forall p :: p in visit <==> p in order || p in stack)
      && (forall p :: p in stack ==> p !in order)
      && (forall p :: p in visit ==> p in ports)
      && |visit| <= |ports|
      && (forall a, b :: (a, b) in pairs ==> b in ports)
    }

    /** topo_sort: false for the exception. */
    method TopoSort(port: nat, ghost stack: seq<nat>) returns (ok: bool)
      requires Valid(stack) && port in ports && (stack != [] ==> (stack[|stack| - 1], port) in pairs)
      modifies this
      ensures ok ==> Valid(stack) && port in order && old(order) <= order && |visit| >= |old(visit)|
      ensures !ok ==> HasCycle(pairs)
      decreases |ports| - |visit|
    {
      if port in order {
        return true;
      }
      if port in visit {
        ghost var i :| 0 <= i < |stack| && stack[i] == port;
        assert IsCycle(pairs, stack[i..] + [port]);
        return false;
      }
      visit := visit + [port];
      FitsIn(visit, ports);
      ghost var path := stack + [port];
      assert Valid(path);
      var k := 0;
      while k < |pairs|
        invariant k <= |pairs| && Valid(path) && old(order) <= order && |visit| > |old(visit)|
        invariant forall j :: 0 <= j < k && pairs[j].0 == port ==> pairs[j].1 in order
      {
        if pairs[k].0 == port {
          ghost var before := order;
          assert pairs[k] in pairs;
          ok := TopoSort(pairs[k].1, path);
          if !ok { return; }
          assert forall p :: p in before ==> p in order;
        }
        k := k + 1;
      }
      forall b | (port, b) in pairs ensures b in order {
        var j :| 0 <= j < |pairs| && pairs[j] == (port, b);
      }
      SucceededBy(pairs, order, port);
      assert port in path;
      order := order + [port];
      ok := true;
    }
  }

  /** order_function_calls: an element without constraints keeps an empty list. */
  method OrderCalls(ports: seq<nat>, pairs: Pairs) returns (r: Result<seq<nat>>)
    requires Distinct(ports) && forall a, b :: (a, b) in pairs ==> a in ports && b in ports
    ensures r.Err? <==> HasCycle(pairs)
    ensures r.Ok? && pairs == [] ==> r.value == []
    ensures r.Ok? && pairs != [] ==> Sorted(ports, pairs, r.value)
  {
    if pairs == [] {
      NoCycle(pairs);
      return Ok([]);
    }
    var s := new Sorter(ports, pairs);
    var i := |ports|;
    while i > 0
      invariant 0 <= i <= |ports| && s.Valid([]) && s.ports == ports && s.pairs == pairs
      invariant forall j :: i <= j < |ports| ==> ports[j] in s.order
    {
      i := i - 1;
      ghost var before := s.order;
      var ok := s.TopoSort(ports[i], []);
      if !ok {
        return Err("cycle in topological sort");
      }
      assert forall p :: p in before ==> p in s.order;
    }
    BackToFront(ports, pairs, s.order);
    CycleFree(ports, pairs, Reverse(s.order));
    r := Ok(Reverse(s.order));
  }

  function Reverse(s: seq<nat>): (r: seq<nat>)
    ensures |r| == |s| && forall i :: 0 <= i < |s| ==> r[i] == s[|s| - 1 - i]
  {
    seq(|s|, i requires 0 <= i < |s| => s[|s| - 1 - i])
  }

  lemma BackToFront(ports: seq<nat>, pairs: Pairs, order: seq<nat>)
    requires Distinct(order) && Closed(pairs, order) && (forall p :: p in order <==> p in ports)
    ensures Sorted(ports, pairs, Reverse(order))
  {
    var r, n := Reverse(order), |order|;
    forall i, j | 0 <= i < n && 0 <= j < n && (r[i], r[j]) in pairs ensures i < j {
      assert r[j] in order[..n - 1 - i];
      var k :| 0 <= k < n - 1 - i && order[k] == order[n - 1 - j];
    }
    forall p ensures p in r <==> p in order {
      if p in order {
        var k :| 0 <= k < n && order[k] == p;
        assert r[n - 1 - k] == p;
      }
    }
  }

  lemma NoCycle(pairs: Pairs)
    requires pairs == []
    ensures !HasCycle(pairs)
  {
    forall c ensures !IsCycle(pairs, c) {
      if |c| >= 2 { assert (c[0], c[0 + 1]) !in pairs; }
    }
  }

  /** A sorted order leaves no room for a cycle: positions grow along a path. */
  lemma CycleFree(ports: seq<nat>, pairs: Pairs, order: seq<nat>)
    requires Sorted(ports, pairs, order) && forall a, b :: (a, b) in pairs ==> a in ports && b in ports
    ensures !HasCycle(pairs)
  {
    forall c | IsCycle(pairs, c) ensures false {
      assert (c[0], c[0 + 1]) in pairs;
      var i :| 0 <= i < |order| && order[i] == c[0];
      Climbs(ports, pairs, order, c, i, |c| - 1);
    }
  }

  lemma {:induction false} Climbs(ports: seq<nat>, pairs: Pairs, order: seq<nat>, c: seq<nat>, i: nat, k: nat)
    requires Sorted(ports, pairs, order) && IsPath(pairs, c) && k < |c| && i < |order| && order[i] == c[0]
    requires forall a, b :: (a, b) in pairs ==> a in ports && b in ports
    ensures exists j :: i + k <= j < |order| && order[j] == c[k]
  {
    if k > 0 {
      Climbs(ports, pairs, order, c, i, k - 1);
      var j :| i + k - 1 <= j < |order| && order[j] == c[k - 1];
      assert (c[k - 1], c[k - 1 + 1]) in pairs;
      var m :| 0 <= m < |order| && order[m] == c[k];
      assert j < m;
    }
  }
}
