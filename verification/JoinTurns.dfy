/** When the calls that complete a join by themselves come first: exactly when the analysis notices all of them. */
module JoinTurns {
  import opened Wrappers
  import opened Sequences
  import opened FlowCollection
  import opened JoinAnalysis
  import opened JoinRuns
  import opened JoinOrder
  import opened JoinPlan

  /** The firing is that of a node that fires the whole join, or one below it is. */
  ghost predicate Completes(g: Graph, rank: seq<nat>, target: nat, f: Firing)
    requires Acyclic(g, rank) && target < |g| && Legal(g, rank, target, f)
    decreases f
  {
    || Dominant(g, rank, target, f.node)
    || (exists k :: 0 <= k < |f.calls| && f.calls[k].Invoke? && Completes(g, rank, target, f.calls[k].sub))
  }

  /** The k-th call fires the whole join, and saves nothing into the caller's buffer. */
  ghost predicate CompletesAt(g: Graph, rank: seq<nat>, target: nat, f: Firing, k: nat)
    requires Acyclic(g, rank) && target < |g| && Legal(g, rank, target, f) && k < |f.calls|
  {
    && f.calls[k].Invoke? && SavedBy(g, rank, target, f, k) == []
    && Completes(g, rank, target, f.calls[k].sub)
  }

  /** The calls that fire the whole join come before all that save something into the caller's buffer. */
  ghost predicate WholeFirst(g: Graph, rank: seq<nat>, target: nat, f: Firing)
    requires Acyclic(g, rank) && target < |g| && Legal(g, rank, target, f)
  {
    forall j, k :: 0 <= j < |f.calls| && 0 <= k < |f.calls| ==>
      CompletesAt(g, rank, target, f, j) && SavedBy(g, rank, target, f, k) != [] ==> j < k
  }

  ghost predicate AlwaysWholeFirst(g: Graph, rank: seq<nat>, target: nat, v: nat)
    requires Acyclic(g, rank) && target < |g|
  {
    forall f :: Legal(g, rank, target, f) && f.node == v ==> WholeFirst(g, rank, target, f)
  }

  /** If an output delivers something, then each of those that deliver nothing and can complete the join is known to
      do so: some path without choices leads from it to a node that fires the whole join. */
  ghost predicate AllNoticed(g: Graph, rank: seq<nat>, target: nat, v: nat)
    requires Acyclic(g, rank) && target < |g| && v < |g| && Cover(g, rank, target, v).Ok?
  {
    forall i, m :: 0 <= i < |g[v].outs| && 0 <= m < |g[v].outs| && !Delivers(g, rank, target, v, i)
                   && Delivers(g, rank, target, v, m) && CanComplete(g, rank, target, g[v].outs[i].next) ==>
      Noticed(g, rank, target, g[v].outs[i].next)
  }

  // Runs and paths.

  lemma {:induction false} RunHasPath(g: Graph, rank: seq<nat>, target: nat, f: Firing)
    requires Acyclic(g, rank) && target < |g| && Legal(g, rank, target, f) && Completes(g, rank, target, f)
    ensures CanComplete(g, rank, target, f.node)
    decreases f
  {
    if Dominant(g, rank, target, f.node) {
      assert Completing(g, rank, target, f.node, [f.node]);
    } else {
      var k :| 0 <= k < |f.calls| && f.calls[k].Invoke? && Completes(g, rank, target, f.calls[k].sub);
      RunHasPath(g, rank, target, f.calls[k].sub);
      var path :| Completing(g, rank, target, f.calls[k].sub.node, path);
      hide Dominant, Completes;
      Longer(g, rank, target, f.node, f.calls[k].out, path);
    }
  }

  /** One call of a firing is replaced by another call of the same output. */
  lemma Replaced(g: Graph, rank: seq<nat>, target: nat, f: Firing, a: nat, sub: Firing)
    requires Acyclic(g, rank) && target < |g| && Legal(g, rank, target, f) && a < |f.calls|
    requires Legal(g, rank, target, sub) && sub.node == g[f.node].outs[f.calls[a].out].next
    ensures Legal(g, rank, target, Firing(f.node, f.calls[a := Invoke(f.calls[a].out, sub)]))
  {
    hide Ordered;
    var f' := Firing(f.node, f.calls[a := Invoke(f.calls[a].out, sub)]);
    assert forall k :: 0 <= k < |f.calls| ==> f'.calls[k].out == f.calls[k].out;
    assert sub.node != target;
  }

  /** In a graph that can be run, a path to a node that fires the whole join can be run. */
  lemma {:induction false} PathHasRun(g: Graph, rank: seq<nat>, target: nat, roots: seq<nat>, plans: Plans, u: nat,
                                      path: seq<nat>)
    returns (f: Firing)
    requires Acyclic(g, rank) && JoinsApart(g, rank, target) && Planned(g, rank, target, roots, plans)
    requires Reached(g, target, roots, u) && Completing(g, rank, target, u, path)
    ensures f.node == u && Legal(g, rank, target, f) && Completes(g, rank, target, f)
    decreases |path|
  {
    assert target < |g|;
    hide Planned, JoinsApart, Reached, Dominant;
    ReachedIsNode(g, target, roots, u);
    if |path| == 1 {
      f := SomeRun(g, rank, target, roots, plans, u);
    } else {
      assert Leads(g, path[0], path[0 + 1]);
      var i :| 0 <= i < |g[u].outs| && g[u].outs[i].next == path[1];
      NextReached(g, target, roots, u, path[1]);
      Shorter(g, rank, target, u, path);
      var sub := PathHasRun(g, rank, target, roots, plans, path[1], path[1..]);
      f := Through(g, rank, target, roots, plans, u, i, sub);
    }
  }

  /** A firing that takes output `i`. */
  lemma Through(g: Graph, rank: seq<nat>, target: nat, roots: seq<nat>, plans: Plans, u: nat, i: nat, sub: Firing)
    returns (f: Firing)
    requires Acyclic(g, rank) && JoinsApart(g, rank, target) && Planned(g, rank, target, roots, plans)
    requires Reached(g, target, roots, u) && u < |g| && i < |g[u].outs|
    requires Legal(g, rank, target, sub) && sub.node == g[u].outs[i].next && Completes(g, rank, target, sub)
    ensures f.node == u && Legal(g, rank, target, f) && Completes(g, rank, target, f)
  {
    assert target < |g|;
    hide Planned, JoinsApart, Reached, Dominant;
    if g[u].fire.All? {
      var f0 := SomeRun(g, rank, target, roots, plans, u);
      var a := CallOf(g, rank, target, f0, i);
      Replaced(g, rank, target, f0, a, sub);
      f := Firing(u, f0.calls[a := Invoke(i, sub)]);
      assert f.calls[a].Invoke?;
    } else {
      ReachedIsNode(g, target, roots, u);
      f := Firing(u, [Invoke(i, sub)]);
      assert f.calls[0].Invoke?;
    }
  }

  /** A node that fires all its outputs calls each of them. */
  lemma CallOf(g: Graph, rank: seq<nat>, target: nat, f: Firing, i: nat) returns (a: nat)
    requires Acyclic(g, rank) && target < |g| && Legal(g, rank, target, f) && g[f.node].fire.All?
    requires i < |g[f.node].outs|
    ensures a < |f.calls| && f.calls[a].out == i
  {
    hide Ordered;
    var order := seq(|f.calls|, k requires 0 <= k < |f.calls| => f.calls[k].out);
    Pigeonhole(order, |order|, i);
    a :| 0 <= a < |order| && order[a] == i;
  }

  // The theorem.

  lemma CallDelivers(g: Graph, rank: seq<nat>, target: nat, f: Firing, k: nat)
    requires Fires(g, rank, target, f) && k < |f.calls|
    ensures f.calls[k].out < |g[f.node].outs|
    ensures SavedBy(g, rank, target, f, k) != [] <==> Delivers(g, rank, target, f.node, f.calls[k].out)
  {
    CallSaves(g, rank, target, f, k);
    var s := SavedBy(g, rank, target, f, k);
    hide Legal, SavedBy, Ports, Cover, Each, JoinsApart, Clean;
    if s != [] { assert s[0] in s; }
  }

  /** What the analysis notices comes first in every run. */
  lemma NoticedFirst(g: Graph, rank: seq<nat>, target: nat, f: Firing, j: nat, k: nat)
    requires Fires(g, rank, target, f) && g[f.node].fire.All? && j < |f.calls| && k < |f.calls|
    requires f.calls[j].Invoke? && SavedBy(g, rank, target, f, j) == [] && SavedBy(g, rank, target, f, k) != []
    requires Noticed(g, rank, target, f.calls[j].sub.node)
    ensures j < k
  {
    CallDelivers(g, rank, target, f, j);
    CallDelivers(g, rank, target, f, k);
    hide SavedBy, Noticed, Delivers, Ordered, Clean, Cover, JoinsApart;
    NothingOrdered(g, rank, target, f.node, f.calls[j].out, f.calls[k].out);
  }

  /** The call follows the graph. */
  ghost predicate LegalCall(g: Graph, rank: seq<nat>, target: nat, v: nat, c: Call)
    requires Acyclic(g, rank) && target < |g| && v < |g|
  {
    && c.out < |g[v].outs|
    && (c.Save? <==> g[v].outs[c.out].next == target)
    && (c.Wait? ==> var u := g[v].outs[c.out].next; u < |g| && g[u].join)
    && (c.Invoke? ==> c.sub.node == g[v].outs[c.out].next && Legal(g, rank, target, c.sub))
  }

  function Outs(calls: seq<Call>): (outs: seq<nat>)
    ensures |outs| == |calls| && forall k :: 0 <= k < |calls| ==> outs[k] == calls[k].out
  {
    seq(|calls|, k requires 0 <= k < |calls| => calls[k].out)
  }

  lemma LegalIs(g: Graph, rank: seq<nat>, target: nat, f: Firing)
    requires Acyclic(g, rank) && target < |g| && f.node < |g| && f.node != target && g[f.node].fire.All?
    ensures Legal(g, rank, target, f) <==>
            && (forall k :: 0 <= k < |f.calls| ==> LegalCall(g, rank, target, f.node, f.calls[k]))
            && Obeys(g, rank, target, f.node, Outs(f.calls))
  {
    hide Ordered;
    var outs := Outs(f.calls);
    if Legal(g, rank, target, f) {
      forall j, k | 0 <= j < |outs| && 0 <= k < |outs| && Ordered(g, rank, target, f.node, outs[j], outs[k])
        ensures j < k
      {
        assert Ordered(g, rank, target, f.node, f.calls[j].out, f.calls[k].out);
      }
    }
  }

  /** An output that no other has to follow can be called last. */
  lemma LastObeys(g: Graph, rank: seq<nat>, target: nat, v: nat, outs: seq<nat>, a: nat)
    requires Acyclic(g, rank) && target < |g| && v < |g| && Obeys(g, rank, target, v, outs) && a < |outs|
    requires forall x :: 0 <= x < |g[v].outs| ==> !Ordered(g, rank, target, v, outs[a], x)
    ensures Obeys(g, rank, target, v, outs[..a] + outs[a + 1..] + [outs[a]])
  {
    hide Ordered;
    var last, moved := |outs| - 1, outs[..a] + outs[a + 1..] + [outs[a]];
    var was := seq(last + 1, k requires 0 <= k <= last => if k == last then a else if k < a then k else k + 1);
    assert forall k :: 0 <= k <= last ==> moved[k] == outs[was[k]];
    forall j, k | 0 <= j <= last && 0 <= k <= last && Ordered(g, rank, target, v, moved[j], moved[k]) ensures j < k {
      assert was[j] < was[k];
      assert j != last;
    }
  }

  lemma MovedLast(g: Graph, rank: seq<nat>, target: nat, f: Firing, a: nat, sub: Firing)
    requires Acyclic(g, rank) && target < |g| && Legal(g, rank, target, f) && g[f.node].fire.All? && a < |f.calls|
    requires f.calls[a].out < |g[f.node].outs| && sub.node == g[f.node].outs[f.calls[a].out].next
    requires Legal(g, rank, target, sub)
    requires forall x :: 0 <= x < |g[f.node].outs| ==> !Ordered(g, rank, target, f.node, f.calls[a].out, x)
    ensures Legal(g, rank, target,
                  Firing(f.node, f.calls[..a] + f.calls[a + 1..] + [Invoke(f.calls[a].out, sub)]))
  {
    assert f.node != target && sub.node != target && f.node < |g|;
    hide Ordered, Legal, Obeys;
    var c := Invoke(f.calls[a].out, sub);
    var calls, outs := f.calls[..a] + f.calls[a + 1..] + [c], Outs(f.calls);
    LegalIs(g, rank, target, f);
    LastObeys(g, rank, target, f.node, outs, a);
    assert Outs(calls) == outs[..a] + outs[a + 1..] + [outs[a]];
    forall k | 0 <= k < |calls| ensures LegalCall(g, rank, target, f.node, calls[k]) {
      assert calls[k] == if k == |calls| - 1 then c else if k < a then f.calls[k] else f.calls[k + 1];
    }
    LegalIs(g, rank, target, Firing(f.node, calls));
  }

  lemma TooLate(g: Graph, rank: seq<nat>, target: nat, f: Firing, m: nat)
    requires Fires(g, rank, target, f) && g[f.node].fire.All? && m < |g[f.node].outs| && f.calls != []
    requires Delivers(g, rank, target, f.node, m)
    requires var c := f.calls[|f.calls| - 1];
             c.Invoke? && Completes(g, rank, target, c.sub) && !Delivers(g, rank, target, f.node, c.out)
    ensures !WholeFirst(g, rank, target, f)
  {
    var b := CallOf(g, rank, target, f, m);
    var last := |f.calls| - 1;
    CallDelivers(g, rank, target, f, b);
    CallDelivers(g, rank, target, f, last);
    hide SavedBy, Completes, Legal, Delivers, Cover, JoinsApart, Clean;
    assert CompletesAt(g, rank, target, f, last) && !(last < b);
  }

  /** An output that is not known to complete the join, called last. */
  lemma LastCall(g: Graph, rank: seq<nat>, target: nat, f0: Firing, i: nat, sub: Firing) returns (f: Firing)
    requires Fires(g, rank, target, f0) && g[f0.node].fire.All? && i < |g[f0.node].outs|
    requires !Delivers(g, rank, target, f0.node, i) && !Noticed(g, rank, target, g[f0.node].outs[i].next)
    requires Legal(g, rank, target, sub) && sub.node == g[f0.node].outs[i].next
    ensures f.node == f0.node && Legal(g, rank, target, f)
    ensures f.calls != [] && f.calls[|f.calls| - 1] == Invoke(i, sub)
  {
    var v := f0.node;
    assert v != target;
    hide JoinsApart, Noticed, Delivers, Ordered, Legal, Cover, Clean;
    var a := CallOf(g, rank, target, f0, i);
    forall x | 0 <= x < |g[v].outs| ensures !Ordered(g, rank, target, v, i, x) {
      NothingOrdered(g, rank, target, v, i, x);
    }
    MovedLast(g, rank, target, f0, a, sub);
    f := Firing(v, f0.calls[..a] + f0.calls[a + 1..] + [Invoke(i, sub)]);
  }

  /** What it does not notice can come last. */
  lemma UnnoticedLast(g: Graph, rank: seq<nat>, target: nat, roots: seq<nat>, plans: Plans, v: nat, i: nat, m: nat)
    returns (f: Firing)
    requires CleanAt(g, rank, target, v) && g[v].fire.All? && Planned(g, rank, target, roots, plans)
    requires Reached(g, target, roots, v) && i < |g[v].outs| && m < |g[v].outs|
    requires !Delivers(g, rank, target, v, i) && Delivers(g, rank, target, v, m)
    requires CanComplete(g, rank, target, g[v].outs[i].next) && !Noticed(g, rank, target, g[v].outs[i].next)
    ensures f.node == v && Legal(g, rank, target, f) && !WholeFirst(g, rank, target, f)
  {
    var u := g[v].outs[i].next;
    OutputIs(g, rank, target, v, i);
    assert target < |g|;
    hide Planned, JoinsApart, Reached, Cover, Noticed, Delivers, Clean, Ordered, Legal, Completes, Completing;
    assert Leads(g, v, u);
    NextReached(g, target, roots, v, u);
    var path :| Completing(g, rank, target, u, path);
    var sub := PathHasRun(g, rank, target, roots, plans, u, path);
    var f0 := SomeRun(g, rank, target, roots, plans, v);
    f := LastCall(g, rank, target, f0, i, sub);
    TooLate(g, rank, target, f, m);
  }

  /** For every element that fires all its outputs, in a graph that the analysis accepts and whose calls are planned:
      in all its legal firings the calls that fire the whole join come before those that save something into its own
      buffer, if and only if it delivers nothing, or each output that delivers nothing and leads to a node that fires
      the whole join leads to one without a choice. */
  lemma WholeFirstIff(g: Graph, rank: seq<nat>, target: nat, roots: seq<nat>, plans: Plans, v: nat)
    requires Acyclic(g, rank) && JoinsApart(g, rank, target) && (forall k :: 0 <= k < |roots| ==> roots[k] < |g|)
    requires Accepted(g, rank, target, roots) && Planned(g, rank, target, roots, plans)
    requires Reached(g, target, roots, v) && v < |g| && g[v].fire.All?
    ensures Cover(g, rank, target, v).Ok?
    ensures AlwaysWholeFirst(g, rank, target, v) <==> AllNoticed(g, rank, target, v)
  {
    ReachedClean(g, rank, target, roots, v);
    hide Planned, Accepted, Reached, Cover, Clean, JoinsApart, Noticed, Delivers, CanComplete, SavedBy, WholeFirst;
    if AllNoticed(g, rank, target, v) {
      forall f | Legal(g, rank, target, f) && f.node == v ensures WholeFirst(g, rank, target, f) {
        NoticedAllFirst(g, rank, target, f);
      }
    } else {
      var i, m :| 0 <= i < |g[v].outs| && 0 <= m < |g[v].outs| && !Delivers(g, rank, target, v, i)
        && Delivers(g, rank, target, v, m) && CanComplete(g, rank, target, g[v].outs[i].next)
        && !Noticed(g, rank, target, g[v].outs[i].next);
      var f := UnnoticedLast(g, rank, target, roots, plans, v, i, m);
    }
  }

  lemma NoticedAllFirst(g: Graph, rank: seq<nat>, target: nat, f: Firing)
    requires Fires(g, rank, target, f) && g[f.node].fire.All? && AllNoticed(g, rank, target, f.node)
    ensures WholeFirst(g, rank, target, f)
  {
    hide Cover, Clean, JoinsApart, Noticed, Delivers, CanComplete, SavedBy, Completes;
    forall j, k | 0 <= j < |f.calls| && 0 <= k < |f.calls| && CompletesAt(g, rank, target, f, j)
                  && SavedBy(g, rank, target, f, k) != []
      ensures j < k
    {
      CallDelivers(g, rank, target, f, j);
      CallDelivers(g, rank, target, f, k);
      RunHasPath(g, rank, target, f.calls[j].sub);
      NoticedFirst(g, rank, target, f, j, k);
    }
  }
}
