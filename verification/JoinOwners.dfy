/** Which graphs are accepted: exactly those in which the buffers of the join can have owners at all. */
module JoinOwners {
  import opened Wrappers
  import opened Sequences
  import opened FlowCollection
  import opened JoinAnalysis
  import opened JoinRuns
  import opened JoinOrder

  /** The call follows the graph. */
  ghost predicate FreeCall(g: Graph, target: nat, v: nat, c: Call)
    requires v < |g|
    decreases c
  {
    && c.out < |g[v].outs|
    && (c.Save? <==> g[v].outs[c.out].next == target)
    && (c.Wait? ==> var u := g[v].outs[c.out].next; u < |g| && g[u].join)
    && (c.Invoke? ==> c.sub.node == g[v].outs[c.out].next && Free(g, target, c.sub))
  }

  /** A firing that calls its outputs in whatever order. */
  ghost predicate Free(g: Graph, target: nat, f: Firing)
    decreases f
  {
    && f.node < |g| && f.node != target
    && (forall k :: 0 <= k < |f.calls| ==> FreeCall(g, target, f.node, f.calls[k]))
    && match g[f.node].fire
       case All =>
         && |f.calls| == |g[f.node].outs|
         && (forall j, k :: 0 <= j < k < |f.calls| ==> f.calls[j].out != f.calls[k].out)
       case One => |f.calls| == if g[f.node].outs == [] then 0 else 1
       case ZeroOrOne => |f.calls| <= 1
       case Multi => true
  }

  /** What a call saves into the buffer its caller works on, if the nodes in `own` bring their own buffers. */
  ghost function Left(g: Graph, target: nat, own: set<nat>, v: nat, c: Call): multiset<nat>
    requires v < |g| && FreeCall(g, target, v, c)
    decreases c, 1
  {
    match c
    case Save(out) => multiset{g[v].outs[out].port}
    case Wait(_) => multiset{}
    case Invoke(_, sub) => if sub.node in own then multiset{} else Saved(g, target, own, sub)
  }

  /** The ports saved into the buffer that the firing works on. */
  ghost function Saved(g: Graph, target: nat, own: set<nat>, f: Firing): multiset<nat>
    requires Free(g, target, f)
    decreases f, |f.calls| + 1
  {
    SavedFirst(g, target, own, f, |f.calls|)
  }

  ghost function SavedFirst(g: Graph, target: nat, own: set<nat>, f: Firing, k: nat): multiset<nat>
    requires Free(g, target, f) && k <= |f.calls|
    decreases f, k
  {
    if k == 0 then multiset{}
    else SavedFirst(g, target, own, f, k - 1) + Left(g, target, own, f.node, f.calls[k - 1])
  }

  /** Each port once. */
  ghost function Once(n: nat): multiset<nat> {
    multiset(Numbers(n))
  }

  /** The nodes in `own` can own the join's buffers: in whatever order outputs are called, and whatever the either-or
      elements choose, each of their firings fills the buffer, every port once, and nothing is saved outside. */
  ghost predicate CanOwn(g: Graph, target: nat, roots: seq<nat>, own: set<nat>)
    requires target < |g|
  {
    forall f :: Free(g, target, f) && Reached(g, target, roots, f.node) ==>
      && (f.node in own ==> Saved(g, target, own, f) == Once(g[target].inports))
      && (f.node in roots && f.node !in own ==> Saved(g, target, own, f) == multiset{})
  }

  // What is accepted has owners: the dominant nodes.

  ghost function Owners(g: Graph, rank: seq<nat>, target: nat, roots: seq<nat>): set<nat>
    requires Acyclic(g, rank) && target < |g|
  {
    set v | 0 <= v < |g| && Reached(g, target, roots, v) && Dominant(g, rank, target, v)
  }

  /** All the ports that the node delivers. */
  ghost function Delivered(g: Graph, rank: seq<nat>, target: nat, v: nat): set<nat>
    requires CleanAt(g, rank, target, v)
  {
    Ports(Cover(g, rank, target, v).value.pieces, g[target].inports)
  }

  ghost function DeliveredBy(g: Graph, rank: seq<nat>, target: nat, v: nat, i: nat): set<nat>
    requires CleanAt(g, rank, target, v) && i < |g[v].outs|
  {
    Ports(Each(g, rank, target, v)[i].pieces, g[target].inports)
  }

  ghost predicate IsAccepted(g: Graph, rank: seq<nat>, target: nat, roots: seq<nat>) {
    && Acyclic(g, rank) && JoinsApart(g, rank, target) && (forall k :: 0 <= k < |roots| ==> roots[k] < |g|)
    && Accepted(g, rank, target, roots)
  }

  lemma OutputDelivers(g: Graph, rank: seq<nat>, target: nat, v: nat, i: nat)
    requires CleanAt(g, rank, target, v) && i < |g[v].outs|
    ensures var u := g[v].outs[i].next;
            && u < |g|
            && (u == target ==> DeliveredBy(g, rank, target, v, i) == {g[v].outs[i].port})
            && (u != target ==>
                  && CleanAt(g, rank, target, u)
                  && (g[u].join ==> DeliveredBy(g, rank, target, v, i) == {})
                  && (DeliveredBy(g, rank, target, v, i) ==
                      if Dominant(g, rank, target, u) then {} else Delivered(g, rank, target, u)))
  {
    var outs, e, l, n := |g[v].outs|, g[v].outs[i], Each(g, rank, target, v)[i], g[target].inports;
    FoldEach(g, rank, target, v, outs, i);
    OutputsAre(g, rank, target, v);
    if e.next != target {
      NextClean(g, rank, target, v, i);
      CoverShape(g, rank, target, e.next);
    }
    ArriveShape(g, rank, target, e.next, e.port, l);
  }

  lemma {:induction false} CallLeaves(g: Graph, rank: seq<nat>, target: nat, roots: seq<nat>, f: Firing, k: nat)
    requires IsAccepted(g, rank, target, roots) && Free(g, target, f) && Reached(g, target, roots, f.node)
    requires CleanAt(g, rank, target, f.node) && k < |f.calls|
    ensures f.calls[k].out < |g[f.node].outs|
    ensures Left(g, target, Owners(g, rank, target, roots), f.node, f.calls[k]) ==
            multiset(DeliveredBy(g, rank, target, f.node, f.calls[k].out))
    decreases f, k
  {
    hide Delivered, DeliveredBy, Clean, Reached, Accepted, Cover;
    var v, c := f.node, f.calls[k];
    OutputDelivers(g, rank, target, v, c.out);
    if c.Invoke? {
      var u := c.sub.node;
      assert Leads(g, v, u) by { assert g[v].outs[c.out].next == u; }
      NextReached(g, target, roots, v, u);
      if !Dominant(g, rank, target, u) { FreeDelivers(g, rank, target, roots, c.sub); }
    }
  }

  /** Sets that are apart, added up. */
  lemma ApartSum(sets: seq<set<nat>>, last: set<nat>)
    requires JoinRuns.Apart(sets + [last])
    ensures multiset(Unions(sets + [last])) == multiset(Unions(sets)) + multiset(last)
  {
    var all := sets + [last];
    assert all[..|all| - 1] == sets;
    forall x | x in last ensures x !in Unions(sets) {
      InUnions(sets, x);
      forall a | 0 <= a < |sets| ensures x !in sets[a] { assert all[a] !! all[|sets|] && all[a] == sets[a]; }
    }
    forall x ensures multiset(Unions(sets) + last)[x] == multiset(Unions(sets))[x] + multiset(last)[x] {}
  }

  ghost function PortsOfCalls(g: Graph, rank: seq<nat>, target: nat, f: Firing): (sets: seq<set<nat>>)
    requires Free(g, target, f) && CleanAt(g, rank, target, f.node)
    ensures |sets| == |f.calls|
  {
    seq(|f.calls|, k requires 0 <= k < |f.calls| =>
      assert FreeCall(g, target, f.node, f.calls[k]); DeliveredBy(g, rank, target, f.node, f.calls[k].out))
  }

  lemma {:induction false} AllDeliver(g: Graph, rank: seq<nat>, target: nat, roots: seq<nat>, f: Firing, k: nat)
    requires IsAccepted(g, rank, target, roots) && Free(g, target, f) && Reached(g, target, roots, f.node)
    requires CleanAt(g, rank, target, f.node) && k <= |f.calls| && JoinRuns.Apart(PortsOfCalls(g, rank, target, f))
    ensures SavedFirst(g, target, Owners(g, rank, target, roots), f, k) ==
            multiset(Unions(PortsOfCalls(g, rank, target, f)[..k]))
    decreases f, k
  {
    hide Delivered, DeliveredBy, Clean, Reached, Accepted, Cover, Owners;
    if k > 0 {
      AllDeliver(g, rank, target, roots, f, k - 1);
      CallLeaves(g, rank, target, roots, f, k - 1);
      var sets := PortsOfCalls(g, rank, target, f);
      assert sets[..k] == sets[..k - 1] + [sets[k - 1]];
      ApartSum(sets[..k - 1], sets[k - 1]);
    }
  }

  lemma CallsDeliver(g: Graph, rank: seq<nat>, target: nat, f: Firing)
    requires Free(g, target, f) && CleanAt(g, rank, target, f.node) && g[f.node].fire.All?
    ensures JoinRuns.Apart(PortsOfCalls(g, rank, target, f))
    ensures Unions(PortsOfCalls(g, rank, target, f)) == Delivered(g, rank, target, f.node)
  {
    hide Clean, Ports, Fold, Cover, Each, UnionOf;
    OutputsAre(g, rank, target, f.node);
    assert forall k :: 0 <= k < |f.calls| ==> FreeCall(g, target, f.node, f.calls[k]);
    var order := seq(|f.calls|, k requires 0 <= k < |f.calls| => f.calls[k].out);
    var n, each, sets := g[target].inports, Each(g, rank, target, f.node), PortsOfCalls(g, rank, target, f);
    var ports := Ports(Cover(g, rank, target, f.node).value.pieces, n);
    assert Permuted(each, n, order, sets);
    PermutedApart(each, ports, n, order, sets);
    PermutedUnion(each, ports, n, order, sets);
  }

  /** In whatever order it calls its outputs, a node saves what its cover says. */
  lemma {:induction false} FreeDelivers(g: Graph, rank: seq<nat>, target: nat, roots: seq<nat>, f: Firing)
    requires IsAccepted(g, rank, target, roots) && Free(g, target, f) && Reached(g, target, roots, f.node)
    requires CleanAt(g, rank, target, f.node)
    ensures Saved(g, target, Owners(g, rank, target, roots), f) == multiset(Delivered(g, rank, target, f.node))
    decreases f, |f.calls| + 1
  {
    hide Clean, Reached, Accepted, Cover, Owners;
    var v, own, m := f.node, Owners(g, rank, target, roots), |f.calls|;
    match g[v].fire
    case All =>
      CallsDeliver(g, rank, target, f);
      AllDeliver(g, rank, target, roots, f, m);
      var sets := PortsOfCalls(g, rank, target, f);
      assert sets[..m] == sets;
    case One =>
      OneDelivers(g, rank, target, v);
      if m == 1 {
        CallLeaves(g, rank, target, roots, f, 0);
        assert SavedFirst(g, target, own, f, 0) == multiset{};
      }
    case _ => NoneDelivered(g, rank, target, roots, f, m);
  }

  lemma OneDelivers(g: Graph, rank: seq<nat>, target: nat, v: nat)
    requires CleanAt(g, rank, target, v) && g[v].fire.One?
    ensures forall i :: 0 <= i < |g[v].outs| ==> DeliveredBy(g, rank, target, v, i) == Delivered(g, rank, target, v)
    ensures g[v].outs == [] ==> Delivered(g, rank, target, v) == {}
  {
    var outs := |g[v].outs|;
    FoldSummed(g, rank, target, v, outs, Fold(g, rank, target, v, outs).value);
    hide Clean, Shape, UnionOf;
  }

  lemma NoOutputDelivers(g: Graph, rank: seq<nat>, target: nat, v: nat)
    requires CleanAt(g, rank, target, v) && (g[v].fire.ZeroOrOne? || g[v].fire.Multi?)
    ensures forall i :: 0 <= i < |g[v].outs| ==> DeliveredBy(g, rank, target, v, i) == {}
    ensures Delivered(g, rank, target, v) == {}
  {
    var outs := |g[v].outs|;
    FoldSummed(g, rank, target, v, outs, Fold(g, rank, target, v, outs).value);
    hide Clean, Shape, UnionOf;
  }

  lemma {:induction false} NoneDelivered(g: Graph, rank: seq<nat>, target: nat, roots: seq<nat>, f: Firing, k: nat)
    requires IsAccepted(g, rank, target, roots) && Free(g, target, f) && Reached(g, target, roots, f.node)
    requires CleanAt(g, rank, target, f.node) && k <= |f.calls|
    requires g[f.node].fire.ZeroOrOne? || g[f.node].fire.Multi?
    ensures Delivered(g, rank, target, f.node) == {}
    ensures SavedFirst(g, target, Owners(g, rank, target, roots), f, k) == multiset{}
    decreases f, k
  {
    hide Clean, Reached, Accepted, Owners, Delivered, DeliveredBy, Cover;
    NoOutputDelivers(g, rank, target, f.node);
    if k > 0 {
      NoneDelivered(g, rank, target, roots, f, k - 1);
      CallLeaves(g, rank, target, roots, f, k - 1);
    }
  }

  /** What the search accepts has owners. */
  lemma AcceptedOwned(g: Graph, rank: seq<nat>, target: nat, roots: seq<nat>)
    requires IsAccepted(g, rank, target, roots)
    ensures CanOwn(g, target, roots, Owners(g, rank, target, roots))
  {
    var own, n := Owners(g, rank, target, roots), g[target].inports;
    forall f | Free(g, target, f) && Reached(g, target, roots, f.node)
      ensures f.node in own ==> Saved(g, target, own, f) == Once(n)
      ensures f.node in roots && f.node !in own ==> Saved(g, target, own, f) == multiset{}
    {
      hide Clean, Saved, Reached;
      ReachedClean(g, rank, target, roots, f.node);
      FreeDelivers(g, rank, target, roots, f);
      if f.node in roots && f.node !in own {
        var k :| 0 <= k < |roots| && roots[k] == f.node;
        assert Arrive(g, rank, target, roots[k], None).Ok?;
      }
    }
  }

  // Whatever can have owners is accepted.

  lemma {:induction false} SomeCall(g: Graph, rank: seq<nat>, target: nat, v: nat, i: nat) returns (c: Call)
    requires Acyclic(g, rank) && v < |g| && i < |g[v].outs|
    ensures FreeCall(g, target, v, c) && c.out == i
    decreases rank[v], i, 0
  {
    var u := g[v].outs[i].next;
    if u == target {
      c := Save(i);
    } else if g[u].join {
      c := Wait(i);
    } else {
      var f := SomeFree(g, rank, target, u);
      c := Invoke(i, f);
    }
  }

  lemma {:induction false} FirstCalls(g: Graph, rank: seq<nat>, target: nat, v: nat, k: nat) returns (cs: seq<Call>)
    requires Acyclic(g, rank) && v < |g| && k <= |g[v].outs|
    ensures |cs| == k && forall j :: 0 <= j < k ==> FreeCall(g, target, v, cs[j]) && cs[j].out == j
    decreases rank[v], k, 1
  {
    cs := [];
    if k > 0 {
      var before := FirstCalls(g, rank, target, v, k - 1);
      var c := SomeCall(g, rank, target, v, k - 1);
      cs := before + [c];
    }
  }

  /** Every node can fire, and one that fires all its outputs can do so in their order. */
  lemma {:induction false} SomeFree(g: Graph, rank: seq<nat>, target: nat, v: nat) returns (f: Firing)
    requires Acyclic(g, rank) && v < |g| && v != target
    ensures f.node == v && Free(g, target, f)
    ensures g[v].fire.All? ==> forall j :: 0 <= j < |f.calls| ==> f.calls[j].out == j
    decreases rank[v], |g[v].outs| + 1
  {
    var cs: seq<Call> := [];
    if g[v].fire.All? {
      cs := FirstCalls(g, rank, target, v, |g[v].outs|);
    } else if g[v].fire.One? && g[v].outs != [] {
      var c := SomeCall(g, rank, target, v, 0);
      cs := [c];
    }
    f := Firing(v, cs);
  }

  lemma {:induction false} SumSwap(g: Graph, target: nat, own: set<nat>, f: Firing, f': Firing, i: nat, k: nat)
    requires Free(g, target, f) && Free(g, target, f') && f.node == f'.node && i < |f.calls| == |f'.calls|
    requires (forall j :: 0 <= j < |f.calls| && j != i ==> f.calls[j] == f'.calls[j]) && k <= |f.calls|
    ensures k <= i ==> SavedFirst(g, target, own, f, k) == SavedFirst(g, target, own, f', k)
    ensures var c, c' := f.calls[i], f'.calls[i];
            k > i ==>
              && Left(g, target, own, f.node, c) <= SavedFirst(g, target, own, f, k)
              && SavedFirst(g, target, own, f, k) + Left(g, target, own, f.node, c') ==
                 SavedFirst(g, target, own, f', k) + Left(g, target, own, f.node, c)
    decreases k
  {
    hide Left;
    if k > 0 {
      SumSwap(g, target, own, f, f', i, k - 1);
      var a, b := SavedFirst(g, target, own, f, k - 1), SavedFirst(g, target, own, f', k - 1);
      var x, y := Left(g, target, own, f.node, f.calls[k - 1]), Left(g, target, own, f.node, f'.calls[k - 1]);
      assert SavedFirst(g, target, own, f, k) == a + x && SavedFirst(g, target, own, f', k) == b + y;
      if k - 1 > i {
        assert x == y;
        var c, c' := Left(g, target, own, f.node, f.calls[i]), Left(g, target, own, f.node, f'.calls[i]);
        assert (a + x) + c' == (a + c') + x && (b + x) + c == (b + c) + x;
      }
    }
  }

  /** Two firings that differ in how they call one output. */
  lemma Swap(g: Graph, rank: seq<nat>, target: nat, own: set<nat>, v: nat, c: Call, c': Call)
    returns (f: Firing, f': Firing)
    requires Acyclic(g, rank) && v < |g| && v != target && FreeCall(g, target, v, c) && FreeCall(g, target, v, c')
    requires c.out == c'.out
    ensures Free(g, target, f) && Free(g, target, f') && f.node == f'.node == v
    ensures Left(g, target, own, v, c) <= Saved(g, target, own, f)
    ensures Saved(g, target, own, f) + Left(g, target, own, v, c') ==
            Saved(g, target, own, f') + Left(g, target, own, v, c)
  {
    hide Left;
    if g[v].fire.All? {
      var cs := FirstCalls(g, rank, target, v, |g[v].outs|);
      f, f' := Firing(v, cs[c.out := c]), Firing(v, cs[c.out := c']);
      SumSwap(g, target, own, f, f', c.out, |cs|);
    } else {
      f, f' := Firing(v, [c]), Firing(v, [c']);
      SumSwap(g, target, own, f, f', 0, 1);
    }
  }

  /** All firings of the node save the same, and no port twice. */
  ghost predicate Steady(g: Graph, target: nat, own: set<nat>, v: nat, s: multiset<nat>)
    requires target < |g|
  {
    && s <= Once(g[target].inports)
    && (forall f :: Free(g, target, f) && f.node == v ==> Saved(g, target, own, f) == s)
  }

  /** So do all calls of one output. */
  lemma CallsSteady(g: Graph, rank: seq<nat>, target: nat, own: set<nat>, v: nat, s: multiset<nat>, c: Call, c': Call)
    requires Acyclic(g, rank) && target < |g| && v < |g| && v != target && Steady(g, target, own, v, s)
    requires FreeCall(g, target, v, c) && FreeCall(g, target, v, c') && c.out == c'.out
    ensures Left(g, target, own, v, c) == Left(g, target, own, v, c') <= s
  {
    hide Left, Free, FreeCall, Saved;
    var f, f' := Swap(g, rank, target, own, v, c, c');
    assert Saved(g, target, own, f) == s && Saved(g, target, own, f') == s;
    Cancel(s, Left(g, target, own, v, c), Left(g, target, own, v, c'));
  }

  lemma Cancel(s: multiset<nat>, a: multiset<nat>, b: multiset<nat>)
    requires s + a == s + b
    ensures a == b
  {
    forall x ensures a[x] == b[x] { assert (s + a)[x] == s[x] + a[x] && (s + b)[x] == s[x] + b[x]; }
  }

  lemma NextSteady(g: Graph, rank: seq<nat>, target: nat, roots: seq<nat>, own: set<nat>, v: nat, s: multiset<nat>,
                   i: nat)
    returns (t: multiset<nat>)
    requires Acyclic(g, rank) && target < |g| && CanOwn(g, target, roots, own) && v < |g| && v != target
    requires Steady(g, target, own, v, s) && i < |g[v].outs| && g[v].outs[i].next != target
    requires Reached(g, target, roots, g[v].outs[i].next)
    ensures Steady(g, target, own, g[v].outs[i].next, t)
  {
    hide Reached, Saved;
    var u := g[v].outs[i].next;
    if u in own {
      t := Once(g[target].inports);
    } else {
      var f0 := SomeFree(g, rank, target, u);
      t := Saved(g, target, own, f0);
      forall f | Free(g, target, f) && f.node == u ensures Saved(g, target, own, f) == t <= s {
        CallsSteady(g, rank, target, own, v, s, Invoke(i, f), Invoke(i, f0));
      }
      assert t <= s;
    }
  }

  lemma {:induction false} WaySteady(g: Graph, rank: seq<nat>, target: nat, roots: seq<nat>, own: set<nat>,
                                     path: seq<nat>)
    returns (s: multiset<nat>)
    requires Acyclic(g, rank) && target < |g| && CanOwn(g, target, roots, own) && Way(g, target, roots, path)
    ensures Steady(g, target, own, path[|path| - 1], s)
    decreases |path|
  {
    var n := |path| - 1;
    hide Steady, CanOwn, Reached;
    if n == 0 {
      s := RootSteady(g, target, roots, own, path[0]);
    } else {
      assert Leads(g, path[n - 1], path[n - 1 + 1]);
      assert path[n] < |g|;
      var s0 := WaySteady(g, rank, target, roots, own, path[..n]);
      var i :| 0 <= i < |g[path[n - 1]].outs| && g[path[n - 1]].outs[i].next == path[n];
      WayReached(g, target, roots, path);
      s := NextSteady(g, rank, target, roots, own, path[n - 1], s0, i);
    }
  }

  lemma WayReached(g: Graph, target: nat, roots: seq<nat>, path: seq<nat>)
    requires Way(g, target, roots, path)
    ensures Reached(g, target, roots, path[|path| - 1])
  {
  }

  lemma RootSteady(g: Graph, target: nat, roots: seq<nat>, own: set<nat>, v: nat) returns (s: multiset<nat>)
    requires target < |g| && CanOwn(g, target, roots, own) && v in roots && v < |g| && v != target
    ensures Steady(g, target, own, v, s)
  {
    RootReached(g, target, roots, v);
    hide Reached, Saved, Free;
    s := if v in own then Once(g[target].inports) else multiset{};
  }

  lemma ReachedSteady(g: Graph, rank: seq<nat>, target: nat, roots: seq<nat>, own: set<nat>, v: nat)
    returns (s: multiset<nat>)
    requires Acyclic(g, rank) && target < |g| && CanOwn(g, target, roots, own) && Reached(g, target, roots, v)
    ensures Steady(g, target, own, v, s)
  {
    var path :| Way(g, target, roots, path) && path[|path| - 1] == v;
    s := WaySteady(g, rank, target, roots, own, path);
  }

  /** The cover says what is saved; all of it is said in two ways. */
  ghost predicate Fits(c: Flow, s: multiset<nat>, target: nat, n: nat) {
    && AllProper(c.pieces) && Clean(c.pieces, target, n)
    && (if s == Once(n) then Full(c) || Empty(c) else !Full(c) && multiset(Ports(c.pieces, n)) == s)
  }

  lemma PiecesOf(l: Flow, target: nat, n: nat)
    requires AllProper(l.pieces) && Clean(l.pieces, target, n) && !Full(l)
    ensures var s := Ports(l.pieces, n); l.pieces == if s == {} then [] else [Path([Part(target, s, n)])]
  {
    if l.pieces != [] {
      var p := l.pieces[0];
      assert PartOf(p, target, n) && p.parts == [p.parts[0]];
    }
  }

  lemma SamePieces(l: Flow, l': Flow, m: multiset<nat>, target: nat, n: nat)
    requires Fits(l, m, target, n) && Fits(l', m, target, n) && !Full(l) && !Full(l')
    ensures l.pieces == l'.pieces
  {
    var p, q := Ports(l.pieces, n), Ports(l'.pieces, n);
    assert forall x :: x in p <==> x in multiset(p);
    assert forall x :: x in q <==> x in multiset(q);
    assert m != Once(n) ==> p == q;
    PiecesOf(l, target, n);
    PiecesOf(l', target, n);
  }

  lemma OnceMore(a: set<nat>, b: set<nat>, n: nat)
    requires multiset(a) + multiset(b) <= Once(n)
    ensures a * b == {} && multiset(a + b) == multiset(a) + multiset(b)
    ensures multiset(a + b) == Once(n) <==> a + b == Numbers(n)
  {
    assert forall x :: x in a && x in b ==> (multiset(a) + multiset(b))[x] == 2;
    assert forall x: nat :: Once(n)[x] <= 1;
    assert forall x :: x in a + b <==> x in multiset(a + b);
    assert forall x :: x in Numbers(n) <==> x in Once(n);
  }

  /** Two parts that share nothing make one. */
  lemma PartsMerge(c: Flow, l: Flow, target: nat, n: nat)
    requires |c.pieces| == 1 && |l.pieces| == 1 && PartOf(c.pieces[0], target, n) && PartOf(l.pieces[0], target, n)
    requires Ports(c.pieces, n) * Ports(l.pieces, n) == {}
    ensures AllProper(c.pieces) && AllProper(l.pieces) && Disjoint(c.pieces, l.pieces)
    ensures var s := Ports(c.pieces, n) + Ports(l.pieces, n);
            AddedAll(c.pieces, l.pieces) == Ok([if s == Numbers(n) then Whole else Path([Part(target, s, n)])])
    ensures var s := Ports(c.pieces, n) + Ports(l.pieces, n);
            s != Numbers(n) ==> PartOf(Path([Part(target, s, n)]), target, n)
  {
    var x, y := c.pieces[0], l.pieces[0];
    MergeParts(x, y, target, n);
    assert Prefix(x) == Prefix(y) == [] && Last(x) == x.parts[0] && Last(y) == y.parts[0];
    assert x.parts[0].ports * x.parts[0].ports == x.parts[0].ports != {};
    assert Shared(x, y).None?;
    var z := Compare(x, y).z;
    assert Find(c.pieces, y, 0) == 0;
    assert c.pieces[..0] + c.pieces[1..] == [] && l.pieces[1..] == [];
    hide Compare, Find;
    assert Added(c.pieces, y) == Added([], z);
    AddedToNothing(z);
    assert AddedAll(c.pieces, l.pieces) == AddedAll([z], []);
  }

  lemma AddedToNothing(z: Piece)
    requires Proper(z)
    ensures Added([], z) == Ok([z]) && AddedAll([z], []) == Ok([z]) && AddedAll([], [z]) == Ok([z])
  {
    assert [z][1..] == [] && [] + [z] == [z];
  }

  /** The union of covers says what is saved by both. */
  lemma CombineFits(c: Flow, p: multiset<nat>, l: Flow, m: multiset<nat>, first: bool, target: nat, n: nat)
    requires 2 <= n && Fits(c, p, target, n) && Fits(l, m, target, n) && !Full(l) && p + m <= Once(n)
    ensures Combine(All, first, c, l).Ok? && Fits(Combine(All, first, c, l).value, p + m, target, n)
  {
    assert 0 in Once(n) && 1 in Once(n);
    var a, b := Ports(c.pieces, n), Ports(l.pieces, n);
    if l.pieces == [] {
      assert AddedAll(c.pieces, []) == Ok(c.pieces);
      if m == Once(n) {
        NothingElse(p, m, n);
        EmptyPorts(c, target, n);
      } else {
        assert p + m == p;
      }
    } else if c.pieces == [] {
      SomePorts(l, m, target, n);
      if p == Once(n) { NothingElse(m, p, n); }
      assert p == multiset{};
      assert p + m == m;
      AddedToNothing(l.pieces[0]);
      assert l.pieces == [l.pieces[0]];
    } else {
      BothParts(c, p, l, m, target, n);
      OnceMore(a, b, n);
      PartsMerge(c, l, target, n);
    }
  }

  lemma NothingElse(p: multiset<nat>, m: multiset<nat>, n: nat)
    requires p + m <= Once(n) && m == Once(n)
    ensures p == multiset{}
  {
    forall x ensures p[x] == 0 { assert (p + m)[x] == p[x] + m[x] <= Once(n)[x]; }
  }

  lemma EmptyPorts(c: Flow, target: nat, n: nat)
    requires Fits(c, multiset{}, target, n) && 2 <= n
    ensures c.pieces == []
  {
    assert 0 in Once(n);
    NoElements(Ports(c.pieces, n));
  }

  lemma NoElements(a: set<nat>)
    requires multiset(a) == multiset{}
    ensures a == {}
  {
    assert forall x :: x in a <==> x in multiset(a);
  }

  lemma SomePorts(l: Flow, m: multiset<nat>, target: nat, n: nat)
    requires 2 <= n && Fits(l, m, target, n) && l.pieces != [] && !Full(l)
    ensures m != multiset{} && m != Once(n)
  {
    if m == multiset{} { EmptyPorts(l, target, n); }
  }

  lemma BothParts(c: Flow, p: multiset<nat>, l: Flow, m: multiset<nat>, target: nat, n: nat)
    requires 2 <= n && Fits(c, p, target, n) && Fits(l, m, target, n) && !Full(l) && p + m <= Once(n)
    requires c.pieces != [] && l.pieces != []
    ensures p != Once(n) && m != Once(n) && !Full(c)
  {
    SomePorts(l, m, target, n);
    NoMore(p, m, n);
  }

  lemma NoMore(p: multiset<nat>, m: multiset<nat>, n: nat)
    requires p + m <= Once(n)
    ensures p == Once(n) ==> m == multiset{}
  {
    if p == Once(n) { NothingElse(m, p, n); }
  }

  /** The caller's view of a node whose cover fits. */
  lemma ArriveFits(g: Graph, rank: seq<nat>, target: nat, own: set<nat>, v: nat, i: nat, s: multiset<nat>,
                   t: multiset<nat>, c: Call)
    requires Acyclic(g, rank) && JoinsApart(g, rank, target) && v < |g| && v != target && i < |g[v].outs|
    requires Steady(g, target, own, v, s) && FreeCall(g, target, v, c) && c.out == i
    requires var u := g[v].outs[i].next;
             u != target ==> Steady(g, target, own, u, t) && Cover(g, rank, target, u).Ok?
                             && (u in own ==> t == Once(g[target].inports))
                             && Fits(Cover(g, rank, target, u).value, t, target, g[target].inports)
    ensures var e := g[v].outs[i]; Arrive(g, rank, target, e.next, Some(e.port)).Ok?
    ensures var e := g[v].outs[i];
            var l := Arrive(g, rank, target, e.next, Some(e.port)).value;
            Fits(l, Left(g, target, own, v, c), target, g[target].inports) && !Full(l)
  {
    var e, n := g[v].outs[i], g[target].inports;
    assert 0 in Once(n) && 1 in Once(n);
    if e.next == target {
      TargetFits(g, rank, target, e.port);
    } else {
      CallIs(g, rank, target, own, v, i, s, t, c);
      hide Steady, Free, FreeCall, Left, Saved;
      WrapFits(g, rank, target, own, e.next, e.port, t);
    }
  }

  lemma TargetFits(g: Graph, rank: seq<nat>, target: nat, port: nat)
    requires Acyclic(g, rank) && target < |g| && port < g[target].inports && 2 <= g[target].inports
    ensures var l := Arrive(g, rank, target, target, Some(port));
            l.Ok? && Fits(l.value, multiset{port}, target, g[target].inports) && !Full(l.value)
  {
    var n := g[target].inports;
    var other := if port == 0 then 1 else 0;
    assert other in Once(n) && other !in multiset{port};
    assert {port} < Numbers(n) by { assert other in Numbers(n); }
    assert multiset({port}) == multiset{port};
  }

  /** What a call of another node leaves. */
  lemma CallIs(g: Graph, rank: seq<nat>, target: nat, own: set<nat>, v: nat, i: nat, s: multiset<nat>, t: multiset<nat>,
               c: Call)
    requires Acyclic(g, rank) && target < |g| && v < |g| && v != target && i < |g[v].outs|
    requires g[v].outs[i].next != target
    requires Steady(g, target, own, v, s) && FreeCall(g, target, v, c) && c.out == i
    requires Steady(g, target, own, g[v].outs[i].next, t)
    ensures var u := g[v].outs[i].next;
            && (u in own ==> Left(g, target, own, v, c) == multiset{})
            && (u !in own ==> Left(g, target, own, v, c) == t)
            && (u !in own && g[u].join ==> t == multiset{})
  {
    var u := g[v].outs[i].next;
    var f := SomeFree(g, rank, target, u);
    CallsSteady(g, rank, target, own, v, s, c, Invoke(i, f));
    if g[u].join { CallsSteady(g, rank, target, own, v, s, c, Wait(i)); }
    hide Free, Saved;
  }

  lemma WrapFits(g: Graph, rank: seq<nat>, target: nat, own: set<nat>, u: nat, port: nat, t: multiset<nat>)
    requires Acyclic(g, rank) && JoinsApart(g, rank, target) && u < |g| && u != target
    requires Cover(g, rank, target, u).Ok? && Fits(Cover(g, rank, target, u).value, t, target, g[target].inports)
    requires u in own ==> t == Once(g[target].inports)
    requires u !in own && g[u].join ==> t == multiset{}
    ensures var l := Arrive(g, rank, target, u, Some(port));
            l.Ok? && !Full(l.value)
            && Fits(l.value, if u in own then multiset{} else t, target, g[target].inports)
  {
    var c, n := Cover(g, rank, target, u).value, g[target].inports;
    assert 0 in Once(n);
    hide Cover;
    if g[u].join && !Full(c) {
      if t == multiset{} { EmptyPorts(c, target, n); }
      assert c.pieces == [] && Appended([], Part(u, {port}, g[u].inports)) == Ok([]);
    }
    var none: set<nat> := {};
    assert multiset(none) == multiset{};
  }

  /** The outputs of a node that fires all of them, one after the other. */
  lemma {:induction false} AllFits(g: Graph, rank: seq<nat>, target: nat, roots: seq<nat>, own: set<nat>, f: Firing,
                                   s: multiset<nat>, k: nat)
    requires Acyclic(g, rank) && JoinsApart(g, rank, target) && CanOwn(g, target, roots, own)
    requires Free(g, target, f) && Reached(g, target, roots, f.node) && g[f.node].fire.All?
    requires forall j :: 0 <= j < |f.calls| ==> f.calls[j].out == j
    requires Steady(g, target, own, f.node, s) && k <= |f.calls|
    ensures Fold(g, rank, target, f.node, k).Ok?
    ensures Fits(Fold(g, rank, target, f.node, k).value.cover, SavedFirst(g, target, own, f, k), target,
                 g[target].inports)
    decreases rank[f.node], k
  {
    var v, n := f.node, g[target].inports;
    if k == 0 {
      NothingFits(target, n);
    } else {
      AllFits(g, rank, target, roots, own, f, s, k - 1);
      var p, e := Fold(g, rank, target, v, k - 1).value, g[v].outs[k - 1];
      assert FreeCall(g, target, v, f.calls[k - 1]);
      OutputFits(g, rank, target, roots, own, v, s, f.calls[k - 1]);
      PrefixSaved(g, target, own, f, k);
      FoldStep(g, rank, target, v, k - 1, p);
      var l := Arrive(g, rank, target, e.next, Some(e.port)).value;
      hide Fold, Arrive, Fits, Steady, CanOwn, Reached, Combine, JoinsApart;
      var was, more := SavedFirst(g, target, own, f, k - 1), Left(g, target, own, v, f.calls[k - 1]);
      CombineFits(p.cover, was, l, more, k == 1, target, n);
    }
  }

  lemma {:induction false} PrefixSaved(g: Graph, target: nat, own: set<nat>, f: Firing, k: nat)
    requires Free(g, target, f) && k <= |f.calls|
    ensures SavedFirst(g, target, own, f, k) <= Saved(g, target, own, f)
    decreases |f.calls| - k
  {
    hide Left;
    if k < |f.calls| {
      PrefixSaved(g, target, own, f, k + 1);
      assert SavedFirst(g, target, own, f, k + 1) ==
             SavedFirst(g, target, own, f, k) + Left(g, target, own, f.node, f.calls[k]);
    }
  }

  lemma NothingFits(target: nat, n: nat)
    requires 2 <= n
    ensures Fits(EMPTY, multiset{}, target, n)
  {
    assert 0 in Once(n);
    var none: set<nat> := {};
    assert multiset(none) == multiset{};
  }

  /** The cover that an output has, by what its calls leave. */
  lemma {:induction false} OutputFits(g: Graph, rank: seq<nat>, target: nat, roots: seq<nat>, own: set<nat>, v: nat,
                                      s: multiset<nat>, c: Call)
    requires Acyclic(g, rank) && JoinsApart(g, rank, target) && CanOwn(g, target, roots, own)
    requires v < |g| && v != target && Reached(g, target, roots, v) && Steady(g, target, own, v, s)
    requires FreeCall(g, target, v, c)
    ensures var e := g[v].outs[c.out]; Arrive(g, rank, target, e.next, Some(e.port)).Ok?
    ensures var e := g[v].outs[c.out];
            var l := Arrive(g, rank, target, e.next, Some(e.port)).value;
            Fits(l, Left(g, target, own, v, c), target, g[target].inports) && !Full(l)
    ensures Left(g, target, own, v, c) <= s
    decreases rank[v], c.out
  {
    var u, t := g[v].outs[c.out].next, s;
    CallsSteady(g, rank, target, own, v, s, c, c);
    if u != target {
      assert Leads(g, v, u);
      NextReached(g, target, roots, v, u);
      t := ReachedSteady(g, rank, target, roots, own, u);
      if u in own { OwnerIs(g, rank, target, roots, own, u, t); }
      CoverFits(g, rank, target, roots, own, u, t);
    }
    ArriveFits(g, rank, target, own, v, c.out, s, t, c);
  }

  lemma OwnerIs(g: Graph, rank: seq<nat>, target: nat, roots: seq<nat>, own: set<nat>, u: nat, t: multiset<nat>)
    requires Acyclic(g, rank) && target < |g| && CanOwn(g, target, roots, own) && u in own && u < |g| && u != target
    requires Reached(g, target, roots, u) && Steady(g, target, own, u, t)
    ensures t == Once(g[target].inports)
  {
    hide Reached;
    var f := SomeFree(g, rank, target, u);
    assert Saved(g, target, own, f) == t;
  }

  lemma SingleCall(g: Graph, target: nat, own: set<nat>, v: nat, s: multiset<nat>, c: Call)
    requires target < |g| && v < |g| && v != target && Steady(g, target, own, v, s) && FreeCall(g, target, v, c)
    requires !g[v].fire.All?
    ensures Left(g, target, own, v, c) == s
  {
    var f := Firing(v, [c]);
    hide Left;
    assert Free(g, target, f);
    assert SavedFirst(g, target, own, f, 0) == multiset{};
    assert Saved(g, target, own, f) == SavedFirst(g, target, own, f, 0) + Left(g, target, own, v, c);
  }

  /** The outputs of a node that fires one of them. */
  lemma {:induction false} OneFits(g: Graph, rank: seq<nat>, target: nat, roots: seq<nat>, own: set<nat>, v: nat,
                                   s: multiset<nat>, k: nat)
    requires Acyclic(g, rank) && JoinsApart(g, rank, target) && CanOwn(g, target, roots, own)
    requires v < |g| && v != target && Reached(g, target, roots, v) && Steady(g, target, own, v, s)
    requires g[v].fire.One? && k <= |g[v].outs|
    ensures Fold(g, rank, target, v, k).Ok?
    ensures var c := Fold(g, rank, target, v, k).value.cover;
            k > 0 ==> Fits(c, s, target, g[target].inports) && !Full(c)
    decreases rank[v], k
  {
    hide Fold, Arrive, Fits, Steady, CanOwn, Reached, Left, Free, FreeCall;
    FoldStart(g, rank, target, v);
    if k > 0 {
      OneFits(g, rank, target, roots, own, v, s, k - 1);
      var p, e := Fold(g, rank, target, v, k - 1).value, g[v].outs[k - 1];
      var c := SomeCall(g, rank, target, v, k - 1);
      SingleCall(g, target, own, v, s, c);
      OutputFits(g, rank, target, roots, own, v, s, c);
      FoldStep(g, rank, target, v, k - 1, p);
      var l := Arrive(g, rank, target, e.next, Some(e.port)).value;
      hide JoinsApart;
      if k > 1 { SamePieces(p.cover, l, s, target, g[target].inports); }
    }
  }

  /** An output that must leave nothing has an empty cover. */
  lemma {:induction false} NothingArrives(g: Graph, rank: seq<nat>, target: nat, roots: seq<nat>, own: set<nat>, v: nat,
                                          i: nat)
    requires Acyclic(g, rank) && JoinsApart(g, rank, target) && CanOwn(g, target, roots, own)
    requires v < |g| && v != target && Reached(g, target, roots, v) && Steady(g, target, own, v, multiset{})
    requires i < |g[v].outs|
    ensures var e := g[v].outs[i]; Arrive(g, rank, target, e.next, Some(e.port)).Ok?
    ensures var e := g[v].outs[i]; Arrive(g, rank, target, e.next, Some(e.port)).value.pieces == []
    decreases rank[v], i + 1, 0
  {
    hide Arrive, Fits, Steady, CanOwn, Reached, Free, FreeCall, Left;
    var c := SomeCall(g, rank, target, v, i);
    OutputFits(g, rank, target, roots, own, v, multiset{}, c);
    var e := g[v].outs[i];
    EmptyPorts(Arrive(g, rank, target, e.next, Some(e.port)).value, target, g[target].inports);
  }

  lemma NothingCombined(fire: Fire, first: bool, l: Flow)
    requires (fire.ZeroOrOne? || fire.Multi?) && AllProper(l.pieces) && l.pieces == []
    ensures Combine(fire, first, EMPTY, l) == Ok(EMPTY)
  {
  }

  /** The outputs of a node that may fire none of them. */
  lemma {:induction false} NoneFits(g: Graph, rank: seq<nat>, target: nat, roots: seq<nat>, own: set<nat>, v: nat,
                                    k: nat)
    requires Acyclic(g, rank) && JoinsApart(g, rank, target) && CanOwn(g, target, roots, own)
    requires v < |g| && v != target && Reached(g, target, roots, v) && Steady(g, target, own, v, multiset{})
    requires (g[v].fire.ZeroOrOne? || g[v].fire.Multi?) && k <= |g[v].outs|
    ensures Fold(g, rank, target, v, k).Ok? && Fold(g, rank, target, v, k).value.cover == EMPTY
    decreases rank[v], k, 1
  {
    assert target < |g|;
    hide Arrive, Steady, CanOwn, Reached, JoinsApart, Combine, Fold;
    if k > 0 {
      NoneFits(g, rank, target, roots, own, v, k - 1);
      NothingArrives(g, rank, target, roots, own, v, k - 1);
      var p, e := Fold(g, rank, target, v, k - 1).value, g[v].outs[k - 1];
      FoldStep(g, rank, target, v, k - 1, p);
      NothingCombined(g[v].fire, k == 1, Arrive(g, rank, target, e.next, Some(e.port)).value);
    } else {
      FoldStart(g, rank, target, v);
    }
  }

  lemma {:induction false} CoverFits(g: Graph, rank: seq<nat>, target: nat, roots: seq<nat>, own: set<nat>, v: nat,
                                     s: multiset<nat>)
    requires Acyclic(g, rank) && JoinsApart(g, rank, target) && CanOwn(g, target, roots, own)
    requires v < |g| && v != target && Reached(g, target, roots, v) && Steady(g, target, own, v, s)
    ensures Cover(g, rank, target, v).Ok? && Fits(Cover(g, rank, target, v).value, s, target, g[target].inports)
    decreases rank[v], |g[v].outs| + 1
  {
    var outs, n := |g[v].outs|, g[target].inports;
    if g[v].fire.All? {
      var f := SomeFree(g, rank, target, v);
      AllFits(g, rank, target, roots, own, f, s, outs);
      assert Saved(g, target, own, f) == s;
    } else if g[v].fire.One? && outs > 0 {
      OneFits(g, rank, target, roots, own, v, s, outs);
    } else {
      var f := Firing(v, []);
      assert Free(g, target, f) && Saved(g, target, own, f) == multiset{};
      NothingFits(target, n);
      if !g[v].fire.One? { NoneFits(g, rank, target, roots, own, v, outs); }
    }
  }

  /** What can have owners is accepted; the roots have no inputs, so none of them is a join. */
  lemma OwnedAccepted(g: Graph, rank: seq<nat>, target: nat, roots: seq<nat>, own: set<nat>)
    requires Acyclic(g, rank) && JoinsApart(g, rank, target)
    requires forall k :: 0 <= k < |roots| ==> roots[k] < |g| && roots[k] != target && !g[roots[k]].join
    requires CanOwn(g, target, roots, own)
    ensures Accepted(g, rank, target, roots)
  {
    var n := g[target].inports;
    forall k | 0 <= k < |roots|
      ensures var r := Arrive(g, rank, target, roots[k], None); r.Ok? && Empty(r.value)
    {
      var v := roots[k];
      RootReached(g, target, roots, v);
      var s := RootSteady(g, target, roots, own, v);
      var f := SomeFree(g, rank, target, v);
      assert s == Saved(g, target, own, f);
      assert s == Once(n) || s == multiset{};
      CoverFits(g, rank, target, roots, own, v, s);
      hide Reached, CanOwn, Steady, Saved, Free, Cover;
      if s == multiset{} { EmptyPorts(Cover(g, rank, target, v).value, target, n); }
    }
  }

  /** The analysis accepts a join if and only if some nodes can own its buffers: there is a set of nodes each of whose
      firings, in all runs, fills the buffer with every port once, while nothing is saved outside. */
  lemma AcceptedIff(g: Graph, rank: seq<nat>, target: nat, roots: seq<nat>)
    requires Acyclic(g, rank) && JoinsApart(g, rank, target)
    requires forall k :: 0 <= k < |roots| ==> roots[k] < |g| && roots[k] != target && !g[roots[k]].join
    ensures Accepted(g, rank, target, roots) <==> exists own :: CanOwn(g, target, roots, own)
  {
    hide Accepted, CanOwn;
    if Accepted(g, rank, target, roots) {
      AcceptedOwned(g, rank, target, roots);
    } else if own :| CanOwn(g, target, roots, own) {
      OwnedAccepted(g, rank, target, roots, own);
    }
  }
}
