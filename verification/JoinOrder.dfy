/** What the partial order of an element's outputs means: the outputs whose callees fire the whole join by themselves
    come before those that deliver something into the element's own buffer, and the last port comes at the end. */
module JoinOrder {
  import opened Wrappers
  import opened Sequences
  import opened FlowCollection
  import opened JoinAnalysis
  import opened JoinRuns

  /** Nothing that an accepted graph reaches fires the target again after it was complete. */
  lemma NextClean(g: Graph, rank: seq<nat>, target: nat, v: nat, i: nat)
    requires Acyclic(g, rank) && JoinsApart(g, rank, target) && v < |g| && i < |g[v].outs|
    requires g[v].outs[i].next != target
    requires Cover(g, rank, target, v).Ok? && Clean(Cover(g, rank, target, v).value.pieces, target, g[target].inports)
    ensures var u := g[v].outs[i].next;
            Cover(g, rank, target, u).Ok? && Clean(Cover(g, rank, target, u).value.pieces, target, g[target].inports)
  {
    var e, k := g[v].outs[i], |g[v].outs|;
    var p := Fold(g, rank, target, v, k).value;
    FoldSummed(g, rank, target, v, k, p);
    FoldEach(g, rank, target, v, k, i);
    assert Cover(g, rank, target, e.next).Ok?;
    CoverShape(g, rank, target, e.next);
    ArriveShape(g, rank, target, e.next, e.port, p.each[i]);
  }

  lemma {:induction false} WayClean(g: Graph, rank: seq<nat>, target: nat, roots: seq<nat>, path: seq<nat>)
    requires Acyclic(g, rank) && JoinsApart(g, rank, target) && (forall k :: 0 <= k < |roots| ==> roots[k] < |g|)
    requires Accepted(g, rank, target, roots) && Way(g, target, roots, path)
    ensures var v := path[|path| - 1];
            Cover(g, rank, target, v).Ok? && Clean(Cover(g, rank, target, v).value.pieces, target, g[target].inports)
    decreases |path|
  {
    var n := |path| - 1;
    if n == 0 {
      var k :| 0 <= k < |roots| && roots[k] == path[0];
      assert Arrive(g, rank, target, roots[k], None).Ok?;
      CoverShape(g, rank, target, path[0]);
    } else {
      hide Clean, Cover;
      assert Leads(g, path[n - 1], path[n - 1 + 1]);
      WayClean(g, rank, target, roots, path[..n]);
      var i :| 0 <= i < |g[path[n - 1]].outs| && g[path[n - 1]].outs[i].next == path[n];
      NextClean(g, rank, target, path[n - 1], i);
    }
  }

  lemma ReachedClean(g: Graph, rank: seq<nat>, target: nat, roots: seq<nat>, v: nat)
    requires Acyclic(g, rank) && JoinsApart(g, rank, target) && (forall k :: 0 <= k < |roots| ==> roots[k] < |g|)
    requires Accepted(g, rank, target, roots) && Reached(g, target, roots, v)
    ensures v < |g| && v != target && Cover(g, rank, target, v).Ok?
    ensures Clean(Cover(g, rank, target, v).value.pieces, target, g[target].inports)
  {
    var path :| Way(g, target, roots, path) && path[|path| - 1] == v;
    WayClean(g, rank, target, roots, path);
  }

  /** A node whose cover is known and does not fire the target again after it was complete. */
  ghost predicate CleanAt(g: Graph, rank: seq<nat>, target: nat, v: nat) {
    && Acyclic(g, rank) && JoinsApart(g, rank, target) && v < |g| && v != target
    && Cover(g, rank, target, v).Ok? && Clean(Cover(g, rank, target, v).value.pieces, target, g[target].inports)
  }

  /** Output `i` of the node delivers something into the buffer that the node's firing works on. */
  ghost predicate Delivers(g: Graph, rank: seq<nat>, target: nat, v: nat, i: nat)
    requires Acyclic(g, rank) && target < |g| && v < |g| && Cover(g, rank, target, v).Ok? && i < |g[v].outs|
  {
    Ports(Each(g, rank, target, v)[i].pieces, g[target].inports) != {}
  }

  /** A path from `u` to a node that fires the whole join, with a buffer of its own. */
  ghost predicate Completing(g: Graph, rank: seq<nat>, target: nat, u: nat, path: seq<nat>)
    requires Acyclic(g, rank) && target < |g|
  {
    Way(g, target, [u], path) && Dominant(g, rank, target, path[|path| - 1])
  }

  ghost predicate CanComplete(g: Graph, rank: seq<nat>, target: nat, u: nat)
    requires Acyclic(g, rank) && target < |g|
  {
    exists path :: Completing(g, rank, target, u, path)
  }

  /** The elements of the path fire all their outputs, or one of them, and then the path takes the last one. */
  ghost predicate NoChoice(g: Graph, path: seq<nat>)
    requires forall k :: 0 <= k < |path| ==> path[k] < |g|
  {
    forall k :: 0 <= k < |path| - 1 ==> Taken(g, path[k], path[k + 1])
  }

  ghost predicate Taken(g: Graph, v: nat, u: nat)
    requires v < |g|
  {
    var outs := g[v].outs;
    g[v].fire.All? || (g[v].fire.One? && outs != [] && outs[|outs| - 1].next == u)
  }

  /** The analysis knows that calling `u` completes the join. */
  ghost predicate Noticed(g: Graph, rank: seq<nat>, target: nat, u: nat)
    requires Acyclic(g, rank) && target < |g|
  {
    exists path :: Completing(g, rank, target, u, path) && NoChoice(g, path)
  }

  // The goal flag of a cover is what the paths say.

  /** When the goal flag of a node is set. */
  ghost predicate GoalOf(fire: Fire, each: seq<Flow>, goal: bool) {
    match fire
    case All => goal <==> exists i :: 0 <= i < |each| && each[i].goal
    case One => goal <==> each != [] && each[|each| - 1].goal
    case _ => !goal
  }

  lemma CombineGoal(fire: Fire, p: Partial, l: Flow, c: Flow)
    requires AllProper(p.cover.pieces) && AllProper(l.pieces) && GoalOf(fire, p.each, p.cover.goal)
    requires Combine(fire, |p.each| == 0, p.cover, l) == Ok(c)
    ensures GoalOf(fire, p.each + [l], c.goal)
  {
    hide AddedAll, Disjoint, AllProper;
    var each, n := p.each + [l], |p.each|;
    assert each[n] == l && forall i :: 0 <= i < n ==> each[i] == p.each[i];
  }

  lemma {:induction false} FoldGoal(g: Graph, rank: seq<nat>, target: nat, v: nat, k: nat, p: Partial)
    requires Acyclic(g, rank) && target < |g| && v < |g| && k <= |g[v].outs| && Fold(g, rank, target, v, k) == Ok(p)
    ensures GoalOf(g[v].fire, p.each, p.cover.goal)
    decreases k
  {
    if k > 0 {
      var q := Fold(g, rank, target, v, k - 1).value;
      FoldGoal(g, rank, target, v, k - 1, q);
      FoldStep(g, rank, target, v, k - 1, q);
      var e := g[v].outs[k - 1];
      var l := Arrive(g, rank, target, e.next, Some(e.port)).value;
      hide Fold, Arrive, GoalOf, Combine;
      CombineGoal(g[v].fire, q, l, p.cover);
    }
  }

  lemma ArriveGoal(g: Graph, rank: seq<nat>, target: nat, v: nat, port: nat)
    requires Acyclic(g, rank) && target < |g| && v < |g| && v != target && Arrive(g, rank, target, v, Some(port)).Ok?
    ensures Cover(g, rank, target, v).Ok?
    ensures Arrive(g, rank, target, v, Some(port)).value.goal <==>
            Dominant(g, rank, target, v) || Cover(g, rank, target, v).value.goal
  {
  }

  /** The covers of the outputs of a node whose own cover is clean. */
  lemma OutputsAre(g: Graph, rank: seq<nat>, target: nat, v: nat)
    requires CleanAt(g, rank, target, v)
    ensures var n, each, c := g[target].inports, Each(g, rank, target, v), Cover(g, rank, target, v).value;
            && (forall i :: 0 <= i < |each| ==> Clean(each[i].pieces, target, n) && !Full(each[i]))
            && (g[v].fire.All? ==> UnionOf(each, Ports(c.pieces, n), n))
            && (g[v].fire.One? ==> forall i :: 0 <= i < |each| ==> each[i].pieces == c.pieces)
            && GoalOf(g[v].fire, each, c.goal)
  {
    var outs := |g[v].outs|;
    FoldSummed(g, rank, target, v, outs, Fold(g, rank, target, v, outs).value);
    FoldGoal(g, rank, target, v, outs, Fold(g, rank, target, v, outs).value);
    hide Clean, Shape, Ports, UnionOf, GoalOf;
  }

  /** Output `i` through the eyes of the caller. */
  lemma OutputIs(g: Graph, rank: seq<nat>, target: nat, v: nat, i: nat)
    requires CleanAt(g, rank, target, v) && i < |g[v].outs|
    ensures var e, l, n := g[v].outs[i], Each(g, rank, target, v)[i], g[target].inports;
            && e.next < |g| && Clean(l.pieces, target, n) && !Full(l)
            && (Delivers(g, rank, target, v, i) <==> l.pieces != [])
            && (e.next == target ==> Delivers(g, rank, target, v, i))
            && (e.next != target ==>
                  && CleanAt(g, rank, target, e.next)
                  && (l.goal <==> Dominant(g, rank, target, e.next) || Cover(g, rank, target, e.next).value.goal)
                  && (l.pieces == [] ==> var c := Cover(g, rank, target, e.next).value; Full(c) || Empty(c)))
  {
    var outs, e, l, n := |g[v].outs|, g[v].outs[i], Each(g, rank, target, v)[i], g[target].inports;
    FoldEach(g, rank, target, v, outs, i);
    OutputsAre(g, rank, target, v);
    if e.next != target {
      NextClean(g, rank, target, v, i);
      ArriveGoal(g, rank, target, e.next, e.port);
      CoverShape(g, rank, target, e.next);
    }
    ArriveShape(g, rank, target, e.next, e.port, l);
  }

  /** A node that fires the whole join, or nothing of it. */
  ghost predicate AllOrNothing(g: Graph, rank: seq<nat>, target: nat, u: nat) {
    CleanAt(g, rank, target, u) && (var c := Cover(g, rank, target, u).value; Full(c) || Empty(c))
  }

  /** The flag that a caller of `u` sees. */
  ghost predicate Flagged(g: Graph, rank: seq<nat>, target: nat, u: nat)
    requires Acyclic(g, rank) && target < |g| && u < |g| && Cover(g, rank, target, u).Ok?
  {
    Dominant(g, rank, target, u) || Cover(g, rank, target, u).value.goal
  }

  /** The outputs of a node that delivers nothing. */
  lemma NothingOut(g: Graph, rank: seq<nat>, target: nat, u: nat, i: nat)
    requires AllOrNothing(g, rank, target, u) && !Dominant(g, rank, target, u)
    requires g[u].fire.All? || g[u].fire.One?
    requires i < |g[u].outs|
    ensures var w := g[u].outs[i].next;
            && AllOrNothing(g, rank, target, w)
            && (Each(g, rank, target, u)[i].goal <==> Flagged(g, rank, target, w))
  {
    OutputsAre(g, rank, target, u);
    OutputIs(g, rank, target, u, i);
    hide Each, Cover, Clean, GoalOf, UnionOf, Ports;
    NothingDelivered(g, rank, target, u, i);
  }

  lemma NothingDelivered(g: Graph, rank: seq<nat>, target: nat, u: nat, i: nat)
    requires AllOrNothing(g, rank, target, u) && !Dominant(g, rank, target, u)
    requires (g[u].fire.All? || g[u].fire.One?) && i < |g[u].outs|
    ensures !Delivers(g, rank, target, u, i)
  {
    OutputsAre(g, rank, target, u);
    hide Each, Cover, Clean, GoalOf;
  }

  /** A flag that is set can be traced to a node that fires the whole join ... */
  lemma {:induction false} FlagTraced(g: Graph, rank: seq<nat>, target: nat, u: nat)
    requires AllOrNothing(g, rank, target, u) && Flagged(g, rank, target, u)
    ensures Noticed(g, rank, target, u)
    decreases rank[u]
  {
    if Dominant(g, rank, target, u) {
      assert Completing(g, rank, target, u, [u]);
    } else {
      OutputsAre(g, rank, target, u);
      var i, outs := |g[u].outs| - 1, g[u].outs;
      if g[u].fire.All? { i :| 0 <= i < |outs| && Each(g, rank, target, u)[i].goal; }
      NothingOut(g, rank, target, u, i);
      var w := outs[i].next;
      FlagTraced(g, rank, target, w);
      var path :| Completing(g, rank, target, w, path) && NoChoice(g, path);
      hide Cover, Each, Dominant, CleanAt, UnionOf;
      Longer(g, rank, target, u, i, path);
    }
  }

  lemma Longer(g: Graph, rank: seq<nat>, target: nat, u: nat, i: nat, path: seq<nat>)
    requires Acyclic(g, rank) && u < |g| && u != target && i < |g[u].outs| && target < |g|
    requires Completing(g, rank, target, g[u].outs[i].next, path)
    ensures Completing(g, rank, target, u, [u] + path)
    ensures NoChoice(g, path) && (g[u].fire.All? || (g[u].fire.One? && i == |g[u].outs| - 1)) ==>
              NoChoice(g, [u] + path)
  {
    hide Dominant;
    var longer := [u] + path;
    forall k | 0 <= k < |longer| - 1 ensures Leads(g, longer[k], longer[k + 1]) {
      if k > 0 { assert Leads(g, path[k - 1], path[k - 1 + 1]); }
    }
    if NoChoice(g, path) {
      forall k | 0 < k < |longer| - 1 ensures Taken(g, longer[k], longer[k + 1]) {
        assert Taken(g, path[k - 1], path[k - 1 + 1]);
      }
    }
  }

  /** ... and a path without a choice sets it. */
  lemma {:induction false} FlagSet(g: Graph, rank: seq<nat>, target: nat, u: nat, path: seq<nat>)
    requires AllOrNothing(g, rank, target, u) && Completing(g, rank, target, u, path) && NoChoice(g, path)
    ensures Flagged(g, rank, target, u)
    decreases |path|
  {
    if !Dominant(g, rank, target, u) {
      assert path[0] == u && |path| > 1;
      assert Taken(g, path[0], path[0 + 1]) && Leads(g, path[0], path[0 + 1]);
      var outs := g[u].outs;
      var i := |outs| - 1;
      if g[u].fire.All? { i :| 0 <= i < |outs| && outs[i].next == path[1]; }
      NothingOut(g, rank, target, u, i);
      Shorter(g, rank, target, u, path);
      FlagSet(g, rank, target, path[1], path[1..]);
      OutputsAre(g, rank, target, u);
    }
  }

  lemma Shorter(g: Graph, rank: seq<nat>, target: nat, u: nat, path: seq<nat>)
    requires Acyclic(g, rank) && target < |g| && Completing(g, rank, target, u, path) && |path| > 1
    ensures Completing(g, rank, target, path[1], path[1..])
    ensures NoChoice(g, path) ==> NoChoice(g, path[1..])
  {
    hide Dominant;
    var rest := path[1..];
    forall k | 0 <= k < |rest| - 1 ensures Leads(g, rest[k], rest[k + 1]) {
      assert Leads(g, path[k + 1], path[k + 1 + 1]);
    }
    if NoChoice(g, path) {
      forall k | 0 <= k < |rest| - 1 ensures Taken(g, rest[k], rest[k + 1]) {
        assert Taken(g, path[k + 1], path[k + 1 + 1]);
      }
    }
  }

  /** Of a node that fires the whole join or nothing of it, the caller is told that calling it completes the join if
      and only if a path without choices leads from it to a node that fires the whole join. */
  lemma FlagMeans(g: Graph, rank: seq<nat>, target: nat, u: nat)
    requires AllOrNothing(g, rank, target, u)
    ensures Flagged(g, rank, target, u) <==> Noticed(g, rank, target, u)
  {
    hide Dominant, Clean;
    if Flagged(g, rank, target, u) {
      FlagTraced(g, rank, target, u);
    } else if path :| Completing(g, rank, target, u, path) && NoChoice(g, path) {
      FlagSet(g, rank, target, u, path);
    }
  }

  /** An output that delivers nothing has to come before another one if and only if calling it is known to complete
      the join and the other one delivers something. */
  lemma NothingOrdered(g: Graph, rank: seq<nat>, target: nat, v: nat, i: nat, j: nat)
    requires CleanAt(g, rank, target, v) && g[v].fire.All? && i < |g[v].outs| && j < |g[v].outs|
    requires !Delivers(g, rank, target, v, i)
    ensures Ordered(g, rank, target, v, i, j) <==>
            Delivers(g, rank, target, v, j) && Noticed(g, rank, target, g[v].outs[i].next)
  {
    OutputIs(g, rank, target, v, i);
    OutputIs(g, rank, target, v, j);
    var each, n := Each(g, rank, target, v), g[target].inports;
    if each[j].pieces != [] { HighestPort(each[j].pieces, target, n); }
    assert Ordered(g, rank, target, v, i, j) <==> HappensBefore(each[i], each[j], n);
    FlagMeans(g, rank, target, g[v].outs[i].next);
    hide Noticed, Each, Cover, Clean, Ordered, Ports;
  }

  /** An output that delivers the last port has to come after the others that deliver something. */
  lemma LastOrdered(g: Graph, rank: seq<nat>, target: nat, v: nat, i: nat, j: nat)
    requires CleanAt(g, rank, target, v) && g[v].fire.All? && i < |g[v].outs| && j < |g[v].outs| && i != j
    requires Delivers(g, rank, target, v, i)
    requires g[target].inports - 1 in Ports(Each(g, rank, target, v)[j].pieces, g[target].inports)
    ensures Ordered(g, rank, target, v, i, j)
  {
    hide Clean, Ports, Fold, Cover, HappensBefore, UnionOf, Ordered, GoalOf, Each;
    var n, each := g[target].inports, Each(g, rank, target, v);
    OutputsAre(g, rank, target, v);
    EachApart(each, Ports(Cover(g, rank, target, v).value.pieces, n), i, j, n);
    assert Ports(each[i].pieces, n) != {};
    LastComesAfter(each[i], each[j], target, n);
    OrderedIf(g, rank, target, v, i, j);
  }

  /** The calls of a node that fires all its outputs: what completes the join by itself comes before all that fills
      the node's own buffer, and the last port of the join at the end of that. */
  ghost predicate InOrder(g: Graph, rank: seq<nat>, target: nat, v: nat, calls: seq<nat>)
    requires Acyclic(g, rank) && target < |g| && v < |g| && Cover(g, rank, target, v).Ok?
  {
    && |calls| == |g[v].outs| && Distinct(calls) && (forall k :: 0 <= k < |calls| ==> calls[k] < |g[v].outs|)
    && (forall j, k :: 0 <= j < |calls| && 0 <= k < |calls| && j != k && Earlier(g, rank, target, v, calls[j], calls[k])
          ==> j < k)
  }

  ghost predicate Earlier(g: Graph, rank: seq<nat>, target: nat, v: nat, i: nat, j: nat)
    requires Acyclic(g, rank) && target < |g| && v < |g| && Cover(g, rank, target, v).Ok?
    requires i < |g[v].outs| && j < |g[v].outs|
  {
    if Delivers(g, rank, target, v, i)
    then g[target].inports - 1 in Ports(Each(g, rank, target, v)[j].pieces, g[target].inports)
    else Noticed(g, rank, target, g[v].outs[i].next) && Delivers(g, rank, target, v, j)
  }

  lemma OrderedIsInOrder(g: Graph, rank: seq<nat>, target: nat, v: nat, calls: seq<nat>)
    requires CleanAt(g, rank, target, v) && g[v].fire.All? && |calls| == |g[v].outs| && Distinct(calls)
    requires forall k :: 0 <= k < |calls| ==> calls[k] < |g[v].outs|
    requires forall j, k :: 0 <= j < |calls| && 0 <= k < |calls| ==>
               Ordered(g, rank, target, v, calls[j], calls[k]) ==> j < k
    ensures InOrder(g, rank, target, v, calls)
  {
    hide Delivers, Noticed, Ordered, Ports, Each, Cover, Clean;
    forall j, k | 0 <= j < |calls| && 0 <= k < |calls| && j != k && Earlier(g, rank, target, v, calls[j], calls[k])
      ensures j < k
    {
      if Delivers(g, rank, target, v, calls[j]) {
        LastOrdered(g, rank, target, v, calls[j], calls[k]);
      } else {
        NothingOrdered(g, rank, target, v, calls[j], calls[k]);
      }
    }
  }
}
