/** The order in which an element of an accepted graph calls its outputs. */
module JoinPlan {
  import opened Wrappers
  import opened Sequences
  import opened FlowCollection
  import opened JoinAnalysis
  import opened JoinRuns
  import opened JoinOrder
  import opened CallOrder

  /** How late an output has to be called: nothing to deliver, something, the last port of the join. */
  function Level(f: Flow, n: nat): nat
    requires AllProper(f.pieces)
  {
    if f.pieces == [] then 0 else if MaxPort(f.pieces) == n - 1 then 2 else 1
  }

  lemma BeforeIsLower(a: Flow, b: Flow, target: nat, n: nat)
    requires AllProper(a.pieces) && AllProper(b.pieces) && Clean(a.pieces, target, n) && Clean(b.pieces, target, n)
    requires !Full(a) && !Full(b) && HappensBefore(a, b, n)
    ensures Level(a, n) < Level(b, n)
  {
    if a.pieces != [] { HighestPort(a.pieces, target, n); }
    if b.pieces != [] { HighestPort(b.pieces, target, n); }
  }

  predicate Rises(level: seq<nat>, a: nat, b: nat) {
    a < |level| && b < |level| && level[a] < level[b]
  }

  predicate RisesAt(level: seq<nat>, c: seq<nat>, k: int) {
    0 <= k < |c| - 1 ==> Rises(level, c[k], c[k + 1])
  }

  lemma {:induction false} LevelsClimb(level: seq<nat>, c: seq<nat>, k: nat)
    requires 0 < k < |c| && forall i :: RisesAt(level, c, i)
    ensures Rises(level, c[0], c[k])
  {
    assert RisesAt(level, c, k - 1);
    if k > 1 { LevelsClimb(level, c, k - 1); }
  }

  /** The outputs that a join's buffer needs in order never form a cycle. */
  lemma NoConflict(g: Graph, rank: seq<nat>, target: nat, v: nat, c: seq<nat>)
    requires Acyclic(g, rank) && JoinsApart(g, rank, target) && v < |g| && Cover(g, rank, target, v).Ok?
    requires g[v].fire.All?
    requires Clean(Cover(g, rank, target, v).value.pieces, target, g[target].inports)
    requires |c| >= 2 && forall k :: 0 <= k < |c| - 1 ==> Ordered(g, rank, target, v, c[k], c[k + 1])
    ensures c[0] != c[|c| - 1]
  {
    var n, outs := g[target].inports, |g[v].outs|;
    var p := Fold(g, rank, target, v, outs).value;
    FoldSummed(g, rank, target, v, outs, p);
    var level := seq(outs, i requires 0 <= i < outs => Level(p.each[i], n));
    forall k ensures RisesAt(level, c, k) {
      if 0 <= k < |c| - 1 {
        assert Ordered(g, rank, target, v, c[k], c[k + 1]);
        BeforeIsLower(p.each[c[k]], p.each[c[k + 1]], target, n);
      }
    }
    LevelsClimb(level, c, |c| - 1);
  }

  /** The calls of a node are in an order that the runs of the analysis allow. */
  ghost predicate Obeys(g: Graph, rank: seq<nat>, target: nat, v: nat, calls: seq<nat>)
    requires Acyclic(g, rank) && target < |g| && v < |g|
  {
    && |calls| == |g[v].outs| && Distinct(calls) && (forall k :: 0 <= k < |calls| ==> calls[k] < |g[v].outs|)
    && (forall j, k :: 0 <= j < |calls| && 0 <= k < |calls| ==>
                         Ordered(g, rank, target, v, calls[j], calls[k]) ==> j < k)
  }

  function Range(n: nat): (r: seq<nat>)
    ensures |r| == n && Distinct(r) && (forall k :: 0 <= k < n ==> r[k] < n) && forall i: nat :: i in r <==> i < n
  {
    if n == 0 then [] else Range(n - 1) + [n - 1]
  }

  type Plans = map<nat, seq<nat>>

  // All joins list their pairs with the same elements; only then the calls are ordered.

  /** The join `t` makes the reached node `v` fire output `i` before output `j`. */
  ghost predicate Needs(g: Graph, rank: seq<nat>, roots: seq<nat>, t: nat, v: nat, i: nat, j: nat)
    requires Acyclic(g, rank)
  {
    t < |g| && g[t].join && v < |g| && Reached(g, t, roots, v) && Ordered(g, rank, t, v, i, j)
  }

  /** One of the joins does. */
  ghost predicate Before(g: Graph, rank: seq<nat>, roots: seq<nat>, v: nat, i: nat, j: nat)
    requires Acyclic(g, rank)
  {
    exists t: nat :: Needs(g, rank, roots, t, v, i, j)
  }

  /** The joins contradict each other: output c[0] would have to come before itself. */
  ghost predicate Contradiction(g: Graph, rank: seq<nat>, roots: seq<nat>, v: nat, c: seq<nat>)
    requires Acyclic(g, rank)
  {
    |c| >= 2 && c[0] == c[|c| - 1] && forall k :: 0 <= k < |c| - 1 ==> Before(g, rank, roots, v, c[k], c[k + 1])
  }

  ghost predicate Contradicted(g: Graph, rank: seq<nat>, roots: seq<nat>, v: nat)
    requires Acyclic(g, rank)
  {
    exists c :: Contradiction(g, rank, roots, v, c)
  }

  /** The pairs at `v` are those of the joins below `m`. */
  ghost predicate Gathered(g: Graph, rank: seq<nat>, roots: seq<nat>, m: nat, v: nat, pairs: Pairs)
    requires Acyclic(g, rank)
  {
    forall i: nat, j: nat :: (i, j) in pairs <==> exists t: nat :: t < m && Needs(g, rank, roots, t, v, i, j)
  }

  ghost predicate AllGathered(g: Graph, rank: seq<nat>, roots: seq<nat>, m: nat, order: Orders)
    requires Acyclic(g, rank)
  {
    forall v: nat :: Gathered(g, rank, roots, m, v, PairsOf(order, v))
  }

  lemma GatherListed(g: Graph, rank: seq<nat>, roots: seq<nat>, t: nat, v: nat, was: Pairs, now: Pairs)
    requires Acyclic(g, rank) && t < |g| && g[t].join && v < |g| && Reached(g, t, roots, v)
    requires Gathered(g, rank, roots, t, v, was) && Listed(g, rank, t, v, was, now)
    ensures Gathered(g, rank, roots, t + 1, v, now)
  {
    hide Reached, Ordered;
    forall i: nat, j: nat ensures (i, j) in now <==> exists u: nat :: u < t + 1 && Needs(g, rank, roots, u, v, i, j) {
      assert now == was + now[|was|..];
      if Ordered(g, rank, t, v, i, j) { assert Needs(g, rank, roots, t, v, i, j); }
    }
  }

  lemma GatherNothing(g: Graph, rank: seq<nat>, roots: seq<nat>, t: nat, v: nat, pairs: Pairs)
    requires Acyclic(g, rank) && Gathered(g, rank, roots, t, v, pairs)
    requires t < |g| && g[t].join ==> !Reached(g, t, roots, v)
    ensures Gathered(g, rank, roots, t + 1, v, pairs)
  {
    hide Reached, Ordered;
    forall i: nat, j: nat ensures (i, j) in pairs <==> exists u: nat :: u < t + 1 && Needs(g, rank, roots, u, v, i, j) {
      assert !Needs(g, rank, roots, t, v, i, j);
      if u: nat :| u < t + 1 && Needs(g, rank, roots, u, v, i, j) { assert u < t; }
    }
  }

  /** One more join has been annotated. */
  lemma GatherMore(g: Graph, rank: seq<nat>, roots: seq<nat>, t: nat, was: Orders, answer: Answers, now: Orders,
                   top: nat)
    requires Acyclic(g, rank) && t < |g| && g[t].join && AllGathered(g, rank, roots, t, was)
    requires Later(g, rank, t, top, map[], was, answer, now) && forall v :: v in answer <==> Reached(g, t, roots, v)
    ensures AllGathered(g, rank, roots, t + 1, now)
  {
    hide Reached, Gathered, Listed, PairsOf;
    forall v: nat ensures Gathered(g, rank, roots, t + 1, v, PairsOf(now, v)) {
      if v in answer {
        GatherListed(g, rank, roots, t, v, PairsOf(was, v), PairsOf(now, v));
      } else {
        GatherNothing(g, rank, roots, t, v, PairsOf(was, v));
      }
    }
  }

  lemma GatherNone(g: Graph, rank: seq<nat>, roots: seq<nat>)
    requires Acyclic(g, rank)
    ensures AllGathered(g, rank, roots, 0, map[])
  {
    hide Needs;
  }

  lemma GatherSkip(g: Graph, rank: seq<nat>, roots: seq<nat>, t: nat, order: Orders)
    requires Acyclic(g, rank) && t < |g| && !g[t].join && AllGathered(g, rank, roots, t, order)
    ensures AllGathered(g, rank, roots, t + 1, order)
  {
    hide Gathered, PairsOf;
    forall v: nat ensures Gathered(g, rank, roots, t + 1, v, PairsOf(order, v)) {
      GatherNothing(g, rank, roots, t, v, PairsOf(order, v));
    }
  }

  /** Every join finds who owns its buffer. */
  ghost predicate AllAccepted(g: Graph, rank: seq<nat>, roots: seq<nat>, m: nat)
    requires Acyclic(g, rank) && m <= |g| && (forall k :: 0 <= k < |roots| ==> roots[k] < |g|)
  {
    forall t :: 0 <= t < m && g[t].join ==> Accepted(g, rank, t, roots)
  }

  /** annotate_join_info, its second loop: the joins are annotated one after the other, and add to the same orders. */
  method AnnotateAll(g: Graph, roots: seq<nat>, ghost rank: seq<nat>) returns (r: Result<Orders>)
    requires Acyclic(g, rank) && forall k :: 0 <= k < |roots| ==> roots[k] < |g|
    ensures r.Ok? <==> AllAccepted(g, rank, roots, |g|)
    ensures r.Ok? ==> AllGathered(g, rank, roots, |g|, r.value)
  {
    hide Accepted, Reached, AllGathered, AnswersOk, Later;
    var order: Orders := map[];
    GatherNone(g, rank, roots);
    for t := 0 to |g|
      invariant AllAccepted(g, rank, roots, t) && AllGathered(g, rank, roots, t, order)
    {
      if g[t].join {
        var s := new Search(g, t, order, rank, roots);
        var a := Annotate(s, roots);
        if a.Err? {
          return Err(a.msg);
        }
        ghost var top :| Later(g, rank, t, top, map[], order, s.answer, s.order);
        GatherMore(g, rank, roots, t, order, s.answer, s.order, top);
        order := s.order;
      } else {
        GatherSkip(g, rank, roots, t, order);
      }
    }
    r := Ok(order);
  }

  /** Whatever join the calls of the node are looked at from, they are in its order. */
  ghost predicate ObeysAll(g: Graph, rank: seq<nat>, roots: seq<nat>, v: nat, calls: seq<nat>)
    requires Acyclic(g, rank) && v < |g|
  {
    forall t :: 0 <= t < |g| && g[t].join && Reached(g, t, roots, v) ==> Obeys(g, rank, t, v, calls)
  }

  lemma GatheredIn(g: Graph, rank: seq<nat>, roots: seq<nat>, v: nat, pairs: Pairs)
    requires Acyclic(g, rank) && v < |g| && Gathered(g, rank, roots, |g|, v, pairs)
    ensures forall a: nat, b: nat :: (a, b) in pairs ==> a < |g[v].outs| && b < |g[v].outs|
    ensures forall a: nat, b: nat :: (a, b) in pairs <==> Before(g, rank, roots, v, a, b)
    ensures HasCycle(pairs) <==> Contradicted(g, rank, roots, v)
  {
    hide Reached;
    forall a: nat, b: nat ensures (a, b) in pairs <==> Before(g, rank, roots, v, a, b) {
      if Before(g, rank, roots, v, a, b) {
        var t: nat :| Needs(g, rank, roots, t, v, a, b);
        assert t < |g|;
      }
    }
    forall a: nat, b: nat | (a, b) in pairs ensures a < |g[v].outs| && b < |g[v].outs| {
      var t: nat :| t < |g| && Needs(g, rank, roots, t, v, a, b);
    }
    hide Before, Gathered;
    if HasCycle(pairs) {
      var c :| IsCycle(pairs, c);
      assert Contradiction(g, rank, roots, v, c);
    }
    if Contradicted(g, rank, roots, v) {
      var c :| Contradiction(g, rank, roots, v, c);
      assert IsCycle(pairs, c);
    }
  }

  lemma SortedObeys(g: Graph, rank: seq<nat>, roots: seq<nat>, t: nat, v: nat, pairs: Pairs, calls: seq<nat>)
    requires Acyclic(g, rank) && t < |g| && g[t].join && v < |g| && Reached(g, t, roots, v)
    requires forall a: nat, b: nat :: (a, b) in pairs <==> Before(g, rank, roots, v, a, b)
    requires Sorted(Range(|g[v].outs|), pairs, calls) || (pairs == [] && calls == Range(|g[v].outs|))
    ensures Obeys(g, rank, t, v, calls)
  {
    hide Ordered, Reached;
    FitsIn(calls, Range(|g[v].outs|));
    FitsIn(Range(|g[v].outs|), calls);
    assert forall k :: 0 <= k < |calls| ==> calls[k] in calls;
    forall j, k | 0 <= j < |calls| && 0 <= k < |calls| && Ordered(g, rank, t, v, calls[j], calls[k]) ensures j < k {
      assert Needs(g, rank, roots, t, v, calls[j], calls[k]);
      assert Before(g, rank, roots, v, calls[j], calls[k]);
    }
  }

  /** Ordering the calls of one element: it fails exactly if the joins contradict each other there, and otherwise the
      calls come out as AcceptedIsSound assumes them, for every join. */
  method Plan(g: Graph, roots: seq<nat>, v: nat, pairs: Pairs, ghost rank: seq<nat>) returns (r: Result<seq<nat>>)
    requires Acyclic(g, rank) && v < |g| && Gathered(g, rank, roots, |g|, v, pairs)
    ensures r.Err? <==> Contradicted(g, rank, roots, v)
    ensures r.Ok? ==> ObeysAll(g, rank, roots, v, r.value)
  {
    GatheredIn(g, rank, roots, v, pairs);
    hide Gathered, Contradicted, Reached, Before, Obeys;
    var ports := Range(|g[v].outs|);
    r := OrderCalls(ports, pairs);
    if r.Ok? {
      if pairs == [] { r := Ok(ports); }
      forall t | 0 <= t < |g| && g[t].join && Reached(g, t, roots, v) ensures Obeys(g, rank, t, v, r.value) {
        SortedObeys(g, rank, roots, t, v, pairs, r.value);
      }
    }
  }

  ghost predicate PlannedUpto(g: Graph, rank: seq<nat>, roots: seq<nat>, plans: Plans, n: nat)
    requires Acyclic(g, rank) && n <= |g|
  {
    forall v :: 0 <= v < n ==> v in plans && ObeysAll(g, rank, roots, v, plans[v])
  }

  /** Every element that fires all its outputs calls them in an order that fills the buffer of every join as its owners
      expect, as long as the joins do not deliver parts of each other's data. */
  ghost predicate AllInOrder(g: Graph, rank: seq<nat>, roots: seq<nat>, plans: Plans)
    requires Acyclic(g, rank)
  {
    forall t, v :: 0 <= t < |g| && 0 <= v < |g| && g[t].join && g[v].fire.All? && JoinsApart(g, rank, t)
                   && Reached(g, t, roots, v) ==>
      Cover(g, rank, t, v).Ok? && v in plans && InOrder(g, rank, t, v, plans[v])
  }

  lemma CompiledInOrder(g: Graph, rank: seq<nat>, roots: seq<nat>, plans: Plans)
    requires Acyclic(g, rank) && (forall k :: 0 <= k < |roots| ==> roots[k] < |g|)
    requires AllAccepted(g, rank, roots, |g|) && PlannedUpto(g, rank, roots, plans, |g|)
    ensures AllInOrder(g, rank, roots, plans)
  {
    hide Accepted, Reached, Cover, Clean, JoinsApart, InOrder, Ordered;
    forall t, v | 0 <= t < |g| && 0 <= v < |g| && g[t].join && g[v].fire.All? && JoinsApart(g, rank, t)
                  && Reached(g, t, roots, v)
      ensures Cover(g, rank, t, v).Ok? && v in plans && InOrder(g, rank, t, v, plans[v])
    {
      ReachedClean(g, rank, t, roots, v);
      assert Obeys(g, rank, t, v, plans[v]);
      OrderedIsInOrder(g, rank, t, v, plans[v]);
    }
  }

  /** The joins of a graph are compiled: it succeeds exactly if every join finds who owns its buffer, and no element is
      asked by several joins to fire an output before itself. Then the calls of every element are in an order that suits
      all joins: what completes a join by itself is called before anything that fills the element's own buffer. */
  method Compile(g: Graph, roots: seq<nat>, ghost rank: seq<nat>) returns (r: Result<Plans>)
    requires Acyclic(g, rank) && forall k :: 0 <= k < |roots| ==> roots[k] < |g|
    ensures r.Ok? <==>
            AllAccepted(g, rank, roots, |g|) && forall v :: 0 <= v < |g| ==> !Contradicted(g, rank, roots, v)
    ensures r.Ok? ==> PlannedUpto(g, rank, roots, r.value, |g|)
    ensures r.Ok? ==> AllInOrder(g, rank, roots, r.value)
  {
    hide AllAccepted, Contradicted, ObeysAll, Gathered, AllInOrder;
    var order := AnnotateAll(g, roots, rank);
    if order.Err? {
      return Err(order.msg);
    }
    var plans: Plans := map[];
    for v := 0 to |g|
      invariant forall u :: 0 <= u < v ==> !Contradicted(g, rank, roots, u)
      invariant PlannedUpto(g, rank, roots, plans, v)
    {
      var calls := Plan(g, roots, v, PairsOf(order.value, v), rank);
      if calls.Err? {
        return Err(calls.msg);
      }
      plans := plans[v := calls.value];
    }
    CompiledInOrder(g, rank, roots, plans);
    r := Ok(plans);
  }

  /** The plans suit one of the joins. */
  ghost predicate Planned(g: Graph, rank: seq<nat>, target: nat, roots: seq<nat>, plans: Plans)
    requires Acyclic(g, rank) && target < |g|
  {
    forall v: nat :: Reached(g, target, roots, v) ==>
      v < |g| && v in plans && Obeys(g, rank, target, v, plans[v])
  }

  lemma ReachedIsNode(g: Graph, target: nat, roots: seq<nat>, v: nat)
    requires Reached(g, target, roots, v)
    ensures v < |g| && v != target
  {
    var path :| Way(g, target, roots, path) && path[|path| - 1] == v;
  }

  lemma PlannedForEach(g: Graph, rank: seq<nat>, roots: seq<nat>, plans: Plans, target: nat)
    requires Acyclic(g, rank) && PlannedUpto(g, rank, roots, plans, |g|) && target < |g| && g[target].join
    ensures Planned(g, rank, target, roots, plans)
  {
    hide Obeys, Reached;
    forall v: nat | Reached(g, target, roots, v) ensures v < |g| && v in plans && Obeys(g, rank, target, v, plans[v]) {
      ReachedIsNode(g, target, roots, v);
      assert ObeysAll(g, rank, roots, v, plans[v]);
    }
  }

  // One join never contradicts itself.

  /** If only one join has demands on an element, nothing is contradicted there. */
  lemma OneJoinAgrees(g: Graph, rank: seq<nat>, target: nat, roots: seq<nat>, v: nat)
    requires Acyclic(g, rank) && JoinsApart(g, rank, target) && (forall k :: 0 <= k < |roots| ==> roots[k] < |g|)
    requires Accepted(g, rank, target, roots)
    requires forall t: nat, i: nat, j: nat :: t != target ==> !Needs(g, rank, roots, t, v, i, j)
    ensures !Contradicted(g, rank, roots, v)
  {
    if Contradicted(g, rank, roots, v) {
      var c :| Contradiction(g, rank, roots, v, c);
      assert Before(g, rank, roots, v, c[0], c[0 + 1]);
      forall k | 0 <= k < |c| - 1 ensures Needs(g, rank, roots, target, v, c[k], c[k + 1]) {
        assert Before(g, rank, roots, v, c[k], c[k + 1]);
      }
      assert Needs(g, rank, roots, target, v, c[0], c[0 + 1]);
      ReachedClean(g, rank, target, roots, v);
      hide Reached, Accepted, JoinsApart, Clean, Cover, Before;
      NoConflict(g, rank, target, v, c);
    }
  }

  /** With a single join, compilation succeeds exactly for the graphs that the search accepts. */
  lemma SingleJoinAgrees(g: Graph, rank: seq<nat>, target: nat, roots: seq<nat>)
    requires Acyclic(g, rank) && target < |g| && g[target].join && 2 <= g[target].inports
    requires forall v :: 0 <= v < |g| && v != target ==> !g[v].join
    requires forall v, i :: 0 <= v < |g| && 0 <= i < |g[v].outs| && g[v].outs[i].next == target ==>
               g[v].outs[i].port < g[target].inports
    requires forall k :: 0 <= k < |roots| ==> roots[k] < |g|
    ensures AllAccepted(g, rank, roots, |g|) <==> Accepted(g, rank, target, roots)
    ensures Accepted(g, rank, target, roots) ==> forall v :: 0 <= v < |g| ==> !Contradicted(g, rank, roots, v)
  {
    hide Accepted, Contradicted, Reached, Ordered;
    SingleJoin(g, rank, target);
    if Accepted(g, rank, target, roots) {
      forall v | 0 <= v < |g| ensures !Contradicted(g, rank, roots, v) {
        OneJoinAgrees(g, rank, target, roots, v);
      }
    }
  }

  // An accepted graph does run.

  /** The call of one output: a save for the target and for other joins, and a firing otherwise. */
  ghost predicate Calls(g: Graph, rank: seq<nat>, target: nat, v: nat, i: nat, c: Call)
    requires Acyclic(g, rank) && target < |g| && v < |g| && i < |g[v].outs|
  {
    var u := g[v].outs[i].next;
    if u == target then c == Save(i)
    else if g[u].join then c == Wait(i)
    else c.Invoke? && c.out == i && c.sub.node == u && Legal(g, rank, target, c.sub)
  }

  lemma {:induction false} CallAll(g: Graph, rank: seq<nat>, target: nat, roots: seq<nat>, plans: Plans, v: nat,
                                   calls: seq<nat>, k: nat)
    returns (cs: seq<Call>)
    requires Acyclic(g, rank) && JoinsApart(g, rank, target) && Planned(g, rank, target, roots, plans)
    requires Reached(g, target, roots, v)
    requires v < |g| && k <= |calls| && forall j :: 0 <= j < |calls| ==> calls[j] < |g[v].outs|
    ensures |cs| == k && forall j :: 0 <= j < k ==> Calls(g, rank, target, v, calls[j], cs[j])
    decreases rank[v], k
  {
    hide Planned, JoinsApart, Reached, Legal;
    if k == 0 {
      cs := [];
    } else {
      cs := CallAll(g, rank, target, roots, plans, v, calls, k - 1);
      var i := calls[k - 1];
      var u := g[v].outs[i].next;
      var c := Save(i);
      if u != target && g[u].join {
        c := Wait(i);
      } else if u != target {
        assert Leads(g, v, u);
        NextReached(g, target, roots, v, u);
        var f := SomeRun(g, rank, target, roots, plans, u);
        c := Invoke(i, f);
      }
      cs := cs + [c];
    }
  }

  /** With the calls in the order of the plan, every node that is reached has a legal firing. */
  lemma {:induction false} SomeRun(g: Graph, rank: seq<nat>, target: nat, roots: seq<nat>, plans: Plans, v: nat)
    returns (f: Firing)
    requires Acyclic(g, rank) && JoinsApart(g, rank, target) && Planned(g, rank, target, roots, plans)
    requires Reached(g, target, roots, v)
    requires v < |g|
    ensures f.node == v && Legal(g, rank, target, f)
    ensures g[v].fire.All? ==> v in plans && |f.calls| == |plans[v]| && forall k :: 0 <= k < |f.calls| ==>
              f.calls[k].out == plans[v][k]
    decreases rank[v], |g[v].outs| + 1
  {
    assert target < |g|;
    hide Planned, JoinsApart, Reached, Legal, Obeys, Calls;
    PlanIs(g, rank, target, roots, plans, v);
    var calls := if g[v].fire.All? then plans[v] else if g[v].fire.One? && g[v].outs != [] then [0] else [];
    CallsInRange(g, rank, target, v, calls);
    var cs := CallAll(g, rank, target, roots, plans, v, calls, |calls|);
    f := Firing(v, cs);
    CallsLegal(g, rank, target, v, calls, f);
    CallsAre(g, rank, target, v, calls, f.calls);
  }

  lemma PlanIs(g: Graph, rank: seq<nat>, target: nat, roots: seq<nat>, plans: Plans, v: nat)
    requires Acyclic(g, rank) && target < |g| && Planned(g, rank, target, roots, plans) && Reached(g, target, roots, v)
    ensures v < |g| && v != target && (g[v].fire.All? ==> v in plans && Obeys(g, rank, target, v, plans[v]))
  {
    hide Obeys, Reached;
    ReachedIsNode(g, target, roots, v);
  }

  lemma CallsInRange(g: Graph, rank: seq<nat>, target: nat, v: nat, calls: seq<nat>)
    requires Acyclic(g, rank) && target < |g| && v < |g|
    requires Obeys(g, rank, target, v, calls) || calls == [] || (calls == [0] && g[v].outs != [])
    ensures |calls| <= |g[v].outs| && forall j :: 0 <= j < |calls| ==> calls[j] < |g[v].outs|
  {
    hide Ordered;
  }

  lemma CallsAre(g: Graph, rank: seq<nat>, target: nat, v: nat, calls: seq<nat>, cs: seq<Call>)
    requires Acyclic(g, rank) && target < |g| && v < |g| && |cs| == |calls|
    requires forall k :: 0 <= k < |calls| ==> calls[k] < |g[v].outs| && Calls(g, rank, target, v, calls[k], cs[k])
    ensures forall k :: 0 <= k < |calls| ==> cs[k].out == calls[k]
  {
    hide Legal;
  }

  lemma CallsLegal(g: Graph, rank: seq<nat>, target: nat, v: nat, calls: seq<nat>, f: Firing)
    requires Acyclic(g, rank) && target < |g| && v < |g| && v != target && f.node == v && |f.calls| == |calls|
    requires forall k :: 0 <= k < |calls| ==> calls[k] < |g[v].outs| && Calls(g, rank, target, v, calls[k], f.calls[k])
    requires match g[v].fire
             case All => Obeys(g, rank, target, v, calls)
             case One => |calls| == if g[v].outs == [] then 0 else 1
             case _ => calls == []
    ensures Legal(g, rank, target, f)
  {
    hide Ordered;
    assert forall k :: 0 <= k < |calls| ==> f.calls[k].out == calls[k];
  }
}
