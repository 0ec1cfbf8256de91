/** The analysis that computes the live fields: memoised passes, repeated until nothing changes. */
module LivenessAnalysis {
  import opened Wrappers
  import opened Liveness
  import opened LivenessRoutes

  /** The node at the end of a path. */
  ghost function End(g: Graph, v: nat, path: seq<nat>): nat
    requires IsPath(g, v, path)
    decreases |path|
  {
    if path == [] then v else End(g, g[v].outs[path[0]], path[1..])
  }

  /** The owners of a join's buffer lie above the join, and what is killed on the way is given. */
  ghost predicate Dominated(g: Graph) {
    forall j, i :: 0 <= j < |g| && 0 <= i < |g[j].dominants| ==>
      var d := g[j].dominants[i];
      d < |g| && d in g[j].kills && exists path :: IsPath(g, d, path) && End(g, d, path) == j
  }

  lemma {:induction false} UsesOnPath(g: Graph, rank: seq<nat>, v: nat, path: seq<nat>)
    requires Acyclic(g, rank) && IsPath(g, v, path)
    ensures End(g, v, path) < |g| && Uses(g, rank, End(g, v, path)) <= Uses(g, rank, v)
    decreases |path|
  {
    if path != [] {
      var u := g[v].outs[path[0]];
      UsesOnPath(g, rank, u, path[1..]);
      UsesOfOutput(g, rank, v, |g[v].outs|, path[0]);
    }
  }

  lemma {:induction false} UsesOfOutput(g: Graph, rank: seq<nat>, v: nat, k: nat, i: nat)
    requires Acyclic(g, rank) && v < |g| && i < k <= |g[v].outs|
    ensures Uses(g, rank, g[v].outs[i]) <= UsesBehind(g, rank, v, k)
    decreases k
  {
    if i < k - 1 { UsesOfOutput(g, rank, v, k - 1, i); }
  }

  lemma UsesAbove(g: Graph, rank: seq<nat>, j: nat, i: nat)
    requires Acyclic(g, rank) && Dominated(g) && j < |g| && i < |g[j].dominants|
    ensures g[j].dominants[i] < |g| && g[j].dominants[i] in g[j].kills
    ensures Uses(g, rank, j) <= Uses(g, rank, g[j].dominants[i])
  {
    var path :| IsPath(g, g[j].dominants[i], path) && End(g, g[j].dominants[i], path) == j;
    UsesOnPath(g, rank, g[j].dominants[i], path);
  }

  /** What a join demands of the `i`-th owner of its buffer. */
  function Demanded(g: Graph, j: nat, i: nat, live: set<Field>): set<Field>
    requires j < |g| && i < |g[j].dominants|
  {
    if g[j].dominants[i] in g[j].kills then live - g[j].kills[g[j].dominants[i]] else live
  }

  /** The demands of the joins do not exceed what can be used below. */
  ghost predicate Bounded(g: Graph, rank: seq<nat>, dom: Demand)
    requires Acyclic(g, rank)
  {
    forall v :: v in dom ==> v < |g| && dom[v] <= Uses(g, rank, v)
  }

  /** The demands of a join are met. */
  ghost predicate Met(g: Graph, dom: Demand, j: nat, live: set<Field>)
    requires j < |g|
  {
    forall i :: 0 <= i < |g[j].dominants| ==>
                  g[j].dominants[i] in dom && Demanded(g, j, i, live) <= dom[g[j].dominants[i]]
  }

  /** What a visit of `j` adds to the demands is what the join `j` demands. */
  ghost predicate OnlyDemanded(g: Graph, dom: Demand, dom': Demand, j: nat, live: set<Field>)
    requires j < |g|
  {
    && (forall d :: d in dom' ==> d in dom || d in g[j].dominants)
    && (forall d, x :: d in dom' && x in dom'[d] && x !in At(dom, d) ==>
          exists i :: 0 <= i < |g[j].dominants| && g[j].dominants[i] == d && x in Demanded(g, j, i, live))
  }

  ghost predicate Grows(dom: Demand, dom': Demand) {
    forall v :: v in dom ==> v in dom' && dom[v] <= dom'[v]
  }

  lemma {:induction false} LiveBehindUsed(g: Graph, rank: seq<nat>, dom: Demand, v: nat, k: nat)
    requires Acyclic(g, rank) && Bounded(g, rank, dom) && v < |g| && k <= |g[v].outs|
    ensures LiveBehind(g, rank, dom, v, k) <= UsesBehind(g, rank, v, k)
    decreases rank[v], k
  {
    if k > 0 {
      LiveBehindUsed(g, rank, dom, v, k - 1);
      LiveUsed(g, rank, dom, g[v].outs[k - 1]);
    }
  }

  /** Only used fields are live; this is why the memo may answer with nothing when nothing is used. */
  lemma {:induction false} LiveUsed(g: Graph, rank: seq<nat>, dom: Demand, v: nat)
    requires Acyclic(g, rank) && Bounded(g, rank, dom) && v < |g|
    ensures Live(g, rank, dom, v) <= Uses(g, rank, v)
    decreases rank[v], |g[v].outs| + 1
  {
    LiveBehindUsed(g, rank, dom, v, |g[v].outs|);
  }

  lemma {:induction false} BehindGrows(g: Graph, rank: seq<nat>, dom: Demand, dom': Demand, v: nat, k: nat)
    requires Acyclic(g, rank) && Grows(dom, dom') && v < |g| && k <= |g[v].outs|
    ensures LiveBehind(g, rank, dom, v, k) <= LiveBehind(g, rank, dom', v, k)
    decreases rank[v], k
  {
    if k > 0 {
      BehindGrows(g, rank, dom, dom', v, k - 1);
      LiveGrows(g, rank, dom, dom', g[v].outs[k - 1]);
    }
  }

  /** More demands, more live fields. */
  lemma {:induction false} LiveGrows(g: Graph, rank: seq<nat>, dom: Demand, dom': Demand, v: nat)
    requires Acyclic(g, rank) && Grows(dom, dom') && v < |g|
    ensures Live(g, rank, dom, v) <= Live(g, rank, dom', v)
    decreases rank[v], |g[v].outs| + 1
  {
    BehindGrows(g, rank, dom, dom', v, |g[v].outs|);
  }

  /** The results of the analysis at some moment. */
  datatype Results = Results(liveness: map<nat, set<Field>>, uses: map<nat, set<Field>>, dom: Demand)

  /** A node that the pass has finished. */
  ghost predicate Finished(g: Graph, rank: seq<nat>, r0: Results, r: Results, done: set<nat>, v: nat)
    requires Acyclic(g, rank)
  {
    && v < |g| && v in r.liveness && v in r.uses && r.uses[v] == Uses(g, rank, v) && r.liveness[v] <= r.uses[v]
    && (forall i :: 0 <= i < |g[v].outs| ==> g[v].outs[i] in done)
    && (r.dom == r0.dom ==> r.liveness[v] == Live(g, rank, r0.dom, v))
    && Met(g, r.dom, v, r.liveness[v])
  }

  ghost predicate Same(r0: Results, r: Results, v: nat) {
    && v in r0.liveness && v in r.liveness && r0.liveness[v] == r.liveness[v]
    && v in r0.uses && v in r.uses && r0.uses[v] == r.uses[v]
  }

  /** A pass that began with the results `r0` and has finished the nodes `done`. */
  ghost predicate PassOk(g: Graph, rank: seq<nat>, r0: Results, r: Results, done: set<nat>, change: bool)
    requires Acyclic(g, rank)
  {
    && Bounded(g, rank, r.dom) && Grows(r0.dom, r.dom)
    && (forall v :: v in done ==> Finished(g, rank, r0, r, done, v))
    && (forall v :: v !in done ==> (v in r.liveness <==> v in r0.liveness))
    && (forall v :: v !in done && v in r0.liveness && v in r.liveness ==> r.liveness[v] == r0.liveness[v])
    && (forall v :: v !in done ==> (v in r.uses <==> v in r0.uses) && (v in r0.uses ==> r.uses[v] == r0.uses[v]))
    && (!change ==> r.dom == r0.dom && forall v :: v in done ==> Same(r0, r, v))
  }

  /** The results `r` are right for the demands they hold, at all nodes of `known`, and meet them. */
  ghost predicate Settled(g: Graph, rank: seq<nat>, r: Results, known: set<nat>)
    requires Acyclic(g, rank)
  {
    forall v :: v in known ==> Finished(g, rank, r, r, known, v)
  }

  /** A pass changes nothing that is settled. */
  ghost predicate Still(g: Graph, rank: seq<nat>, r0: Results, known: set<nat>, done: set<nat>, change: bool)
    requires Acyclic(g, rank)
  {
    Settled(g, rank, r0, known) ==> done <= known && !change
  }

  /** Demands that meet what every join demands of the owners of its buffer. */
  ghost predicate Meets(g: Graph, rank: seq<nat>, b: Demand)
    requires Acyclic(g, rank)
  {
    forall j :: 0 <= j < |g| ==> Met(g, b, j, Live(g, rank, b, j))
  }

  ghost predicate Within(g: Graph, rank: seq<nat>, r: Results, b: Demand)
    requires Acyclic(g, rank)
  {
    && Grows(r.dom, b)
    && (forall v :: v in r.liveness && v < |g| ==> r.liveness[v] <= Live(g, rank, b, v))
  }

  /** Nothing is demanded and nothing is called live that not every solution contains. */
  ghost predicate Least(g: Graph, rank: seq<nat>, r: Results)
    requires Acyclic(g, rank)
  {
    forall b: Demand :: Meets(g, rank, b) ==> Within(g, rank, r, b)
  }

  lemma {:induction false} ReturnedWithin(g: Graph, rank: seq<nat>, r: Results, b: Demand, v: nat, k: nat)
    requires Acyclic(g, rank) && v < |g| && k <= |g[v].outs| && Within(g, rank, r, b)
    ensures Returned(g, r, v, k) <= LiveBehind(g, rank, b, v, k)
  {
    if k > 0 { ReturnedWithin(g, rank, r, b, v, k - 1); }
  }

  lemma StepWithin(g: Graph, rank: seq<nat>, r: Results, changed: bool, v: nat, live: set<Field>, used: set<Field>,
                   r': Results, change: bool, b: Demand)
    requires Acyclic(g, rank) && v < |g| && Meets(g, rank, b) && Within(g, rank, r, b)
    requires Computed(g, rank, r, v, live, used) && Step(g, r, changed, v, live, used, r', change)
    ensures Within(g, rank, r', b)
  {
    ReturnedWithin(g, rank, r, b, v, |g[v].outs|);
    LiveIs(g, rank, b, v);
    KillGrows(Returned(g, r, v, |g[v].outs|) + At(r.dom, v), LiveBehind(g, rank, b, v, |g[v].outs|) + At(b, v),
              g[v].defs);
    assert live <= Live(g, rank, b, v);
    DemandWithin(g, rank, r, v, live, r', b);
  }

  lemma LiveIs(g: Graph, rank: seq<nat>, dom: Demand, v: nat)
    requires Acyclic(g, rank) && v < |g|
    ensures Live(g, rank, dom, v) == Kill(LiveBehind(g, rank, dom, v, |g[v].outs|) + At(dom, v), g[v].defs) + g[v].uses
  {
  }

  lemma KillGrows(a: set<Field>, b: set<Field>, defs: set<Field>)
    requires a <= b
    ensures Kill(a, defs) <= Kill(b, defs)
  {
  }

  /** The demands a node raises are inside every solution. */
  lemma DemandWithin(g: Graph, rank: seq<nat>, r: Results, v: nat, live: set<Field>, r': Results, b: Demand)
    requires Acyclic(g, rank) && v < |g| && Meets(g, rank, b) && Grows(r.dom, b)
    requires OnlyDemanded(g, r.dom, r'.dom, v, live)
    requires live <= Live(g, rank, b, v)
    ensures Grows(r'.dom, b)
  {
    assert Met(g, b, v, Live(g, rank, b, v));
    forall d | d in r'.dom ensures d in b && r'.dom[d] <= b[d] {
      forall x | x in r'.dom[d] ensures x in b[d] {
        if x !in At(r.dom, d) {
          var i :| 0 <= i < |g[v].dominants| && g[v].dominants[i] == d && x in Demanded(g, v, i, live);
          assert x in Demanded(g, v, i, Live(g, rank, b, v));
        }
      }
    }
  }

  lemma LeastKept(g: Graph, rank: seq<nat>, r: Results, changed: bool, v: nat, live: set<Field>, used: set<Field>,
                  r': Results, change: bool)
    requires Acyclic(g, rank) && v < |g| && Least(g, rank, r)
    requires Computed(g, rank, r, v, live, used) && Step(g, r, changed, v, live, used, r', change)
    ensures Least(g, rank, r')
  {
    hide Meets, Within, Computed, Step;
    forall b: Demand | Meets(g, rank, b) ensures Within(g, rank, r', b) {
      StepWithin(g, rank, r, changed, v, live, used, r', change, b);
    }
  }

  lemma LeastBegins(g: Graph, rank: seq<nat>)
    requires Acyclic(g, rank)
    ensures Least(g, rank, Results(map[], map[], map[]))
  {
  }

  /** The union of what the outputs of a node have returned. */
  ghost function Returned(g: Graph, r: Results, v: nat, k: nat): set<Field>
    requires v < |g| && k <= |g[v].outs|
  {
    if k == 0 then {}
    else
      var w := g[v].outs[k - 1];
      Returned(g, r, v, k - 1) + if w < |g| && g[w].dominants != [] then {} else At(r.liveness, w)
  }

  lemma {:induction false} ReturnedIs(g: Graph, rank: seq<nat>, r0: Results, r: Results, done: set<nat>, v: nat, k: nat)
    requires Acyclic(g, rank) && v < |g| && k <= |g[v].outs|
    requires forall u :: u in done ==> Finished(g, rank, r0, r, done, u)
    requires forall i :: 0 <= i < k ==> g[v].outs[i] in done
    ensures Returned(g, r, v, k) <= UsesBehind(g, rank, v, k)
    ensures r.dom == r0.dom ==> Returned(g, r, v, k) == LiveBehind(g, rank, r0.dom, v, k)
  {
    if k > 0 {
      ReturnedIs(g, rank, r0, r, done, v, k - 1);
      assert Finished(g, rank, r0, r, done, g[v].outs[k - 1]);
    }
  }

  lemma {:induction false} ReturnedKept(g: Graph, r: Results, r': Results, v: nat, k: nat)
    requires v < |g| && k <= |g[v].outs|
    requires forall i :: 0 <= i < k ==> At(r'.liveness, g[v].outs[i]) == At(r.liveness, g[v].outs[i])
    ensures Returned(g, r', v, k) == Returned(g, r, v, k)
  {
    if k > 0 { ReturnedKept(g, r, r', v, k - 1); }
  }

  class Analysis {
    const g: Graph
    var liveness: map<nat, set<Field>>
    var uses: map<nat, set<Field>>
    var dom: Demand
    var vis: set<nat>
    var change: bool
    ghost const rank: seq<nat>
    /** The results at the start of the pass, nodes with which they are consistent, and the nodes done since. */
    ghost var start: Results
    ghost var known: set<nat>
    ghost var done: set<nat>

    constructor (g: Graph, ghost rank: seq<nat>)
      requires Acyclic(g, rank) && Dominated(g)
      ensures this.g == g && this.rank == rank && liveness == map[] && uses == map[] && dom == map[]
    {
      this.g, this.rank := g, rank;
      liveness, uses, dom, vis, change := map[], map[], map[], {}, false;
      start, known, done := Results(map[], map[], map[]), {}, {};
    }

    ghost function Now(): Results
      reads this
    {
      Results(liveness, uses, dom)
    }

    ghost predicate Valid()
      reads this
    {
      && Acyclic(g, rank) && Dominated(g)
      && PassOk(g, rank, start, Now(), done, change) && Still(g, rank, start, known, done, change)
      && done <= vis && Least(g, rank, Now())
    }

    /** The end of a visit: what the node's joins demand goes to the owners of the buffer. */
    method PassUp(j: nat, live: set<Field>)
      requires j < |g|
      modifies this`dom, this`change
      ensures Met(g, dom, j, live) && Grows(old(dom), dom)
      ensures dom != old(dom) ==> change
      ensures old(change) ==> change
      ensures Met(g, old(dom), j, live) ==> dom == old(dom) && change == old(change)
      ensures OnlyDemanded(g, old(dom), dom, j, live)
    {
      for i := 0 to |g[j].dominants|
        invariant Grows(old(dom), dom) && (dom != old(dom) ==> change) && (old(change) ==> change)
        invariant forall k :: 0 <= k < i ==>
                    g[j].dominants[k] in dom && Demanded(g, j, k, live) <= dom[g[j].dominants[k]]
        invariant Met(g, old(dom), j, live) ==> dom == old(dom) && change == old(change)
        invariant OnlyDemanded(g, old(dom), dom, j, live)
      {
        ghost var before := dom;
        Raise(g[j].dominants[i], Demanded(g, j, i, live));
        if Met(g, old(dom), j, live) {
          assert dom[g[j].dominants[i]] == before[g[j].dominants[i]];
          assert dom == before;
        }
      }
    }

    method Raise(d: nat, updated: set<Field>)
      modifies this`dom, this`change
      ensures dom == old(dom)[d := At(old(dom), d) + updated]
      ensures change == (old(change) || d !in old(dom) || !(updated <= old(dom)[d]))
      ensures change || dom == old(dom)
    {
      assert At(dom, d) + updated == At(dom, d) <==> updated <= At(dom, d);
      assert {} + updated == updated;
      if d in dom {
        var before := |dom[d]|;
        SameSize(dom[d], dom[d] + updated);
        dom := dom[d := dom[d] + updated];
        assert updated <= old(dom)[d] ==> dom == old(dom);
        if before != |dom[d]| { change := true; }
      } else {
        change := true;
        dom := dom[d := updated];
      }
    }

    /** A visit: no node that is still being visited lies at or below `v`. */
    ghost predicate Ready(v: nat)
      reads this
    {
      && Valid() && v < |g|
      && (forall u :: u in vis - done ==> u < |g| && rank[u] > rank[v])
      && (Settled(g, rank, start, known) ==> v in known)
    }

    /** What a visit of `v` leaves as it was. */
    ghost predicate Kept(v: nat, vis0: set<nat>, done0: set<nat>, r0: Results)
      reads this
    {
      && done0 <= done && vis - done == vis0 - done0
      && (forall u :: u in done && u !in done0 ==> u < |g| && v < |rank| == |g| && rank[u] <= rank[v])
      && (forall u :: u in done0 ==> At(liveness, u) == At(r0.liveness, u))
      && Grows(r0.dom, dom)
    }

    /** The answer for a node visited before in this pass. */
    method Recall(v: nat) returns (live: set<Field>, used: set<Field>)
      requires Valid() && v in done
      ensures v < |g| && used == Uses(g, rank, v)
      ensures live == if g[v].dominants != [] then {} else At(liveness, v)
    {
      assert Finished(g, rank, start, Now(), done, v);
      if uses[v] != {} {
        if g[v].dominants != [] { return {}, uses[v]; } else { return liveness[v], uses[v]; }
      } else {
        return {}, {};
      }
    }

    /** analyze_fields_liveness_instance */
    method Visit(v: nat) returns (live: set<Field>, used: set<Field>)
      requires Ready(v)
      modifies this`liveness, this`uses, this`dom, this`vis, this`change, this`done
      ensures Valid() && v in done && Kept(v, old(vis), old(done), old(Now()))
      ensures JoinFree(g) ==> dom == old(dom)
      ensures used == Uses(g, rank, v)
      ensures live == if g[v].dominants != [] then {} else At(liveness, v)
      decreases rank[v], 1
    {
      hide PassOk, Still, Settled, Finished, Dominated, Grows, Least;
      GrowsSame(dom);
      if v in vis {
        assert v !in vis - done;
        live, used := Recall(v);
        return;
      }
      vis := vis + {v};
      assert forall u :: u in vis - done ==> u == v || u in old(vis) - old(done);
      ghost var r0, vis0, done0 := Now(), vis, done;
      var l, u := Children(v);
      ghost var r1, done1 := Now(), done;
      Settle(v, l, u);
      assert old(vis) - old(done) == vis0 - done0 - {v} && vis - done == vis - done1 - {v};
      GrowsTwice(r0.dom, r1.dom, dom);
      live, used := if g[v].dominants != [] then {} else liveness[v], uses[v];
    }

    /** The union of the node's children. */
    method Children(v: nat) returns (live: set<Field>, used: set<Field>)
      requires Valid() && v < |g| && v in vis && v !in done
      requires forall u :: u in vis - done ==> u < |g| && rank[u] >= rank[v]
      requires Settled(g, rank, start, known) ==> v in known
      modifies this`liveness, this`uses, this`dom, this`vis, this`change, this`done
      ensures Valid() && v in vis && v !in done && Kept(v, old(vis), old(done), old(Now()))
      ensures JoinFree(g) ==> dom == old(dom)
      ensures forall i :: 0 <= i < |g[v].outs| ==> g[v].outs[i] in done
      ensures live == Returned(g, Now(), v, |g[v].outs|) && used == UsesBehind(g, rank, v, |g[v].outs|)
      decreases rank[v], 0
    {
      hide PassOk, Still, Settled, Finished, Dominated, Least;
      KnownClosed(g, rank, start, known, v);
      live, used := {}, {};
      for i := 0 to |g[v].outs|
        invariant JoinFree(g) ==> dom == old(dom)
        invariant Valid() && v in vis && v !in done && Kept(v, old(vis), old(done), old(Now()))
        invariant forall k :: 0 <= k < i ==> g[v].outs[k] in done
        invariant live == Returned(g, Now(), v, i) && used == UsesBehind(g, rank, v, i)
      {
        ghost var before := Now();
        assert old(vis) - old(done) == vis - done && v in vis - done;
        var l, u := Visit(g[v].outs[i]);
        assert v in vis - done;
        ReturnedKept(g, before, Now(), v, i);
        live, used := live + l, used + u;
      }
    }

    method Store(v: nat, live: set<Field>, used: set<Field>)
      requires v < |g|
      modifies this`liveness, this`uses, this`dom, this`change
      ensures Step(g, old(Now()), old(change), v, live, used, Now(), change)
      ensures JoinFree(g) ==> dom == old(dom)
    {
      hide Met, Demanded;
      ghost var r := Now();
      if v !in liveness || liveness[v] != live || v !in uses || uses[v] != used { change := true; }
      liveness, uses := liveness[v := live], uses[v := used];
      if g[v].dominants != [] { PassUp(v, live); } else { NothingDemanded(g, dom, v, live); }
    }

    /** Kills, uses, the change flag, and the demands on the owners of the buffer. */
    method Settle(v: nat, l: set<Field>, u: set<Field>)
      requires Valid() && v < |g| && v in vis && v !in done && (Settled(g, rank, start, known) ==> v in known)
      requires forall i :: 0 <= i < |g[v].outs| ==> g[v].outs[i] in done
      requires l == Returned(g, Now(), v, |g[v].outs|) && u == UsesBehind(g, rank, v, |g[v].outs|)
      modifies this`liveness, this`uses, this`dom, this`change, this`done
      ensures Valid() && done == old(done) + {v} && Grows(old(dom), dom)
      ensures JoinFree(g) ==> dom == old(dom)
      ensures v in liveness && v in uses && uses[v] == Uses(g, rank, v)
      ensures forall w :: w in old(done) ==> At(liveness, w) == At(old(liveness), w)
    {
      hide PassOk, Still, Settled, Finished, Dominated, Kill, Uses, Returned, Met, Demanded, Least;
      ghost var r, changed := Now(), change;
      var live := if v in dom then l + dom[v] else l;
      live := KillLive(live, g[v].defs);
      live := live + g[v].uses;
      var used := u + g[v].defs + g[v].uses;
      UsesIs(g, rank, v);
      assert Computed(g, rank, r, v, live, used);
      hide Step, Computed;
      Store(v, live, used);
      FinishNode(g, rank, start, r, done, changed, v, live, used, Now(), change);
      FinishStill(g, rank, start, known, r, done, changed, v, live, used, Now(), change);
      LeastKept(g, rank, r, changed, v, live, used, Now(), change);
      done := done + {v};
    }

    /** One pass over all roots, the nodes without inputs. */
    method Pass(roots: seq<nat>)
      requires Acyclic(g, rank) && Dominated(g) && Bounded(g, rank, dom) && Least(g, rank, Now())
      requires forall i :: 0 <= i < |roots| ==> roots[i] < |g|
      requires Settled(g, rank, Now(), known) ==> forall i :: 0 <= i < |roots| ==> roots[i] in known
      modifies this`liveness, this`uses, this`dom, this`vis, this`change, this`done, this`start
      ensures JoinFree(g) ==> dom == old(dom)
      ensures Least(g, rank, Now())
      ensures PassOk(g, rank, old(Now()), Now(), done, change) && (forall i :: 0 <= i < |roots| ==> roots[i] in done)
      ensures Settled(g, rank, old(Now()), known) ==> !change
    {
      hide PassOk, Still, Settled, Finished, Dominated, Grows, Bounded, Least;
      vis, change := {}, false;
      start, done := Now(), {};
      PassBegins(g, rank, start, known);
      assert Settled(g, rank, start, known) == Settled(g, rank, old(Now()), known);
      for i := 0 to |roots|
        invariant Valid() && start == old(Now()) && vis - done == {} && (JoinFree(g) ==> dom == old(dom))
        invariant forall k :: 0 <= k < i ==> roots[k] in done
      {
        var l, u := Visit(roots[i]);
      }
      StillMeans(g, rank, start, known, done, change);
    }

    /** analyze_fields_liveness: passes until one changes nothing. The solution is the least one: a field is called live
        only if some route reads it before it is written, and if then no written path contains a ".". */
    method Analyze(roots: seq<nat>)
      requires Acyclic(g, rank) && Dominated(g) && dom == map[] && liveness == map[] && uses == map[]
      requires forall i :: 0 <= i < |roots| ==> roots[i] < |g|
      modifies this
      ensures Solved(g, rank, Now(), done) && (forall i :: 0 <= i < |roots| ==> roots[i] in done)
      ensures forall b: Demand :: Meets(g, rank, b) ==> Within(g, rank, Now(), b)
      ensures JoinFree(g) ==> dom == NO_DEMAND
      ensures RoutesOnly(g, liveness, done) && (NothingDotted(g) ==> RoutesAll(g, liveness, done))
    {
      hide PassOk, Still, Settled, Finished, Dominated, Room, Solved, Bounded, Meets, Within, RoutesOnly, RoutesAll;
      NothingBounded(g, rank);
      LeastBegins(g, rank);
      known := set i | 0 <= i < |roots| :: roots[i];
      ghost var before := Now();
      Pass(roots);
      AfterPass(g, rank, before, Now(), done, change);
      known := done;
      while change
        invariant Acyclic(g, rank) && Dominated(g) && Bounded(g, rank, dom) && known == done && Least(g, rank, Now())
        invariant forall i :: 0 <= i < |roots| ==> roots[i] in done
        invariant !change ==> Solved(g, rank, Now(), done)
        invariant JoinFree(g) ==> dom == NO_DEMAND
        decreases Room(g, rank, dom, |g|), if !change then 0 else if Settled(g, rank, Now(), known) then 1 else 2
      {
        before := Now();
        Pass(roots);
        AfterPass(g, rank, before, Now(), done, change);
        known := done;
      }
      AllExact(g, rank, Now(), done);
    }
  }

  /** The results agree with the equations at all nodes that the roots lead to, and the joins' demands are met. */
  ghost predicate Solved(g: Graph, rank: seq<nat>, r: Results, done: set<nat>)
    requires Acyclic(g, rank)
  {
    forall v :: v in done ==>
      && v < |g| && (forall i :: 0 <= i < |g[v].outs| ==> g[v].outs[i] in done)
      && v in r.liveness && r.liveness[v] == Live(g, rank, r.dom, v)
      && v in r.uses && r.uses[v] == Uses(g, rank, v)
      && Met(g, r.dom, v, r.liveness[v])
  }

  /** How much the demands can still grow. */
  ghost function Room(g: Graph, rank: seq<nat>, dom: Demand, k: nat): nat
    requires Acyclic(g, rank) && Bounded(g, rank, dom) && k <= |g|
  {
    if k == 0 then 0
    else
      var u := Uses(g, rank, k - 1);
      Room(g, rank, dom, k - 1) + (if k - 1 in dom then (SubsetSize(dom[k - 1], u); |u| - |dom[k - 1]|) else |u| + 1)
  }

  lemma SubsetSize(a: set<Field>, b: set<Field>)
    requires a <= b
    ensures |a| <= |b| && (|a| == |b| <==> a == b)
  {
    SameSize(a, b);
    assert b == a + (b - a) && |b| == |a| + |b - a|;
  }

  ghost predicate Changed(a: Demand, b: Demand, v: nat) {
    (v in a) != (v in b) || (v in a && v in b && a[v] != b[v])
  }

  lemma {:induction false} RoomShrinks(g: Graph, rank: seq<nat>, a: Demand, b: Demand, k: nat)
    requires Acyclic(g, rank) && Bounded(g, rank, a) && Bounded(g, rank, b) && Grows(a, b) && k <= |g|
    ensures Room(g, rank, b, k) <= Room(g, rank, a, k)
    ensures (exists v: nat :: v < k && Changed(a, b, v)) ==> Room(g, rank, b, k) < Room(g, rank, a, k)
    decreases k
  {
    if k > 0 {
      RoomShrinks(g, rank, a, b, k - 1);
      if k - 1 in b {
        SubsetSize(b[k - 1], Uses(g, rank, k - 1));
        if k - 1 in a {
          SubsetSize(a[k - 1], Uses(g, rank, k - 1));
          SubsetSize(a[k - 1], b[k - 1]);
        }
      }
    }
  }

  lemma NothingBounded(g: Graph, rank: seq<nat>)
    requires Acyclic(g, rank)
    ensures Bounded(g, rank, map[])
  {
  }

  /** After a pass there is either less room for the demands, or the results are settled, or nothing has changed. */
  lemma AfterPass(g: Graph, rank: seq<nat>, r0: Results, r: Results, done: set<nat>, change: bool)
    requires Acyclic(g, rank) && Bounded(g, rank, r0.dom) && PassOk(g, rank, r0, r, done, change)
    ensures Bounded(g, rank, r.dom)
    ensures Room(g, rank, r.dom, |g|) <= Room(g, rank, r0.dom, |g|)
    ensures r.dom != r0.dom ==> Room(g, rank, r.dom, |g|) < Room(g, rank, r0.dom, |g|)
    ensures r.dom == r0.dom ==> Settled(g, rank, r, done) && Solved(g, rank, r, done)
    ensures !change ==> r.dom == r0.dom
  {
    RoomShrinks(g, rank, r0.dom, r.dom, |g|);
    if r.dom != r0.dom { Differs(g, rank, r0.dom, r.dom); }
    if r.dom == r0.dom {
      forall v | v in done ensures Finished(g, rank, r, r, done, v) { assert Finished(g, rank, r0, r, done, v); }
    }
  }

  lemma SameDemand(g: Graph, rank: seq<nat>, a: Demand, b: Demand)
    requires Acyclic(g, rank) && Bounded(g, rank, a) && Bounded(g, rank, b)
    requires forall v: nat :: v < |g| ==> !Changed(a, b, v)
    ensures a == b
  {
    forall v: nat ensures (v in a <==> v in b) && (v in a && v in b ==> a[v] == b[v]) {
      if v < |g| { assert !Changed(a, b, v); }
    }
  }

  lemma Differs(g: Graph, rank: seq<nat>, a: Demand, b: Demand)
    requires Acyclic(g, rank) && Bounded(g, rank, a) && Bounded(g, rank, b) && a != b
    ensures exists v: nat :: v < |g| && Changed(a, b, v)
  {
    if forall v: nat :: v < |g| ==> !Changed(a, b, v) { SameDemand(g, rank, a, b); }
  }

  /** Without joins the analysis calls no field live that no path reads before it, or what it is part of, is written;
      and it finds all of them if no written path contains a ".". */
  lemma SolvedIsExact(g: Graph, rank: seq<nat>, r: Results, done: set<nat>, v: nat, x: Field, defs: set<Field>)
    requires Acyclic(g, rank) && JoinFree(g) && Solved(g, rank, r, done) && r.dom == NO_DEMAND && v in done
    requires Writes(g, defs)
    ensures v < |g| && v in r.liveness
    ensures x in r.liveness[v] ==> SomePathReads(g, v, x)
    ensures NoDots(defs) ==> (x in r.liveness[v] <==> SomePathReads(g, v, x))
  {
    NeverTooMuch(g, rank, v, x);
    if NoDots(defs) { LiveIffRead(g, rank, v, x, defs); }
  }

  // With joins the results say which fields some route reads.

  ghost predicate NothingDotted(g: Graph) {
    forall v :: 0 <= v < |g| ==> NoDots(g[v].defs)
  }

  /** At the nodes that the analysis has reached, only fields are called live that some route reads ... */
  ghost predicate RoutesOnly(g: Graph, liveness: map<nat, set<Field>>, done: set<nat>) {
    forall v :: v in done ==> v in liveness && forall x :: x in liveness[v] ==> SomeRouteReads(g, v, x)
  }

  /** ... and all of these. */
  ghost predicate RoutesAll(g: Graph, liveness: map<nat, set<Field>>, done: set<nat>) {
    forall v, x :: v in done && v in liveness && SomeRouteReads(g, v, x) ==> x in liveness[v]
  }

  /** What the joins may rightly demand meets all their demands. */
  lemma RightfulMeets(g: Graph, rank: seq<nat>)
    requires Acyclic(g, rank) && Dominated(g)
    ensures Meets(g, rank, Rightful(g))
  {
    var b := Rightful(g);
    hide Live, Rightful, Wanted, SomeRouteReads;
    forall j, i | 0 <= j < |g| && 0 <= i < |g[j].dominants|
      ensures g[j].dominants[i] in b && Demanded(g, j, i, Live(g, rank, b, j)) <= b[g[j].dominants[i]]
    {
      var d := g[j].dominants[i];
      assert d < |g|;
      forall x | x in Demanded(g, j, i, Live(g, rank, b, j)) ensures x in b[d] {
        LiveHasRoute(g, rank, j, x);
        IsWanted(g, d, j, i, x);
        InRightful(g, d, x);
      }
    }
  }

  lemma IsWanted(g: Graph, d: nat, j: nat, i: nat, x: Field)
    requires Moves(g, d, Jump(j, i), j) && x !in At(g[j].kills, d) && SomeRouteReads(g, j, x)
    ensures Wanted(g, d, x)
  {
  }

  /** A join lies among the nodes that its owners lead to. */
  lemma {:induction false} EndDone(g: Graph, rank: seq<nat>, r: Results, done: set<nat>, v: nat, path: seq<nat>)
    requires Acyclic(g, rank) && Solved(g, rank, r, done) && v in done && IsPath(g, v, path)
    ensures End(g, v, path) in done
    decreases |path|
  {
    hide Live, Uses, Met;
    if path != [] { EndDone(g, rank, r, done, g[v].outs[path[0]], path[1..]); }
  }

  /** A field that a route reads is called live. */
  lemma {:induction false} RouteIsLive(g: Graph, rank: seq<nat>, r: Results, done: set<nat>, v: nat, route: seq<Move>,
                                       x: Field)
    requires Acyclic(g, rank) && Dominated(g) && Solved(g, rank, r, done) && v in done
    requires NothingDotted(g) && IsRoute(g, v, route) && ReadAtEnd(g, v, route, x)
    ensures v in r.liveness && x in r.liveness[v]
    decreases |route|
  {
    LiveIs(g, rank, r.dom, v);
    if route != [] {
      var u := Next(g, v, route[0]);
      KilledIffOverwritten(x, g[v].defs);
      match route[0] {
        case Out(i) =>
          RouteIsLive(g, rank, r, done, u, route[1..], x);
          assert x in Passed(g, rank, r.dom, g[v].outs[i]);
          InBehind(g, rank, r.dom, v, |g[v].outs|, x);
        case Jump(j, i) =>
          var path :| IsPath(g, v, path) && End(g, v, path) == j;
          EndDone(g, rank, r, done, v, path);
          RouteIsLive(g, rank, r, done, j, route[1..], x);
          assert x in Demanded(g, j, i, r.liveness[j]);
      }
    }
  }

  /** The least solution holds only fields that some route reads, and all of them if no written path contains a ".". */
  lemma LeastIsExact(g: Graph, rank: seq<nat>, r: Results, done: set<nat>, v: nat, x: Field)
    requires Acyclic(g, rank) && Dominated(g) && Solved(g, rank, r, done) && Least(g, rank, r) && v in done
    ensures v < |g| && v in r.liveness
    ensures x in r.liveness[v] ==> SomeRouteReads(g, v, x)
    ensures NothingDotted(g) ==> (x in r.liveness[v] <==> SomeRouteReads(g, v, x))
  {
    RightfulMeets(g, rank);
    assert Within(g, rank, r, Rightful(g));
    if x in r.liveness[v] { LiveHasRoute(g, rank, v, x); }
    hide Live, Rightful, Meets, Within, Least;
    if NothingDotted(g) && SomeRouteReads(g, v, x) {
      var route :| IsRoute(g, v, route) && ReadAtEnd(g, v, route, x);
      RouteIsLive(g, rank, r, done, v, route, x);
    }
  }

  lemma AllExact(g: Graph, rank: seq<nat>, r: Results, done: set<nat>)
    requires Acyclic(g, rank) && Dominated(g) && Solved(g, rank, r, done) && Least(g, rank, r)
    ensures RoutesOnly(g, r.liveness, done) && (NothingDotted(g) ==> RoutesAll(g, r.liveness, done))
  {
    hide Dominated, Solved, Least, NothingDotted, SomeRouteReads;
    forall v | v in done ensures v in r.liveness { LeastIsExact(g, rank, r, done, v, ""); }
    forall v, x | v in done && x in r.liveness[v] ensures SomeRouteReads(g, v, x) {
      LeastIsExact(g, rank, r, done, v, x);
    }
    forall v, x | NothingDotted(g) && v in done && SomeRouteReads(g, v, x) ensures x in r.liveness[v] {
      LeastIsExact(g, rank, r, done, v, x);
    }
  }

  lemma StillMeans(g: Graph, rank: seq<nat>, r0: Results, known: set<nat>, done: set<nat>, change: bool)
    requires Acyclic(g, rank) && Still(g, rank, r0, known, done, change)
    ensures Settled(g, rank, r0, known) ==> done <= known && !change
  {
  }

  lemma PassBegins(g: Graph, rank: seq<nat>, r: Results, known: set<nat>)
    requires Acyclic(g, rank) && Bounded(g, rank, r.dom)
    ensures PassOk(g, rank, r, r, {}, false) && Still(g, rank, r, known, {}, false)
  {
  }

  /** What Settle does to the results. */
  ghost predicate Step(g: Graph, r: Results, changed: bool, v: nat, live: set<Field>, used: set<Field>, r': Results,
                       change: bool)
    requires v < |g|
  {
    && r'.liveness == r.liveness[v := live] && r'.uses == r.uses[v := used]
    && Met(g, r'.dom, v, live) && Grows(r.dom, r'.dom)
    && OnlyDemanded(g, r.dom, r'.dom, v, live)
    && (!change ==> !changed && r'.dom == r.dom && Same(r, r', v))
    && (!changed && Same(r, r', v) && Met(g, r.dom, v, live) ==> !change && r'.dom == r.dom)
  }

  /** The results at a node, from those at its children. */
  ghost predicate Computed(g: Graph, rank: seq<nat>, r: Results, v: nat, live: set<Field>, used: set<Field>)
    requires Acyclic(g, rank) && v < |g|
  {
    && live == Kill(Returned(g, r, v, |g[v].outs|) + At(r.dom, v), g[v].defs) + g[v].uses
    && used == Uses(g, rank, v)
  }

  lemma NothingDemanded(g: Graph, dom: Demand, v: nat, live: set<Field>)
    requires v < |g| && g[v].dominants == []
    ensures Met(g, dom, v, live)
  {
  }

  lemma UsesIs(g: Graph, rank: seq<nat>, v: nat)
    requires Acyclic(g, rank) && v < |g|
    ensures Uses(g, rank, v) == UsesBehind(g, rank, v, |g[v].outs|) + g[v].defs + g[v].uses
  {
  }

  lemma KnownClosed(g: Graph, rank: seq<nat>, r: Results, known: set<nat>, v: nat)
    requires Acyclic(g, rank) && v < |g|
    ensures Settled(g, rank, r, known) && v in known ==> forall i :: 0 <= i < |g[v].outs| ==> g[v].outs[i] in known
  {
    if Settled(g, rank, r, known) && v in known { assert Finished(g, rank, r, r, known, v); }
  }

  lemma DemandSame(a: Demand, b: Demand, c: Demand)
    requires Grows(a, b) && Grows(b, c) && a == c
    ensures a == b
  {
    assert forall v :: v in b ==> v in c && v in a;
    assert forall v :: v in a ==> a[v] == b[v];
  }

  lemma BoundKept(g: Graph, rank: seq<nat>, r: Results, changed: bool, v: nat, live: set<Field>, used: set<Field>,
                  r': Results, change: bool)
    requires Acyclic(g, rank) && Dominated(g) && v < |g| && Bounded(g, rank, r.dom)
    requires Step(g, r, changed, v, live, used, r', change) && live <= Uses(g, rank, v)
    ensures Bounded(g, rank, r'.dom)
  {
    forall d | d in r'.dom ensures d < |g| && r'.dom[d] <= Uses(g, rank, d) {
      if !(d in r.dom && r'.dom[d] == r.dom[d]) {
        var i :| 0 <= i < |g[v].dominants| && g[v].dominants[i] == d;
        UsesAbove(g, rank, v, i);
      }
    }
  }

  lemma NodeFinished(g: Graph, rank: seq<nat>, r0: Results, r: Results, done: set<nat>, changed: bool,
                     v: nat, live: set<Field>, used: set<Field>, r': Results, change: bool)
    requires Acyclic(g, rank) && v < |g| && v !in done && PassOk(g, rank, r0, r, done, changed)
    requires forall i :: 0 <= i < |g[v].outs| ==> g[v].outs[i] in done
    requires Computed(g, rank, r, v, live, used) && Step(g, r, changed, v, live, used, r', change)
    ensures live <= Uses(g, rank, v) && Finished(g, rank, r0, r', done + {v}, v)
    ensures r.dom == r0.dom ==> live == Live(g, rank, r0.dom, v)
  {
    ReturnedIs(g, rank, r0, r, done, v, |g[v].outs|);
    if r'.dom == r0.dom { DemandSame(r0.dom, r.dom, r'.dom); }
  }

  lemma OtherFinished(g: Graph, rank: seq<nat>, r0: Results, r: Results, done: set<nat>, changed: bool,
                      v: nat, live: set<Field>, used: set<Field>, r': Results, change: bool, w: nat)
    requires Acyclic(g, rank) && v < |g| && v !in done && PassOk(g, rank, r0, r, done, changed) && w in done
    requires Step(g, r, changed, v, live, used, r', change)
    ensures Finished(g, rank, r0, r', done + {v}, w)
  {
    assert Finished(g, rank, r0, r, done, w);
    if r'.dom == r0.dom { DemandSame(r0.dom, r.dom, r'.dom); }
  }

  lemma FinishNode(g: Graph, rank: seq<nat>, r0: Results, r: Results, done: set<nat>, changed: bool,
                   v: nat, live: set<Field>, used: set<Field>, r': Results, change: bool)
    requires Acyclic(g, rank) && Dominated(g) && v < |g| && v !in done && PassOk(g, rank, r0, r, done, changed)
    requires forall i :: 0 <= i < |g[v].outs| ==> g[v].outs[i] in done
    requires Computed(g, rank, r, v, live, used) && Step(g, r, changed, v, live, used, r', change)
    ensures PassOk(g, rank, r0, r', done + {v}, change)
  {
    NodeFinished(g, rank, r0, r, done, changed, v, live, used, r', change);
    BoundKept(g, rank, r, changed, v, live, used, r', change);
    AllFinished(g, rank, r0, r, done, changed, v, live, used, r', change);
    FlagKept(g, rank, r0, r, done, changed, v, live, used, r', change);
    hide Finished, Bounded, Met, Dominated, Computed, Same, Step;
  }

  /** What the pass has not finished is as it was, and so is everything if the flag is down. */
  lemma FlagKept(g: Graph, rank: seq<nat>, r0: Results, r: Results, done: set<nat>, changed: bool,
                 v: nat, live: set<Field>, used: set<Field>, r': Results, change: bool)
    requires Acyclic(g, rank) && v < |g| && v !in done && PassOk(g, rank, r0, r, done, changed)
    requires Step(g, r, changed, v, live, used, r', change)
    ensures Grows(r0.dom, r'.dom)
    ensures forall w :: w !in done + {v} ==>
              (w in r'.liveness <==> w in r0.liveness) && (w in r0.liveness ==> r'.liveness[w] == r0.liveness[w])
    ensures forall w :: w !in done + {v} ==>
              (w in r'.uses <==> w in r0.uses) && (w in r0.uses ==> r'.uses[w] == r0.uses[w])
    ensures !change ==> r'.dom == r0.dom && forall w :: w in done + {v} ==> Same(r0, r', w)
  {
    hide Finished, Bounded, Met;
    GrowsTwice(r0.dom, r.dom, r'.dom);
  }

  lemma GrowsSame(a: Demand)
    ensures Grows(a, a)
  {
  }

  lemma GrowsTwice(a: Demand, b: Demand, c: Demand)
    requires Grows(a, b) && Grows(b, c)
    ensures Grows(a, c)
  {
  }

  lemma AllFinished(g: Graph, rank: seq<nat>, r0: Results, r: Results, done: set<nat>, changed: bool,
                    v: nat, live: set<Field>, used: set<Field>, r': Results, change: bool)
    requires Acyclic(g, rank) && v < |g| && v !in done && PassOk(g, rank, r0, r, done, changed)
    requires Step(g, r, changed, v, live, used, r', change) && Finished(g, rank, r0, r', done + {v}, v)
    ensures forall w :: w in done + {v} ==> Finished(g, rank, r0, r', done + {v}, w)
  {
    hide Finished, Step;
    forall w | w in done ensures Finished(g, rank, r0, r', done + {v}, w) {
      OtherFinished(g, rank, r0, r, done, changed, v, live, used, r', change, w);
    }
  }

  lemma FinishStill(g: Graph, rank: seq<nat>, r0: Results, known: set<nat>, r: Results, done: set<nat>, changed: bool,
                    v: nat, live: set<Field>, used: set<Field>, r': Results, change: bool)
    requires Acyclic(g, rank) && v < |g| && v !in done && PassOk(g, rank, r0, r, done, changed)
    requires forall i :: 0 <= i < |g[v].outs| ==> g[v].outs[i] in done
    requires Computed(g, rank, r, v, live, used) && Step(g, r, changed, v, live, used, r', change)
    requires Still(g, rank, r0, known, done, changed) && (Settled(g, rank, r0, known) ==> v in known)
    ensures Still(g, rank, r0, known, done + {v}, change)
  {
    if Settled(g, rank, r0, known) {
      assert v in known && v in done + {v};
      assert Finished(g, rank, r0, r0, known, v);
      NodeFinished(g, rank, r0, r, done, changed, v, live, used, r', change);
    }
  }

  lemma SameSize(a: set<Field>, b: set<Field>)
    requires a <= b
    ensures |a| == |b| <==> a == b
  {
    var rest := b - a;
    assert b == a + rest && |b| == |a| + |rest|;
  }
}
