/** Which fields of the per-packet state are live where: sets of field paths, and what a write kills. */
module Liveness {
  import opened Wrappers

  /** A field path: names of letters, digits and underscores, joined by "." and "->". */
  type Field = string

  /** After the first `n` characters the path ends or goes on to a member. */
  predicate EndsOrDescends(v: Field, n: nat) {
    n == |v| || (n < |v| && v[n] == '.') || (n + 1 < |v| && v[n] == '-' && v[n + 1] == '>')
  }

  /** `v` is the field `d` or a part of it. */
  predicate Under(d: Field, v: Field) {
    d <= v && EndsOrDescends(v, |d|)
  }

  /** What kill_live tests: `d` serves as a regular expression, in which "." stands for any character. */
  predicate Matches(d: Field, v: Field) {
    && |d| <= |v| && (forall i :: 0 <= i < |d| ==> d[i] == '.' || d[i] == v[i])
    && EndsOrDescends(v, |d|)
  }

  /** Testing a written path against every other one is exact for the paths without a ".", and for no others. */
  lemma ExactIffNoDot(d: Field)
    ensures (forall v: Field :: Matches(d, v) <==> Under(d, v)) <==> '.' !in d
  {
    if '.' in d {
      var i :| 0 <= i < |d| && d[i] == '.';
      var v := d[i := 'x'];
      assert v[i] != d[i];
      assert Matches(d, v) && !Under(d, v);
    } else {
      forall v: Field ensures Matches(d, v) <==> Under(d, v) {
        if Matches(d, v) {
          assert forall i :: 0 <= i < |d| ==> d[i] in d;
          assert v[..|d|] == d;
        }
      }
    }
  }

  /** Writing p.len kills a field that is not part of it. */
  lemma DotKillsOther()
    ensures Matches("p.len", "pxlen") && !Under("p.len", "pxlen")
  {
    assert "p.len"[1] != "pxlen"[1];
  }

  /** What the code takes to be overwritten. */
  predicate Killed(v: Field, defs: set<Field>) {
    exists d :: d in defs && Matches(d, v)
  }

  /** What is overwritten: the fields written, and their parts. */
  predicate Overwritten(v: Field, defs: set<Field>) {
    exists d :: d in defs && Under(d, v)
  }

  ghost predicate NoDots(defs: set<Field>) {
    forall d :: d in defs ==> '.' !in d
  }

  /** What is overwritten is always killed; exactly that is killed if no written path contains a ".". */
  lemma KilledIffOverwritten(v: Field, defs: set<Field>)
    ensures Overwritten(v, defs) ==> Killed(v, defs)
    ensures NoDots(defs) ==> (Killed(v, defs) <==> Overwritten(v, defs))
  {
    if Overwritten(v, defs) {
      var d :| d in defs && Under(d, v);
      assert forall i :: 0 <= i < |d| ==> v[i] == v[..|d|][i] == d[i];
      assert Matches(d, v);
    }
    if NoDots(defs) && Killed(v, defs) {
      var d :| d in defs && Matches(d, v);
      ExactIffNoDot(d);
    }
  }

  function Kill(live: set<Field>, defs: set<Field>): (r: set<Field>)
    ensures forall v :: v in r <==> v in live && !Killed(v, defs)
  {
    set v | v in live && !Killed(v, defs)
  }

  /** kill_live: what stays is exactly what no written path matches. */
  method KillLive(live: set<Field>, defs: set<Field>) returns (ret: set<Field>)
    ensures ret == Kill(live, defs)
  {
    ret := {};
    var todo := live;
    while todo != {}
      invariant todo <= live && ret == Kill(live - todo, defs)
      decreases |todo|
    {
      var v :| v in todo;
      var keep, ds := true, defs;
      while ds != {} && keep
        invariant ds <= defs && (keep <==> !Killed(v, defs - ds))
        decreases |ds|
      {
        var d :| d in ds;
        if Matches(d, v) { keep := false; }
        ds := ds - {d};
      }
      if keep { ret := ret + {v}; }
      todo := todo - {v};
    }
    assert live - todo == live;
  }

  /** An element instance: what it reads and writes, the instances its outputs lead to, and, for a join, the nodes
      that own its buffer with what is written on the way from each of them. */
  datatype Node =
    Node(outs: seq<nat>, uses: set<Field>, defs: set<Field>, dominants: seq<nat>, kills: map<nat, set<Field>>)

  type Graph = seq<Node>

  ghost predicate Acyclic(g: Graph, rank: seq<nat>) {
    && |rank| == |g|
    && (forall v, i :: 0 <= v < |g| && 0 <= i < |g[v].outs| ==> g[v].outs[i] < |g| && rank[g[v].outs[i]] < rank[v])
  }

  /** What the joins pass to the nodes that own their buffers. */
  type Demand = map<nat, set<Field>>

  const NO_DEMAND: Demand := map[]

  function At(dom: Demand, v: nat): set<Field> {
    if v in dom then dom[v] else {}
  }

  /** The fields live at a node, given what its own joins demand of it. */
  ghost function Live(g: Graph, rank: seq<nat>, dom: Demand, v: nat): set<Field>
    requires Acyclic(g, rank) && v < |g|
    decreases rank[v], |g[v].outs| + 1
  {
    Kill(LiveBehind(g, rank, dom, v, |g[v].outs|) + At(dom, v), g[v].defs) + g[v].uses
  }

  /** The union over the first `k` outputs; a join passes nothing on to the node before it. */
  ghost function LiveBehind(g: Graph, rank: seq<nat>, dom: Demand, v: nat, k: nat): set<Field>
    requires Acyclic(g, rank) && v < |g| && k <= |g[v].outs|
    decreases rank[v], k
  {
    if k == 0 then {}
    else LiveBehind(g, rank, dom, v, k - 1) + Passed(g, rank, dom, g[v].outs[k - 1])
  }

  ghost function Passed(g: Graph, rank: seq<nat>, dom: Demand, v: nat): set<Field>
    requires Acyclic(g, rank) && v < |g|
    decreases rank[v], |g[v].outs| + 2
  {
    if g[v].dominants != [] then {} else Live(g, rank, dom, v)
  }

  /** All fields read or written from the node on. */
  ghost function Uses(g: Graph, rank: seq<nat>, v: nat): set<Field>
    requires Acyclic(g, rank) && v < |g|
    decreases rank[v], |g[v].outs| + 1
  {
    UsesBehind(g, rank, v, |g[v].outs|) + g[v].defs + g[v].uses
  }

  ghost function UsesBehind(g: Graph, rank: seq<nat>, v: nat, k: nat): set<Field>
    requires Acyclic(g, rank) && v < |g| && k <= |g[v].outs|
    decreases rank[v], k
  {
    if k == 0 then {} else UsesBehind(g, rank, v, k - 1) + Uses(g, rank, g[v].outs[k - 1])
  }

  // Exactness, when there is no join.

  ghost predicate JoinFree(g: Graph) {
    forall v :: 0 <= v < |g| ==> g[v].dominants == []
  }

  /** A path from `v`, as the outputs to take. */
  ghost predicate IsPath(g: Graph, v: nat, path: seq<nat>)
    decreases |path|
  {
    v < |g| && (path != [] ==> path[0] < |g[v].outs| && IsPath(g, g[v].outs[path[0]], path[1..]))
  }

  /** At the end of the path the field is read, and no node before has written it or what it is part of. */
  ghost predicate ReadFirst(g: Graph, v: nat, path: seq<nat>, x: Field)
    requires IsPath(g, v, path)
    decreases |path|
  {
    if path == [] then x in g[v].uses
    else !Overwritten(x, g[v].defs) && ReadFirst(g, g[v].outs[path[0]], path[1..], x)
  }

  ghost predicate SomePathReads(g: Graph, v: nat, x: Field) {
    exists path :: IsPath(g, v, path) && ReadFirst(g, v, path, x)
  }

  /** What the nodes write. */
  ghost predicate Writes(g: Graph, defs: set<Field>) {
    forall v :: 0 <= v < |g| ==> g[v].defs <= defs
  }

  lemma {:induction false} InBehind(g: Graph, rank: seq<nat>, dom: Demand, v: nat, k: nat, x: Field)
    requires Acyclic(g, rank) && v < |g| && k <= |g[v].outs|
    ensures x in LiveBehind(g, rank, dom, v, k) <==> exists i :: 0 <= i < k && x in Passed(g, rank, dom, g[v].outs[i])
    decreases k
  {
    if k > 0 { InBehind(g, rank, dom, v, k - 1, x); }
  }

  lemma {:induction false} ReadIsLive(g: Graph, rank: seq<nat>, v: nat, path: seq<nat>, x: Field, defs: set<Field>)
    requires Acyclic(g, rank) && JoinFree(g) && Writes(g, defs) && NoDots(defs)
    requires IsPath(g, v, path) && ReadFirst(g, v, path, x)
    ensures x in Live(g, rank, NO_DEMAND, v)
    decreases |path|
  {
    if path != [] {
      var u := g[v].outs[path[0]];
      ReadIsLive(g, rank, u, path[1..], x, defs);
      InBehind(g, rank, NO_DEMAND, v, |g[v].outs|, x);
      assert g[u].dominants == [] && x in Passed(g, rank, NO_DEMAND, g[v].outs[path[0]]);
      assert NoDots(g[v].defs);
      KilledIffOverwritten(x, g[v].defs);
    }
  }

  lemma {:induction false} LiveIsRead(g: Graph, rank: seq<nat>, v: nat, x: Field) returns (path: seq<nat>)
    requires Acyclic(g, rank) && JoinFree(g) && v < |g| && x in Live(g, rank, NO_DEMAND, v)
    ensures IsPath(g, v, path) && ReadFirst(g, v, path, x)
    decreases rank[v]
  {
    if x in g[v].uses {
      path := [];
    } else {
      InBehind(g, rank, NO_DEMAND, v, |g[v].outs|, x);
      var i :| 0 <= i < |g[v].outs| && x in Passed(g, rank, NO_DEMAND, g[v].outs[i]);
      KilledIffOverwritten(x, g[v].defs);
      var rest := LiveIsRead(g, rank, g[v].outs[i], x);
      path := [i] + rest;
      assert path[1..] == rest;
    }
  }

  /** Whatever the paths, no field is called live that is not: some path reads it before it, or what it is part of, is
      written. */
  lemma NeverTooMuch(g: Graph, rank: seq<nat>, v: nat, x: Field)
    requires Acyclic(g, rank) && JoinFree(g) && v < |g|
    ensures x in Live(g, rank, NO_DEMAND, v) ==> SomePathReads(g, v, x)
  {
    if x in Live(g, rank, NO_DEMAND, v) {
      var path := LiveIsRead(g, rank, v, x);
    }
  }

  /** If no written path contains a ".", a field is live at a node exactly if some path from the node reads it before
      it, or what it is part of, is written. */
  lemma LiveIffRead(g: Graph, rank: seq<nat>, v: nat, x: Field, defs: set<Field>)
    requires Acyclic(g, rank) && JoinFree(g) && v < |g| && Writes(g, defs) && NoDots(defs)
    ensures x in Live(g, rank, NO_DEMAND, v) <==> SomePathReads(g, v, x)
  {
    hide Live, IsPath, ReadFirst;
    NeverTooMuch(g, rank, v, x);
    if SomePathReads(g, v, x) {
      var path :| IsPath(g, v, path) && ReadFirst(g, v, path, x);
      ReadIsLive(g, rank, v, path, x, defs);
    }
  }

  /** The analysis is right about all graphs without joins in which nothing but `defs` is written. */
  ghost predicate ExactFor(defs: set<Field>) {
    forall g: Graph, rank: seq<nat>, v: nat, x: Field ::
      Acyclic(g, rank) && JoinFree(g) && Writes(g, defs) && v < |g| ==>
      (x in Live(g, rank, NO_DEMAND, v) <==> SomePathReads(g, v, x))
  }

  /** A node that writes `d` in front of one that reads `x` */
  function WriteThenRead(d: Field, x: Field): Graph {
    [Node([1], {}, {d}, [], map[]), Node([], {x}, {}, [], map[])]
  }

  /** The path reads `x`, but the analysis takes it to be overwritten. */
  lemma DotLosesField(d: Field, x: Field)
    requires Matches(d, x) && !Under(d, x)
    ensures var g, rank := WriteThenRead(d, x), [1, 0];
            Acyclic(g, rank) && JoinFree(g) && SomePathReads(g, 0, x) && x !in Live(g, rank, NO_DEMAND, 0)
  {
    var g, rank := WriteThenRead(d, x), [1, 0];
    assert IsPath(g, 1, []) && ReadFirst(g, 1, [], x);
    assert [0][1..] == [] && g[0].outs[[0][0]] == 1;
    assert IsPath(g, 0, [0]) && ReadFirst(g, 0, [0], x);
    assert Killed(x, g[0].defs);
  }

  /** A node writes p.len, the next one reads pxlen. */
  lemma DotExample()
    ensures var g, rank := WriteThenRead("p.len", "pxlen"), [1, 0];
            Acyclic(g, rank) && JoinFree(g) && SomePathReads(g, 0, "pxlen") && "pxlen" !in Live(g, rank, NO_DEMAND, 0)
  {
    DotKillsOther();
    DotLosesField("p.len", "pxlen");
  }

  /** Right about all such graphs exactly if none of the written paths contains a ".". */
  lemma ExactIffNoDots(defs: set<Field>)
    ensures ExactFor(defs) <==> NoDots(defs)
  {
    if NoDots(defs) {
      forall g: Graph, rank: seq<nat>, v: nat, x: Field | Acyclic(g, rank) && JoinFree(g) && Writes(g, defs) && v < |g|
        ensures x in Live(g, rank, NO_DEMAND, v) <==> SomePathReads(g, v, x)
      {
        LiveIffRead(g, rank, v, x, defs);
      }
    } else {
      var d :| d in defs && '.' in d;
      ExactIffNoDot(d);
      var x :| Matches(d, x) && !Under(d, x);
      DotLosesField(d, x);
      assert Writes(WriteThenRead(d, x), defs);
    }
  }
}
