/** What an accepted graph does at run time: the analysis of a join is sound for every run, provided that every other
    join delivers all of this one's data or none of it. */
module JoinRuns {
  import opened Wrappers
  import opened Sequences
  import opened FlowCollection
  import opened JoinAnalysis

  /** The target's ports are those that the edges into it name, and every other join delivers all of the target's data
      or none of it. */
  ghost predicate JoinsApart(g: Graph, rank: seq<nat>, target: nat)
    requires Acyclic(g, rank)
  {
    && target < |g| && 2 <= g[target].inports
    && (forall v :: 0 <= v < |g| && v != target && g[v].join ==>
          var c := Cover(g, rank, target, v); c.Ok? ==> Full(c.value) || Empty(c.value))
    && (forall v, i :: 0 <= v < |g| && 0 <= i < |g[v].outs| && g[v].outs[i].next == target ==>
          g[v].outs[i].port < g[target].inports)
  }

  /** So it is when there is only one join. */
  lemma SingleJoin(g: Graph, rank: seq<nat>, target: nat)
    requires Acyclic(g, rank) && target < |g| && 2 <= g[target].inports
    requires forall v :: 0 <= v < |g| && v != target ==> !g[v].join
    requires forall v, i :: 0 <= v < |g| && 0 <= i < |g[v].outs| && g[v].outs[i].next == target ==>
               g[v].outs[i].port < g[target].inports
    ensures JoinsApart(g, rank, target)
  {
  }

  /** Some but not all ports of the target. */
  ghost predicate PartOf(p: Piece, target: nat, n: nat) {
    && p.Path? && |p.parts| == 1
    && p.parts[0] == Part(target, p.parts[0].ports, n)
    && p.parts[0].ports != {} && p.parts[0].ports < Numbers(n)
  }

  /** What the pieces can be when all other joins are all or nothing; the last form is a target that is fired again
      after it was complete, which the unions do not report at once. */
  ghost predicate Shape(ps: seq<Piece>, target: nat, n: nat) {
    Clean(ps, target, n) || (|ps| == 2 && ps[0].Whole? && PartOf(ps[1], target, n))
  }

  ghost predicate Clean(ps: seq<Piece>, target: nat, n: nat) {
    ps == [] || ps == [Whole] || (|ps| == 1 && PartOf(ps[0], target, n))
  }

  function Ports(ps: seq<Piece>, n: nat): set<nat>
    requires AllProper(ps)
  {
    if ps == [] then {}
    else if ps[0].Whole? then Numbers(n)
    else assert ps[0] in ps; ps[0].parts[0].ports
  }

  /** Two parts of the target's ports clash or merge. */
  lemma MergeParts(x: Piece, y: Piece, target: nat, n: nat)
    requires PartOf(x, target, n) && PartOf(y, target, n)
    ensures Proper(x) && Proper(y)
    ensures var s := x.parts[0].ports + y.parts[0].ports;
            if x.parts[0].ports * y.parts[0].ports != {} then Compare(x, y) == Clash
            else if s == Numbers(n) then Compare(x, y) == Joined(Whole)
            else Compare(x, y) == Joined(Path([Part(target, s, n)])) && PartOf(Path([Part(target, s, n)]), target, n)
  {
    assert Prefix(x) == Prefix(y) == [];
    var s := x.parts[0].ports + y.parts[0].ports;
    SubsetSize(s, Numbers(n));
    assert Last(x) == x.parts[0] && Last(y) == y.parts[0];
    assert Prefix(x) + [Part(target, s, n)] == [Part(target, s, n)];
    if x == y {
      assert x.parts[0].ports * y.parts[0].ports == x.parts[0].ports;
    }
  }

  lemma FindPart(ps: seq<Piece>, y: Piece, target: nat, n: nat)
    requires AllProper(ps) && Shape(ps, target, n) && PartOf(y, target, n)
    ensures Proper(y)
    ensures Find(ps, y, 0) == if ps == [] || ps[|ps| - 1].Whole? then |ps| else |ps| - 1
  {
    if ps != [] && ps[|ps| - 1].Path? { MergeParts(ps[|ps| - 1], y, target, n); }
    if |ps| == 2 {
      assert ps[0] in ps && Compare(ps[0], y).Unrelated?;
      assert Find(ps, y, 0) == Find(ps, y, 1);
    }
  }

  lemma AddPiece(ps: seq<Piece>, y: Piece, target: nat, n: nat)
    requires AllProper(ps) && Shape(ps, target, n) && Proper(y) && (y.Whole? || PartOf(y, target, n))
    requires Added(ps, y).Ok?
    ensures Shape(Added(ps, y).value, target, n)
    ensures Clean(Added(ps, y).value, target, n) ==>
              && Clean(ps, target, n) && Ports(ps, n) * Ports([y], n) == {}
              && Ports(Added(ps, y).value, n) == Ports(ps, n) + Ports([y], n)
  {
    if y.Path? {
      FindPart(ps, y, target, n);
      if ps != [] && ps[|ps| - 1].Path? {
        MergeParts(ps[|ps| - 1], y, target, n);
        hide Compare, Find;
        var j := |ps| - 1;
        var rest := ps[..j] + ps[j + 1..];
        assert rest == if |ps| == 1 then [] else [Whole];
        var z := Compare(ps[j], y).z;
        assert Added(ps, y) == Added(rest, z);
        if z.Path? {
          FindPart(rest, z, target, n);
          assert Added(rest, z) == Ok(rest + [z]);
        }
      } else {
        hide Compare, Find;
        assert Added(ps, y) == Ok(ps + [y]);
      }
    }
  }

  lemma AddPieces(ps: seq<Piece>, ys: seq<Piece>, target: nat, n: nat)
    requires AllProper(ps) && Shape(ps, target, n) && AllProper(ys) && Shape(ys, target, n)
    requires AddedAll(ps, ys).Ok?
    ensures Shape(AddedAll(ps, ys).value, target, n)
    ensures Clean(AddedAll(ps, ys).value, target, n) ==>
              && Clean(ps, target, n) && Clean(ys, target, n) && Ports(ps, n) * Ports(ys, n) == {}
              && Ports(AddedAll(ps, ys).value, n) == Ports(ps, n) + Ports(ys, n)
  {
    if ys != [] {
      assert ys[0] in ys;
      AddPiece(ps, ys[0], target, n);
      var ps' := Added(ps, ys[0]).value;
      if |ys| == 1 {
        assert ys[1..] == [] && ys == [ys[0]];
      } else {
        assert ys[1..] == [ys[1]] && ys[1] in ys && ys[1..][1..] == [];
        AddPiece(ps', ys[1], target, n);
        assert AddedAll(ps, ys) == AddedAll(ps', [ys[1]]) == Added(ps', ys[1]);
        assert ps == [] && ps' == [Whole];
      }
    }
  }

  /** A firing of a node: the outputs it fires, in order, each a save into the join's buffer, a save into the buffer of
      another join that is not complete yet, or a call. */
  datatype Firing = Firing(node: nat, calls: seq<Call>)
  datatype Call = Save(out: nat) | Wait(out: nat) | Invoke(out: nat, sub: Firing)

  /** The firing follows the graph, the way the node fires its outputs, and the partial order of the outputs. */
  ghost predicate Legal(g: Graph, rank: seq<nat>, target: nat, f: Firing)
    requires Acyclic(g, rank) && target < |g|
    decreases f
  {
    && f.node < |g| && f.node != target
    && (forall k :: 0 <= k < |f.calls| ==>
          && f.calls[k].out < |g[f.node].outs|
          && (f.calls[k].Save? <==> g[f.node].outs[f.calls[k].out].next == target)
          && (f.calls[k].Wait? ==> (var u := g[f.node].outs[f.calls[k].out].next; u < |g| && g[u].join))
          && (f.calls[k].Invoke? ==> (
                && f.calls[k].sub.node == g[f.node].outs[f.calls[k].out].next
                && Legal(g, rank, target, f.calls[k].sub))))
    && match g[f.node].fire
       case All =>
         && |f.calls| == |g[f.node].outs|
         && (forall j, k :: 0 <= j < k < |f.calls| ==> f.calls[j].out != f.calls[k].out)
         && (forall j, k :: 0 <= j < |f.calls| && 0 <= k < |f.calls| ==>
               Ordered(g, rank, target, f.node, f.calls[j].out, f.calls[k].out) ==> j < k)
       case One => |f.calls| == if g[f.node].outs == [] then 0 else 1
       case ZeroOrOne => |f.calls| <= 1
       case Multi => true
  }

  ghost predicate Dominant(g: Graph, rank: seq<nat>, target: nat, v: nat)
    requires Acyclic(g, rank) && target < |g| && v < |g|
  {
    var c := Cover(g, rank, target, v);
    c.Ok? && Full(c.value)
  }

  /** The ports saved, in order, into the buffer that the firing works on; a dominant node brings its own buffer. */
  ghost function Saves(g: Graph, rank: seq<nat>, target: nat, f: Firing): seq<nat>
    requires Acyclic(g, rank) && target < |g| && Legal(g, rank, target, f)
    decreases f, |f.calls| + 1
  {
    SavesUpto(g, rank, target, f, |f.calls|)
  }

  ghost function SavesUpto(g: Graph, rank: seq<nat>, target: nat, f: Firing, k: nat): seq<nat>
    requires Acyclic(g, rank) && target < |g| && Legal(g, rank, target, f) && k <= |f.calls|
    decreases f, k
  {
    if k == 0 then [] else SavesUpto(g, rank, target, f, k - 1) + SavedBy(g, rank, target, f, k - 1)
  }

  /** What the k-th call of the firing saves into the firing's buffer. */
  ghost function SavedBy(g: Graph, rank: seq<nat>, target: nat, f: Firing, k: nat): seq<nat>
    requires Acyclic(g, rank) && target < |g| && Legal(g, rank, target, f) && k < |f.calls|
    decreases f, k
  {
    match f.calls[k]
    case Save(out) => [g[f.node].outs[out].port]
    case Wait(_) => []
    case Invoke(_, sub) => if Dominant(g, rank, target, sub.node) then [] else Saves(g, rank, target, sub)
  }

  /** Exactly the given ports, each once, and the last-declared port last. */
  ghost predicate Exactly(s: seq<nat>, ports: set<nat>, n: nat) {
    && Distinct(s) && (forall p :: p in s <==> p in ports)
    && (n - 1 in ports ==> s != [] && s[|s| - 1] == n - 1)
  }

  lemma ArriveShape(g: Graph, rank: seq<nat>, target: nat, v: nat, port: nat, l: Flow)
    requires Acyclic(g, rank) && JoinsApart(g, rank, target) && v < |g|
    requires Arrive(g, rank, target, v, Some(port)) == Ok(l)
    requires v == target ==> port < g[target].inports
    requires v != target ==>
               Cover(g, rank, target, v).Ok? && Shape(Cover(g, rank, target, v).value.pieces, target, g[target].inports)
    ensures Shape(l.pieces, target, g[target].inports) && !Full(l) && AllProper(l.pieces)
    ensures v != target && g[v].join ==> l.pieces == []
    ensures Clean(l.pieces, target, g[target].inports) ==>
              if v == target then Ports(l.pieces, g[target].inports) == {port}
              else
                var c := Cover(g, rank, target, v).value;
                && Clean(c.pieces, target, g[target].inports)
                && (if Full(c) then l.pieces == [] else l.pieces == c.pieces)
  {
    if v == target {
      var n := g[target].inports;
      assert 0 in Numbers(n) && 1 in Numbers(n);
      assert {port} < Numbers(n);
    }
  }

  /** What a prefix of the outputs of a node makes of their covers. */
  ghost predicate Summed(fire: Fire, p: Partial, k: nat, target: nat, n: nat)
    requires AllProper(p.cover.pieces) && |p.each| == k && forall i :: 0 <= i < k ==> AllProper(p.each[i].pieces)
  {
    && Shape(p.cover.pieces, target, n)
    && (forall i :: 0 <= i < k ==> Shape(p.each[i].pieces, target, n) && !Full(p.each[i]))
    && (Clean(p.cover.pieces, target, n) ==> forall i :: 0 <= i < k ==> Clean(p.each[i].pieces, target, n))
    && match fire
       case All =>
         Clean(p.cover.pieces, target, n) ==> UnionOf(p.each, Ports(p.cover.pieces, n), n)
       case One => (k == 0 ==> p.cover.pieces == []) && forall i :: 0 <= i < k ==> p.each[i].pieces == p.cover.pieces
       case _ => p.cover.pieces == [] && forall i :: 0 <= i < k ==> p.each[i].pieces == []
  }

  /** The union of the covers of the outputs so far. */
  ghost predicate UnionOf(each: seq<Flow>, all: set<nat>, n: nat)
    requires forall i :: 0 <= i < |each| ==> AllProper(each[i].pieces)
  {
    && (forall i, j :: 0 <= i < j < |each| ==> Ports(each[i].pieces, n) * Ports(each[j].pieces, n) == {})
    && (forall i :: 0 <= i < |each| ==> Ports(each[i].pieces, n) <= all)
    && (forall x :: x in all ==> exists i :: 0 <= i < |each| && x in Ports(each[i].pieces, n))
  }

  lemma UnionMore(each: seq<Flow>, all: set<nat>, l: Flow, n: nat)
    requires AllProper(l.pieces) && forall i :: 0 <= i < |each| ==> AllProper(each[i].pieces)
    requires UnionOf(each, all, n) && all * Ports(l.pieces, n) == {}
    ensures UnionOf(each + [l], all + Ports(l.pieces, n), n)
  {
    hide Ports;
    var each', more, k := each + [l], Ports(l.pieces, n), |each|;
    forall i, j | 0 <= i < j < k + 1 ensures Ports(each'[i].pieces, n) * Ports(each'[j].pieces, n) == {} {
      assert each'[i] == each[i];
      if j == k {
        assert Ports(each[i].pieces, n) <= all;
        assert Ports(each[i].pieces, n) * more <= all * more;
      } else {
        assert each'[j] == each[j];
      }
    }
    forall x | x in all + more ensures exists i :: 0 <= i < k + 1 && x in Ports(each'[i].pieces, n) {
      if x in all {
        var i :| 0 <= i < k && x in Ports(each[i].pieces, n);
        assert each'[i] == each[i];
      } else {
        assert each'[k] == l;
      }
    }
  }

  lemma CombineAll(p: Partial, k: nat, l: Flow, c: Flow, target: nat, n: nat)
    requires AllProper(p.cover.pieces) && |p.each| == k && forall i :: 0 <= i < k ==> AllProper(p.each[i].pieces)
    requires Summed(All, p, k, target, n) && AllProper(l.pieces) && Shape(l.pieces, target, n) && !Full(l)
    requires Combine(All, k == 0, p.cover, l) == Ok(c)
    ensures Summed(All, Partial(c, p.each + [l]), k + 1, target, n)
  {
    hide AddedAll, Shape, UnionOf, Disjoint, Ports, Clean;
    AddPieces(p.cover.pieces, l.pieces, target, n);
    assert c.pieces == AddedAll(p.cover.pieces, l.pieces).value;
    hide Combine;
    if Clean(c.pieces, target, n) {
      UnionMore(p.each, Ports(p.cover.pieces, n), l, n);
    }
  }

  lemma CombineSummed(fire: Fire, p: Partial, k: nat, l: Flow, c: Flow, target: nat, n: nat)
    requires AllProper(p.cover.pieces) && |p.each| == k && forall i :: 0 <= i < k ==> AllProper(p.each[i].pieces)
    requires Summed(fire, p, k, target, n) && AllProper(l.pieces) && Shape(l.pieces, target, n) && !Full(l)
    requires Combine(fire, k == 0, p.cover, l) == Ok(c)
    ensures Summed(fire, Partial(c, p.each + [l]), k + 1, target, n)
  {
    hide Shape, Clean, Ports, UnionOf, AddedAll, Disjoint;
    if fire == All { CombineAll(p, k, l, c, target, n); }
  }

  lemma {:induction false} FoldSummed(g: Graph, rank: seq<nat>, target: nat, v: nat, k: nat, p: Partial)
    requires Acyclic(g, rank) && JoinsApart(g, rank, target) && v < |g| && k <= |g[v].outs|
    requires Fold(g, rank, target, v, k) == Ok(p)
    ensures Summed(g[v].fire, p, k, target, g[target].inports)
    decreases rank[v], k
  {
    if k > 0 {
      var e, n := g[v].outs[k - 1], g[target].inports;
      var q := Fold(g, rank, target, v, k - 1).value;
      FoldSummed(g, rank, target, v, k - 1, q);
      FoldStep(g, rank, target, v, k - 1, q);
      var l := Arrive(g, rank, target, e.next, Some(e.port)).value;
      if e.next != target { CoverShape(g, rank, target, e.next); }
      ArriveShape(g, rank, target, e.next, e.port, l);
      hide Fold, Arrive, Combine, Shape, Summed;
      CombineSummed(g[v].fire, q, k - 1, l, p.cover, target, n);
    }
  }

  lemma {:induction false} CoverShape(g: Graph, rank: seq<nat>, target: nat, v: nat)
    requires Acyclic(g, rank) && JoinsApart(g, rank, target) && v < |g| && Cover(g, rank, target, v).Ok?
    ensures Shape(Cover(g, rank, target, v).value.pieces, target, g[target].inports)
    decreases rank[v], |g[v].outs| + 1
  {
    FoldSummed(g, rank, target, v, |g[v].outs|, Fold(g, rank, target, v, |g[v].outs|).value);
  }

  lemma {:induction false} FoldEach(g: Graph, rank: seq<nat>, target: nat, v: nat, k: nat, i: nat)
    requires Acyclic(g, rank) && target < |g| && v < |g| && i < k <= |g[v].outs|
    requires Fold(g, rank, target, v, k).Ok?
    ensures Arrive(g, rank, target, g[v].outs[i].next, Some(g[v].outs[i].port)) ==
            Ok(Fold(g, rank, target, v, k).value.each[i])
    decreases k
  {
    if i < k - 1 { FoldEach(g, rank, target, v, k - 1, i); }
  }

  /** The covers of the outputs of a node. */
  ghost function Each(g: Graph, rank: seq<nat>, target: nat, v: nat): (each: seq<Flow>)
    requires Acyclic(g, rank) && target < |g| && v < |g| && Cover(g, rank, target, v).Ok?
    ensures |each| == |g[v].outs| && forall i :: 0 <= i < |each| ==> AllProper(each[i].pieces)
  {
    Fold(g, rank, target, v, |g[v].outs|).value.each
  }

  /** A legal firing of a node whose cover is known and clean. */
  ghost predicate Fires(g: Graph, rank: seq<nat>, target: nat, f: Firing) {
    && Acyclic(g, rank) && target < |g| && f.node < |g| && JoinsApart(g, rank, target) && Legal(g, rank, target, f)
    && Cover(g, rank, target, f.node).Ok?
    && Clean(Cover(g, rank, target, f.node).value.pieces, target, g[target].inports)
  }

  /** A call saves exactly what the analysis says its output delivers. */
  lemma {:induction false} CallSaves(g: Graph, rank: seq<nat>, target: nat, f: Firing, k: nat)
    requires Fires(g, rank, target, f) && k < |f.calls|
    ensures var n := g[target].inports;
            Exactly(SavedBy(g, rank, target, f, k), Ports(Each(g, rank, target, f.node)[f.calls[k].out].pieces, n), n)
    decreases f, k
  {
    var i, n := f.calls[k].out, g[target].inports;
    var e, outs := g[f.node].outs[i], |g[f.node].outs|;
    var p := Fold(g, rank, target, f.node, outs).value;
    FoldEach(g, rank, target, f.node, outs, i);
    FoldSummed(g, rank, target, f.node, outs, p);
    if e.next != target { CoverShape(g, rank, target, e.next); }
    ArriveShape(g, rank, target, e.next, e.port, p.each[i]);
    if f.calls[k].Invoke? && !Dominant(g, rank, target, e.next) {
      Exact(g, rank, target, f.calls[k].sub);
    }
  }

  lemma NothingSaved(s: seq<nat>, n: nat)
    requires Exactly(s, {}, n)
    ensures s == []
  {
    DistinctSize(s);
    assert Elems(s) == {};
  }

  /** The covers of the outputs, for a node whose own cover is clean. */
  lemma EachIs(g: Graph, rank: seq<nat>, target: nat, f: Firing)
    requires Fires(g, rank, target, f)
    ensures var n, each := g[target].inports, Each(g, rank, target, f.node);
            var c := Cover(g, rank, target, f.node).value.pieces;
            && (forall i :: 0 <= i < |each| ==> Clean(each[i].pieces, target, n) && !Full(each[i]))
            && match g[f.node].fire
               case All => UnionOf(each, Ports(c, n), n)
               case One => (each == [] ==> c == []) && forall i :: 0 <= i < |each| ==> each[i].pieces == c
               case _ => c == [] && forall i :: 0 <= i < |each| ==> each[i].pieces == []
  {
    var outs := |g[f.node].outs|;
    FoldSummed(g, rank, target, f.node, outs, Fold(g, rank, target, f.node, outs).value);
    hide Clean, Shape, Ports, UnionOf, Legal;
  }

  lemma {:induction false} OneSaves(g: Graph, rank: seq<nat>, target: nat, f: Firing)
    requires Fires(g, rank, target, f) && g[f.node].fire.One?
    ensures var n := g[target].inports;
            Exactly(Saves(g, rank, target, f), Ports(Cover(g, rank, target, f.node).value.pieces, n), n)
    decreases f, |f.calls| + 1, 0
  {
    EachIs(g, rank, target, f);
    if |f.calls| == 1 {
      CallSaves(g, rank, target, f, 0);
      assert Saves(g, rank, target, f) == SavesUpto(g, rank, target, f, 0) + SavedBy(g, rank, target, f, 0);
    }
  }

  lemma {:induction false} NoSaves(g: Graph, rank: seq<nat>, target: nat, f: Firing, k: nat)
    requires Fires(g, rank, target, f) && (g[f.node].fire.Multi? || g[f.node].fire.ZeroOrOne?) && k <= |f.calls|
    ensures SavesUpto(g, rank, target, f, k) == []
    ensures Cover(g, rank, target, f.node).value.pieces == []
    decreases f, k
  {
    EachIs(g, rank, target, f);
    if k > 0 {
      NoSaves(g, rank, target, f, k - 1);
      CallSaves(g, rank, target, f, k - 1);
      NothingSaved(SavedBy(g, rank, target, f, k - 1), g[target].inports);
    }
  }

  function Unions(sets: seq<set<nat>>): set<nat> {
    if sets == [] then {} else Unions(sets[..|sets| - 1]) + sets[|sets| - 1]
  }

  lemma {:induction false} InUnions(sets: seq<set<nat>>, x: nat)
    ensures x in Unions(sets) <==> exists a :: 0 <= a < |sets| && x in sets[a]
  {
    if sets != [] {
      var r := sets[..|sets| - 1];
      InUnions(r, x);
      assert forall a :: 0 <= a < |r| ==> r[a] == sets[a];
    }
  }

  ghost predicate Apart(sets: seq<set<nat>>) {
    forall i, j :: 0 <= i < j < |sets| ==> sets[i] !! sets[j]
  }

  /** The ports each call of the firing delivers, in the order of the calls. */
  ghost function CallPorts(g: Graph, rank: seq<nat>, target: nat, f: Firing): seq<set<nat>>
    requires Fires(g, rank, target, f)
  {
    seq(|f.calls|, k requires 0 <= k < |f.calls| =>
      Ports(Each(g, rank, target, f.node)[f.calls[k].out].pieces, g[target].inports))
  }

  lemma ExactlyMore(s: seq<nat>, t: seq<nat>, sets: seq<set<nat>>, last: set<nat>)
    requires Apart(sets + [last])
    requires Distinct(s) && Distinct(t) && (forall x :: x in s <==> x in Unions(sets))
    requires (forall x :: x in t <==> x in last)
    ensures Distinct(s + t) && (forall x :: x in s + t <==> x in Unions(sets + [last]))
  {
    var all := sets + [last];
    assert all[..|all| - 1] == sets;
    forall x | x in s ensures x !in t {
      InUnions(sets, x);
      var a :| 0 <= a < |sets| && x in sets[a];
      assert x in all[a] && all[a] !! all[|sets|] && all[|sets|] == last;
    }
    forall j, k | 0 <= j < k < |s + t| ensures (s + t)[j] != (s + t)[k] {
      if j < |s| <= k { assert s[j] in s && t[k - |s|] in t; }
    }
  }

  /** The first `k` calls of a firing of all outputs. */
  lemma {:induction false} AllSaves(g: Graph, rank: seq<nat>, target: nat, f: Firing, k: nat)
    requires Fires(g, rank, target, f) && k <= |f.calls| && Apart(CallPorts(g, rank, target, f))
    ensures Distinct(SavesUpto(g, rank, target, f, k))
    ensures forall x :: x in SavesUpto(g, rank, target, f, k) <==> x in Unions(CallPorts(g, rank, target, f)[..k])
    decreases f, k
  {
    if k > 0 {
      AllSaves(g, rank, target, f, k - 1);
      CallSaves(g, rank, target, f, k - 1);
      var sets := CallPorts(g, rank, target, f);
      assert sets[..k] == sets[..k - 1] + [sets[k - 1]];
      ExactlyMore(SavesUpto(g, rank, target, f, k - 1), SavedBy(g, rank, target, f, k - 1), sets[..k - 1], sets[k - 1]);
    }
  }

  lemma HighestPort(ps: seq<Piece>, target: nat, n: nat)
    requires AllProper(ps) && |ps| == 1 && PartOf(ps[0], target, n)
    ensures 0 <= MaxPort(ps) < n && MaxPort(ps) in Ports(ps, n)
    ensures n - 1 in Ports(ps, n) ==> MaxPort(ps) == n - 1
  {
    assert ps[..0] == [];
  }

  /** The output that delivers the last port must come after the others that deliver something. */
  lemma LastComesAfter(a: Flow, b: Flow, target: nat, n: nat)
    requires AllProper(a.pieces) && AllProper(b.pieces) && Clean(a.pieces, target, n) && Clean(b.pieces, target, n)
    requires !Full(a) && !Full(b) && Ports(a.pieces, n) != {} && n - 1 in Ports(b.pieces, n)
    requires Ports(a.pieces, n) * Ports(b.pieces, n) == {}
    ensures HappensBefore(a, b, n)
  {
    HighestPort(a.pieces, target, n);
    HighestPort(b.pieces, target, n);
  }

  lemma EachApart(each: seq<Flow>, all: set<nat>, i: nat, j: nat, n: nat)
    requires forall k :: 0 <= k < |each| ==> AllProper(each[k].pieces)
    requires UnionOf(each, all, n) && i < |each| && j < |each| && i != j
    ensures Ports(each[i].pieces, n) * Ports(each[j].pieces, n) == {}
  {
    hide Ports;
    if i < j {
    } else {
      assert Ports(each[j].pieces, n) * Ports(each[i].pieces, n) == {};
    }
  }

  lemma OrderedIf(g: Graph, rank: seq<nat>, target: nat, v: nat, i: nat, j: nat)
    requires Acyclic(g, rank) && target < |g| && v < |g| && Cover(g, rank, target, v).Ok?
    requires g[v].fire.All? && i < |g[v].outs| && j < |g[v].outs|
    requires HappensBefore(Each(g, rank, target, v)[i], Each(g, rank, target, v)[j], g[target].inports)
    ensures Ordered(g, rank, target, v, i, j)
  {
  }

  lemma LastIsOrdered(g: Graph, rank: seq<nat>, target: nat, f: Firing, i: nat, j: nat)
    requires Fires(g, rank, target, f) && g[f.node].fire.All? && i < |g[f.node].outs| && j < |g[f.node].outs| && i != j
    requires Ports(Each(g, rank, target, f.node)[i].pieces, g[target].inports) != {}
    requires g[target].inports - 1 in Ports(Each(g, rank, target, f.node)[j].pieces, g[target].inports)
    ensures Ordered(g, rank, target, f.node, i, j)
  {
    hide Clean, Ports, Fold, Cover, Each, Legal, HappensBefore, JoinsApart, UnionOf, Ordered;
    EachIs(g, rank, target, f);
    var n, each := g[target].inports, Each(g, rank, target, f.node);
    EachApart(each, Ports(Cover(g, rank, target, f.node).value.pieces, n), i, j, n);
    LastComesAfter(each[i], each[j], target, n);
    OrderedIf(g, rank, target, f.node, i, j);
  }

  /** After the call that saves the last port, nothing is saved. */
  lemma {:induction false} NothingAfter(g: Graph, rank: seq<nat>, target: nat, f: Firing, b: nat, k: nat)
    requires Fires(g, rank, target, f) && g[f.node].fire.All? && b < k <= |f.calls|
    requires g[target].inports - 1 in CallPorts(g, rank, target, f)[b]
    ensures SavesUpto(g, rank, target, f, k) == SavesUpto(g, rank, target, f, b + 1)
    decreases f, k
  {
    if k > b + 1 {
      var i, j, n := f.calls[k - 1].out, f.calls[b].out, g[target].inports;
      NothingAfter(g, rank, target, f, b, k - 1);
      CallSaves(g, rank, target, f, k - 1);
      assert !Ordered(g, rank, target, f.node, i, j);
      if Ports(Each(g, rank, target, f.node)[i].pieces, n) != {} {
        LastIsOrdered(g, rank, target, f, i, j);
      }
      NothingSaved(SavedBy(g, rank, target, f, k - 1), n);
    }
  }

  /** The calls of a firing of all outputs are a permutation of the outputs. */
  ghost predicate Permuted(each: seq<Flow>, n: nat, order: seq<nat>, sets: seq<set<nat>>)
    requires forall i :: 0 <= i < |each| ==> AllProper(each[i].pieces)
  {
    && |order| == |each| == |sets| && Distinct(order)
    && (forall k :: 0 <= k < |order| ==> order[k] < |each| && sets[k] == Ports(each[order[k]].pieces, n))
  }

  lemma NothingShared(a: set<nat>, b: set<nat>)
    requires a * b == {}
    ensures a !! b
  {
    forall x | x in a ensures x !in b { assert x in b ==> x in a * b; }
  }

  lemma PermutedApart(each: seq<Flow>, ports: set<nat>, n: nat, order: seq<nat>, sets: seq<set<nat>>)
    requires forall i :: 0 <= i < |each| ==> AllProper(each[i].pieces)
    requires UnionOf(each, ports, n) && Permuted(each, n, order, sets)
    ensures Apart(sets)
  {
    hide Ports, UnionOf;
    forall i, j | 0 <= i < j < |sets| ensures sets[i] !! sets[j] {
      EachApart(each, ports, order[i], order[j], n);
      NothingShared(sets[i], sets[j]);
    }
  }

  lemma PermutedUnion(each: seq<Flow>, ports: set<nat>, n: nat, order: seq<nat>, sets: seq<set<nat>>)
    requires forall i :: 0 <= i < |each| ==> AllProper(each[i].pieces)
    requires UnionOf(each, ports, n) && Permuted(each, n, order, sets)
    ensures Unions(sets) == ports
  {
    hide Ports, Unions;
    var m := |order|;
    forall x: nat ensures x in Unions(sets) <==> x in ports {
      InUnions(sets, x);
      if x in ports {
        var i :| 0 <= i < m && x in Ports(each[i].pieces, n);
        Pigeonhole(order, m, i);
        var b :| 0 <= b < m && order[b] == i;
        assert x in sets[b];
      }
    }
  }

  lemma CallsApart(g: Graph, rank: seq<nat>, target: nat, f: Firing)
    requires Fires(g, rank, target, f) && g[f.node].fire.All?
    ensures Apart(CallPorts(g, rank, target, f))
    ensures Unions(CallPorts(g, rank, target, f)) ==
            Ports(Cover(g, rank, target, f.node).value.pieces, g[target].inports)
  {
    hide Clean, Ports, Fold, Cover, Each, JoinsApart, UnionOf;
    EachIs(g, rank, target, f);
    var order := seq(|f.calls|, k requires 0 <= k < |f.calls| => f.calls[k].out);
    var n, each, sets := g[target].inports, Each(g, rank, target, f.node), CallPorts(g, rank, target, f);
    var ports := Ports(Cover(g, rank, target, f.node).value.pieces, n);
    assert Permuted(each, n, order, sets);
    PermutedApart(each, ports, n, order, sets);
    PermutedUnion(each, ports, n, order, sets);
  }

  lemma {:induction false} LastSaved(g: Graph, rank: seq<nat>, target: nat, f: Firing, b: nat)
    requires Fires(g, rank, target, f) && g[f.node].fire.All? && b < |f.calls|
    requires g[target].inports - 1 in CallPorts(g, rank, target, f)[b]
    ensures var s := Saves(g, rank, target, f); s != [] && s[|s| - 1] == g[target].inports - 1
    decreases f, |f.calls| + 1, 0
  {
    NothingAfter(g, rank, target, f, b, |f.calls|);
    CallSaves(g, rank, target, f, b);
    assert SavesUpto(g, rank, target, f, b + 1) == SavesUpto(g, rank, target, f, b) + SavedBy(g, rank, target, f, b);
    hide SavesUpto, SavedBy, Legal, Cover, Ports, Clean, JoinsApart;
  }

  lemma {:induction false} AllExact(g: Graph, rank: seq<nat>, target: nat, f: Firing)
    requires Fires(g, rank, target, f) && g[f.node].fire.All?
    ensures var n := g[target].inports;
            Exactly(Saves(g, rank, target, f), Ports(Cover(g, rank, target, f.node).value.pieces, n), n)
    decreases f, |f.calls| + 1, 1
  {
    hide Cover, Ports, Clean, JoinsApart, CallPorts, SavesUpto, SavedBy, Fold;
    var n, m, sets := g[target].inports, |f.calls|, CallPorts(g, rank, target, f);
    CallsApart(g, rank, target, f);
    AllSaves(g, rank, target, f, m);
    CallCount(g, rank, target, f);
    assert sets[..m] == sets;
    var s := Saves(g, rank, target, f);
    assert s == SavesUpto(g, rank, target, f, m);
    hide Legal, Saves;
    if n - 1 in Unions(sets) {
      InUnions(sets, n - 1);
      var b :| 0 <= b < |sets| && n - 1 in sets[b];
      LastSaved(g, rank, target, f, b);
    }
  }

  lemma CallCount(g: Graph, rank: seq<nat>, target: nat, f: Firing)
    requires Fires(g, rank, target, f)
    ensures |CallPorts(g, rank, target, f)| == |f.calls| && 2 <= g[target].inports
    ensures forall k :: 0 <= k < |f.calls| ==> f.calls[k].out < |g[f.node].outs|
  {
  }

  /** Every firing of a node saves exactly the ports of its cover, each once, the last-declared port last. */
  lemma {:induction false} Exact(g: Graph, rank: seq<nat>, target: nat, f: Firing)
    requires Fires(g, rank, target, f)
    ensures var n := g[target].inports;
            Exactly(Saves(g, rank, target, f), Ports(Cover(g, rank, target, f.node).value.pieces, n), n)
    decreases f, |f.calls| + 1, 2
  {
    match g[f.node].fire
    case All => AllExact(g, rank, target, f);
    case One => OneSaves(g, rank, target, f);
    case _ => NoSaves(g, rank, target, f, |f.calls|);
  }

  /** The main property at one firing: a dominant node fills its buffer, and a node outside any dominant one touches
      no buffer. */
  ghost predicate SoundHere(g: Graph, rank: seq<nat>, target: nat, f: Firing)
    requires Acyclic(g, rank) && target < |g| && Legal(g, rank, target, f)
  {
    var c, n := Cover(g, rank, target, f.node), g[target].inports;
    && c.Ok?
    && (Full(c.value) ==> Exactly(Saves(g, rank, target, f), Numbers(n), n))
    && (Empty(c.value) ==> Saves(g, rank, target, f) == [])
    && (!Full(c.value) ==> Exactly(Saves(g, rank, target, f), Ports(c.value.pieces, n), n))
  }

  /** ... and at every firing below. */
  ghost predicate Sound(g: Graph, rank: seq<nat>, target: nat, f: Firing)
    requires Acyclic(g, rank) && target < |g| && Legal(g, rank, target, f)
    decreases f
  {
    && SoundHere(g, rank, target, f)
    && (forall k :: 0 <= k < |f.calls| && f.calls[k].Invoke? ==> Sound(g, rank, target, f.calls[k].sub))
  }

  lemma {:induction false} FiresSound(g: Graph, rank: seq<nat>, target: nat, f: Firing)
    requires Fires(g, rank, target, f)
    ensures Sound(g, rank, target, f)
    decreases f
  {
    var n := g[target].inports;
    Exact(g, rank, target, f);
    if Cover(g, rank, target, f.node).value.pieces == [] { NothingSaved(Saves(g, rank, target, f), n); }
    forall k | 0 <= k < |f.calls| && f.calls[k].Invoke? ensures Sound(g, rank, target, f.calls[k].sub) {
      CalleeFires(g, rank, target, f, k);
      FiresSound(g, rank, target, f.calls[k].sub);
    }
  }

  /** A target fired again after it was complete shows in the covers of all nodes above. */
  lemma CalleeFires(g: Graph, rank: seq<nat>, target: nat, f: Firing, k: nat)
    requires Fires(g, rank, target, f) && k < |f.calls| && f.calls[k].Invoke?
    ensures Fires(g, rank, target, f.calls[k].sub)
  {
    var i, outs := f.calls[k].out, |g[f.node].outs|;
    var e := g[f.node].outs[i];
    EachIs(g, rank, target, f);
    FoldEach(g, rank, target, f.node, outs, i);
    CoverShape(g, rank, target, e.next);
    ArriveShape(g, rank, target, e.next, e.port, Each(g, rank, target, f.node)[i]);
  }

  /** For every graph that the analysis accepts, and whose other joins deliver all of the target's data or none of it,
      in every run from a root, whatever the either-or elements choose: each firing of a dominant node saves each
      input port of the join exactly once and the last-declared one last, and no port is saved outside a dominant
      node's firing. */
  lemma AcceptedIsSound(g: Graph, rank: seq<nat>, target: nat, roots: seq<nat>, f: Firing)
    requires Acyclic(g, rank) && JoinsApart(g, rank, target) && (forall k :: 0 <= k < |roots| ==> roots[k] < |g|)
    requires Accepted(g, rank, target, roots) && f.node in roots && Legal(g, rank, target, f)
    ensures Sound(g, rank, target, f)
  {
    var k :| 0 <= k < |roots| && roots[k] == f.node;
    assert Arrive(g, rank, target, roots[k], None).Ok?;
    CoverShape(g, rank, target, f.node);
    FiresSound(g, rank, target, f);
  }
}
