/** FlowCollection.add conserves data, and so does the whole search, through any number of joins. */
module FlowWeight {
  import opened Wrappers
  import opened FlowCollection
  import opened JoinAnalysis

  /** The share of its join node that a part is. */
  function Share(p: Part): real
    requires p.total > 0
  {
    |p.ports| as real / p.total as real
  }

  /** Parts of the same instance agree on how many ports the instance has, and no part is all of it. */
  ghost predicate SizedPart(p: Part, tot: map<nat, nat>) {
    p.inst in tot && p.total == tot[p.inst] > 0
  }

  ghost predicate Sized(p: Piece, tot: map<nat, nat>) {
    Proper(p) && (p.Path? ==> forall q :: q in p.parts ==> SizedPart(q, tot))
  }

  ghost predicate AllSized(ps: seq<Piece>, tot: map<nat, nat>) {
    forall p :: p in ps ==> Sized(p, tot)
  }

  function Times(a: real, b: real): real {
    a * b
  }

  function ShareOf(parts: seq<Part>): real
    requires forall q :: q in parts ==> q.total > 0
  {
    if parts == [] then 1.0 else Times(ShareOf(parts[..|parts| - 1]), Share(parts[|parts| - 1]))
  }

  /** The fraction of the target's data that a piece is. */
  function Weight(p: Piece): real
    requires p.Path? ==> forall q :: q in p.parts ==> q.total > 0
  {
    if p.Whole? then 1.0 else ShareOf(p.parts)
  }

  function Total(ps: seq<Piece>): real
    requires forall p, q :: p in ps && p.Path? && q in p.parts ==> q.total > 0
  {
    if ps == [] then 0.0 else Total(ps[..|ps| - 1]) + Weight(ps[|ps| - 1])
  }

  lemma {:induction false} TotalRemove(ps: seq<Piece>, tot: map<nat, nat>, j: nat)
    requires AllSized(ps, tot) && j < |ps|
    ensures AllSized(ps[..j] + ps[j + 1..], tot)
    ensures Total(ps) == Total(ps[..j] + ps[j + 1..]) + Weight(ps[j])
  {
    var n := |ps| - 1;
    var rest := ps[..j] + ps[j + 1..];
    if j == n {
      assert rest == ps[..n];
    } else {
      TotalRemove(ps[..n], tot, j);
      assert rest[..|rest| - 1] == ps[..n][..j] + ps[..n][j + 1..];
    }
  }

  lemma ShareSum(a: Part, b: Part)
    requires a.inst == b.inst && a.total == b.total > 0 && a.ports * b.ports == {}
    ensures |a.ports + b.ports| as real / a.total as real == Share(a) + Share(b)
  {
    assert |a.ports + b.ports| == |a.ports| + |b.ports|;
  }

  lemma Distribute(p: real, a: real, b: real)
    ensures Times(p, a) + Times(p, b) == Times(p, a + b) && Times(p, 1.0) == p
  {
  }

  /** Splitting off the last part. */
  lemma WeightOf(parts: seq<Part>, last: Part, tot: map<nat, nat>)
    requires Sized(Path(parts + [last]), tot)
    ensures Sized(Path(parts + [last]), tot) && (forall q :: q in parts ==> q.total > 0) && last.total > 0
    ensures Weight(Path(parts + [last])) == Times(ShareOf(parts), Share(last))
  {
    hide Times, Share;
    var all := parts + [last];
    assert last in all && forall q :: q in parts ==> q in all;
    assert all[..|parts|] == parts;
  }

  lemma Merged(a: Part, b: Part, tot: map<nat, nat>)
    requires a.inst == b.inst && SizedPart(a, tot) && SizedPart(b, tot) && a.ports * b.ports == {}
    ensures PartUnion(a, b).Bigger? ==>
              SizedPart(PartUnion(a, b).part, tot) && Share(PartUnion(a, b).part) == Share(a) + Share(b)
    ensures PartUnion(a, b).Complete? ==> Share(a) + Share(b) == 1.0
  {
    ShareSum(a, b);
  }

  /** Two pieces joined weigh what they weighed apart. */
  lemma JoinedWeight(x: Piece, y: Piece, tot: map<nat, nat>)
    requires y.Path? && Sized(x, tot) && Sized(y, tot) && Compare(x, y).Joined?
    ensures Sized(Compare(x, y).z, tot)
    ensures Weight(Compare(x, y).z) == Weight(x) + Weight(y)
  {
    var z, p, a, b := Compare(x, y).z, Prefix(x), Last(x), Last(y);
    assert x == Path(p + [a]) && y == Path(p + [b]) && a in x.parts && b in y.parts;
    WeightOf(p, a, tot);
    WeightOf(p, b, tot);
    Merged(a, b, tot);
    assert forall q :: q in p ==> q in x.parts;
    Distribute(ShareOf(p), Share(a), Share(b));
    hide ShareOf, Share, Times;
    if PartUnion(a, b).Bigger? {
      assert z == Path(p + [PartUnion(a, b).part]);
      WeightOf(p, PartUnion(a, b).part, tot);
    } else {
      assert z == if p == [] then Whole else Path(p);
      WholeShare(p);
    }
  }

  lemma WholeShare(p: seq<Part>)
    requires forall q :: q in p ==> q.total > 0
    ensures p == [] ==> ShareOf(p) == 1.0
  {
  }

  /** Whatever merges an accepted piece sets off, the collection gains exactly the weight of the piece. */
  lemma {:induction false} AddConserves(ps: seq<Piece>, y: Piece, tot: map<nat, nat>)
    requires AllSized(ps, tot) && Sized(y, tot) && Added(ps, y).Ok?
    ensures AllSized(Added(ps, y).value, tot)
    ensures Total(Added(ps, y).value) == Total(ps) + Weight(y)
    decreases |ps|
  {
    if y.Whole? {
      assert [Whole][..0] == [];
    } else {
      var j := Find(ps, y, 0);
      if j == |ps| {
        assert (ps + [y])[..|ps|] == ps;
      } else {
        var rest := ps[..j] + ps[j + 1..];
        TotalRemove(ps, tot, j);
        assert ps[j] in ps;
        JoinedWeight(ps[j], y, tot);
        AddConserves(rest, Compare(ps[j], y).z, tot);
      }
    }
  }

  /** So does a union: the data of both, and nothing counted twice. */
  lemma {:induction false} UnionConserves(ps: seq<Piece>, ys: seq<Piece>, tot: map<nat, nat>)
    requires AllSized(ps, tot) && AllSized(ys, tot) && AddedAll(ps, ys).Ok?
    ensures AllSized(AddedAll(ps, ys).value, tot)
    ensures Total(AddedAll(ps, ys).value) == Total(ps) + Total(ys)
    decreases |ys|
  {
    if ys != [] {
      AddConserves(ps, ys[0], tot);
      UnionConserves(Added(ps, ys[0]).value, ys[1..], tot);
      TotalRemove(ys, tot, 0);
      assert ys[..0] + ys[1..] == ys[1..];
    }
  }

  /** A collection that has become the whole target was completed exactly once. */
  lemma FullWeighsOne(ps: seq<Piece>, ys: seq<Piece>, tot: map<nat, nat>)
    requires AllSized(ps, tot) && AllSized(ys, tot) && AddedAll(ps, ys) == Ok([Whole])
    ensures Total(ps) + Total(ys) == 1.0
  {
    UnionConserves(ps, ys, tot);
    assert [Whole][..0] == [];
  }

  lemma PartAppended(p: Piece, x: Part, tot: map<nat, nat>)
    requires Sized(p, tot) && p.Path? && SizedPart(x, tot)
    ensures Sized(Path(p.parts + [x]), tot) && Weight(Path(p.parts + [x])) == Times(Weight(p), Share(x))
  {
    assert Sized(Path(p.parts + [x]), tot);
    WeightOf(p.parts, x, tot);
  }

  lemma Spread(a: real, b: real, c: real)
    ensures Times(a, c) + Times(b, c) == Times(a + b, c) && Times(0.0, c) == 0.0
  {
  }

  /** Behind one port of a join there is only that port's share of everything. */
  lemma {:induction false} AppendShares(ps: seq<Piece>, x: Part, tot: map<nat, nat>)
    requires AllSized(ps, tot) && SizedPart(x, tot) && Appended(ps, x).Ok?
    ensures AllSized(Appended(ps, x).value, tot)
    ensures Total(Appended(ps, x).value) == Times(Total(ps), Share(x))
  {
    hide Times, Share, ShareOf, Weight;
    var qs, n := Appended(ps, x).value, |ps| - 1;
    forall q | q in qs ensures Sized(q, tot) {
      var i :| 0 <= i < |qs| && qs[i] == q;
      assert ps[i] in ps;
      PartAppended(ps[i], x, tot);
    }
    if ps == [] {
      Spread(0.0, 0.0, Share(x));
    } else {
      assert ps[n] in ps && forall p :: p in ps[..n] ==> p in ps;
      AppendShares(ps[..n], x, tot);
      assert Appended(ps[..n], x).value == qs[..n];
      PartAppended(ps[n], x, tot);
      Spread(Total(ps[..n]), Weight(ps[n]), Share(x));
    }
  }

  /** The joins of the graph have at least one port, and so many as `tot` says. */
  ghost predicate Ported(g: Graph, target: nat, tot: map<nat, nat>) {
    && target < |g| && target in tot
    && (forall v :: v in tot ==> v < |g| && tot[v] == g[v].inports > 0)
    && (forall v :: 0 <= v < |g| && g[v].join ==> v in tot)
  }

  /** What a caller gets of what one firing of the node delivers: nothing that is already complete; through one port
      of a join, that port's share; and otherwise everything. */
  lemma WrapShares(g: Graph, target: nat, cover: Flow, v: nat, port: nat, tot: map<nat, nat>)
    requires Ported(g, target, tot) && v < |g| && AllSized(cover.pieces, tot)
    ensures var r := Wrap(g, cover, v, Some(port));
            && (r.Err? <==> g[v].join && !Full(cover) && Whole in cover.pieces)
            && (r.Ok? ==> AllSized(r.value.pieces, tot) && Total(r.value.pieces) ==
                            if Full(cover) then 0.0
                            else if g[v].join then Times(Total(cover.pieces), 1.0 / g[v].inports as real)
                            else Total(cover.pieces))
  {
    if !Full(cover) && g[v].join {
      var x := Part(v, {port}, g[v].inports);
      assert Share(x) == 1.0 / g[v].inports as real;
      var r := Appended(cover.pieces, x);
      if Whole in cover.pieces {
        var i :| 0 <= i < |cover.pieces| && cover.pieces[i] == Whole;
      }
      if r.Ok? { AppendShares(cover.pieces, x, tot); }
    }
  }

  function Sum(each: seq<Flow>, tot: map<nat, nat>): real
    requires forall i :: 0 <= i < |each| ==> AllSized(each[i].pieces, tot)
  {
    if each == [] then 0.0
    else
      assert AllSized(each[|each| - 1].pieces, tot);
      Sum(each[..|each| - 1], tot) + Total(each[|each| - 1].pieces)
  }

  /** What the covers of the outputs make of the cover of the node. */
  ghost predicate Balanced(fire: Fire, p: Partial, tot: map<nat, nat>) {
    && AllSized(p.cover.pieces, tot) && (forall i :: 0 <= i < |p.each| ==> AllSized(p.each[i].pieces, tot))
    && match fire
       case All => Total(p.cover.pieces) == Sum(p.each, tot)
       case One =>
         && (p.each == [] ==> p.cover.pieces == [])
         && (forall i :: 0 <= i < |p.each| ==> p.each[i].pieces == p.cover.pieces)
       case _ => p.cover.pieces == []
  }

  lemma CombineBalanced(fire: Fire, p: Partial, l: Flow, c: Flow, tot: map<nat, nat>)
    requires Balanced(fire, p, tot) && AllSized(l.pieces, tot) && AllProper(p.cover.pieces) && AllProper(l.pieces)
    requires Combine(fire, |p.each| == 0, p.cover, l) == Ok(c)
    ensures Balanced(fire, Partial(c, p.each + [l]), tot)
  {
    var each := p.each + [l];
    assert each[..|p.each|] == p.each;
    if fire == All { UnionConserves(p.cover.pieces, l.pieces, tot); }
  }

  lemma {:induction false} FoldBalanced(g: Graph, rank: seq<nat>, target: nat, v: nat, k: nat, tot: map<nat, nat>)
    requires Acyclic(g, rank) && Ported(g, target, tot) && v < |g| && k <= |g[v].outs|
    requires Fold(g, rank, target, v, k).Ok?
    ensures Balanced(g[v].fire, Fold(g, rank, target, v, k).value, tot)
    decreases rank[v], k
  {
    if k > 0 {
      var e, q := g[v].outs[k - 1], Fold(g, rank, target, v, k - 1);
      FoldBalanced(g, rank, target, v, k - 1, tot);
      FoldStep(g, rank, target, v, k - 1, q.value);
      var l := Arrive(g, rank, target, e.next, Some(e.port)).value;
      ArriveShares(g, rank, target, e.next, e.port, tot);
      hide Fold, Arrive, Combine, Balanced;
      CombineBalanced(g[v].fire, q.value, l, Fold(g, rank, target, v, k).value.cover, tot);
    }
  }

  /** A call of the target delivers the share of one of its ports; a call of another node delivers its cover, or the
      share of it that the port of a join stands for, or nothing if the cover is complete. */
  lemma {:induction false} ArriveShares(g: Graph, rank: seq<nat>, target: nat, v: nat, port: nat, tot: map<nat, nat>)
    requires Acyclic(g, rank) && Ported(g, target, tot) && v < |g| && Arrive(g, rank, target, v, Some(port)).Ok?
    ensures var l := Arrive(g, rank, target, v, Some(port)).value.pieces;
            AllSized(l, tot) && Total(l) ==
              if v == target then 1.0 / g[v].inports as real
              else
                var c := Cover(g, rank, target, v).value;
                if Full(c) then 0.0
                else if g[v].join then Times(Delivered(g, rank, target, v, tot), 1.0 / g[v].inports as real)
                else Delivered(g, rank, target, v, tot)
    decreases rank[v], |g[v].outs| + 2
  {
    if v == target {
      var x := Part(target, {port}, g[target].inports);
      assert [Path([x])][..0] == [] && [x][..0] == [] && SizedPart(x, tot);
      assert ShareOf([x]) == Times(1.0, Share(x));
    } else {
      FoldBalanced(g, rank, target, v, |g[v].outs|, tot);
      WrapShares(g, target, Cover(g, rank, target, v).value, v, port, tot);
    }
  }

  /** The share of the target's data that one firing of the node delivers. */
  ghost function Delivered(g: Graph, rank: seq<nat>, target: nat, v: nat, tot: map<nat, nat>): real
    requires Acyclic(g, rank) && Ported(g, target, tot) && v < |g| && Cover(g, rank, target, v).Ok?
    decreases rank[v], |g[v].outs| + 1
  {
    FoldBalanced(g, rank, target, v, |g[v].outs|, tot);
    Total(Cover(g, rank, target, v).value.pieces)
  }

  /** However many joins there are, nested in whatever way: a node that fires all its outputs delivers the sum of what
      they deliver, one that fires one of them what each delivers; and a dominant node delivers exactly one whole. */
  lemma DominantDeliversAll(g: Graph, rank: seq<nat>, target: nat, v: nat, tot: map<nat, nat>)
    requires Acyclic(g, rank) && Ported(g, target, tot) && v < |g| && Cover(g, rank, target, v).Ok?
    ensures var each := Fold(g, rank, target, v, |g[v].outs|).value.each;
            && (forall i :: 0 <= i < |each| ==> AllSized(each[i].pieces, tot))
            && (g[v].fire.All? ==> Delivered(g, rank, target, v, tot) == Sum(each, tot))
            && (g[v].fire.One? ==>
                  forall i :: 0 <= i < |each| ==> Total(each[i].pieces) == Delivered(g, rank, target, v, tot))
    ensures Full(Cover(g, rank, target, v).value) ==> Delivered(g, rank, target, v, tot) == 1.0
  {
    FoldBalanced(g, rank, target, v, |g[v].outs|, tot);
    assert [Whole][..0] == [];
  }
}
