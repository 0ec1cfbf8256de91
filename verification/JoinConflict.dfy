/** Two joins that each find who owns their buffers, and that no order of calls can serve. */
module JoinConflict {
  import opened Wrappers
  import opened FlowCollection
  import opened JoinAnalysis
  import opened JoinRuns
  import opened JoinPlan

  /** A fork (0) to two elements (1 and 2); each of them feeds both joins (3 and 4), the first one the first port of 3
      and the second port of 4, the other one the other way round. */
  const CROSS: Graph := [
    Node(All, [Edge(1, 0), Edge(2, 0)], 1, false),
    Node(All, [Edge(3, 0), Edge(4, 1)], 1, false),
    Node(All, [Edge(3, 1), Edge(4, 0)], 1, false),
    Node(All, [], 2, true),
    Node(All, [], 2, true)
  ]
  const RANK: seq<nat> := [2, 1, 1, 0, 0]

  ghost predicate IsCross(g: Graph, rank: seq<nat>) {
    && Acyclic(g, rank) && |g| == 5
    && g[0] == Node(All, [Edge(1, 0), Edge(2, 0)], 1, false)
    && g[1] == Node(All, [Edge(3, 0), Edge(4, 1)], 1, false)
    && g[2] == Node(All, [Edge(3, 1), Edge(4, 0)], 1, false)
    && g[3] == Node(All, [], 2, true) && g[4] == Node(All, [], 2, true)
  }

  /** The port of join `t` that element `v` feeds. */
  function Fed(t: nat, v: nat): nat {
    if (t == 3) == (v == 1) then 0 else 1
  }

  function Half(t: nat, v: nat): Piece {
    Path([Part(t, {Fed(t, v)}, 2)])
  }

  lemma JoinCover(g: Graph, rank: seq<nat>, t: nat, u: nat)
    requires IsCross(g, rank) && 3 <= t <= 4 && u == 7 - t
    ensures Cover(g, rank, t, u) == Ok(EMPTY)
  {
  }

  lemma CallJoin(g: Graph, rank: seq<nat>, t: nat, u: nat, port: nat)
    requires IsCross(g, rank) && 3 <= t <= 4 && 3 <= u <= 4
    ensures Arrive(g, rank, t, u, Some(port)) ==
            Ok(if u == t then Flow([Path([Part(t, {port}, 2)])], true) else EMPTY)
  {
    if u != t {
      JoinCover(g, rank, t, u);
      assert Appended([], Part(u, {port}, 2)).value == [];
    }
  }

  lemma AddFirst(p: Piece)
    requires p.Path? && Proper(p)
    ensures AddedAll([], [p]) == Ok([p]) && AddedAll([p], []) == Ok([p]) && AddedAll([], []) == Ok([])
  {
    assert [p][1..] == [] && [] + [p] == [p];
    assert Added([], p) == Ok([p]);
  }

  lemma CombineOne(p: Piece, first: bool)
    requires p.Path? && Proper(p)
    ensures var h := Flow([p], true);
            && Combine(All, first, EMPTY, h) == Ok(h) && Combine(All, first, h, EMPTY) == Ok(h)
            && Combine(All, first, EMPTY, EMPTY) == Ok(EMPTY)
  {
    AddFirst(p);
    hide AddedAll;
  }

  lemma ElementCover(g: Graph, rank: seq<nat>, t: nat, v: nat)
    requires IsCross(g, rank) && 3 <= t <= 4 && 1 <= v <= 2
    ensures Cover(g, rank, t, v) == Ok(Flow([Half(t, v)], true))
  {
    var e0, e1, h := g[v].outs[0], g[v].outs[1], Flow([Half(t, v)], true);
    CallJoin(g, rank, t, e0.next, e0.port);
    CallJoin(g, rank, t, e1.next, e1.port);
    CombineOne(Half(t, v), true);
    CombineOne(Half(t, v), false);
    FoldStart(g, rank, t, v);
    var l, m := if e0.next == t then h else EMPTY, if e1.next == t then h else EMPTY;
    assert Arrive(g, rank, t, e0.next, Some(e0.port)) == Ok(l) && Arrive(g, rank, t, e1.next, Some(e1.port)) == Ok(m);
    hide Arrive, Combine, Half, Fold;
    var p := Partial(EMPTY, []);
    FoldStep(g, rank, t, v, 0, p);
    assert p.each + [l] == [l] && Combine(g[v].fire, true, p.cover, l) == Ok(l);
    FoldStep(g, rank, t, v, 1, Partial(l, [l]));
    assert Combine(g[v].fire, false, l, m) == Ok(h);
  }

  lemma CallElement(g: Graph, rank: seq<nat>, t: nat, v: nat)
    requires IsCross(g, rank) && 3 <= t <= 4 && 1 <= v <= 2
    ensures Arrive(g, rank, t, v, Some(0)) == Ok(Flow([Half(t, v)], true))
  {
    ElementCover(g, rank, t, v);
  }

  lemma TwoHalves(t: nat)
    requires 3 <= t <= 4
    ensures Proper(Half(t, 1)) && Proper(Half(t, 2))
    ensures AddedAll([Half(t, 1)], [Half(t, 2)]) == Ok([Whole])
    ensures Disjoint([Half(t, 1)], [Half(t, 2)])
  {
    var x, y := Half(t, 1), Half(t, 2);
    assert Prefix(x) == [] && Prefix(y) == [];
    assert {Fed(t, 1)} + {Fed(t, 2)} == {0, 1} && {Fed(t, 1)} * {Fed(t, 2)} == {};
    assert Compare(x, y) == Joined(Whole);
    assert [x][..0] + [x][1..] == [] && [y][1..] == [];
    assert Find([x], y, 0) == 0;
    assert Added([x], y) == Added([], Whole) == Ok([Whole]);
  }

  lemma CombineHalves(t: nat)
    requires 3 <= t <= 4
    ensures Combine(All, true, EMPTY, Flow([Half(t, 1)], true)) == Ok(Flow([Half(t, 1)], true))
    ensures Combine(All, false, Flow([Half(t, 1)], true), Flow([Half(t, 2)], true)) == Ok(Flow([Whole], true))
  {
    CombineOne(Half(t, 1), true);
    TwoHalves(t);
    hide AddedAll, Half;
  }

  lemma ForkCover(g: Graph, rank: seq<nat>, t: nat)
    requires IsCross(g, rank) && 3 <= t <= 4
    ensures Fold(g, rank, t, 0, 2) ==
            Ok(Partial(Flow([Whole], true), [Flow([Half(t, 1)], true), Flow([Half(t, 2)], true)]))
  {
    CallElement(g, rank, t, 1);
    CallElement(g, rank, t, 2);
    CombineHalves(t);
    hide Arrive, Combine, Half, Fold;
    FoldStart(g, rank, t, 0);
    var l := Flow([Half(t, 1)], true);
    assert g[0].outs[0] == Edge(1, 0) && g[0].outs[1] == Edge(2, 0);
    var p, m := Partial(EMPTY, []), Flow([Half(t, 2)], true);
    assert Arrive(g, rank, t, 1, Some(0)) == Ok(l) && Arrive(g, rank, t, 2, Some(0)) == Ok(m);
    FoldStep(g, rank, t, 0, 0, p);
    assert p.each + [l] == [l];
    assert Combine(g[0].fire, true, p.cover, l) == Ok(l);
    assert Fold(g, rank, t, 0, 1) == Ok(Partial(l, [l]));
    FoldStep(g, rank, t, 0, 1, Partial(l, [l]));
    assert Combine(g[0].fire, false, l, m) == Ok(Flow([Whole], true));
    assert [l] + [m] == [l, m];
  }

  lemma ForkAccepted(g: Graph, rank: seq<nat>, t: nat)
    requires IsCross(g, rank) && 3 <= t <= 4
    ensures Accepted(g, rank, t, [0])
  {
    ForkCover(g, rank, t);
    hide Fold;
    assert Cover(g, rank, t, 0) == Ok(Flow([Whole], true));
    hide Cover;
    assert Arrive(g, rank, t, 0, None) == Ok(DONE);
  }

  /** Neither join delivers a part of the other's data. */
  lemma Unrelated(g: Graph, rank: seq<nat>, t: nat)
    requires IsCross(g, rank) && 3 <= t <= 4
    ensures JoinsApart(g, rank, t)
  {
    JoinCover(g, rank, t, 7 - t);
    hide Cover;
    assert forall v :: 0 <= v < 5 && v != t && g[v].join ==> v == 7 - t;
  }

  /** Both joins are accepted ... */
  lemma BothAccepted(g: Graph, rank: seq<nat>)
    requires IsCross(g, rank)
    ensures AllAccepted(g, rank, [0], 5)
  {
    ForkAccepted(g, rank, 3);
    ForkAccepted(g, rank, 4);
    hide Accepted;
  }

  lemma HighestHalf(t: nat, v: nat)
    requires 3 <= t <= 4 && 1 <= v <= 2
    ensures Proper(Half(t, v)) && MaxPort([Half(t, v)]) == Fed(t, v)
  {
    assert [Half(t, v)][..0] == [];
    assert Fed(t, v) in {Fed(t, v)};
  }

  lemma ForkOrder(g: Graph, rank: seq<nat>, t: nat, i: nat, j: nat)
    requires IsCross(g, rank) && 3 <= t <= 4 && i < 2 && j < 2 && Fed(t, i + 1) == 0 && Fed(t, j + 1) == 1
    ensures Ordered(g, rank, t, 0, i, j)
  {
    ForkCover(g, rank, t);
    HighestHalf(t, i + 1);
    HighestHalf(t, j + 1);
    hide Fold, MaxPort, Half;
    var each := [Flow([Half(t, 1)], true), Flow([Half(t, 2)], true)];
    assert each[i].pieces == [Half(t, i + 1)] && each[j].pieces == [Half(t, j + 1)];
  }

  /** ... and one needs the first output of the fork fired before the second, the other the second before the first. */
  lemma Opposed(g: Graph, rank: seq<nat>)
    requires IsCross(g, rank)
    ensures Ordered(g, rank, 3, 0, 0, 1) && Ordered(g, rank, 4, 0, 1, 0)
  {
    ForkOrder(g, rank, 3, 0, 1);
    ForkOrder(g, rank, 4, 1, 0);
  }

  lemma ForkNeeds(g: Graph, rank: seq<nat>, t: nat, i: nat, j: nat)
    requires IsCross(g, rank) && 3 <= t <= 4 && Ordered(g, rank, t, 0, i, j)
    ensures Before(g, rank, [0], 0, i, j)
  {
    hide Ordered;
    RootReached(g, t, [0], 0);
    hide Reached;
    assert Needs(g, rank, [0], t, 0, i, j);
  }

  lemma CrossContradicted(g: Graph, rank: seq<nat>)
    requires IsCross(g, rank)
    ensures Contradicted(g, rank, [0], 0)
  {
    Opposed(g, rank);
    hide Ordered, Before;
    ForkNeeds(g, rank, 3, 0, 1);
    ForkNeeds(g, rank, 4, 1, 0);
    TwoContradict(g, rank, [0], 0, 0, 1);
  }

  lemma TwoContradict(g: Graph, rank: seq<nat>, roots: seq<nat>, v: nat, i: nat, j: nat)
    requires Acyclic(g, rank) && Before(g, rank, roots, v, i, j) && Before(g, rank, roots, v, j, i)
    ensures Contradicted(g, rank, roots, v)
  {
    hide Acyclic, Before;
    assert Contradiction(g, rank, roots, v, [i, j, i]);
  }

  /** So compilation fails although every join is accepted. */
  lemma CannotOrder()
    ensures Acyclic(CROSS, RANK) && |CROSS| == 5 && AllAccepted(CROSS, RANK, [0], 5)
    ensures Contradicted(CROSS, RANK, [0], 0)
  {
    assert IsCross(CROSS, RANK);
    hide CROSS, RANK, IsCross, AllAccepted, Contradicted;
    CrossSize(CROSS, RANK);
    BothAccepted(CROSS, RANK);
    CrossContradicted(CROSS, RANK);
  }

  lemma CrossSize(g: Graph, rank: seq<nat>)
    requires IsCross(g, rank)
    ensures Acyclic(g, rank) && |g| == 5
  {
  }
}
