/** The graph of the repository's test of the order of calls, compiled; and the same graph with an element that may or
    may not fire its output, where a call that completes the join can come too late. */
module JoinBoth {
  import opened Wrappers
  import opened Sequences
  import opened FlowCollection
  import opened JoinAnalysis
  import opened JoinRuns
  import opened JoinOrder
  import opened JoinPlan
  import opened JoinTurns
  import opened JoinConflict

  /** An element that fires both ports of the join (5), through 3 and 4. */
  const FORK := Node(All, [Edge(3, 0), Edge(4, 0)], 1, false)

  /** Element 0 fires 3, 1, 2 and 4; element 1 is a fork like 2, or it may fire 2. */
  function Both(choice: bool): Graph {
    [
      Node(All, [Edge(3, 0), Edge(1, 0), Edge(2, 0), Edge(4, 0)], 1, false),
      if choice then Node(ZeroOrOne, [Edge(2, 0)], 1, false) else FORK,
      FORK,
      Node(All, [Edge(5, 0)], 1, false),
      Node(All, [Edge(5, 1)], 1, false),
      Node(All, [], 2, true)
    ]
  }
  const RANK: seq<nat> := [4, 3, 2, 1, 1, 0]

  ghost predicate IsBoth(g: Graph, rank: seq<nat>, choice: bool) {
    && Acyclic(g, rank) && |g| == 6
    && g[0] == Node(All, [Edge(3, 0), Edge(1, 0), Edge(2, 0), Edge(4, 0)], 1, false)
    && g[1] == (if choice then Node(ZeroOrOne, [Edge(2, 0)], 1, false) else FORK) && g[2] == FORK
    && g[3] == Node(All, [Edge(5, 0)], 1, false) && g[4] == Node(All, [Edge(5, 1)], 1, false)
    && g[5] == Node(All, [], 2, true)
  }

  lemma BothIs(choice: bool)
    ensures IsBoth(Both(choice), RANK, choice)
  {
  }

  /** What a call of port `p` of the join delivers. */
  function OnePort(p: nat): Flow {
    Flow([Path([Part(5, {p}, 2)])], true)
  }

  lemma CombinePorts()
    ensures Combine(All, true, EMPTY, OnePort(0)) == Ok(OnePort(0))
    ensures Combine(All, true, EMPTY, OnePort(1)) == Ok(OnePort(1))
    ensures Combine(All, false, OnePort(0), EMPTY) == Ok(OnePort(0))
    ensures Combine(All, false, OnePort(0), DONE) == Ok(OnePort(0))
    ensures Combine(All, false, OnePort(0), OnePort(1)) == Ok(Flow([Whole], true))
  {
    AddFirst(OnePort(0).pieces[0]);
    AddFirst(OnePort(1).pieces[0]);
    TwoPorts();
    hide AddedAll;
  }

  lemma TwoPorts()
    ensures AllProper(OnePort(0).pieces) && AllProper(OnePort(1).pieces)
    ensures AddedAll(OnePort(0).pieces, OnePort(1).pieces) == Ok([Whole])
    ensures Disjoint(OnePort(0).pieces, OnePort(1).pieces)
  {
    var x, y := OnePort(0).pieces[0], OnePort(1).pieces[0];
    assert Prefix(x) == [] && Prefix(y) == [];
    assert {0} + {1} == {0, 1} && {0} * {1} == {};
    assert Compare(x, y) == Joined(Whole);
    assert [x][..0] + [x][1..] == [] && [y][1..] == [];
    assert Find([x], y, 0) == 0;
    assert Added([x], y) == Added([], Whole) == Ok([Whole]);
  }

  lemma PortCover(g: Graph, rank: seq<nat>, choice: bool, p: nat)
    requires IsBoth(g, rank, choice) && p < 2
    ensures Arrive(g, rank, 5, 3 + p, Some(0)) == Ok(OnePort(p))
  {
    var v := 3 + p;
    assert g[v].outs == [Edge(5, p)];
    assert Arrive(g, rank, 5, 5, Some(p)) == Ok(OnePort(p));
    CombinePorts();
    FoldStart(g, rank, 5, v);
    FoldStep(g, rank, 5, v, 0, Partial(EMPTY, []));
    hide Fold, Combine;
    assert Cover(g, rank, 5, v) == Ok(OnePort(p));
  }

  /** One more output. */
  lemma OneMore(g: Graph, rank: seq<nat>, v: nat, each: seq<Flow>, cover: Flow, l: Flow, c: Flow)
    requires Acyclic(g, rank) && |g| == 6 && v < 6 && |each| < |g[v].outs|
    requires Fold(g, rank, 5, v, |each|) == Ok(Partial(cover, each))
    requires var e := g[v].outs[|each|]; Arrive(g, rank, 5, e.next, Some(e.port)) == Ok(l)
    requires AllProper(cover.pieces) && AllProper(l.pieces) && Combine(g[v].fire, each == [], cover, l) == Ok(c)
    ensures Fold(g, rank, 5, v, |each| + 1) == Ok(Partial(c, each + [l]))
  {
    hide Fold, Arrive, Combine;
    FoldStep(g, rank, 5, v, |each|, Partial(cover, each));
  }

  lemma ProperPorts()
    ensures AllProper(OnePort(0).pieces) && AllProper(OnePort(1).pieces) && AllProper([])
  {
  }

  lemma WholeCover(g: Graph, rank: seq<nat>, v: nat, each: seq<Flow>)
    requires Acyclic(g, rank) && |g| == 6 && v < 5
    requires Fold(g, rank, 5, v, |g[v].outs|) == Ok(Partial(Flow([Whole], true), each))
    ensures Cover(g, rank, 5, v) == Ok(Flow([Whole], true))
    ensures Arrive(g, rank, 5, v, Some(0)) == Ok(DONE) && Arrive(g, rank, 5, v, None) == Ok(DONE)
  {
    hide Fold;
  }

  lemma ForkCover(g: Graph, rank: seq<nat>, choice: bool, v: nat)
    requires IsBoth(g, rank, choice) && 1 <= v <= 2 && g[v] == FORK
    ensures Cover(g, rank, 5, v) == Ok(Flow([Whole], true)) && Arrive(g, rank, 5, v, Some(0)) == Ok(DONE)
  {
    var a, b := OnePort(0), OnePort(1);
    hide Combine, Fold, OnePort, Arrive, Cover;
    PortCover(g, rank, choice, 0);
    PortCover(g, rank, choice, 1);
    CombinePorts();
    FoldStart(g, rank, 5, v);
    ProperPorts();
    assert |g| == 6 && g[v].fire == All && g[v].outs == [Edge(3, 0), Edge(4, 0)];
    hide AllProper, IsBoth, Acyclic;
    OneMore(g, rank, v, [], EMPTY, a, a);
    assert [] + [a] == [a];
    OneMore(g, rank, v, [a], a, b, Flow([Whole], true));
    WholeCover(g, rank, v, [a] + [b]);
  }

  lemma ChoiceCover(g: Graph, rank: seq<nat>)
    requires IsBoth(g, rank, true)
    ensures Cover(g, rank, 5, 1) == Ok(EMPTY) && Arrive(g, rank, 5, 1, Some(0)) == Ok(EMPTY)
  {
    ForkCover(g, rank, true, 2);
    hide Fold;
    assert g[1].outs == [Edge(2, 0)];
    FoldStart(g, rank, 5, 1);
    FoldStep(g, rank, 5, 1, 0, Partial(EMPTY, []));
  }

  /** What the outputs of element 0 deliver. */
  lemma TopFold(g: Graph, rank: seq<nat>, choice: bool)
    requires IsBoth(g, rank, choice)
    ensures Fold(g, rank, 5, 0, 4) ==
            Ok(Partial(Flow([Whole], true), [OnePort(0), if choice then EMPTY else DONE, DONE, OnePort(1)]))
  {
    var a, b, l := OnePort(0), OnePort(1), if choice then EMPTY else DONE;
    hide Combine, Fold, OnePort, Arrive;
    TopCalls(g, rank, choice);
    CombinePorts();
    FoldStart(g, rank, 5, 0);
    ProperPorts();
    assert |g| == 6 && g[0].fire == All && g[0].outs == [Edge(3, 0), Edge(1, 0), Edge(2, 0), Edge(4, 0)];
    hide AllProper, IsBoth, Acyclic;
    OneMore(g, rank, 0, [], EMPTY, a, a);
    assert [] + [a] == [a];
    OneMore(g, rank, 0, [a], a, l, a);
    assert [a] + [l] == [a, l];
    OneMore(g, rank, 0, [a, l], a, DONE, a);
    assert [a, l] + [DONE] == [a, l, DONE];
    OneMore(g, rank, 0, [a, l, DONE], a, b, Flow([Whole], true));
    assert [a, l, DONE] + [b] == [a, l, DONE, b];
  }

  lemma TopCalls(g: Graph, rank: seq<nat>, choice: bool)
    requires IsBoth(g, rank, choice)
    ensures Arrive(g, rank, 5, 3, Some(0)) == Ok(OnePort(0)) && Arrive(g, rank, 5, 4, Some(0)) == Ok(OnePort(1))
    ensures Arrive(g, rank, 5, 1, Some(0)) == Ok(if choice then EMPTY else DONE)
    ensures Arrive(g, rank, 5, 2, Some(0)) == Ok(DONE)
  {
    hide Arrive, OnePort;
    PortCover(g, rank, choice, 0);
    PortCover(g, rank, choice, 1);
    if choice { ChoiceCover(g, rank); } else { ForkCover(g, rank, choice, 1); }
    ForkCover(g, rank, choice, 2);
  }

  lemma TopDominant(g: Graph, rank: seq<nat>, choice: bool)
    requires IsBoth(g, rank, choice)
    ensures Cover(g, rank, 5, 0) == Ok(Flow([Whole], true)) && Arrive(g, rank, 5, 0, None) == Ok(DONE)
  {
    hide Fold, OnePort;
    TopFold(g, rank, choice);
    WholeCover(g, rank, 0, [OnePort(0), if choice then EMPTY else DONE, DONE, OnePort(1)]);
  }

  lemma TopAccepted(g: Graph, rank: seq<nat>, choice: bool)
    requires IsBoth(g, rank, choice)
    ensures Accepted(g, rank, 5, [0]) && Reached(g, 5, [0], 0) && JoinsApart(g, rank, 5)
    ensures AllAccepted(g, rank, [0], 6) && forall v :: 0 <= v < 6 ==> !Contradicted(g, rank, [0], v)
  {
    hide Cover, Arrive, Reached, Contradicted;
    TopDominant(g, rank, choice);
    RootReached(g, 5, [0], 0);
    SingleJoin(g, rank, 5);
    hide Fold, JoinsApart;
    SingleJoinAgrees(g, rank, 5, [0]);
  }

  lemma TopDelivers(g: Graph, rank: seq<nat>, choice: bool)
    requires IsBoth(g, rank, choice)
    ensures Cover(g, rank, 5, 0).Ok?
    ensures Delivers(g, rank, 5, 0, 0) && Delivers(g, rank, 5, 0, 3)
    ensures !Delivers(g, rank, 5, 0, 1) && !Delivers(g, rank, 5, 0, 2)
    ensures 1 in Ports(Each(g, rank, 5, 0)[3].pieces, 2)
  {
    TopFold(g, rank, choice);
    hide Fold;
    assert 0 in Ports(OnePort(0).pieces, 2);
  }

  lemma ForkNoticed(g: Graph, rank: seq<nat>, choice: bool, v: nat)
    requires IsBoth(g, rank, choice) && 1 <= v <= 2 && g[v] == FORK
    ensures Noticed(g, rank, 5, v)
  {
    ForkCover(g, rank, choice, v);
    hide Cover;
    assert Completing(g, rank, 5, v, [v]);
  }

  /** A call of an element that may fire nothing is not known to complete the join, although it can. */
  lemma ChoiceUnnoticed(g: Graph, rank: seq<nat>)
    requires IsBoth(g, rank, true)
    ensures CanComplete(g, rank, 5, 1) && !Noticed(g, rank, 5, 1)
  {
    ChoiceCover(g, rank);
    ForkCover(g, rank, true, 2);
    hide Cover;
    assert g[1].outs[0].next == 2 && Leads(g, 1, 2);
    assert Completing(g, rank, 5, 1, [1, 2]);
    forall path | Completing(g, rank, 5, 1, path) ensures !NoChoice(g, path) {
      if |path| > 1 { assert !Taken(g, path[0], path[0 + 1]); }
    }
  }

  lemma OrderIs(g: Graph, rank: seq<nat>, calls: seq<nat>)
    requires IsBoth(g, rank, false) && Cover(g, rank, 5, 0).Ok? && InOrder(g, rank, 5, 0, calls)
    ensures calls == [1, 2, 0, 3] || calls == [2, 1, 0, 3]
  {
    hide Delivers, Noticed, Ports, Each, Cover;
    TopDelivers(g, rank, false);
    ForkNoticed(g, rank, false, 1);
    ForkNoticed(g, rank, false, 2);
    assert Earlier(g, rank, 5, 0, 1, 0) && Earlier(g, rank, 5, 0, 2, 0) && Earlier(g, rank, 5, 0, 0, 3);
    assert forall j, k :: 0 <= j < 4 && 0 <= k < 4 && j != k && Earlier(g, rank, 5, 0, calls[j], calls[k]) ==> j < k;
    hide InOrder, Earlier, IsBoth;
    FourCalls(calls);
  }

  lemma FourCalls(calls: seq<nat>)
    requires |calls| == 4 && Distinct(calls) && forall k :: 0 <= k < 4 ==> calls[k] < 4
    requires forall j, k :: 0 <= j < 4 && 0 <= k < 4 && j != k ==>
      (calls[j] == 1 && calls[k] == 0) || (calls[j] == 2 && calls[k] == 0) || (calls[j] == 0 && calls[k] == 3) ==>
        j < k
    ensures calls == [1, 2, 0, 3] || calls == [2, 1, 0, 3]
  {
    forall i | 0 <= i < 4 ensures i in calls { Pigeonhole(calls, 4, i); }
    assert calls == [calls[0], calls[1], calls[2], calls[3]];
  }

  /** The two forks are called first, and the element that feeds the last port of the join at the end. */
  method BothOrder() returns (calls: seq<nat>)
    ensures calls == [1, 2, 0, 3] || calls == [2, 1, 0, 3]
  {
    var g := Both(false);
    BothIs(false);
    TopAccepted(g, RANK, false);
    hide AllAccepted, Contradicted, Accepted, Reached, JoinsApart, InOrder, PlannedUpto, Both, Cover;
    var r := Compile(g, [0], RANK);
    calls := r.value[0];
    OrderIs(g, RANK, calls);
  }

  /** With the element that may fire nothing, some run fires the whole join after it began to fill a buffer. */
  method ChoiceOrder() returns (plans: Plans)
    ensures IsBoth(Both(true), RANK, true) && PlannedUpto(Both(true), RANK, [0], plans, 6)
    ensures !AlwaysWholeFirst(Both(true), RANK, 5, 0)
  {
    var g := Both(true);
    BothIs(true);
    TopAccepted(g, RANK, true);
    hide AllAccepted, Contradicted, Accepted, Reached, JoinsApart, AllInOrder, PlannedUpto, Both, Cover, Delivers;
    var r := Compile(g, [0], RANK);
    plans := r.value;
    PlannedForEach(g, RANK, [0], plans, 5);
    WholeFirstIff(g, RANK, 5, [0], plans, 0);
    TopDelivers(g, RANK, true);
    ChoiceUnnoticed(g, RANK);
  }
}
