/** Who owns the buffer of a join node: the memoised depth-first search over the dataflow graph. */
module JoinAnalysis {
  import opened Wrappers
  import opened FlowCollection

  /** Which of its output ports an element fires when it runs. */
  datatype Fire = All | One | ZeroOrOne | Multi

  /** A connection to input port `port` of instance `next`. */
  datatype Edge = Edge(next: nat, port: nat)

  /** An element instance; `join` says that it waits for several ports of its own thread. */
  datatype Node = Node(fire: Fire, outs: seq<Edge>, inports: nat, join: bool)

  type Graph = seq<Node>

  ghost predicate Acyclic(g: Graph, rank: seq<nat>) {
    && |rank| == |g|
    && (forall v, i :: 0 <= v < |g| && 0 <= i < |g[v].outs| ==>
          g[v].outs[i].next < |g| && rank[g[v].outs[i].next] < rank[v])
  }

  /** The path leads from a root along connections, and does not touch the target. */
  ghost predicate Way(g: Graph, target: nat, roots: seq<nat>, path: seq<nat>) {
    && path != [] && path[0] in roots
    && (forall k :: 0 <= k < |path| ==> path[k] < |g| && path[k] != target)
    && (forall k :: 0 <= k < |path| - 1 ==> Leads(g, path[k], path[k + 1]))
  }

  ghost predicate Leads(g: Graph, v: nat, u: nat) {
    v < |g| && exists i :: 0 <= i < |g[v].outs| && g[v].outs[i].next == u
  }

  ghost predicate Reached(g: Graph, target: nat, roots: seq<nat>, v: nat) {
    exists path :: Way(g, target, roots, path) && path[|path| - 1] == v
  }

  lemma RootReached(g: Graph, target: nat, roots: seq<nat>, v: nat)
    requires v in roots && v < |g| && v != target
    ensures Reached(g, target, roots, v)
  {
    assert Way(g, target, roots, [v]);
  }

  lemma NextReached(g: Graph, target: nat, roots: seq<nat>, v: nat, u: nat)
    requires Reached(g, target, roots, v) && Leads(g, v, u) && u < |g| && u != target
    ensures Reached(g, target, roots, u)
  {
    var path :| Way(g, target, roots, path) && path[|path| - 1] == v;
    var longer := path + [u];
    forall k | 0 <= k < |longer| - 1 ensures Leads(g, longer[k], longer[k + 1]) {
      if k < |path| - 1 { assert Leads(g, path[k], path[k + 1]); }
    }
    assert Way(g, target, roots, longer);
  }

  function Wrap(g: Graph, cover: Flow, v: nat, port: Option<nat>): (r: Result<Flow>)
    requires v < |g| && AllProper(cover.pieces)
    ensures r.Ok? ==> AllProper(r.value.pieces)
  {
    if Full(cover) then Ok(DONE)
    else if !g[v].join then Ok(cover)
    else if port.None? then Err("not in list")
    else match Appended(cover.pieces, Part(v, {port.value}, g[v].inports))
         case Err(_) => Err(NOT_A_LIST)
         case Ok(ps) => Ok(Flow(ps, cover.goal))
  }

  /** The cover of a node whose outputs so far had the cover `cover` (`first`: there were none), after one more. */
  function Combine(fire: Fire, first: bool, cover: Flow, l: Flow): (r: Result<Flow>)
    requires AllProper(cover.pieces) && AllProper(l.pieces)
    ensures r.Ok? ==> AllProper(r.value.pieces)
  {
    match fire
    case All =>
      if !Disjoint(cover.pieces, l.pieces) then Err("fires a port more than once")
      else match AddedAll(cover.pieces, l.pieces) {
        case Err(_) => Err(FIRED_TWICE)
        case Ok(ps) => Ok(Flow(ps, cover.goal || l.goal))
      }
    case One =>
      if !first && cover.pieces != l.pieces then Err("all its output ports must fire the same ports") else Ok(l)
    case Multi => if Empty(l) then Ok(cover) else Err("may fire its output port multiple times")
    case ZeroOrOne => if Full(l) || Empty(l) then Ok(cover) else Err("must fire none or all input ports")
  }

  /** The cover collected from the first `k` outputs of a node, and what each of them contributed. */
  datatype Partial = Partial(cover: Flow, each: seq<Flow>)

  ghost function Fold(g: Graph, rank: seq<nat>, target: nat, v: nat, k: nat): (r: Result<Partial>)
    requires Acyclic(g, rank) && target < |g| && v < |g| && k <= |g[v].outs|
    ensures r.Ok? ==> AllProper(r.value.cover.pieces) && |r.value.each| == k
    ensures r.Ok? ==> forall i :: 0 <= i < k ==> AllProper(r.value.each[i].pieces)
    decreases rank[v], k
  {
    if k == 0 then Ok(Partial(EMPTY, []))
    else
      var e := g[v].outs[k - 1];
      match Fold(g, rank, target, v, k - 1)
      case Err(x) => Err(x)
      case Ok(p) =>
        match Arrive(g, rank, target, e.next, Some(e.port))
        case Err(x) => Err(x)
        case Ok(l) =>
          match Combine(g[v].fire, k == 1, p.cover, l)
          case Err(x) => Err(x)
          case Ok(c) => Ok(Partial(c, p.each + [l]))
  }

  /** What of the target's data one firing of the node delivers. */
  ghost function Cover(g: Graph, rank: seq<nat>, target: nat, v: nat): (r: Result<Flow>)
    requires Acyclic(g, rank) && target < |g| && v < |g|
    ensures r.Ok? ==> AllProper(r.value.pieces)
    decreases rank[v], |g[v].outs| + 1
  {
    match Fold(g, rank, target, v, |g[v].outs|)
    case Err(e) => Err(e)
    case Ok(p) => Ok(p.cover)
  }

  /** What a call of the node through one of its ports delivers to the caller. */
  ghost function Arrive(g: Graph, rank: seq<nat>, target: nat, v: nat, port: Option<nat>): (r: Result<Flow>)
    requires Acyclic(g, rank) && target < |g| && v < |g|
    ensures r.Ok? ==> AllProper(r.value.pieces)
    decreases rank[v], |g[v].outs| + 2
  {
    if v == target then
      if port.None? then Err("not in list")
      else Ok(Flow([Path([Part(target, {port.value}, g[target].inports)])], true))
    else
      match Cover(g, rank, target, v)
      case Err(e) => Err(e)
      case Ok(c) => Wrap(g, c, v, port)
  }

  function MaxOf(s: set<nat>): (m: int)
    ensures if s == {} then m == -1 else m >= 0 && m in s
    ensures forall x :: x in s ==> x <= m
  {
    if s == {} then -1
    else
      MaxExists(s);
      var m: nat :| m in s && forall x :: x in s ==> x <= m;
      m
  }

  lemma {:induction false} MaxExists(s: set<nat>)
    requires s != {}
    ensures exists m :: m in s && forall x :: x in s ==> x <= m
  {
    var x :| x in s;
    var r := s - {x};
    if r != {} {
      MaxExists(r);
      var m :| m in r && forall y :: y in r ==> y <= m;
      var w := if m < x then x else m;
      assert w in s && forall y :: y in s ==> y == x || y in r;
    } else {
      assert forall y :: y in s ==> y !in r;
    }
  }

  /** The highest port of the target among the pieces. */
  function MaxPort(ps: seq<Piece>): int
    requires AllProper(ps)
  {
    if ps == [] then -1
    else
      var rest := MaxPort(ps[..|ps| - 1]);
      var p := ps[|ps| - 1];
      assert p in ps;
      if p.Path? && MaxOf(p.parts[0].ports) > rest then MaxOf(p.parts[0].ports) else rest
  }

  /** FlowCollection.happens_before */
  predicate HappensBefore(a: Flow, b: Flow, n: nat)
    requires AllProper(a.pieces) && AllProper(b.pieces)
  {
    var mine, other := MaxPort(a.pieces), MaxPort(b.pieces);
    if other == n - 1 && mine >= 0 then mine < other
    else other >= 0 && a.goal && mine == -1
  }

  type Pairs = seq<(nat, nat)>

  function PairsOf(order: map<nat, Pairs>, v: nat): Pairs {
    if v in order then order[v] else []
  }

  /** Must output `i` of the node be fired before output `j`? */
  ghost predicate Ordered(g: Graph, rank: seq<nat>, target: nat, v: nat, i: nat, j: nat)
    requires Acyclic(g, rank) && target < |g| && v < |g|
  {
    var p := Fold(g, rank, target, v, |g[v].outs|);
    && p.Ok? && g[v].fire.All? && i < |g[v].outs| && j < |g[v].outs|
    && HappensBefore(p.value.each[i], p.value.each[j], g[target].inports)
  }

  /** The pairs that the node has added to its partial order. */
  ghost predicate Listed(g: Graph, rank: seq<nat>, target: nat, v: nat, before: Pairs, after: Pairs)
    requires Acyclic(g, rank) && target < |g| && v < |g|
  {
    && before <= after
    && (forall i: nat, j: nat :: (i, j) in after[|before|..] <==> Ordered(g, rank, target, v, i, j))
  }

  /** The two nested loops over the outputs of a node. */
  method NewPairs(each: seq<Flow>, n: nat) returns (pairs: Pairs)
    requires forall i :: 0 <= i < |each| ==> AllProper(each[i].pieces)
    ensures forall i: nat, j: nat :: (i, j) in pairs <==> i < |each| && j < |each| && HappensBefore(each[i], each[j], n)
  {
    pairs := [];
    for a := 0 to |each|
      invariant forall i: nat, j: nat :: (i, j) in pairs <==> i < a && j < |each| && HappensBefore(each[i], each[j], n)
    {
      for b := 0 to |each|
        invariant forall i: nat, j: nat :: (i, j) in pairs <==>
                    (i < a || (i == a && j < b)) && j < |each| && HappensBefore(each[i], each[j], n)
      {
        if HappensBefore(each[a], each[b], n) { pairs := pairs + [(a, b)]; }
      }
    }
  }

  type Answers = map<nat, Flow>
  type Orders = map<nat, Pairs>

  ghost predicate Answered(g: Graph, rank: seq<nat>, target: nat, answer: Answers, v: nat)
    requires Acyclic(g, rank) && target < |g|
  {
    && v < |g| && v != target && v in answer
    && Cover(g, rank, target, v) == Ok(answer[v])
    && (forall i :: 0 <= i < |g[v].outs| ==> g[v].outs[i].next == target || g[v].outs[i].next in answer)
  }

  /** The answers so far are covers, and come with those of all nodes behind them. */
  ghost predicate AnswersOk(g: Graph, rank: seq<nat>, target: nat, answer: Answers)
    requires Acyclic(g, rank) && target < |g|
  {
    forall v :: v in answer ==> Answered(g, rank, target, answer, v)
  }

  /** From one state of the search to a later one: answers stay, nodes of rank below `top` have been answered, and
      just these have listed their pairs. */
  ghost predicate Later(g: Graph, rank: seq<nat>, target: nat, top: nat, a0: Answers, o0: Orders, a1: Answers,
                        o1: Orders)
    requires Acyclic(g, rank) && target < |g|
  {
    && (forall v :: v in a0 ==> v in a1 && a1[v] == a0[v])
    && (forall v :: v in a1 && v !in a0 ==>
          v < |g| && rank[v] < top && Listed(g, rank, target, v, PairsOf(o0, v), PairsOf(o1, v)))
    && (forall v :: !(v in a1 && v !in a0) ==> PairsOf(o1, v) == PairsOf(o0, v))
  }

  /** Answers for the roots are answers for all that is reached. */
  lemma {:induction false} AllAnswered(g: Graph, rank: seq<nat>, target: nat, roots: seq<nat>, answer: Answers,
                                       path: seq<nat>)
    requires Acyclic(g, rank) && target < |g| && AnswersOk(g, rank, target, answer) && Way(g, target, roots, path)
    requires forall v :: v in roots ==> v in answer
    ensures path[|path| - 1] in answer
    decreases |path|
  {
    hide AnswersOk;
    if |path| > 1 {
      var n := |path| - 1;
      assert Leads(g, path[n - 1], path[n - 1 + 1]);
      AllAnswered(g, rank, target, roots, answer, path[..n]);
      IsAnswered(g, rank, target, answer, path[n - 1]);
    }
  }

  lemma ReachedAnswered(g: Graph, rank: seq<nat>, target: nat, roots: seq<nat>, answer: Answers)
    requires Acyclic(g, rank) && target < |g| && AnswersOk(g, rank, target, answer)
    requires forall v :: v in roots ==> v in answer
    ensures forall v :: Reached(g, target, roots, v) ==> v in answer
  {
    forall v | Reached(g, target, roots, v) ensures v in answer {
      var path :| Way(g, target, roots, path) && path[|path| - 1] == v;
      AllAnswered(g, rank, target, roots, answer, path);
    }
  }

  lemma LaterTwice(g: Graph, rank: seq<nat>, target: nat, top: nat, a0: Answers, o0: Orders, a1: Answers, o1: Orders,
                   top': nat, a2: Answers, o2: Orders)
    requires Acyclic(g, rank) && target < |g| && top' <= top
    requires Later(g, rank, target, top, a0, o0, a1, o1) && Later(g, rank, target, top', a1, o1, a2, o2)
    ensures Later(g, rank, target, top, a0, o0, a2, o2)
  {
    hide Listed, PairsOf;
    forall v | v in a2 && v !in a0
      ensures v < |g| && rank[v] < top && Listed(g, rank, target, v, PairsOf(o0, v), PairsOf(o2, v))
    {
      if v in a1 { assert PairsOf(o2, v) == PairsOf(o1, v); } else { assert PairsOf(o1, v) == PairsOf(o0, v); }
    }
  }

  /** A node is answered after the nodes behind it. */
  lemma AnswerOne(g: Graph, rank: seq<nat>, target: nat, answer: Answers, v: nat, cover: Flow)
    requires Acyclic(g, rank) && target < |g| && v < |g| && v != target && AnswersOk(g, rank, target, answer)
    requires Cover(g, rank, target, v) == Ok(cover) && v !in answer
    requires forall i :: 0 <= i < |g[v].outs| ==> g[v].outs[i].next == target || g[v].outs[i].next in answer
    ensures AnswersOk(g, rank, target, answer[v := cover])
  {
    hide Cover;
    var answer' := answer[v := cover];
    forall u | u in answer' ensures Answered(g, rank, target, answer', u) {
      if u != v { assert Answered(g, rank, target, answer, u); }
    }
  }

  lemma ListOne(g: Graph, rank: seq<nat>, target: nat, answer: Answers, order: Orders, v: nat, cover: Flow,
                pairs: Pairs)
    requires Acyclic(g, rank) && target < |g| && v < |g| && v !in answer
    requires forall i: nat, j: nat :: (i, j) in pairs <==> Ordered(g, rank, target, v, i, j)
    ensures Later(g, rank, target, rank[v] + 1, answer, order,
                  answer[v := cover], order[v := PairsOf(order, v) + pairs])
  {
    hide Ordered;
    var was, now := PairsOf(order, v), PairsOf(order[v := PairsOf(order, v) + pairs], v);
    assert now[|was|..] == pairs;
  }

  /** An exception ends the loop. */
  lemma {:induction false} FoldFails(g: Graph, rank: seq<nat>, target: nat, v: nat, i: nat, k: nat)
    requires Acyclic(g, rank) && target < |g| && v < |g| && i <= k <= |g[v].outs|
    requires Fold(g, rank, target, v, i).Err?
    ensures Fold(g, rank, target, v, k) == Fold(g, rank, target, v, i)
    decreases k
  {
    if i < k { FoldFails(g, rank, target, v, i, k - 1); }
  }

  /** The search itself: `answer` is filled in as it goes, and so are the partial orders of the output ports. */
  class Search {
    const g: Graph
    const target: nat
    var answer: Answers
    var order: Orders
    ghost const rank: seq<nat>
    ghost const roots: seq<nat>

    constructor (g: Graph, target: nat, order: Orders, ghost rank: seq<nat>, ghost roots: seq<nat>)
      requires Acyclic(g, rank) && target < |g|
      ensures this.g == g && this.target == target && this.rank == rank && this.roots == roots && answer == map[]
      ensures this.order == order
      ensures Valid()
    {
      this.g, this.target, this.rank, this.roots, this.order, answer := g, target, rank, roots, order, map[];
    }

    ghost predicate Valid()
      reads this`answer
    {
      && Acyclic(g, rank) && target < |g| && AnswersOk(g, rank, target, answer)
      && (forall v :: v in answer ==> Reached(g, target, roots, v))
    }

    /** The union of two covers. */
    method Union(cover: Flow, l: Flow) returns (r: Result<Flow>)
      requires AllProper(cover.pieces) && AllProper(l.pieces)
      ensures r == match AddedAll(cover.pieces, l.pieces)
                   case Err(_) => Err(FIRED_TWICE)
                   case Ok(ps) => Ok(Flow(ps, cover.goal || l.goal))
    {
      var c := new Collection(cover.pieces);
      var ok := c.AddAll(l.pieces);
      r := if ok then Ok(Flow(c.pieces, cover.goal || l.goal)) else Err(FIRED_TWICE);
    }

    method WrapPort(cover: Flow, v: nat, port: Option<nat>) returns (r: Result<Flow>)
      requires v < |g| && AllProper(cover.pieces)
      ensures r == Wrap(g, cover, v, port)
    {
      if Full(cover) {
        r := Ok(DONE);
      } else if g[v].join {
        if port.None? {
          return Err("not in list");
        }
        var temp := new Collection(cover.pieces);
        var ok := temp.Append(Part(v, {port.value}, g[v].inports));
        r := if ok then Ok(Flow(temp.pieces, cover.goal)) else Err(NOT_A_LIST);
      } else {
        r := Ok(cover);
      }
    }

    /** The body of the loop over the outputs of a node. */
    method Collect(fire: Fire, first: bool, cover: Flow, l: Flow) returns (r: Result<Flow>)
      requires AllProper(cover.pieces) && AllProper(l.pieces)
      ensures r == Combine(fire, first, cover, l)
    {
      match fire
      case All =>
        if !Disjoint(cover.pieces, l.pieces) {
          return Err("fires a port more than once");
        }
        r := Union(cover, l);
      case One =>
        if !first && cover.pieces != l.pieces {
          return Err("all its output ports must fire the same ports");
        }
        r := Ok(l);
      case Multi => r := if !Empty(l) then Err("may fire its output port multiple times") else Ok(cover);
      case ZeroOrOne => r := if !Full(l) && !Empty(l) then Err("must fire none or all input ports") else Ok(cover);
    }

    /** One call of dfs_cover, up to the memo. */
    method DfsCover(v: nat, port: Option<nat>) returns (r: Result<Flow>)
      requires Valid() && v < |g| && (v == target || Reached(g, target, roots, v))
      modifies this
      ensures Valid() && Later(g, rank, target, rank[v] + 1, old(answer), old(order), answer, order)
      ensures r == Arrive(g, rank, target, v, port)
      ensures r.Ok? && v != target ==> v in answer
      decreases rank[v], 1
    {
      hide AnswersOk, Later, Fold, Wrap, Cover, Reached;
      LaterSame(g, rank, target, rank[v] + 1, answer, order);
      if v == target {
        if port.None? {
          return Err("not in list");
        }
        return Ok(Flow([Path([Part(target, {port.value}, g[target].inports)])], true));
      }
      if v in answer {
        IsAnswered(g, rank, target, answer, v);
        r := WrapPort(answer[v], v, port);
        return;
      }
      var cover := Explore(v);
      if cover.Err? {
        return cover;
      }
      r := WrapPort(cover.value, v, port);
    }

    /** The rest of dfs_cover: all outputs of a node that has no answer yet. */
    method Explore(v: nat) returns (r: Result<Flow>)
      requires Valid() && v < |g| && v != target && v !in answer && Reached(g, target, roots, v)
      modifies this
      ensures Valid() && Later(g, rank, target, rank[v] + 1, old(answer), old(order), answer, order)
      ensures r == Cover(g, rank, target, v)
      ensures r.Ok? ==> v in answer
      decreases rank[v], 0
    {
      hide AnswersOk, Later, Combine, Arrive, Fold, Reached;
      var outs, fire := g[v].outs, g[v].fire;
      var cover, each := EMPTY, [];
      LaterSame(g, rank, target, rank[v], answer, order);
      FoldStart(g, rank, target, v);
      for i := 0 to |outs|
        invariant Valid() && Later(g, rank, target, rank[v], old(answer), old(order), answer, order)
        invariant Fold(g, rank, target, v, i) == Ok(Partial(cover, each))
        invariant forall j :: 0 <= j < i ==> outs[j].next == target || outs[j].next in answer
      {
        ghost var answer1, order1 := answer, order;
        assert Leads(g, v, outs[i].next);
        if outs[i].next != target { NextReached(g, target, roots, v, outs[i].next); }
        var next := DfsCover(outs[i].next, Some(outs[i].port));
        FoldStep(g, rank, target, v, i, Partial(cover, each));
        LaterTwice(g, rank, target, rank[v], old(answer), old(order), answer1, order1, rank[outs[i].next] + 1, answer,
                   order);
        LaterIn(g, rank, target, rank[outs[i].next] + 1, answer1, order1, answer, order);
        if next.Err? {
          FoldFails(g, rank, target, v, i + 1, |outs|);
          LaterUp(g, rank, target, rank[v], rank[v] + 1, old(answer), old(order), answer, order);
          return next;
        }
        var c := Collect(fire, |each| == 0, cover, next.value);
        if c.Err? {
          FoldFails(g, rank, target, v, i + 1, |outs|);
          LaterUp(g, rank, target, rank[v], rank[v] + 1, old(answer), old(order), answer, order);
          return c;
        }
        cover, each := c.value, each + [next.value];
      }
      LaterIn(g, rank, target, rank[v], old(answer), old(order), answer, order);
      var added: Pairs := [];
      if fire == All {
        added := NewPairs(each, g[target].inports);
      }
      ghost var answer1, order1 := answer, order;
      Record(v, cover, each, added);
      LaterUp(g, rank, target, rank[v], rank[v] + 1, old(answer), old(order), answer1, order1);
      LaterTwice(g, rank, target, rank[v] + 1, old(answer), old(order), answer1, order1, rank[v] + 1, answer, order);
      r := Ok(cover);
    }

    /** The end of dfs_cover: the partial orders and the answer. */
    method Record(v: nat, cover: Flow, ghost each: seq<Flow>, added: Pairs)
      requires Valid() && v < |g| && v != target && v !in answer && Reached(g, target, roots, v)
      requires Fold(g, rank, target, v, |g[v].outs|) == Ok(Partial(cover, each))
      requires forall i :: 0 <= i < |g[v].outs| ==> g[v].outs[i].next == target || g[v].outs[i].next in answer
      requires forall i: nat, j: nat :: (i, j) in added <==> Ordered(g, rank, target, v, i, j)
      modifies this
      ensures Valid() && Later(g, rank, target, rank[v] + 1, old(answer), old(order), answer, order)
      ensures answer == old(answer)[v := cover]
    {
      hide AnswersOk, Later, Fold, Ordered, Reached;
      AnswerOne(g, rank, target, answer, v, cover);
      ListOne(g, rank, target, answer, order, v, cover, added);
      order := order[v := PairsOf(order, v) + added];
      answer := answer[v := cover];
    }
  }

  /** annotate_for_instance: every root must be left without a part of the join's data. */
  ghost predicate Accepted(g: Graph, rank: seq<nat>, target: nat, roots: seq<nat>)
    requires Acyclic(g, rank) && target < |g| && (forall k :: 0 <= k < |roots| ==> roots[k] < |g|)
  {
    forall k :: 0 <= k < |roots| ==> var r := Arrive(g, rank, target, roots[k], None); r.Ok? && Empty(r.value)
  }

  datatype Annotation = Annotation(dominants: set<nat>, passing: set<nat>)

  method Annotate(s: Search, roots: seq<nat>) returns (r: Result<Annotation>)
    requires s.Valid() && s.answer == map[] && roots == s.roots && (forall k :: 0 <= k < |roots| ==> roots[k] < |s.g|)
    modifies s
    ensures s.Valid() && (r.Ok? <==> Accepted(s.g, s.rank, s.target, roots))
    ensures r.Ok? ==> forall v :: v in s.answer <==> Reached(s.g, s.target, roots, v)
    ensures r.Ok? ==> forall v ::
              && (v in r.value.dominants <==> v in s.answer && Full(s.answer[v]))
              && (v in r.value.passing <==> v in s.answer && !Full(s.answer[v]) && !Empty(s.answer[v]))
    ensures exists top :: Later(s.g, s.rank, s.target, top, map[], old(s.order), s.answer, s.order)
  {
    hide AnswersOk, Later, Arrive, Reached;
    ghost var top: nat := 0;
    LaterSame(s.g, s.rank, s.target, top, s.answer, s.order);
    for i := 0 to |roots|
      invariant s.Valid() && Later(s.g, s.rank, s.target, top, map[], old(s.order), s.answer, s.order)
      invariant Accepted(s.g, s.rank, s.target, roots[..i]) && (forall k :: 0 <= k < i ==> roots[k] in s.answer)
    {
      ghost var answer1, order1 := s.answer, s.order;
      if roots[i] != s.target { RootReached(s.g, s.target, roots, roots[i]); }
      var cover := s.DfsCover(roots[i], None);
      ghost var t, u := s.rank[roots[i]] + 1, top;
      top := if t < top then top else t;
      LaterUp(s.g, s.rank, s.target, u, top, map[], old(s.order), answer1, order1);
      LaterTwice(s.g, s.rank, s.target, top, map[], old(s.order), answer1, order1, t, s.answer, s.order);
      LaterIn(s.g, s.rank, s.target, t, answer1, order1, s.answer, s.order);
      assert !(cover.Ok? && Empty(cover.value)) ==> !Accepted(s.g, s.rank, s.target, roots);
      if cover.Err? {
        return Err(cover.msg);
      }
      if !Empty(cover.value) {
        return Err("no dominant element instance");
      }
      TargetIsNoRoot(s.g, s.rank, s.target);
    }
    assert roots[..|roots|] == roots;
    ReachedAnswered(s.g, s.rank, s.target, roots, s.answer);
    r := Ok(Annotation(set v | v in s.answer && Full(s.answer[v]),
                       set v | v in s.answer && !Full(s.answer[v]) && !Empty(s.answer[v])));
  }

  lemma TargetIsNoRoot(g: Graph, rank: seq<nat>, target: nat)
    requires Acyclic(g, rank) && target < |g|
    ensures Arrive(g, rank, target, target, None).Err?
  {
  }

  lemma FoldStart(g: Graph, rank: seq<nat>, target: nat, v: nat)
    requires Acyclic(g, rank) && target < |g| && v < |g|
    ensures Fold(g, rank, target, v, 0) == Ok(Partial(EMPTY, []))
  {
  }

  lemma FoldStep(g: Graph, rank: seq<nat>, target: nat, v: nat, i: nat, p: Partial)
    requires Acyclic(g, rank) && target < |g| && v < |g| && i < |g[v].outs|
    requires Fold(g, rank, target, v, i) == Ok(p)
    ensures var e := g[v].outs[i];
            var l := Arrive(g, rank, target, e.next, Some(e.port));
            && (l.Err? ==> Fold(g, rank, target, v, i + 1) == Err(l.msg))
            && (l.Ok? ==>
                  && AllProper(p.cover.pieces) && AllProper(l.value.pieces)
                  && var c := Combine(g[v].fire, i == 0, p.cover, l.value);
                     Fold(g, rank, target, v, i + 1) ==
                     if c.Err? then Err(c.msg) else Ok(Partial(c.value, p.each + [l.value])))
  {
    hide Combine, Arrive;
  }

  lemma LaterSame(g: Graph, rank: seq<nat>, target: nat, top: nat, a: Answers, o: Orders)
    requires Acyclic(g, rank) && target < |g|
    ensures Later(g, rank, target, top, a, o, a, o)
  {
  }

  lemma LaterUp(g: Graph, rank: seq<nat>, target: nat, top: nat, top': nat, a0: Answers, o0: Orders, a1: Answers,
                o1: Orders)
    requires Acyclic(g, rank) && target < |g| && Later(g, rank, target, top, a0, o0, a1, o1) && top <= top'
    ensures Later(g, rank, target, top', a0, o0, a1, o1)
  {
  }

  lemma LaterIn(g: Graph, rank: seq<nat>, target: nat, top: nat, a0: Answers, o0: Orders, a1: Answers, o1: Orders)
    requires Acyclic(g, rank) && target < |g| && Later(g, rank, target, top, a0, o0, a1, o1)
    ensures forall v :: v in a0 ==> v in a1
    ensures forall v :: v in a1 && v !in a0 ==> v < |g| && rank[v] < top
  {
  }

  lemma IsAnswered(g: Graph, rank: seq<nat>, target: nat, answer: Answers, v: nat)
    requires Acyclic(g, rank) && target < |g| && AnswersOk(g, rank, target, answer) && v in answer
    ensures Answered(g, rank, target, answer, v)
  {
  }
}
