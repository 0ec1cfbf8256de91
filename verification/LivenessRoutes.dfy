/** What it means for a field to be live in a graph with joins: the ways on which it is read. */
module LivenessRoutes {
  import opened Liveness

  /** To an output, or from an owner of a join's buffer to that join: the state goes with the owner, not with the
      buffer. */
  datatype Move = Out(i: nat) | Jump(join: nat, i: nat)

  /** The move leads from `v` to `u`; an output that feeds a join carries no state there. */
  ghost predicate Moves(g: Graph, v: nat, m: Move, u: nat) {
    && v < |g| && u < |g|
    && match m
       case Out(i) => i < |g[v].outs| && g[v].outs[i] == u && g[u].dominants == []
       case Jump(j, i) => j == u && i < |g[j].dominants| && g[j].dominants[i] == v
  }

  function Next(g: Graph, v: nat, m: Move): nat {
    match m
    case Out(i) => if v < |g| && i < |g[v].outs| then g[v].outs[i] else v
    case Jump(j, _) => j
  }

  ghost predicate IsRoute(g: Graph, v: nat, route: seq<Move>)
    decreases |route|
  {
    v < |g| && (route != [] ==> Moves(g, v, route[0], Next(g, v, route[0]))
                                && IsRoute(g, Next(g, v, route[0]), route[1..]))
  }

  /** The field survives the move: it is not written at `v`, nor, on a jump to a join, on the ways that lead there. */
  ghost predicate Survives(g: Graph, v: nat, m: Move, x: Field)
    requires v < |g|
  {
    && !Overwritten(x, g[v].defs)
    && (m.Jump? && m.join < |g| ==> x !in At(g[m.join].kills, v))
  }

  /** At the end of the route the field is read, and it survives all moves before. */
  ghost predicate ReadAtEnd(g: Graph, v: nat, route: seq<Move>, x: Field)
    requires IsRoute(g, v, route)
    decreases |route|
  {
    if route == [] then x in g[v].uses
    else Survives(g, v, route[0], x) && ReadAtEnd(g, Next(g, v, route[0]), route[1..], x)
  }

  ghost predicate SomeRouteReads(g: Graph, v: nat, x: Field) {
    exists route :: IsRoute(g, v, route) && ReadAtEnd(g, v, route, x)
  }

  lemma RouteLonger(g: Graph, v: nat, m: Move, u: nat, x: Field)
    requires Moves(g, v, m, u) && Survives(g, v, m, x) && SomeRouteReads(g, u, x)
    ensures SomeRouteReads(g, v, x)
  {
    var route :| IsRoute(g, u, route) && ReadAtEnd(g, u, route, x);
    var longer := [m] + route;
    assert longer[1..] == route && Next(g, v, m) == u;
    assert IsRoute(g, v, longer) && ReadAtEnd(g, v, longer, x);
  }

  /** Some join wants the field from `v`, since a route from there reads it. */
  ghost predicate Wanted(g: Graph, v: nat, x: Field) {
    exists j: nat, i: nat :: Moves(g, v, Jump(j, i), j) && x !in At(g[j].kills, v) && SomeRouteReads(g, j, x)
  }

  /** The fields that the first `k` nodes read. */
  function ReadFields(g: Graph, k: nat): (r: set<Field>)
    requires k <= |g|
    ensures forall v :: 0 <= v < k ==> g[v].uses <= r
  {
    if k == 0 then {} else ReadFields(g, k - 1) + g[k - 1].uses
  }

  lemma {:induction false} RouteReadsField(g: Graph, v: nat, route: seq<Move>, x: Field)
    requires IsRoute(g, v, route) && ReadAtEnd(g, v, route, x)
    ensures x in ReadFields(g, |g|)
    decreases |route|
  {
    if route != [] { RouteReadsField(g, Next(g, v, route[0]), route[1..], x); }
  }

  ghost function WantedAt(g: Graph, v: nat): set<Field> {
    set x | x in ReadFields(g, |g|) && Wanted(g, v, x)
  }

  /** What the joins may rightly demand. */
  ghost function Rightful(g: Graph): (r: Demand)
    ensures forall v: nat :: v in r <==> v < |g|
  {
    map v: nat | v < |g| :: WantedAt(g, v)
  }

  lemma InRightful(g: Graph, v: nat, x: Field)
    requires v < |g|
    ensures v in Rightful(g) && (x in Rightful(g)[v] <==> Wanted(g, v, x))
  {
    if Wanted(g, v, x) {
      var j: nat, i: nat :| Moves(g, v, Jump(j, i), j) && x !in At(g[j].kills, v) && SomeRouteReads(g, j, x);
      var route :| IsRoute(g, j, route) && ReadAtEnd(g, j, route, x);
      RouteReadsField(g, j, route, x);
    }
  }

  /** With these demands only fields are live that some route reads. */
  lemma {:induction false} LiveHasRoute(g: Graph, rank: seq<nat>, v: nat, x: Field)
    requires Acyclic(g, rank) && v < |g| && x in Live(g, rank, Rightful(g), v)
    ensures SomeRouteReads(g, v, x)
    decreases rank[v]
  {
    hide Rightful, Wanted, SomeRouteReads;
    if x in g[v].uses {
      ReadHere(g, v, x);
    } else {
      KilledIffOverwritten(x, g[v].defs);
      if x in LiveBehind(g, rank, Rightful(g), v, |g[v].outs|) {
        InBehind(g, rank, Rightful(g), v, |g[v].outs|, x);
        var i :| 0 <= i < |g[v].outs| && x in Passed(g, rank, Rightful(g), g[v].outs[i]);
        LiveHasRoute(g, rank, g[v].outs[i], x);
        RouteLonger(g, v, Out(i), g[v].outs[i], x);
      } else {
        InRightful(g, v, x);
        WantedRoute(g, v, x);
      }
    }
  }

  lemma ReadHere(g: Graph, v: nat, x: Field)
    requires v < |g| && x in g[v].uses
    ensures SomeRouteReads(g, v, x)
  {
    assert IsRoute(g, v, []) && ReadAtEnd(g, v, [], x);
  }

  lemma WantedRoute(g: Graph, v: nat, x: Field)
    requires v < |g| && Wanted(g, v, x) && !Overwritten(x, g[v].defs)
    ensures SomeRouteReads(g, v, x)
  {
    hide SomeRouteReads;
    var j: nat, i: nat :| Moves(g, v, Jump(j, i), j) && x !in At(g[j].kills, v) && SomeRouteReads(g, j, x);
    RouteLonger(g, v, Jump(j, i), j, x);
  }
}
