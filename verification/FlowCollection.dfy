/** Covers: which parts of the data of a join node a piece of the graph delivers. */
module FlowCollection {
  import opened Wrappers

  /** Some of the input ports of a join node that has `total` of them. */
  datatype Part = Part(inst: nat, ports: set<nat>, total: nat)

  /** The outcome of InstancePart.union: other instances, a bigger part, or all ports of the instance. */
  datatype Merge = Apart | Bigger(part: Part) | Complete

  function PartUnion(a: Part, b: Part): Merge {
    if a.inst != b.inst then Apart
    else if |a.ports + b.ports| == a.total then Complete
    else Bigger(Part(a.inst, a.ports + b.ports, a.total))
  }

  function PartIntersection(a: Part, b: Part): Option<Part> {
    if a.inst == b.inst && a.ports * b.ports != {} then Some(Part(a.inst, a.ports * b.ports, a.total)) else None
  }

  /** All the data of the target, or the share of it that remains when one follows `parts` away from the target. */
  datatype Piece = Whole | Path(parts: seq<Part>)

  predicate Proper(p: Piece) {
    p.Path? ==> p.parts != []
  }

  predicate AllProper(ps: seq<Piece>) {
    forall p :: p in ps ==> Proper(p)
  }

  function Prefix(p: Piece): seq<Part>
    requires p.Path? && Proper(p)
  {
    p.parts[..|p.parts| - 1]
  }

  function Last(p: Piece): Part
    requires p.Path? && Proper(p)
  {
    p.parts[|p.parts| - 1]
  }

  /** What comparing `x` with the new piece `y` tells: nothing in common, the same data twice, or one bigger piece. */
  datatype Verdict = Unrelated | Clash | Joined(z: Piece)

  function Compare(x: Piece, y: Piece): (v: Verdict)
    requires y.Path? && Proper(x) && Proper(y)
    ensures v.Joined? ==> Proper(v.z)
  {
    if x == y then Clash
    else if x.Whole? || Prefix(x) != Prefix(y) then Unrelated
    else if PartIntersection(Last(x), Last(y)).Some? then Clash
    else match PartUnion(Last(x), Last(y))
         case Apart => Unrelated
         case Bigger(t) => Joined(Path(Prefix(x) + [t]))
         case Complete => Joined(if Prefix(x) == [] then Whole else Path(Prefix(x)))
  }

  /** The first piece from the i-th on that has something to do with `y`. */
  function Find(ps: seq<Piece>, y: Piece, i: nat): (j: nat)
    requires AllProper(ps) && y.Path? && Proper(y) && i <= |ps|
    ensures i <= j <= |ps| && (j < |ps| ==> !Compare(ps[j], y).Unrelated?)
    ensures forall k :: i <= k < j ==> Compare(ps[k], y).Unrelated?
    decreases |ps| - i
  {
    if i == |ps| || !Compare(ps[i], y).Unrelated? then i else Find(ps, y, i + 1)
  }

  const FIRED_TWICE := "fired more than once in one run"

  /** A collection after one more piece, or the error that the same data comes twice. */
  function Added(ps: seq<Piece>, y: Piece): (r: Result<seq<Piece>>)
    requires AllProper(ps) && Proper(y)
    ensures r.Ok? ==> AllProper(r.value) && r.value != []
    decreases |ps|
  {
    if y.Whole? then (if ps == [] then Ok([Whole]) else Err(FIRED_TWICE))
    else
      var j := Find(ps, y, 0);
      if j == |ps| then Ok(ps + [y])
      else match Compare(ps[j], y)
           case Joined(z) => Added(ps[..j] + ps[j + 1..], z)
           case _ => Err(FIRED_TWICE)
  }

  function AddedAll(ps: seq<Piece>, ys: seq<Piece>): (r: Result<seq<Piece>>)
    requires AllProper(ps) && AllProper(ys)
    ensures r.Ok? ==> AllProper(r.value) && (ps != [] || ys != [] ==> r.value != [])
    decreases |ys|
  {
    if ys == [] then Ok(ps)
    else match Added(ps, ys[0])
         case Err(e) => Err(e)
         case Ok(ps') => AddedAll(ps', ys[1..])
  }

  /** The value of a FlowCollection of a fixed target. */
  datatype Flow = Flow(pieces: seq<Piece>, goal: bool)

  const EMPTY := Flow([], false)
  const DONE := Flow([], true)

  predicate Full(f: Flow) {
    f.pieces == [Whole]
  }

  predicate Empty(f: Flow) {
    f.pieces == []
  }

  function Shared(x: Piece, y: Piece): Option<Piece>
    requires Proper(x) && Proper(y)
  {
    if x == y then Some(x)
    else if x.Whole? || y.Whole? || Prefix(x) != Prefix(y) then None
    else match PartIntersection(Last(x), Last(y))
         case Some(t) => Some(Path(Prefix(x) + [t]))
         case None => None
  }

  /** FlowCollection.intersection is empty. */
  predicate Disjoint(xs: seq<Piece>, ys: seq<Piece>)
    requires AllProper(xs) && AllProper(ys)
  {
    forall i, j :: 0 <= i < |xs| && 0 <= j < |ys| ==> Shared(xs[i], ys[j]).None?
  }

  /** The collection as the analysis builds it up in place. */
  class Collection {
    var pieces: seq<Piece>

    constructor (pieces: seq<Piece>)
      ensures this.pieces == pieces
    {
      this.pieces := pieces;
    }

    method Add(y: Piece) returns (ok: bool)
      requires AllProper(pieces) && Proper(y)
      modifies this
      ensures ok <==> Added(old(pieces), y).Ok?
      ensures ok ==> Added(old(pieces), y) == Ok(pieces)
      decreases |pieces|
    {
      if y.Whole? {
        if pieces == [] {
          pieces := [Whole];
          return true;
        }
        return false;
      }
      var i := 0;
      while i < |pieces|
        invariant i <= |pieces| && pieces == old(pieces)
        invariant Find(pieces, y, 0) == Find(pieces, y, i)
      {
        match Compare(pieces[i], y) {
          case Unrelated =>
          case Clash => return false;
          case Joined(z) =>
            assert Find(pieces, y, 0) == i;
            assert Added(pieces, y) == Added(pieces[..i] + pieces[i + 1..], z);
            hide Added, Find, Compare;
            pieces := pieces[..i] + pieces[i + 1..];
            ok := Add(z);
            return;
        }
        i := i + 1;
      }
      pieces := pieces + [y];
      ok := true;
    }

    /** The loop of FlowCollection.union. */
    method AddAll(ys: seq<Piece>) returns (ok: bool)
      requires AllProper(pieces) && AllProper(ys)
      modifies this
      ensures ok <==> AddedAll(old(pieces), ys).Ok?
      ensures ok ==> AddedAll(old(pieces), ys) == Ok(pieces)
    {
      var i := 0;
      ok := true;
      while i < |ys|
        invariant i <= |ys| && AllProper(pieces)
        invariant AddedAll(old(pieces), ys) == AddedAll(pieces, ys[i..])
      {
        ok := Add(ys[i]);
        if !ok { return; }
        i := i + 1;
      }
    }

    /** FlowCollection.append; the name of a complete join cannot be appended to. */
    method Append(x: Part) returns (ok: bool)
      requires AllProper(pieces)
      modifies this
      ensures ok <==> Appended(old(pieces), x).Ok?
      ensures ok ==> Appended(old(pieces), x) == Ok(pieces)
    {
      var i := 0;
      while i < |pieces|
        invariant i <= |pieces| == |old(pieces)|
        invariant forall k :: 0 <= k < i ==> old(pieces)[k].Path? && pieces[k] == Path(old(pieces)[k].parts + [x])
        invariant forall k :: i <= k < |pieces| ==> pieces[k] == old(pieces)[k]
      {
        if pieces[i].Whole? { return false; }
        pieces := pieces[i := Path(pieces[i].parts + [x])];
        i := i + 1;
      }
      assert pieces == Appended(old(pieces), x).value;
      ok := true;
    }
  }

  const NOT_A_LIST := "not a list"

  function Appended(ps: seq<Piece>, x: Part): (r: Result<seq<Piece>>)
    ensures r.Ok? ==> AllProper(r.value) && |r.value| == |ps|
  {
    if exists i :: 0 <= i < |ps| && ps[i].Whole? then Err(NOT_A_LIST)
    else Ok(seq(|ps|, i requires 0 <= i < |ps| && ps[i].Path? => Path(ps[i].parts + [x])))
  }
}
