/** The buffer between an element and the threads that feed its input ports: one flag per port, one writer thread per
    port, one reader. Between two fences loads, and stores, happen in any order; a store waits for the tests before it.
    The reader has no fence between the last test of the flags and the loads of the arguments, so it is a parameter of
    the machine, `ordered`, whether these loads wait for the flags. */
module PortHandshake {
  import opened Wrappers
  import opened Sequences

  /** The arguments that a port passes. */
  type Args = seq<int>

  /** The thread that writes a port: outside the write element, waiting for the flag to go down, or copying the
      arguments of which `todo` are left. */
  datatype Writer = Away | Waiting(v: Args) | Copying(v: Args, todo: set<nat>)

  /** The reader: about to look at the flag of port `i`; loading arguments (`got` so far, perhaps ahead of the flags);
      clearing the flags in `todo`. */
  datatype Reader =
    | Polling(i: nat, got: seq<seq<Option<int>>>)
    | Loading(got: seq<seq<Option<int>>>)
    | Clearing(taken: seq<Args>, todo: set<nat>)

  /** The shared buffer and the threads; `sent` lists the values each writer was given, `fired` the firings of the
      element behind the buffer, and `published` counts how often each flag went up. */
  datatype State = State(ordered: bool, arity: seq<nat>, avail: seq<bool>, args: seq<Args>, writers: seq<Writer>,
                         reader: Reader, sent: seq<seq<Args>>, published: seq<nat>, fired: seq<seq<Args>>)

  datatype Action =
    | Call(p: nat, v: Args)   // the write element of port p is called
    | Poll(p: nat)            // its thread tests the flag
    | Store(p: nat, k: nat)   // it stores argument k
    | Raise(p: nat)           // it sets the flag
    | Look                    // the reader tests the next flag
    | Load(p: nat, k: nat)    // the reader loads an argument
    | Loaded                  // it has loaded all of them
    | Lower(p: nat)           // it clears a flag
    | Fire                    // it calls the element

  function Nothing(arity: seq<nat>): (g: seq<seq<Option<int>>>)
    ensures |g| == |arity|
    ensures forall p :: 0 <= p < |g| ==> |g[p]| == arity[p] && forall k :: 0 <= k < |g[p]| ==> g[p][k] == None
  {
    if arity == [] then [] else Nothing(arity[..|arity| - 1]) + [seq(arity[|arity| - 1], _ => None)]
  }

  predicate Complete(got: seq<seq<Option<int>>>) {
    forall p, k :: 0 <= p < |got| && 0 <= k < |got[p]| ==> got[p][k].Some?
  }

  function Values(got: seq<Option<int>>): (v: Args)
    requires forall k :: 0 <= k < |got| ==> got[k].Some?
    ensures |v| == |got| && forall k :: 0 <= k < |v| ==> got[k] == Some(v[k])
  {
    seq(|got|, k requires 0 <= k < |got| && got[k].Some? => got[k].value)
  }

  function Taken(got: seq<seq<Option<int>>>): (taken: seq<Args>)
    requires Complete(got)
    ensures |taken| == |got| && forall p :: 0 <= p < |got| ==> taken[p] == Values(got[p])
  {
    seq(|got|, p requires 0 <= p < |got| => Values(got[p]))
  }

  predicate Enabled(s: State, a: Action) {
    match a
    case Call(p, v) => p < |s.writers| && p < |s.arity| && s.writers[p].Away? && |v| == s.arity[p]
    case Poll(p) => p < |s.writers| && s.writers[p].Waiting?
    case Store(p, k) => p < |s.writers| && s.writers[p].Copying? && k in s.writers[p].todo
    case Raise(p) => p < |s.writers| && s.writers[p].Copying? && s.writers[p].todo == {}
    case Look => s.reader.Polling? && s.reader.i < |s.avail|
    case Load(p, k) =>
      (s.reader.Loading? || (s.reader.Polling? && !s.ordered)) && p < |s.reader.got| && k < |s.reader.got[p]|
    case Loaded => s.reader.Loading? && Complete(s.reader.got)
    case Lower(p) => s.reader.Clearing? && p in s.reader.todo
    case Fire => s.reader.Clearing? && s.reader.todo == {}
  }

  /** How many values of port `p` the reader is done with. */
  function Consumed(s: State, p: nat): nat {
    |s.fired| + if s.reader.Clearing? && p !in s.reader.todo then 1 else 0
  }

  ghost predicate Shaped(s: State) {
    && 0 < |s.arity| == |s.avail| == |s.args| == |s.writers| == |s.sent| == |s.published|
    && (forall p :: 0 <= p < |s.arity| ==> |s.args[p]| == s.arity[p])
  }

  ghost predicate PortOk(s: State, p: nat)
    requires Shaped(s) && p < |s.arity|
  {
    && s.published[p] == Consumed(s, p) + (if s.avail[p] then 1 else 0)
    && |s.sent[p]| == s.published[p] + (if s.writers[p].Away? then 0 else 1)
    && (forall j :: 0 <= j < |s.sent[p]| ==> |s.sent[p][j]| == s.arity[p])
    && (s.avail[p] ==> s.args[p] == s.sent[p][s.published[p] - 1] && !s.writers[p].Copying?)
    && (s.writers[p].Waiting? ==> s.sent[p][s.published[p]] == s.writers[p].v)
    && (s.writers[p].Copying? ==>
          && s.sent[p][s.published[p]] == s.writers[p].v
          && (forall k :: k in s.writers[p].todo ==> k < s.arity[p])
          && (forall k: nat :: k < s.arity[p] && k !in s.writers[p].todo ==> s.args[p][k] == s.writers[p].v[k]))
  }

  ghost predicate ReaderOk(s: State)
    requires Shaped(s)
  {
    match s.reader
    case Polling(i, got) =>
      && i < |s.arity| && (forall p :: 0 <= p < i ==> s.avail[p])
      && |got| == |s.arity| && (forall p :: 0 <= p < |s.arity| ==> |got[p]| == s.arity[p])
      && (s.ordered ==> got == Nothing(s.arity))
    case Loading(got) =>
      && |got| == |s.arity| && (forall p :: 0 <= p < |s.arity| ==> s.avail[p] && |got[p]| == s.arity[p])
      && (s.ordered ==>
            forall p, k :: 0 <= p < |s.arity| && 0 <= k < |got[p]| && got[p][k].Some? ==>
                             got[p][k].value == s.args[p][k])
    case Clearing(taken, todo) =>
      && |taken| == |s.arity|
      && (forall p :: p in todo ==> p < |s.arity| && s.avail[p])
      && (forall p :: 0 <= p < |s.arity| ==> |s.fired| < |s.sent[p]|)
      && (s.ordered ==> forall p :: 0 <= p < |s.arity| ==> taken[p] == s.sent[p][|s.fired|])
  }

  ghost predicate FiredOk(s: State, f: nat)
    requires Shaped(s) && f < |s.fired|
  {
    && |s.fired[f]| == |s.arity|
    && (forall p :: 0 <= p < |s.arity| ==> f < |s.sent[p]|)
    && (s.ordered ==> forall p :: 0 <= p < |s.arity| ==> s.fired[f][p] == s.sent[p][f])
  }

  ghost predicate Inv(s: State) {
    && Shaped(s) && ReaderOk(s)
    && (forall p :: 0 <= p < |s.arity| ==> PortOk(s, p))
    && (forall f :: 0 <= f < |s.fired| ==> FiredOk(s, f))
  }

  function Next(s: State, a: Action): State
    requires Inv(s) && Enabled(s, a)
  {
    match a
    case Call(p, v) => s.(writers := s.writers[p := Waiting(v)], sent := s.sent[p := s.sent[p] + [v]])
    case Poll(p) =>
      if s.avail[p] then s
      else s.(writers := s.writers[p := Copying(s.writers[p].v, Numbers(s.arity[p]))])
    case Store(p, k) =>
      assert PortOk(s, p);
      var w := s.writers[p];
      s.(args := s.args[p := s.args[p][k := w.v[k]]], writers := s.writers[p := Copying(w.v, w.todo - {k})])
    case Raise(p) =>
      s.(avail := s.avail[p := true], writers := s.writers[p := Away],
         published := s.published[p := s.published[p] + 1])
    case Look =>
      var i := s.reader.i;
      if !s.avail[i] then s.(reader := Polling(0, Nothing(s.arity)))
      else if i + 1 < |s.avail| then s.(reader := Polling(i + 1, s.reader.got))
      else s.(reader := Loading(s.reader.got))
    case Load(p, k) =>
      var got := s.reader.got[p := s.reader.got[p][k := Some(s.args[p][k])]];
      s.(reader := if s.reader.Polling? then Polling(s.reader.i, got) else Loading(got))
    case Loaded =>
      var got := s.reader.got;
      s.(reader := Clearing(Taken(got), Numbers(|got|)))
    case Lower(p) =>
      s.(avail := s.avail[p := false], reader := Clearing(s.reader.taken, s.reader.todo - {p}))
    case Fire => s.(fired := s.fired + [s.reader.taken], reader := Polling(0, Nothing(s.arity)))
  }

  /** Steps of the port's writer. */
  predicate Writes(a: Action) {
    a.Call? || a.Poll? || a.Store? || a.Raise?
  }

  lemma WriterKeepsPort(s: State, a: Action, p: nat)
    requires Inv(s) && Enabled(s, a) && Writes(a) && p < |s.arity|
    ensures PortOk(s, a.p)
    ensures Shaped(Next(s, a)) && PortOk(Next(s, a), p)
  {
    assert PortOk(s, p) && PortOk(s, a.p);
    hide ReaderOk, FiredOk, Inv;
  }

  lemma ReaderKeepsPort(s: State, a: Action, p: nat)
    requires Inv(s) && Enabled(s, a) && !Writes(a) && p < |s.arity|
    ensures Shaped(Next(s, a)) && PortOk(Next(s, a), p)
  {
    assert PortOk(s, p);
  }

  lemma PortKept(s: State, a: Action, p: nat)
    requires Inv(s) && Enabled(s, a) && p < |s.arity|
    ensures Shaped(Next(s, a)) && |Next(s, a).arity| == |s.arity| && PortOk(Next(s, a), p)
  {
    hide PortOk, ReaderOk;
    if Writes(a) { WriterKeepsPort(s, a, p); } else { ReaderKeepsPort(s, a, p); }
  }

  /** A writer stores only while its flag is down, so the reader does not see it. */
  lemma WriterKeepsReader(s: State, a: Action)
    requires Inv(s) && Enabled(s, a) && Writes(a) && Shaped(Next(s, a))
    ensures ReaderOk(Next(s, a))
  {
    assert PortOk(s, a.p);
  }

  lemma LoadedKeepsReader(s: State)
    requires Inv(s) && Enabled(s, Loaded) && Shaped(Next(s, Loaded))
    ensures ReaderOk(Next(s, Loaded))
  {
    var s' := Next(s, Loaded);
    forall p | 0 <= p < |s.arity|
      ensures |s.fired| < |s'.sent[p]| && (s.ordered ==> s'.reader.taken[p] == s'.sent[p][|s.fired|])
    {
      assert PortOk(s, p);
      assert s.ordered ==> s'.reader.taken[p] == s.args[p];
    }
  }

  lemma ReaderKept(s: State, a: Action)
    requires Inv(s) && Enabled(s, a) && Shaped(Next(s, a))
    ensures ReaderOk(Next(s, a))
  {
    if Writes(a) {
      WriterKeepsReader(s, a);
    } else if a.Loaded? {
      LoadedKeepsReader(s);
    } else {
      hide PortOk, FiredOk;
    }
  }

  lemma FiringKept(s: State, a: Action, f: nat)
    requires Inv(s) && Enabled(s, a) && Shaped(Next(s, a)) && f < |Next(s, a).fired|
    ensures FiredOk(Next(s, a), f)
  {
    assert f < |s.fired| ==> FiredOk(s, f);
  }

  lemma NextKeeps(s: State, a: Action)
    requires Inv(s) && Enabled(s, a)
    ensures Inv(Next(s, a))
  {
    hide PortOk, ReaderOk, FiredOk;
    PortKept(s, a, 0);
    forall p | 0 <= p < |s.arity| ensures PortOk(Next(s, a), p) { PortKept(s, a, p); }
    ReaderKept(s, a);
    forall f | 0 <= f < |Next(s, a).fired| ensures FiredOk(Next(s, a), f) { FiringKept(s, a, f); }
  }

  function Init(arity: seq<nat>, ordered: bool): (s: State)
    requires 0 < |arity|
    ensures Inv(s)
  {
    var n := |arity|;
    State(ordered, arity, seq(n, _ => false), seq(n, p requires 0 <= p < n => seq(arity[p], _ => 0)), seq(n, _ => Away),
          Polling(0, Nothing(arity)),
          seq(n, _ => []), seq(n, _ => 0), [])
  }

  /** `acts` is an interleaving of the reader and the writers that leads from `s` to `s'`. */
  ghost predicate Reaches(s: State, acts: seq<Action>, s': State)
    requires Inv(s)
    decreases |acts|
  {
    if acts == [] then s' == s
    else Enabled(s, acts[0]) && (NextKeeps(s, acts[0]); Reaches(Next(s, acts[0]), acts[1..], s'))
  }

  lemma {:induction false} RunKeeps(s: State, acts: seq<Action>, s': State)
    requires Inv(s) && Reaches(s, acts, s')
    ensures Inv(s') && |s'.arity| == |s.arity| && s'.ordered == s.ordered
    decreases |acts|
  {
    if acts != [] {
      NextKeeps(s, acts[0]);
      RunKeeps(Next(s, acts[0]), acts[1..], s');
    }
  }

  /** The k-th firing got the k-th value sent to each port. */
  ghost predicate Faithful(s: State, n: nat) {
    && |s.sent| == n
    && (forall f :: 0 <= f < |s.fired| ==>
          |s.fired[f]| == n && forall p :: 0 <= p < n ==> f < |s.sent[p]| && s.fired[f][p] == s.sent[p][f])
  }

  /** If the loads of the arguments wait for the flags: in every interleaving the k-th firing gets the k-th value sent
      to each port. */
  lemma InOrder(arity: seq<nat>, acts: seq<Action>, s: State)
    requires 0 < |arity| && Reaches(Init(arity, true), acts, s)
    ensures Faithful(s, |arity|)
  {
    RunKeeps(Init(arity, true), acts, s);
    forall f | 0 <= f < |s.fired|
      ensures |s.fired[f]| == |arity|
      ensures forall p :: 0 <= p < |arity| ==> f < |s.sent[p]| && s.fired[f][p] == s.sent[p][f]
    {
      assert FiredOk(s, f);
    }
  }

  /** In any case there is one firing for each round of values: of every port all values but the last three at most have
      been fired. */
  lemma OneFiringEach(arity: seq<nat>, ordered: bool, acts: seq<Action>, s: State)
    requires 0 < |arity| && Reaches(Init(arity, ordered), acts, s)
    ensures |s.sent| == |arity| && forall p :: 0 <= p < |arity| ==> |s.fired| <= |s.sent[p]| <= |s.fired| + 3
  {
    RunKeeps(Init(arity, ordered), acts, s);
    forall p | 0 <= p < |arity| ensures |s.fired| <= |s.sent[p]| <= |s.fired| + 3 { assert PortOk(s, p); }
  }

  lemma Onward(s: State, a: Action, s1: State, acts: seq<Action>, s': State)
    requires Inv(s) && Enabled(s, a) && Next(s, a) == s1 && Inv(s1) && Reaches(s1, acts, s')
    ensures Reaches(s, [a] + acts, s')
  {
    assert ([a] + acts)[1..] == acts;
  }

  /** The state of a buffer for one port with one argument: the value sent, the flag, the argument, and the two
      threads. */
  function OnePort(sent: seq<Args>, up: bool, arg: int, w: Writer, r: Reader, published: nat,
                   fired: seq<seq<Args>>): State {
    State(false, [1], [up], [[arg]], [w], r, [sent], [published], fired)
  }

  /** A run in which the reader loads the argument before the flag ... */
  function StaleState(i: nat): State {
    var none, got: seq<seq<Option<int>>> := [[None]], [[Some(0)]];
    if i == 0 then OnePort([], false, 0, Away, Polling(0, none), 0, [])
    else if i == 1 then OnePort([], false, 0, Away, Polling(0, got), 0, [])
    else if i == 2 then OnePort([[7]], false, 0, Waiting([7]), Polling(0, got), 0, [])
    else if i == 3 then OnePort([[7]], false, 0, Copying([7], {0}), Polling(0, got), 0, [])
    else if i == 4 then OnePort([[7]], false, 7, Copying([7], {}), Polling(0, got), 0, [])
    else if i == 5 then OnePort([[7]], true, 7, Away, Polling(0, got), 1, [])
    else if i == 6 then OnePort([[7]], true, 7, Away, Loading(got), 1, [])
    else if i == 7 then OnePort([[7]], true, 7, Away, Clearing([[0]], {0}), 1, [])
    else if i == 8 then OnePort([[7]], false, 7, Away, Clearing([[0]], {}), 1, [])
    else OnePort([[7]], false, 7, Away, Polling(0, none), 1, [[[0]]])
  }

  function StaleAction(i: nat): Action {
    if i == 0 then Load(0, 0)
    else if i == 1 then Call(0, [7])
    else if i == 2 then Poll(0)
    else if i == 3 then Store(0, 0)
    else if i == 4 then Raise(0)
    else if i == 5 then Look
    else if i == 6 then Loaded
    else if i == 7 then Lower(0)
    else Fire
  }

  function StaleRun(i: nat): seq<Action>
    requires i <= 9
    decreases 9 - i
  {
    if i == 9 then [] else [StaleAction(i)] + StaleRun(i + 1)
  }

  lemma OneSlot()
    ensures Nothing([1]) == [[None]] && Numbers(1) == {0}
  {
    assert [1][..0] == [] && Nothing([]) == [] && Nothing([1]) == [seq(1, _ => None)];
    assert seq<Option<int>>(1, _ => None) == [None];
    assert Numbers(0) == {};
  }

  lemma StaleStep(i: nat)
    requires i < 9 && Inv(StaleState(i))
    ensures Enabled(StaleState(i), StaleAction(i)) && Next(StaleState(i), StaleAction(i)) == StaleState(i + 1)
  {
    OneSlot();
    hide Inv, Nothing, Numbers;
    var s, s' := StaleState(i), Next(StaleState(i), StaleAction(i));
    if i == 0 {
      assert s'.reader.got[0] == [Some(0)];
      assert s'.reader.got == [[Some(0)]];
    } else if i == 1 {
      assert s'.sent[0] == [[7]];
      assert s'.sent == [[[7]]] && s'.writers == [Waiting([7])];
    } else if i == 2 {
      assert s'.writers == [Copying([7], {0})];
    } else if i == 3 {
      assert s'.args[0] == [7] && s'.writers[0].todo == {};
      assert s'.args == [[7]] && s'.writers == [Copying([7], {})];
    } else if i == 4 {
      assert s'.avail == [true] && s'.writers == [Away] && s'.published == [1];
    } else if i == 6 {
      assert Values([Some(0)]) == [0] && s'.reader.taken == [[0]];
    } else if i == 7 {
      assert s'.avail == [false] && s'.reader.todo == {};
    } else if i == 8 {
      assert s'.fired == [[[0]]];
    }
  }

  lemma {:induction false} StaleReaches(i: nat)
    requires i <= 9 && Inv(StaleState(i))
    ensures Reaches(StaleState(i), StaleRun(i), StaleState(9))
    decreases 9 - i
  {
    hide Inv, Enabled, Next, StaleState, StaleAction;
    if i < 9 {
      StaleStep(i);
      NextKeeps(StaleState(i), StaleAction(i));
      StaleReaches(i + 1);
      Onward(StaleState(i), StaleAction(i), StaleState(i + 1), StaleRun(i + 1), StaleState(9));
    }
  }

  /** ... and fires with the value that was there before the one sent. */
  lemma StaleArgument() returns (acts: seq<Action>, s: State)
    ensures Reaches(Init([1], false), acts, s) && s.sent == [[[7]]] && s.fired == [[[0]]]
  {
    OneSlot();
    acts, s := StaleRun(0), StaleState(9);
    var s0 := Init([1], false);
    assert s0.avail == [false] && s0.args[0] == [0] && s0.args == [[0]];
    assert s0.writers == [Away] && s0.sent == [[]] && s0.published == [0];
    assert s0 == StaleState(0);
    hide Reaches;
    StaleReaches(0);
  }

  /** The values come in order in all buffers and all interleavings exactly if the loads of the arguments wait for the
      flags. */
  lemma InOrderIff(ordered: bool)
    ensures (forall arity: seq<nat>, acts: seq<Action>, s: State ::
               0 < |arity| && Reaches(Init(arity, ordered), acts, s) ==> Faithful(s, |arity|))
            <==> ordered
  {
    if ordered {
      forall arity: seq<nat>, acts: seq<Action>, s: State | 0 < |arity| && Reaches(Init(arity, ordered), acts, s)
        ensures Faithful(s, |arity|)
      {
        InOrder(arity, acts, s);
      }
    } else {
      var acts, s := StaleArgument();
      assert s.fired[0][0] != s.sent[0][0];
    }
  }

  /** What a raised flag announces is not touched until the reader clears the flag. */
  lemma NotOverwritten(s: State, a: Action, p: nat)
    requires Inv(s) && Enabled(s, a) && p < |s.arity| && s.avail[p] && a != Lower(p)
    ensures |Next(s, a).avail| == |Next(s, a).args| == |s.arity|
    ensures Next(s, a).avail[p] && Next(s, a).args[p] == s.args[p]
  {
    assert PortOk(s, p);
    assert a.Store? || a.Raise? ==> PortOk(s, a.p);
  }

  /** The element can be stuck only for want of data: when the reader cannot get on, some port's flag is down. */
  lemma ReaderMoves(s: State)
    requires Inv(s) && (forall p :: 0 <= p < |s.arity| ==> s.avail[p])
    ensures || Enabled(s, Look) || Enabled(s, Fire) || Enabled(s, Loaded)
            || (exists p, k :: Enabled(s, Load(p, k))) || (exists p :: Enabled(s, Lower(p)))
  {
    match s.reader
    case Polling(i, got) =>
    case Loading(got) =>
      if !Complete(got) {
        var p, k :| 0 <= p < |got| && 0 <= k < |got[p]| && got[p][k].None?;
        assert Enabled(s, Load(p, k));
      }
    case Clearing(taken, todo) =>
      if todo != {} {
        var p :| p in todo;
        assert Enabled(s, Lower(p));
      }
  }

  /** Nor do other ports hold up a writer: whatever their flags are, when its own flag is down and it waits, its test of
      the flag lets it on to copy, and a copying writer can store each argument that is left and raise the flag at the
      end; a waiting writer whose flag is up stays where it is. */
  lemma WriterMoves(s: State, p: nat)
    requires Inv(s) && p < |s.arity|
    ensures s.writers[p].Waiting? ==> Enabled(s, Poll(p))
    ensures s.writers[p].Waiting? && !s.avail[p] ==>
              Next(s, Poll(p)).writers[p] == Copying(s.writers[p].v, Numbers(s.arity[p]))
    ensures s.writers[p].Waiting? && s.avail[p] ==> Next(s, Poll(p)) == s
    ensures s.writers[p].Copying? ==>
              if s.writers[p].todo == {} then Enabled(s, Raise(p)) && Next(s, Raise(p)).avail[p]
              else exists k :: Enabled(s, Store(p, k))
                               && Next(s, Store(p, k)).writers[p].Copying?
                               && |Next(s, Store(p, k)).writers[p].todo| < |s.writers[p].todo|
  {
    if s.writers[p].Copying? && s.writers[p].todo != {} {
      var k :| k in s.writers[p].todo;
      assert Enabled(s, Store(p, k));
    }
  }
}
