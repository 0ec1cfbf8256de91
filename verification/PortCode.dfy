/** The emitted read and write elements over the shared buffer. */
module PortCode {
  import opened Wrappers
  import opened Sequences
  import opened PortHandshake

  class Buffer {
    const arity: seq<nat>
    const ordered: bool  // whether loads wait for the tests before them
    const avail: array<bool>
    const args: array<Args>
    const writers: array<Writer>
    var reader: Reader
    ghost var now: State

    ghost predicate Valid()
      reads this, avail, args, writers
    {
      && Inv(now) && now.arity == arity && now.ordered == ordered && now.reader == reader
      && now.avail == avail[..] && now.args == args[..] && now.writers == writers[..]
    }

    constructor (arity: seq<nat>, ordered: bool)
      requires 0 < |arity|
      ensures Valid() && now == Init(arity, ordered) && this.arity == arity && this.ordered == ordered
      ensures fresh(avail) && fresh(args) && fresh(writers)
    {
      this.arity, this.ordered := arity, ordered;
      avail := new bool[|arity|](_ => false);
      args := new Args[|arity|](p requires 0 <= p < |arity| => seq(arity[p], _ => 0));
      writers := new Writer[|arity|](_ => Away);
      reader := Polling(0, Nothing(arity));
      now := Init(arity, ordered);
      new;
      assert avail[..] == now.avail && args[..] == now.args && writers[..] == now.writers;
    }

    method SetWriter(p: nat, w: Writer)
      requires p < writers.Length
      modifies writers
      ensures writers[..] == old(writers[..])[p := w]
    {
      writers[p] := w;
    }

    method SetAvail(p: nat, up: bool)
      requires p < avail.Length
      modifies avail
      ensures avail[..] == old(avail[..])[p := up]
    {
      avail[p] := up;
    }

    method StoreArg(p: nat, k: nat, x: int)
      requires p < args.Length && k < |args[p]|
      modifies args
      ensures args[..] == old(args[..])[p := old(args[p])[k := x]]
    {
      args[p] := args[p][k := x];
    }

    /** The write element of a port. */
    method WriterStep(a: Action)
      requires Valid() && Writes(a) && Enabled(now, a)
      modifies this`now, avail, args, writers
      ensures Valid() && now == Next(old(now), a)
    {
      NextKeeps(now, a);
      assert PortOk(now, a.p);
      hide Inv, PortOk, ReaderOk, FiredOk;
      now := Next(now, a);
      match a
      case Call(p, v) => SetWriter(p, Waiting(v));
      case Poll(p) => if !avail[p] { SetWriter(p, Copying(writers[p].v, Numbers(arity[p]))); }
      case Store(p, k) =>
        var w := writers[p];
        StoreArg(p, k, w.v[k]);
        SetWriter(p, Copying(w.v, w.todo - {k}));
      case Raise(p) =>
        SetAvail(p, true);
        SetWriter(p, Away);
    }

    /** The read element. */
    method ReaderStep(a: Action)
      requires Valid() && !Writes(a) && Enabled(now, a)
      modifies this`now, this`reader, avail
      ensures Valid() && now == Next(old(now), a)
    {
      NextKeeps(now, a);
      now := Next(now, a);
      match a
      case Look =>
        var i := reader.i;
        reader := if !avail[i] then Polling(0, Nothing(arity))
        else if i + 1 < avail.Length then Polling(i + 1, reader.got) else Loading(reader.got);
      case Load(p, k) =>
        var got := reader.got[p := reader.got[p][k := Some(args[p][k])]];
        reader := if reader.Polling? then Polling(reader.i, got) else Loading(got);
      case Loaded => reader := Clearing(Taken(reader.got), Numbers(|reader.got|));
      case Lower(p) =>
        SetAvail(p, false);
        reader := Clearing(reader.taken, reader.todo - {p});
      case Fire => reader := Polling(0, Nothing(arity));
    }
  }
}
