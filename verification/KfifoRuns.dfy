/** Whole runs of record operations on a kfifo. */
module KfifoRuns {
  import opened Basics
  import opened KfifoIndex
  import opened Kfifo

  /** A record goes in, one comes out into a buffer of `room` bytes, or one is dropped. */
  datatype Call = Put(rec: seq<byte>) | Take(room: nat) | Skip

  /** What a call that removed a record handed out. */
  datatype Out = Read(bytes: seq<byte>) | Skipped

  /** All records that went in so far, and what became of the first ones. */
  datatype Log = Log(accepted: seq<seq<byte>>, outs: seq<Out>) {
    predicate Sound() {
      |outs| <= |accepted|
    }

    function Waiting(): seq<seq<byte>>
      requires Sound()
    {
      accepted[|outs|..]
    }
  }

  /** One call on a queue for `size` bytes: the bounded queue of whole records. */
  function Step(g: Log, c: Call, size: nat, recsize: nat): (r: Log)
    requires g.Sound()
    ensures r.Sound()
  {
    match c
    case Put(rec) =>
      if |Frames(g.Waiting(), recsize)| + |rec| + recsize <= size then g.(accepted := g.accepted + [rec]) else g
    case Take(room) =>
      if g.Waiting() == [] then g
      else
        var rec := g.Waiting()[0];
        g.(outs := g.outs + [Read(rec[..Min(room, |rec|)])])
    case Skip =>
      if g.Waiting() == [] then g else g.(outs := g.outs + [Skipped])
  }

  function After(g: Log, calls: seq<Call>, size: nat, recsize: nat): (r: Log)
    requires g.Sound()
    ensures r.Sound()
    decreases |calls|
  {
    if calls == [] then g else After(Step(g, calls[0], size, recsize), calls[1..], size, recsize)
  }

  /** What the code demands of its callers: records fit their length field, and only a queue with a record skips one. */
  predicate Proper(g: Log, calls: seq<Call>, size: nat, recsize: nat)
    requires g.Sound()
    decreases |calls|
  {
    calls != [] ==>
      && (match calls[0]
          case Put(rec) => MaxR(|rec|, recsize) == |rec|
          case Take(_) => true
          case Skip => g.Waiting() != [])
      && Proper(Step(g, calls[0], size, recsize), calls[1..], size, recsize)
  }

  /** Each removal got the next record in order: what was read is its start. */
  predicate InOrder(g: Log) {
    && g.Sound()
    && forall k :: 0 <= k < |g.outs| && g.outs[k].Read? ==>
      |g.outs[k].bytes| <= |g.accepted[k]| && g.outs[k].bytes == g.accepted[k][..|g.outs[k].bytes|]
  }

  lemma StepInOrder(g: Log, c: Call, size: nat, recsize: nat)
    requires InOrder(g)
    ensures InOrder(Step(g, c, size, recsize))
  {
  }

  /** In every run, the k-th record removed is the k-th accepted, whole or cut to the caller's buffer. */
  lemma {:induction false} RunInOrder(g: Log, calls: seq<Call>, size: nat, recsize: nat)
    requires InOrder(g)
    ensures InOrder(After(g, calls, size, recsize))
    decreases |calls|
  {
    if calls == [] {
    } else {
      StepInOrder(g, calls[0], size, recsize);
      RunInOrder(Step(g, calls[0], size, recsize), calls[1..], size, recsize);
    }
  }

  /** The ring holds the waiting records, framed. */
  ghost predicate Holds(ring: KfifoRing, g: Log, recsize: nat)
    reads ring, ring.data
  {
    && ring.Valid() && ring.esize == 1 && 1 <= recsize <= 2 && g.Sound()
    && ring.Content() == Frames(g.Waiting(), recsize) && Fitting(g.Waiting(), recsize)
  }

  /** The calls, carried out on the ring of bytes. */
  method RunRecords(ring: KfifoRing, calls: seq<Call>, recsize: nat) returns (outs: seq<Out>, ghost g: Log)
    requires ring.Valid() && ring.esize == 1 && ring.Content() == [] && 1 <= recsize <= 2
    requires Proper(Log([], []), calls, ring.mask + 1, recsize)
    modifies ring, ring.data
    ensures g == After(Log([], []), calls, ring.mask + 1, recsize) && Holds(ring, g, recsize)
    ensures outs == g.outs && InOrder(g)
  {
    hide KfifoRing.Valid, Frames, Fitting, Step;
    outs, g := [], Log([], []);
    ghost var size := ring.mask + 1;
    RunInOrder(g, calls, size, recsize);
    NoFrames(recsize);
    var i := 0;
    assert calls[0..] == calls;
    while i < |calls|
      invariant i <= |calls| && Holds(ring, g, recsize) && outs == g.outs && ring.mask + 1 == size
      invariant ring.data == old(ring.data)
      invariant Proper(g, calls[i..], size, recsize)
      invariant After(g, calls[i..], size, recsize) == After(Log([], []), calls, size, recsize)
    {
      assert calls[i..][1..] == calls[i + 1..];
      outs, g := One(ring, calls[i], recsize, outs, g);
      i := i + 1;
    }
    assert calls[i..] == [];
  }

  lemma NoFrames(recsize: nat)
    ensures Frames([], recsize) == [] && Fitting([], recsize)
  {
  }

  method One(ring: KfifoRing, c: Call, recsize: nat, outs0: seq<Out>, ghost g0: Log)
    returns (outs: seq<Out>, ghost g: Log)
    requires Holds(ring, g0, recsize) && outs0 == g0.outs
    requires match c
             case Put(rec) => MaxR(|rec|, recsize) == |rec|
             case Take(_) => true
             case Skip => g0.Waiting() != []
    modifies ring, ring.data
    ensures ring.data == old(ring.data) && ring.mask == old(ring.mask)
    ensures g == Step(g0, c, ring.mask + 1, recsize) && Holds(ring, g, recsize) && outs == g.outs
  {
    hide KfifoRing.Valid, KfifoRing.Content, Frames, Fitting;
    g := Step(g0, c, ring.mask + 1, recsize);
    match c {
      case Put(rec) =>
        outs := outs0;
        PutOne(ring, rec, recsize, g0);
      case Take(room) =>
        var empty, bytes := TakeOne(ring, room, recsize, g0);
        outs := if empty then outs0 else outs0 + [Read(bytes)];
      case Skip =>
        SkipOne(ring, recsize, g0);
        outs := outs0 + [Skipped];
    }
  }

  method PutOne(ring: KfifoRing, rec: seq<byte>, recsize: nat, ghost g: Log)
    requires Holds(ring, g, recsize) && MaxR(|rec|, recsize) == |rec|
    modifies ring`in_, ring`tail, ring.data
    ensures Holds(ring, Step(g, Put(rec), ring.mask + 1, recsize), recsize)
  {
    hide KfifoRing.Valid, Frames, KfifoRing.Content, Header;
    ring.OneByte();
    WaitingMore(g, rec, recsize);
    RecordAppended(g.Waiting(), rec, recsize);
    assert rec[..|rec|] == rec;
    var n := ring.InR(rec, |rec|, recsize);
  }

  lemma WaitingMore(g: Log, rec: seq<byte>, recsize: nat)
    requires g.Sound() && Fitting(g.Waiting(), recsize) && MaxR(|rec|, recsize) == |rec|
    ensures var g' := g.(accepted := g.accepted + [rec]);
      g'.Waiting() == g.Waiting() + [rec] && Fitting(g'.Waiting(), recsize)
  {
    hide MaxR;
  }

  lemma WaitingLess(g: Log, o: Out, recsize: nat)
    requires g.Sound() && Fitting(g.Waiting(), recsize) && g.Waiting() != []
    ensures var g' := g.(outs := g.outs + [o]);
      g'.Sound() && g'.Waiting() == g.Waiting()[1..] && Fitting(g'.Waiting(), recsize)
  {
    hide MaxR;
  }

  method TakeOne(ring: KfifoRing, room: nat, recsize: nat, ghost g: Log) returns (empty: bool, bytes: seq<byte>)
    requires Holds(ring, g, recsize)
    modifies ring`out, ring`head
    ensures empty <==> g.Waiting() == []
    ensures !empty ==> bytes == g.Waiting()[0][..Min(room, |g.Waiting()[0]|)]
    ensures Holds(ring, Step(g, Take(room), ring.mask + 1, recsize), recsize)
  {
    hide KfifoRing.Valid, Frames, KfifoRing.Content, Fitting;
    ring.OneByte();
    ghost var w := g.Waiting();
    FramesEmpty(w, recsize);
    var dst := new byte[room];
    empty := ring.IsEmpty();
    var len := ring.OutR(dst, room, recsize, w);
    bytes := dst[..len];
    if !empty {
      WaitingLess(g, Read(bytes), recsize);
    }
  }

  method SkipOne(ring: KfifoRing, recsize: nat, ghost g: Log)
    requires Holds(ring, g, recsize) && g.Waiting() != []
    modifies ring`out, ring`head
    ensures Holds(ring, Step(g, Skip, ring.mask + 1, recsize), recsize)
  {
    hide KfifoRing.Valid, Frames, KfifoRing.Content, Fitting;
    WaitingLess(g, Skipped, recsize);
    ring.SkipR(recsize, g.Waiting());
  }
}
