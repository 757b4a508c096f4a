/** Whole runs of insertions and removals on a B+tree, with allocations that may fail. */
module BTreeRuns {
  import opened BTreeLevels
  import opened BTreeMixed
  import opened BTree

  /** `val` is the caller's entry. */
  datatype Call = Put(key: nat, val: int, mayFail: bool) | Drop(key: nat)

  /** A call and whether it ended in -ENOMEM. */
  datatype Event = Event(call: Call, failed: bool)

  /** What the code demands of its callers: an absent key is inserted, a stored one removed. */
  predicate Allowed(m: map<nat, Slot>, c: Call, top: nat) {
    && c.key < top
    && match c
       case Put(k, _, _) => k !in m
       case Drop(k) => k in m
  }

  /** The finite map that the calls so far amount to; a failed one has left it as it was. */
  function Replay(h: seq<Event>): map<nat, Slot> {
    if h == [] then map[] else Step(Replay(h[..|h| - 1]), h[|h| - 1])
  }

  function Step(m: map<nat, Slot>, e: Event): map<nat, Slot> {
    if e.failed then m
    else
      match e.call
      case Put(k, v, _) => m[k := Item(v)]
      case Drop(k) => m - {k}
  }

  function Failures(h: seq<Event>): nat {
    if h == [] then 0 else Failures(h[..|h| - 1]) + if h[|h| - 1].failed then 1 else 0
  }

  /** Each call was allowed when it was made, and only an insertion that may fail has failed. */
  predicate Legal(h: seq<Event>, top: nat) {
    forall i :: 0 <= i < |h| ==> LegalAt(h, top, i)
  }

  predicate LegalAt(h: seq<Event>, top: nat, i: nat)
    requires i < |h|
  {
    Allowed(Replay(h[..i]), h[i].call, top) && (h[i].failed ==> h[i].call.Put? && h[i].call.mayFail)
  }

  /** A caller that decides by what it has seen so far, failures included, and only makes calls that are allowed. */
  ghost predicate Careful(next: seq<Event> -> Call, top: nat) {
    forall h :: Legal(h, top) ==> Allowed(Replay(h), next(h), top)
  }

  lemma LegalMore(h: seq<Event>, e: Event, top: nat)
    requires Legal(h, top) && Allowed(Replay(h), e.call, top)
    requires e.failed ==> e.call.Put? && e.call.mayFail
    ensures Legal(h + [e], top) && Replay(h + [e]) == Step(Replay(h), e)
    ensures Failures(h + [e]) == Failures(h) + if e.failed then 1 else 0
  {
    hide Allowed, Step;
    var h' := h + [e];
    assert h'[..|h|] == h;
    forall i | 0 <= i < |h'| ensures LegalAt(h', top, i) {
      if i < |h| {
        assert h'[..i] == h[..i] && LegalAt(h, top, i);
      }
    }
  }

  /**
   * With an even number of pairs to a node, or five, every run from the empty tree ends in the map the calls amount
   * to, in a tree whose interior root has two children, whichever of the insertions that may fail have failed:
   * one for each NULL that the pool has answered.
   */
  method RunAll(pairs: nat, top: nat, next: seq<Event> -> Call, steps: nat, words: Layout)
    returns (t: BTreeHead, h: seq<Event>)
    requires Sturdy(pairs)
    requires Careful(next, top)
    ensures |h| == steps && Legal(h, top) && forall i :: 0 <= i < steps ==> h[i].call == next(h[..i])
    ensures t.Valid() && t.n == pairs && t.Map() == Replay(h) && t.pool.refused == Failures(h)
    ensures t.height > 1 ==> t.node.Length == t.n && t.node[0].val != Nul && t.node[1].val != Nul
  {
    hide BTreeHead.Valid, BTreeHead.Map, Careful, Legal, Allowed, Replay, Step, Failures;
    t := new BTreeHead(pairs, top);
    h := [];
    NoEvents(top);
    while |h| < steps
      invariant |h| <= steps && Legal(h, top) && forall i :: 0 <= i < |h| ==> h[i].call == next(h[..i])
      invariant t.Valid() && t.n == pairs && t.top == top && t.Map() == Replay(h)
      invariant fresh(t) && fresh(t.Repr) && fresh(t.pool) && t.pool.refused == Failures(h)
      decreases steps - |h|
    {
      CarefulAt(next, top, h);
      var c := next(h);
      var failed := One(t, c, words);
      LegalMore(h, Event(c, failed), top);
      NextMore(h, Event(c, failed), next);
      h := h + [Event(c, failed)];
    }
    if t.height > 1 {
      t.RootHasTwo();
    }
  }

  lemma CarefulAt(next: seq<Event> -> Call, top: nat, h: seq<Event>)
    requires Careful(next, top) && Legal(h, top)
    ensures Allowed(Replay(h), next(h), top)
  {
  }

  lemma NoEvents(top: nat)
    ensures Legal([], top) && Replay([]) == map[] && Failures([]) == 0
  {
  }

  lemma NextMore(h: seq<Event>, e: Event, next: seq<Event> -> Call)
    requires e.call == next(h) && forall i :: 0 <= i < |h| ==> h[i].call == next(h[..i])
    ensures forall i :: 0 <= i < |h + [e]| ==> (h + [e])[i].call == next((h + [e])[..i])
  {
    forall i | 0 <= i < |h + [e]| ensures (h + [e])[i].call == next((h + [e])[..i]) {
      assert (h + [e])[..i] == h[..i];
      assert h[..|h|] == h;
    }
  }

  method One(t: BTreeHead, c: Call, words: Layout) returns (failed: bool)
    requires t.Valid() && Sturdy(t.n) && Allowed(t.Map(), c, t.top)
    modifies t`node, t`height, t`lv, t`Repr, t.Repr, t.pool
    ensures t.Valid() && t.Map() == Step(old(t.Map()), Event(c, failed)) && fresh(t.Repr - old(t.Repr))
    ensures failed ==> c.Put? && c.mayFail
    ensures t.pool.refused == old(t.pool.refused) + if failed then 1 else 0
  {
    hide BTreeHead.Valid, BTreeHead.Map, BTreeHead.Hollow, Astray, EndsIn;
    match c {
      case Put(k, v, mayFail) =>
        failed := t.Insert(k, Item(v), mayFail);
      case Drop(k) =>
        var r, leaf := t.Remove(k, words);
        failed := false;
    }
  }
}
