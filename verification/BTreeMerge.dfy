/**
 btree_merge: empty one tree into another, with allocation failures.
 */
module BTreeMerge {
  import opened BTreeLevels
  import opened BTreeMixed
  import opened BTreePaths
  import opened BTreeMemory
  import opened BTree

  datatype MergeResult = Done | NoMemory | Crash

  /** Two trees of the same geometry that share neither nodes nor keys. */
  ghost predicate Apart(a: BTreeHead, b: BTreeHead)
    reads a, b
  {
    a != b && a.n == b.n && a.top == b.top && a.Repr !! b.Repr && a.Map().Keys !! b.Map().Keys
  }

  lemma ApartIs(a: BTreeHead, b: BTreeHead)
    ensures Apart(a, b) <==>
      a != b && a.n == b.n && a.top == b.top && a.Repr !! b.Repr && a.Map().Keys !! b.Map().Keys
  {
  }

  /** The target is empty: the head fields move over. */
  method TakeOver(target: BTreeHead, victim: BTreeHead)
    requires Apart(target, victim) && target.Valid() && victim.Valid() && target.height == 0
    modifies target, victim
    ensures Apart(target, victim) && target.Valid() && victim.Valid()
    ensures victim.Map() == map[] && target.Map() == old(victim.Map())
  {
    hide Wf, MixedTree, Stored, Distinct, Content, RootWide;
    EmptyLevels(target.n);
    target.node := victim.node;
    target.height := victim.height;
    target.lv := victim.lv;
    target.Repr := victim.Repr;
    victim.node := null;
    victim.height := 0;
    victim.lv := [];
    victim.Repr := {};
  }

  lemma EmptyLevels(n: nat)
    ensures Stored([], {}, n) && Distinct([]) && Content([]) == map[]
  {
  }

  lemma MoveBinding(a: map<nat, Slot>, b: map<nat, Slot>, key: nat)
    requires a.Keys !! b.Keys && key in b
    ensures key !in a && a[key := b[key]].Keys !! (b - {key}).Keys
    ensures a[key := b[key]] + (b - {key}) == a + b
  {
    var x, y := a[key := b[key]] + (b - {key}), a + b;
    forall k ensures k in x <==> k in y {}
    forall k | k in y ensures x[k] == y[k] {}
  }

  lemma Fewer(b: map<nat, Slot>, key: nat)
    requires key in b
    ensures |b - {key}| < |b|
  {
    assert (b - {key}).Keys == b.Keys - {key};
    assert |(b - {key}).Keys| == |b.Keys| - 1;
  }

  /** One round of the loop: insert the victim's last binding into the target, then remove it. */
  method MoveLast(target: BTreeHead, victim: BTreeHead, key: nat, mayFail: bool, words: Layout)
    returns (r: MergeResult)
    requires Apart(target, victim) && target.Valid() && victim.Valid() && 0 < target.top && key in victim.Map()
    modifies target, victim, target.Repr, victim.Repr, target.pool
    ensures target.Valid() && Apart(target, victim) && (r.Crash? || victim.Valid())
    ensures victim.Repr == old(victim.Repr) && old(target.Repr) <= target.Repr && fresh(target.Repr - old(target.Repr))
    ensures target.Map() + victim.Map() == old(target.Map() + victim.Map())
    ensures r.Done? ==> victim.Map() == old(victim.Map()) - {key}
    ensures r.NoMemory? ==> old(target.lv) == [] || Cramped(old(target.lv)[0], key, target.n)
    ensures r.NoMemory? ==> mayFail
    ensures target.pool.refused == old(target.pool.refused) + if r.NoMemory? then 1 else 0
    ensures r.Crash? ==> !Sturdy(target.n) && victim.Hollow()
  {
    hide *;
    ApartIs(target, victim);
    ghost var a, b := target.Map(), victim.Map();
    victim.KeysBelow();
    victim.NoNul(key);
    MoveBinding(a, b, key);
    var val := victim.Lookup(key);
    var err := target.Insert(key, val, mayFail);
    if err {
      ApartIs(target, victim);
      return NoMemory;
    }
    var dup := key;
    var gone, leaf := victim.Remove(dup, words);
    ApartIs(target, victim);
    var hollow := victim.LooksHollow();
    return if hollow then Crash else Done;
  }

  /**
   The loop of btree_merge.  However it ends, no binding is lost or duplicated.
   NoMemory is the answer exactly if the pool has answered NULL.  Crash stands for the null
   pointer that btree_last would follow below an interior root without children;
   it is excluded for every even number of pairs and for five.
   */
  method MergeTrees(target: BTreeHead, victim: BTreeHead, mayFail: bool, words: Layout) returns (r: MergeResult)
    requires Apart(target, victim) && target.Valid() && victim.Valid() && 0 < target.top
    modifies target, victim, target.Repr, victim.Repr, target.pool
    ensures target.Valid() && Apart(target, victim) && (r.Crash? || victim.Valid())
    ensures target.Map() + victim.Map() == old(target.Map() + victim.Map())
    ensures r.Done? ==> victim.Map() == map[] && target.Map() == old(target.Map() + victim.Map())
    ensures r.NoMemory? ==> mayFail
    ensures target.pool.refused == old(target.pool.refused) + if r.NoMemory? then 1 else 0
    ensures r.Crash? ==> !Sturdy(target.n) && victim.Hollow()
  {
    hide *;
    ApartIs(target, victim);
    target.ValidAt();
    if target.node == null {
      target.EmptyMap();
      TakeOver(target, victim);
      return Done;
    }
    var key, over := 0, false;
    r := Done;
    while !over
      invariant target.Valid() && Apart(target, victim) && 0 < target.top
      invariant victim.Repr == old(victim.Repr) && old(target.Repr) <= target.Repr
      invariant fresh(target.Repr - old(target.Repr))
      invariant target.Map() + victim.Map() == old(target.Map() + victim.Map())
      invariant if over then Ended(target, victim, mayFail, r) else victim.Valid()
      invariant target.pool.refused == old(target.pool.refused) + if over && r.NoMemory? then 1 else 0
      decreases if over then 0 else |victim.Map()| + 1
    {
      over, r, key := Round(target, victim, key, mayFail, words);
    }
    EndedIs(target, victim, mayFail, r);
  }

  /** What the loop may end in. */
  ghost predicate Ended(target: BTreeHead, victim: BTreeHead, mayFail: bool, r: MergeResult)
    reads target, victim, victim.Repr
  {
    && (r.Crash? || victim.Valid()) && (r.Done? ==> victim.Map() == map[]) && (r.NoMemory? ==> mayFail)
    && (r.Crash? ==> !Sturdy(target.n) && victim.Hollow())
  }

  lemma EndedIs(target: BTreeHead, victim: BTreeHead, mayFail: bool, r: MergeResult)
    ensures Ended(target, victim, mayFail, r) <==>
      && (r.Crash? || victim.Valid()) && (r.Done? ==> victim.Map() == map[]) && (r.NoMemory? ==> mayFail)
      && (r.Crash? ==> !Sturdy(target.n) && victim.Hollow())
    ensures victim.Map() == map[] ==> target.Map() + victim.Map() == target.Map()
  {
  }

  /** One turn of the loop: the victim's last binding, if any, moves over. */
  method Round(target: BTreeHead, victim: BTreeHead, keyIn: nat, mayFail: bool, words: Layout)
    returns (over: bool, r: MergeResult, key: nat)
    requires Apart(target, victim) && target.Valid() && victim.Valid() && 0 < target.top
    modifies target, victim, target.Repr, victim.Repr, target.pool
    ensures target.Valid() && Apart(target, victim)
    ensures if over then Ended(target, victim, mayFail, r) else victim.Valid()
    ensures victim.Repr == old(victim.Repr) && old(target.Repr) <= target.Repr && fresh(target.Repr - old(target.Repr))
    ensures target.Map() + victim.Map() == old(target.Map() + victim.Map())
    ensures !over ==> |victim.Map()| < old(|victim.Map()|)
    ensures target.pool.refused == old(target.pool.refused) + if over && r.NoMemory? then 1 else 0
  {
    hide *;
    ApartIs(target, victim);
    var v;
    v, key := victim.Last(keyIn);
    ApartIs(target, victim);
    if v == Nul {
      EndedIs(target, victim, mayFail, Done);
      return true, Done, key;
    }
    Fewer(victim.Map(), key);
    r := MoveLast(target, victim, key, mayFail, words);
    EndedIs(target, victim, mayFail, r);
    over := r != Done;
  }
}
