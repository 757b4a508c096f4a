/**
 btree.c: an in-memory B+tree with nodes that are packed to the left, keys in
 descending order and no key stealing between neighbours.
 */
module BTree {
  import opened BTreeLevels
  import opened BTreeEdits
  import opened BTreeSteps
  import opened BTreeMixed
  import opened BTreePaths
  import opened BTreeNode
  import opened BTreeMemory
  import opened BTreeInsertion
  import opened BTreeRemoval
  import opened BTreeQueries

  /** `Fault` stands for an access outside the node, behind which nothing is claimed. */
  datatype RemoveResult = Gone(val: Slot) | Fault

  /**
   The words of a node behind its keys: `spell` is the key that the first value
   words of a full node spell, `spare` whether a cleared word is left behind the values.
   */
  datatype Layout = Layout(spell: seq<Slot> -> nat, spare: bool)

  /** A key argument: a copy, or a pointer to a key slot inside a node. */
  datatype KeyRef = Own(k: nat) | At(a: array<Pair>, i: nat)

  function ReadKey(kr: KeyRef): nat
    requires kr.At? ==> kr.i < kr.a.Length
    reads if kr.At? then {kr.a} else {}
  {
    match kr
    case Own(k) => k
    case At(a, i) => a[i].key
  }

  /** The memory pool that nodes come from. */
  class Pool {
    /** How often it has answered NULL. */
    ghost var refused: nat

    constructor ()
      ensures refused == 0
    {
      refused := 0;
    }

    /** A cleared node, or NULL, which only a pool that may fail answers. */
    method Take(n: nat, mayFail: bool) returns (x: array?<Pair>)
      modifies this
      ensures refused == old(refused) + if x == null then 1 else 0
      ensures !mayFail ==> x != null
      ensures x != null ==> fresh(x) && x.Length == n && Holds(x, [])
    {
      var fails := *;
      if mayFail && fails {
        refused := refused + 1;
        return null;
      }
      x := new Pair[n](_ => EMPTY);
    }
  }

  class BTreeHead {
    var node: array?<Pair>
    var height: nat
    const n: nat          // geo->no_pairs
    const top: nat        // one more than the largest key (all words ones)
    const pool: Pool
    ghost var lv: seq<Level>
    ghost var Repr: Nodes

    ghost predicate Mem()
      reads this, Repr
    {
      && n >= 4
      && height == |lv|
      && Stored(lv, Repr, n)
      && Distinct(lv)
    }

    /** head->node is the one node of the highest level. */
    ghost predicate RootIs()
      reads this
    {
      && height == |lv|
      && (height == 0 <==> node == null)
      && (height > 0 ==> |lv[height-1]| == 1 && lv[height-1][0].ref == node)
    }

    lemma MemAt(i: nat, j: nat)
      requires Mem() && i < |lv| && j < |lv[i]|
      ensures lv[i][j].ref in Repr && lv[i][j].ref.Length == n && Holds(lv[i][j].ref, lv[i][j].es)
      ensures |lv[i][j].es| <= n && n >= 4 && height == |lv|
    {
      hide Holds, Distinct;
      StoredAt(lv, Repr, n, i, j);
      HoldsLen(lv[i][j].ref, lv[i][j].es);
    }

    /** The levels change only if all separators of the node are larger than the key. */
    ghost predicate SteppedDown(before: seq<Level>, after: seq<Level>, h: nat, j: nat, key: nat)
    {
      && 0 < h < |before| && j < |before[h]| && before[h][j].es != []
      && var es := before[h][j].es;
         if FirstLe(es, key) < |es| then after == before
         else Off(before[h], j) + |es| <= |before[h-1]| && after == Lowered(before, h - 1, j, key)
    }

    /** One level of find_level: go to the child for key, lowering the last separator if all are larger. */
    method Descend(key: nat, x: array<Pair>, ghost h: nat, ghost j: nat, ghost b: nat)
      returns (child: array<Pair>, ghost k: nat)
      requires Mem() && b < h < |lv| && Wf(lv, b, n, top) && Cov(lv, h, j, key)
      requires x == lv[h][j].ref && lv[h][j].es != []
      modifies this`lv, x
      ensures Mem() && Wf(lv, b, n, top)
      ensures Cov(lv, h - 1, k, key) && child == lv[h-1][k].ref
      ensures SteppedDown(old(lv), lv, h, j, key)
    {
      hide Holds, Stored, StoredBut, Distinct, Wf, FirstLe, Lowered, Cov, LowerNode, Off;
      CovAt(lv, h, j, key);
      ghost var es, last := lv[h][j].es, |lv[h][j].es| - 1;
      MemAt(h, j);
      WfLevel(lv, b, n, top, h);
      WfLevel(lv, b, n, top, h - 1);
      var i := GetPos(x, key, es);
      if i < |es| { SlotChild(lv, b, n, top, h, j, i); }
      if i < n { HoldsAt(x, es, i); }
      if i == n || x[i].val == Nul {
        i := i - 1;
        SlotChild(lv, b, n, top, h, j, i);
        NotFound(es, key);
        LowerWf(lv, h - 1, n, top, j, key, b);
        LowerEs(lv[h][j], key);
        StoredForget(lv, Repr, n, x);
        SetKey(x, i, key, es);
        LoweredStored(lv, Repr, n, h - 1, j, key);
        k := Off(lv[h], j) + last;
        LoweredAt(lv, h - 1, j, key, k);
        HoldsAt(x, es[i := Pair(key, es[i].val)], i);
        lv := Lowered(lv, h - 1, j, key);
      } else {
        k := StepDown(lv, h - 1, n, top, j, key);
      }
      child := x[i].val.node;
    }

    lemma RootAt()
      requires RootIs()
      ensures height == |lv| && (height == 0 <==> node == null)
      ensures height > 0 ==> |lv[height-1]| == 1 && lv[height-1][0].ref == node
    {
    }

    /** find_level (levels counted from 0): j0 is a node that already covers the key, if any. */
    method FindLevel(key: nat, level: nat, ghost j0: nat) returns (x: array<Pair>, ghost j: nat)
      requires Mem() && RootIs() && level < height && Wf(lv, level, n, top) && key < top
      requires level + 1 < |lv| ==> lv[|lv|-1][0].es != []
      modifies this`lv, Repr
      ensures Mem() && RootIs() && Wf(lv, level, n, top)
      ensures Cov(lv, level, j, key) && x == lv[level][j].ref
      ensures Descended(old(lv), lv, level)
      ensures Cov(old(lv), level, j0, key) ==> lv == old(lv) && j == j0
    {
      hide Holds, Stored, Distinct, Wf, FirstLe, Lowered, Cov, Shape, Descended, Off;
      RootAt();
      x := node;
      var h := height - 1;
      j := 0;
      TopCov(lv, level, n, top, key);
      DescendedRefl(lv, h);
      while h > level
        invariant level <= h < |lv| == height
        invariant Mem() && RootIs() && Wf(lv, level, n, top)
        invariant Cov(lv, h, j, key) && j < |lv[h]| && x == lv[h][j].ref
        invariant level + 1 < |lv| ==> lv[|lv|-1][0].es != []
        invariant Descended(old(lv), lv, h)
        invariant Cov(old(lv), level, j0, key) ==> lv == old(lv)
      {
        CovAt(lv, h, j, key);
        NodeNonEmpty(lv, level, n, top, h, j);
        MemAt(h, j);
        if Cov(lv, level, j0, key) { Forced(lv, level, n, top, j0, key, h, j); }
        ghost var r, jj := lv, j;
        x, j := Descend(key, x, h, j, level);
        if lv == r { DescendedStay(old(lv), lv, h); } else { DescendedLower(old(lv), r, h, jj, key); }
        DescendedRoot(old(lv), lv, h - 1);
        h := h - 1;
        CovAt(lv, h, j, key);
      }
      if Cov(old(lv), level, j0, key) {
        WfLevel(lv, level, n, top, level);
        CovUnique(lv, level, n, j, j0, key);
      }
    }

    // -------------------------------------------------------------- insertion

    /** btree_node_alloc: a cleared node, or null if the pool may fail and does. */
    method NodeAlloc(mayFail: bool) returns (x: array?<Pair>)
      modifies pool
      ensures pool.refused == old(pool.refused) + if x == null then 1 else 0
      ensures !mayFail ==> x != null
      ensures x != null ==> fresh(x) && x.Length == n && Holds(x, [])
    {
      x := pool.Take(n, mayFail);
    }

    /** btree_grow: a new root above the old one, with the old root's last key as separator. */
    method Grow(mayFail: bool) returns (err: bool)
      requires Mem() && RootIs()
      requires height > 0 ==> Wf(lv, height - 1, n, top) && lv[height-1][0].es != []
      modifies this`node, this`height, this`lv, this`Repr, pool
      ensures pool.refused == old(pool.refused) + if err then 1 else 0
      ensures err ==> mayFail && lv == old(lv) && Repr == old(Repr) && node == old(node) && height == old(height)
      ensures !err ==> height == |lv| == old(height) + 1 && node != null && lv[..old(height)] == old(lv)
      ensures !err ==> lv[old(height)] == [NodeG(node, 0, top, Above(old(lv)))]
      ensures Mem() && RootIs() && fresh(Repr - old(Repr)) && old(Repr) <= Repr
    {
      hide Holds, Distinct, Stored, Wf;
      var x := NodeAlloc(mayFail);
      if x == null {
        return true;
      }
      ghost var es := Above(lv);
      if node != null {
        MemAt(height - 1, 0);
        var fill := GetFill(node, 0, lv[height-1][0].es) by { RootFull(); }
        HoldsAt(node, lv[height-1][0].es, fill - 1);
        x[0] := Pair(node[fill-1].key, Child(node));
      }
      assert Holds(x, es) by { GrownHolds(x, es); }
      NewLevel(lv, Repr, n, x, es, top);
      Repr := Repr + {x};
      lv := lv + [[NodeG(x, 0, top, es)]];
      node := x;
      height := height + 1;
      return false;
    }

    /** The tree is well formed from level l up to the root. */
    ghost predicate Sound(l: nat)
      reads this, Repr
    {
      && Mem() && RootIs()
      && Wf(lv, l, n, top)
      && (l + 1 < |lv| ==> RootWide(lv, n))
      && (Sturdy(n) ==> MixedTree(lv, l, n))
    }

    lemma SoundAt(l: nat)
      requires Sound(l)
      ensures Mem() && RootIs() && l < height == |lv| && n >= 4
      ensures Wf(lv, l, n, top) && (l + 1 < |lv| ==> RootWide(lv, n)) && (Sturdy(n) ==> MixedTree(lv, l, n))
    {
      hide Stored, Distinct, LevelOk, Link, NonEmpty, Outline, MixedTree, RootWide;
    }

    lemma SoundDescended(old_lv: seq<Level>, l: nat)
      requires Mem() && RootIs() && Wf(lv, l, n, top)
      requires Descended(old_lv, lv, l) && |old_lv[|old_lv|-1]| > 0
      requires l + 1 < |old_lv| ==> RootWide(old_lv, n)
      requires Sturdy(n) ==> MixedTree(old_lv, l, n)
      ensures Sound(l)
      ensures Outline(lv[l]) == Outline(old_lv[l])
    {
      hide Stored, Distinct, LevelOk, Link, NonEmpty, Outline, MixedTree, Wf, Shape, LoOnly;
      DescendedRoot(old_lv, lv, l);
      LoOnlyOutline(old_lv[l], lv[l]);
      if Sturdy(n) { ShapeMixed(old_lv, lv, l, n); }
    }

    /** The search part of btree_insert_level: node, position and fill. */
    method Locate(key: nat, l: nat, ghost w: seq<nat>) returns (x: array<Pair>, pos: nat, fill: nat, ghost j: nat)
      requires Sound(l) && key < top
      requires Sturdy(n) ==> |w| == |Outline(lv[l])| && AllMixed(lv[l], w, n)
      modifies this`lv, Repr
      ensures Sound(l) && Descended(old(lv), lv, l)
      ensures Cov(lv, l, j, key) && x == lv[l][j].ref
      ensures pos == FirstLe(lv[l][j].es, key) && fill == |lv[l][j].es|
      ensures Outline(lv[l]) == Outline(old(lv)[l])
      ensures Sturdy(n) ==> |w| == |Outline(lv[l])| && AllMixed(lv[l], w, n)
    {
      hide Mem, RootIs, Sound, Holds, Wf, Cov, Descended, MixedTree, AllMixed, Outline, RootWide, FirstLe;
      SoundAt(l);
      RootAt();
      if l + 1 < |lv| { RootWideAt(lv, n); }
      x, j := FindLevel(key, l, 0);
      SoundDescended(old(lv), l);
      CovAt(lv, l, j, key);
      MemAt(l, j);
      NodeFull(lv, l, n, top, j);
      pos := GetPos(x, key, lv[l][j].es);
      fill := GetFill(x, pos, lv[l][j].es);
      DescendedMixed(old(lv), lv, l, w, n);
    }

    /** The end of btree_insert_level: shift and store in a node with room. */
    method InsertHere(key: nat, val: Slot, l: nat, x: array<Pair>, pos: nat, fill: nat, ghost j: nat)
      requires Sound(l) && Cov(lv, l, j, key) && x == lv[l][j].ref && val != Nul
      requires pos == FirstLe(lv[l][j].es, key) && fill == |lv[l][j].es| < n
      requires pos < fill ==> lv[l][j].es[pos].key != key
      requires fill == 0 ==> |lv| == 1
      modifies this`lv, x
      ensures lv == Put(old(lv), l, j, InsAt(old(lv)[l][j].es, pos, Pair(key, val)))
      ensures Sound(l) && (|lv| > 1 ==> RootWide(lv, n))
    {
      hide Mem, RootIs, Sound, Holds, Wf, Cov, MixedTree, Outline, RootWide, FirstLe, Put, InsAt, Stored, StoredBut,
        Distinct, LevelOk, Replace;
      SoundAt(l);
      CovAt(lv, l, j, key);
      MemAt(l, j);
      ghost var es := InsAt(lv[l][j].es, pos, Pair(key, val));
      WfLevel(lv, l, n, top, l);
      LevelInsert(lv[l], n, j, pos, key, val);
      WfStore(lv, l, n, top, j, es);
      PutDef(lv, l, j, es);
      if Sturdy(n) { InsertMixed(lv, l, j, es, n); }
      StoredForget(lv, Repr, n, x) by { MemDef(); }
      assert Distinct(lv) by { MemDef(); }
      ShiftInsert(x, pos, fill, key, val, lv[l][j].es);
      PutStored(lv, Repr, n, l, j, es);
      PutRoot(lv, l, j, es, n);
      RootAt();
      lv := Put(lv, l, j, es);
      MemIntro();
      RootIntro();
      SoundIntro(l);
    }

    lemma MemDef()
      requires Mem()
      ensures n >= 4 && height == |lv| && Stored(lv, Repr, n) && Distinct(lv)
    {
      hide Stored, Distinct;
    }

    lemma MemIntro()
      requires n >= 4 && height == |lv| && Stored(lv, Repr, n) && Distinct(lv)
      ensures Mem()
    {
      hide Stored, Distinct;
    }

    lemma RootIntro()
      requires height == |lv| && (height == 0 <==> node == null)
      requires height > 0 ==> |lv[height-1]| == 1 && lv[height-1][0].ref == node
      ensures RootIs()
    {
    }

    lemma SoundIntro(l: nat)
      requires Mem() && RootIs() && Wf(lv, l, n, top)
      requires l + 1 < |lv| ==> RootWide(lv, n)
      requires Sturdy(n) ==> MixedTree(lv, l, n)
      ensures Sound(l)
    {
      hide Mem, RootIs, Wf, RootWide, MixedTree;
    }
    /** The split in btree_insert_level: link an empty sibling into the parent, then move half of the pairs. */
    method SplitNode(l: nat, x: array<Pair>, fill: nat, mayFail: bool, ghost j: nat, ghost w: seq<nat>, ghost key: nat)
      returns (err: bool)
      requires Sound(l) && Cov(lv, l, j, key) && x == lv[l][j].ref && |lv[l][j].es| == fill == n
      requires Sturdy(n) ==> |w| == |Outline(lv[l])| && AllMixed(lv[l], w, n)
      modifies this`node, this`height, this`lv, this`Repr, Repr, pool
      ensures pool.refused == old(pool.refused) + if err then 1 else 0
      ensures Sound(l) && fresh(Repr - old(Repr)) && old(Repr) <= Repr
      ensures err ==> mayFail && Descended(old(lv), lv, l)
      ensures !err ==> |old(lv)| <= |lv| && l + 1 < |lv| && RootWide(lv, n)
      ensures !err ==> lv[..l] == old(lv)[..l] && Outline(lv[l]) == Outline(old(lv)[l])
      ensures !err ==> HalfDone(lv[l], j, key, n)
      ensures !err && Sturdy(n) ==> |w| == |Outline(lv[l])| && AllMixed(lv[l], w, n)
      decreases |lv| - l, 2
    {
      hide *;
      SoundAt(l);
      CovAt(lv, l, j, key);
      RootAt();
      var nw := NodeAlloc(mayFail);
      if nw == null {
        DescendedRefl(lv, l);
        return true;
      }
      ghost var lv0, h := lv, fill / 2;
      ghost var es := lv[l][j].es;
      ItemsUnder(lv, l, n, top, j);
      ghost var O := Items(lv, l + 1, top);
      WfLevel(lv, l, n, top, l);
      MidInside(lv[l], j, O, h, n);
      MemAt(l, j);
      HoldsAt(x, es, fill / 2 - 1);
      HiTop(lv, l, n, top, j);
      ItemsLen(lv, l, n, top, j);
      NextLevel(l, j, n - h);
      err := InsertLevel(x[fill/2-1].key, Child(nw), l + 1, mayFail, j, Sizes(lv[l])[j := n - h], h);
      if err {
        SplitFailed(lv0, l, j);
        return true;
      }
      assert lv[l] == lv0[l] by { assert lv[..l+1][l] == lv0[..l+1][l]; }
      SoundAt(l + 1);
      FinishSplit(l, x, nw, fill, lv0, j, O, w, key);
      return false;
    }

    /** The parent already lists the empty node nw: move the first half of x's pairs to it. */
    method FinishSplit(l: nat, x: array<Pair>, nw: array<Pair>, fill: nat,
                       ghost lv0: seq<Level>, ghost j: nat, ghost O: seq<Iv>, ghost w: seq<nat>, ghost key: nat)
      requires l + 1 < |lv| && Sound(l + 1) && RootWide(lv, n)
      requires l < |lv0| && lv[..l+1] == lv0[..l+1] && Wf(lv0, l, n, top) && Cov(lv0, l, j, key)
      requires x == lv[l][j].ref && |lv[l][j].es| == fill == n && nw !in Repr && nw.Length == n && Holds(nw, [])
      requires Under(lv[l], j, O) && Outline(lv[l+1]) == InsBefore(O, j, lv[l][j].es[fill/2-1].key, Child(nw))
      requires Sturdy(n) ==>
        && |Outline(lv[l+1])| == |lv[l]| + 1
        && AllMixed(lv[l+1], InsAt<nat>(Sizes(lv[l])[j := n - fill / 2], j, fill / 2), n)
      requires Sturdy(n) ==> |w| == |Outline(lv[l])| && AllMixed(lv[l], w, n)
      modifies this`lv, this`Repr, x, nw
      ensures Repr == old(Repr) + {nw} && |lv| == |old(lv)|
      ensures Sound(l) && RootWide(lv, n) && lv[..l] == lv0[..l] && Outline(lv[l]) == Outline(lv0[l])
      ensures HalfDone(lv[l], j, key, n)
      ensures Sturdy(n) ==> |w| == |Outline(lv[l])| && AllMixed(lv[l], w, n)
    {
      hide *;
      UnderLen(lv[l], j, O);
      ghost var h, lo := fill / 2, O[j].lo;
      assert lv[l] == lv0[l] by { assert lv[..l+1][l] == lv0[..l+1][l]; }
      assert lv[..l] == lv0[..l] by { assert lv[..l+1][..l] == lv[..l] && lv0[..l+1][..l] == lv0[..l]; }
      SoundAt(l + 1);
      RootAt();
      MemAt(l, j);
      MemDef();
      StoredForget(lv, Repr, n, x);
      MoveHalf(x, nw, fill, lv[l][j].es);
      SplitStored(lv, Repr, n, l, j, h, nw, lo);
      SplitDistinct(lv, Repr, n, l, j, h, nw, lo);
      SplitGhost(lv0, lv, l, n, top, j, h, nw, O, w, key);
      RootWideSet(lv, l, Split(lv[l], j, h, nw, lo), n);
      Repr := Repr + {nw};
      lv := lv[l := Split(lv[l], j, h, nw, lo)];
      MemIntro();
      RootIntro();
      SoundIntro(l);
    }

    lemma SoundUp(l: nat)
      requires Sound(l) && l + 1 < |lv|
      ensures Sound(l + 1)
    {
      hide Mem, RootIs, RootWide, Wf, AllMixed, Outline;
      SoundAt(l);
      WfUp(lv, l, n, top);
      assert Sturdy(n) ==> MixedTree(lv, l + 1, n);
    }

    /** What the level above the split needs. */
    lemma NextLevel(l: nat, j: nat, s: nat)
      requires Sound(l) && j < |lv[l]| && |lv[l][j].es| == n && s == n - n / 2
      ensures l + 1 < |lv| ==> Sound(l + 1)
      ensures Sturdy(n) && l + 1 < |lv| ==> |Outline(lv[l+1])| == |lv[l]| && AllMixed(lv[l+1], Sizes(lv[l])[j := s], n)
      ensures n >= 4
    {
      hide *;
      SoundAt(l);
      if l + 1 < |lv| {
        SoundUp(l);
        if Sturdy(n) { SplitWeights(lv, l, j, n / 2, n); }
      }
    }

    /** A failed split: only separators above were lowered. */
    lemma SplitFailed(lv0: seq<Level>, l: nat, j: nat)
      requires Mem() && RootIs() && l < |lv0|
      requires Wf(lv0, l, n, top) && (l + 1 < |lv0| ==> RootWide(lv0, n)) && (Sturdy(n) ==> MixedTree(lv0, l, n))
      requires if l + 1 < |lv0| then Sound(l + 1) && Descended(lv0, lv, l + 1) else lv == lv0
      ensures Sound(l) && Descended(lv0, lv, l)
    {
      hide Mem, RootIs, Sound, Wf, RootWide, MixedTree, Descended;
      if l + 1 < |lv0| {
        SoundAt(l + 1);
        AfterFailure(lv0, lv, l, n, top);
        RootOne(lv0, l, n, top);
        SoundDescended(lv0, l);
      } else {
        DescendedRefl(lv, l);
        SoundIntro(l);
      }
    }

    /** btree_insert_level (levels counted from 0). */
    method InsertLevel(key: nat, val: Slot, l: nat, mayFail: bool, ghost q: nat, ghost w: seq<nat>, ghost v: nat)
      returns (err: bool)
      requires Mem() && RootIs() && l <= height && key < top && val != Nul
      requires l < height ==> Sound(l)
      requires l == height > 0 ==> Wf(lv, height - 1, n, top) && lv[height-1][0].es != []
      requires l > 0 ==> q < |Items(lv, l, top)| && Items(lv, l, top)[q].lo < key < Items(lv, l, top)[q].hi
      requires l == 0 ==> key !in Content(lv)
      requires Sturdy(n) ==> |w| == |Items(lv, l, top)| && v != 1 && (l < height ==> AllMixed(lv[l], w, n))
      modifies this`node, this`height, this`lv, this`Repr, Repr, pool
      ensures Mem() && RootIs() && fresh(Repr - old(Repr)) && old(Repr) <= Repr
      ensures err ==> mayFail && (if l < |old(lv)| then Sound(l) && Descended(old(lv), lv, l) else lv == old(lv))
      ensures !err ==> Sound(l) && |old(lv)| <= |lv| && lv[..l] == old(lv)[..l]
      ensures !err && |lv| > 1 ==> RootWide(lv, n)
      ensures !err && l > 0 ==> Outline(lv[l]) == InsBefore(Items(old(lv), l, top), q, key, val)
      ensures !err && l == 0 ==> Content(lv) == Content(old(lv))[key := val]
      ensures !err && l > 0 && Sturdy(n) ==> |Outline(lv[l])| == |w| + 1 && AllMixed(lv[l], InsAt<nat>(w, q, v), n)
      ensures pool.refused == old(pool.refused) + if err then 1 else 0
      ensures err || Repr != old(Repr) ==> CrampedIn(old(lv), l, key, n)
      decreases |lv| + 1 - l, 1
    {
      hide *;
      RootAt();
      MemDef();
      ghost var items := Items(lv, l, top);
      ItemsIn(lv, l, top);
      if height <= l {
        CrampedNone(lv, l, key, n);
        err := Grow(mayFail);
        if err {
          return true;
        }
        GrownSound(old(lv), l, w);
      }
      ghost var halved, jj := false, 0;
      while true
        invariant Sound(l) && fresh(Repr - old(Repr)) && old(Repr) <= Repr && pool.refused == old(pool.refused)
        invariant |old(lv)| <= |lv| && l < |lv| && lv[..l] == old(lv)[..l]
        invariant Outline(lv[l]) == items
        invariant Sturdy(n) ==> |w| == |Outline(lv[l])| && AllMixed(lv[l], w, n)
        invariant !halved && l < |old(lv)| ==> lv == old(lv) && Repr == old(Repr)
        invariant halved || l >= |old(lv)| ==> CrampedIn(old(lv), l, key, n)
        invariant !halved && l >= |old(lv)| ==> |lv| == l + 1 && |lv[l]| == 1 && SmallRoot(lv[l], |old(lv)|)
        invariant halved ==> l + 1 < |lv| && HalfDone(lv[l], jj, key, n)
        decreases if halved then 0 else 1
      {
        SoundAt(l);
        ghost var before := lv;
        var x, pos, fill, j := Locate(key, l, w);
        ghost var found := lv;
        DescendedAt(before, lv, l);
        SoundAt(l);
        RoomLeft(before[l], l, j, key, jj, halved, |old(lv)|);
        if fill == n {
          CovAt(lv, l, j, key);
          FullFound(before, l, j, key);
          err := SplitNode(l, x, fill, mayFail, j, w, key);
          if err {
            DescendedTrans(before, found, lv, l);
            SoundAt(l);
            return true;
          }
          halved, jj := true, j;
        } else {
          PlaceFound(l, j, key, val, q, old(lv));
          CovAt(lv, l, j, key);
          MemAt(l, j);
          InsertHere(key, val, l, x, pos, fill, j);
          SoundAt(l);
          Inserted(found, l, j, pos, key, val, q, w, v, n);
          return false;
        }
      }
    }

    /** The search of btree_insert_level has ended in a full node. */
    lemma FullFound(lv0: seq<Level>, l: nat, j: nat, key: nat)
      requires Sound(l) && Descended(lv0, lv, l) && Cov(lv, l, j, key) && j < |lv[l]| && |lv[l][j].es| == n
      ensures CrampedIn(lv0, l, key, n)
    {
      hide *;
      SoundAt(l);
      CovAt(lv, l, j, key);
      DescendedAt(lv0, lv, l);
      WfLevel(lv, l, n, top, l);
      CrampedAt(lv0, lv, l, n, j, key);
    }

    /** The new root right after btree_grow. */
    lemma GrownSound(lv0: seq<Level>, l: nat, w: seq<nat>)
      requires Mem() && RootIs() && l == |lv0| && |lv| == l + 1 && node != null
      requires l > 0 ==> Wf(lv0, l - 1, n, top) && |lv0[l-1]| == 1 && lv0[l-1][0].es != []
      requires lv[l] == [NodeG(node, 0, top, Above(lv0))]
      requires Sturdy(n) ==> |w| == |Items(lv0, l, top)|
      ensures Sound(l) && Outline(lv[l]) == Items(lv0, l, top) && SmallRoot(lv[l], l)
      ensures Sturdy(n) ==> |w| == |Outline(lv[l])| && AllMixed(lv[l], w, n)
    {
      hide Mem, RootIs, Wf, MixedTree, AllMixed, Outline, Items;
      MemDef();
      GrownWf(lv0, lv, n, top, Above(lv0));
      SoundIntro(l);
      if Sturdy(n) { AllSmall(lv[l][0], w, n); }
    }

    /** After a split at this level, or in a new root, the node found has room. */
    lemma RoomLeft(L: Level, l: nat, j: nat, key: nat, jj: nat, halved: bool, h: nat)
      requires Sound(l) && Cov(lv, l, j, key) && LoOnly(L, lv[l])
      requires halved ==> HalfDone(L, jj, key, n)
      requires !halved && h <= l ==> SmallRoot(L, h)
      ensures halved || h <= l ==> |lv[l][j].es| < n
    {
      hide *;
      SoundAt(l);
      CovAt(lv, l, j, key);
      if halved {
        HalfDoneLo(L, lv[l], jj, key, n);
        HalfDoneRoom(lv, l, n, top, jj, key, j);
      } else if h <= l {
        SmallRootLo(L, lv[l], h, j);
      }
    }

    /** The pair goes in front of slot q, or its key is absent from the leaf. */
    lemma PlaceFound(l: nat, j: nat, key: nat, val: Slot, q: nat, lv0: seq<Level>)
      requires Sound(l) && Cov(lv, l, j, key) && l <= |lv0|
      requires l == |lv0| > 0 ==> |lv0[l-1]| == 1 && lv0[l-1][0].es != []
      requires Outline(lv[l]) == Items(lv0, l, top)
      requires l > 0 ==> q < |Outline(lv[l])| && Outline(lv[l])[q].lo < key < Outline(lv[l])[q].hi
      requires l == 0 ==> key !in Content(lv0)
      ensures l == 0 ==> Content(lv) == Content(lv0)
      ensures var es := lv[l][j].es; var pos := FirstLe(es, key);
        && (pos < |es| ==> es[pos].key != key)
        && (es == [] ==> |lv| == 1)
        && (l > 0 ==> pos < |es| && q == Off(lv[l], j) + pos)
    {
      hide *;
      SoundAt(l);
      CovAt(lv, l, j, key);
      if l > 0 {
        InsertPlace(lv, l, n, top, j, key, q);
      } else {
        SameContent(lv0, lv, top);
        var pos := FirstLe(lv[0][j].es, key);
        if pos < |lv[0][j].es| { AbsentHere(lv, n, top, j, key, pos); }
        if 1 < |lv| { NodeNonEmpty(lv, 0, n, top, 0, j); }
      }
    }

    // -------------------------------------------------------------- removal

    /** btree_shrink: the only child of an interior root becomes the root. */
    method Shrink()
      requires Mem() && RootIs() && height > 1 && Wf(lv, height - 1, n, top)
      requires |lv[height-1][0].es| == 1 && lv[height-1][0].es[0].val.Child?
      modifies this`node, this`height, this`lv
      ensures Mem() && lv == old(lv)[..|old(lv)|-1] && node != null && Child(node) == old(lv)[|old(lv)|-1][0].es[0].val
    {
      hide *;
      RootAt();
      MemDef();
      MemAt(height - 1, 0);
      RootFull();
      var fill := GetFill(node, 0, lv[height-1][0].es);
      HoldsAt(node, lv[height-1][0].es, 0);
      DistinctPrefix(lv, Repr, n, height - 1);
      node := node[0].val.node;
      height := height - 1;
      lv := lv[..|lv|-1];
      MemIntro();
    }

    /** Replace level l by the surviving nodes M (all but node c) and give them their new intervals. */
    ghost method Rebuild(l: nat, c: nat, M: Level, w: seq<nat>)
      requires Mem() && l < |lv| && c < |lv[l]| && SameNodes(Replace(lv[l], c, []), M)
      requires l + 1 == |lv| ==> M != []
      requires LevelOk(M, n) && Widens(M, Ceiling(lv, l, M, top))
      requires l + 1 < |lv| ==> RootIs() && Wf(lv, l + 1, n, top) && NonEmpty(M)
      requires l + 1 < |lv| ==> RootEmpty(lv) || RootWide(lv, n)
      requires l + 1 == |lv| ==>
          |M| == 1 && M[0].hi <= top && node == M[0].ref && M[0].es != []
          && (Sturdy(n) ==> |M[0].es| >= 2)
      requires Sturdy(n) && l + 1 < |lv| ==>
        MixedTree(lv, l + 1, n) && |M| == |Outline(lv[l+1])| && AllMixed(lv[l+1], Sizes(M), n)
      requires Sturdy(n) ==> |w| == |Outline(M)| && AllMixed(M, w, n)
      modifies this`lv
      ensures Mem() && RootIs() && Wf(lv, l, n, top) && |lv| == |old(lv)| && lv[..l] == old(lv)[..l]
      ensures Grew(Outline(M), Outline(lv[l])) && |lv[l]| == |M|
      ensures Sturdy(n) ==> MixedTree(lv, l, n) && |w| == |Outline(lv[l])| && AllMixed(lv[l], w, n)
      ensures RootEmpty(lv) <==> l + 1 < |lv| && old(RootEmpty(lv))
      ensures RootEmpty(lv) || RootWide(lv, n)
    {
      hide *;
      MemDef();
      ghost var C := Ceiling(lv, l, M, top);
      RelinkWf(lv, l, M, n, top);
      RelinkSame(M, C);
      SameNodesTrans(Replace(lv[l], c, []), M, Relink(M, C));
      SkipStored(lv, Repr, n, l, c, Relink(M, C));
      if Sturdy(n) { RelinkMixed(lv, l, M, C, w, n); }
      if l + 1 < |lv| { RootAt(); RootKept(lv, l, Relink(M, C), n); } else { RootNew(lv, l, M, Relink(M, C), n); }
      lv := lv[l := Relink(M, C)];
      MemIntro();
      RootIntro();
    }
    /** Level l is linked below level l+1, but node c has just lost a pair and may be empty. */
    ghost predicate Reduced(l: nat, c: nat)
      reads this, Repr
    {
      && l + 1 < |lv| && Sound(l + 1) && RootWide(lv, n)
      && LevelOk(lv[l], n) && Link(lv[l], Outline(lv[l+1])) && c < |lv[l]|
      && (forall k :: 0 <= k < |lv[l]| && k != c ==> lv[l][k].es != [])
      && (Sturdy(n) ==> |lv[l]| == |Outline(lv[l+1])| && AllMixed(lv[l+1], Sizes(lv[l])[c := |lv[l][c].es| + 1], n))
    }

    lemma ReducedAt(l: nat, c: nat)
      requires Reduced(l, c)
      ensures l + 1 < |lv| && Sound(l + 1) && RootWide(lv, n) && Mem() && RootIs() && height == |lv| && n >= 4
      ensures LevelOk(lv[l], n) && Link(lv[l], Outline(lv[l+1])) && c < |lv[l]| == |Outline(lv[l+1])|
      ensures forall k :: 0 <= k < |lv[l]| && k != c ==> lv[l][k].es != []
      ensures Sturdy(n) ==> MixedTree(lv, l + 1, n) && AllMixed(lv[l+1], Sizes(lv[l])[c := |lv[l][c].es| + 1], n)
      ensures Wf(lv, l + 1, n, top)
    {
      hide Mem, RootIs, Sound, RootWide, LevelOk, Outline, Wf, MixedTree, AllMixed, Sizes;
      SoundAt(l + 1);
    }

    /** Level l is mended: well formed again, with an empty root exactly if `hollow`. */
    ghost predicate Mended(l: nat, w: seq<nat>, hollow: bool)
      reads this, Repr
    {
      && Mem() && RootIs() && Wf(lv, l, n, top)
      && (Sturdy(n) ==> MixedTree(lv, l, n) && |w| == |Outline(lv[l])| && AllMixed(lv[l], w, n))
      && (RootEmpty(lv) <==> hollow)
      && (|lv| > 1 ==> RootEmpty(lv) || RootWide(lv, n))
    }

    /** What btree_remove_level may assume about the pair it removes. */
    ghost predicate Hit(l: nat, j: nat, p: nat, key: nat)
      reads this
    {
      && l < |lv| && j < |lv[l]| && p < |lv[l][j].es|
      && lv[l][j].lo <= key < lv[l][j].hi
      && if l == 0 && key == 0 && lv[l][j].es[p].key > 0
         then p + 1 == |lv[l][j].es| < n
         else
           && lv[l][j].es[p].key <= key && (p > 0 ==> key < lv[l][j].es[p-1].key)
           && (l == 0 ==> lv[l][j].es[p].key == key)
    }

    /** rebalance, first case: the child has become empty, remove its slot from the parent. */
    method DropChild(key: nat, l: nat, ghost j: nat, ghost k: nat, ghost p: nat, ghost w: seq<nat>)
      requires Reduced(l, j) && lv[l][j].es == [] && Cov(lv, l, j, key)
      requires k < |lv[l+1]| && p < |lv[l+1][k].es| && j == Off(lv[l+1], k) + p
      requires Sturdy(n) ==> |w| == |Outline(lv[l])| && AllMixed(lv[l], w, n)
      modifies this`node, this`height, this`lv, Repr
      ensures Repr == old(Repr) && l < |lv| <= |old(lv)| && lv[..l] == old(lv)[..l]
      ensures Grew(Outline(old(lv)[l]), Outline(lv[l])) && |lv[l]| + 1 == |old(lv)[l]|
      ensures Mended(l, w, !Roomy(old(lv), l + 1, k))
      decreases |lv| - l, 1
    {
      hide *;
      ReducedAt(l, j);
      ghost var L, U := lv[l], lv[l+1];
      ghost var M := Replace(L, j, []);
      DropOk(L, j, n);
      DropNonEmpty(L, j);
      OutlineDrop(L, j);
      ghost var w2 := Sizes(M);
      WfLevel(lv, l + 1, n, top, l + 1);
      ParentHit(l, j, k, p, key);
      ReadOwn(key);
      if Sturdy(n) {
        DropWeights(L, j, Sizes(L)[j := 1]);
        AllDropSlot(U, k, p, Sizes(L)[j := 1], n);
      }
      LinkChildren(L, U, n, k);
      ghost var lv0 := lv;
      var r := RemoveLevel(Own(key), l + 1, k, p, false, w2);
      assert lv[l] == L by { assert lv[..l+1][l] == lv0[..l+1][l]; }
      assert lv[..l] == lv0[..l] by { assert lv[..l+1][..l] == lv[..l] && lv0[..l+1][..l] == lv0[..l]; }
      if l + 1 < |lv| {
        DropWidens(L, Outline(U), j, false, Outline(lv[l+1]));
        MendedAt(l + 1, w2, !Roomy(lv0, l + 1, k));
      } else {
        LastDropped(lv0, l, n, top, j, p);
        if Sturdy(n) { LastWide(M, Off(U, k), Off(U, k) + 1); }
        RoomyTop(lv0, l + 1, k);
      }
      SameNodesRefl(M);
      CeilingIs(lv, l, M, top);
      if Sturdy(n) { AllDrop(L, j, w, n); }
      Rebuild(l, j, M, w);
      MendedIntro(l, w, !Roomy(lv0, l + 1, k));
    }

    lemma MendedAt(l: nat, w: seq<nat>, hollow: bool)
      requires Mended(l, w, hollow)
      ensures Mem() && RootIs() && Wf(lv, l, n, top)
      ensures Sturdy(n) ==> MixedTree(lv, l, n) && |w| == |Outline(lv[l])| && AllMixed(lv[l], w, n)
      ensures RootEmpty(lv) <==> hollow
      ensures |lv| > 1 ==> RootEmpty(lv) || RootWide(lv, n)
    {
      hide Mem, RootIs, Wf, MixedTree, AllMixed, Outline, RootEmpty, RootWide;
    }

    lemma MendedIntro(l: nat, w: seq<nat>, hollow: bool)
      requires Mem() && RootIs() && Wf(lv, l, n, top)
      requires Sturdy(n) ==> MixedTree(lv, l, n) && |w| == |Outline(lv[l])| && AllMixed(lv[l], w, n)
      requires RootEmpty(lv) <==> hollow
      requires |lv| > 1 ==> RootEmpty(lv) || RootWide(lv, n)
      ensures Mended(l, w, hollow)
    {
      hide Mem, RootIs, Wf, MixedTree, AllMixed, Outline, RootEmpty, RootWide;
    }

    /** merge, up to the recursive call: move the pairs and exchange the two children in the parent. */
    method MergeMove(l: nat, left: array<Pair>, lfill: nat, right: array<Pair>, rfill: nat, parent: array<Pair>,
        lpos: nat,
                     ghost j: nat, ghost k: nat)
      requires l + 1 < |lv| && Sound(l + 1) && RootWide(lv, n)
      requires j + 1 < |lv[l]| && left == lv[l][j].ref && right == lv[l][j+1].ref
      requires lfill == |lv[l][j].es| && rfill == |lv[l][j+1].es| && lfill + rfill <= n
      requires k < |lv[l+1]| && parent == lv[l+1][k].ref && lpos + 1 < |lv[l+1][k].es|
      requires lv[l+1][k].es[lpos].val == Child(left) && lv[l+1][k].es[lpos+1].val == Child(right)
      modifies this`lv, left, parent
      ensures lv == MergeStart(old(lv), l, j, k, lpos)
      ensures Sound(l + 1) && RootWide(lv, n)
    {
      hide *;
      SoundAt(l + 1);
      MemDef();
      RootAt();
      MemAt(l, j);
      MemAt(l, j + 1);
      MemAt(l + 1, k);
      DistinctAt(lv, l, j, l, j + 1);
      DistinctAt(lv, l, j, l + 1, k);
      DistinctAt(lv, l, j + 1, l + 1, k);
      ghost var ls, rs, ps := lv[l][j].es, lv[l][j+1].es, lv[l+1][k].es;
      ghost var mid := Put(lv, l, j, ls + rs);
      StoredForget(lv, Repr, n, left);
      MoveLeft(left, lfill, right, rfill, ls, rs);
      PutStored(lv, Repr, n, l, j, ls + rs);
      MergeStartPut(lv, l, j, k, lpos);
      StoredForget(mid, Repr, n, parent);
      SetVal(parent, lpos, Child(right), ps);
      SetVal(parent, lpos + 1, Child(left), ps[lpos := Pair(ps[lpos].key, Child(right))]);
      SwapEsIs(ps, lpos, Child(left), Child(right));
      PutStored(mid, Repr, n, l + 1, k, SwapEs(ps, lpos));
      MergeStartWf(lv, l, n, top, j, k, lpos);
      WideKept(lv, MergeStart(lv, l, j, k, lpos), n);
      lv := MergeStart(lv, l, j, k, lpos);
      MemIntro();
      RootIntro();
      SoundIntro(l + 1);
    }

    /** merge: two neighbours become one node. */
    method Merge(l: nat, left: array<Pair>, lfill: nat, right: array<Pair>, rfill: nat, parent: array<Pair>, lpos: nat,
                 ghost j: nat, ghost k: nat, ghost c: nat, ghost w: seq<nat>)
      requires Reduced(l, c) && lv[l][c].es != [] && j + 1 < |lv[l]| && (c == j || c == j + 1)
      requires left == lv[l][j].ref && right == lv[l][j+1].ref
      requires lfill == |lv[l][j].es| && rfill == |lv[l][j+1].es| && lfill + rfill <= n
      requires k < |lv[l+1]| && parent == lv[l+1][k].ref && lpos + 1 < |lv[l+1][k].es| && j == Off(lv[l+1], k) + lpos
      requires Sturdy(n) ==> |w| == |Outline(lv[l])| && AllMixed(lv[l], w, n)
      requires Sturdy(n) ==> Light(lv[l], c, w, n)
      modifies this`node, this`height, this`lv, Repr
      ensures Repr == old(Repr) && l < |lv| <= |old(lv)| && lv[..l] == old(lv)[..l]
      ensures Grew(Outline(old(lv)[l]), Outline(lv[l])) && |lv[l]| + 1 == |old(lv)[l]|
      ensures Mended(l, w, false)
      decreases |lv| - l, 1, 0
    {
      hide *;
      ReducedAt(l, c);
      ghost var lv0, L, U := lv, lv[l], lv[l+1];
      ghost var M := Merged(L, j);
      WfLevel(lv, l + 1, n, top, l + 1);
      MergeParts(L, U, n, j, k, lpos);
      AllFull(L, c);
      MergedNonEmpty(L, j);
      MergeStartUp(lv, l, n, j, k, lpos);
      if Sturdy(n) { MergeMixed(U, k, lpos, L, j, c, n); }
      MemAt(l, j);
      MemAt(l + 1, k);
      MergeMove(l, left, lfill, right, rfill, parent, lpos, j, k);
      MergeRest(l, right, parent, lpos, j, k, c, w, lv0);
      GrewTrans(Outline(L), Outline(M), Outline(lv[l]));
    }

    /** merge, from the recursive call on: the parent loses the slot that now points to the empty node. */
    method MergeRest(l: nat, right: array<Pair>, parent: array<Pair>, lpos: nat,
                     ghost j: nat, ghost k: nat, ghost c: nat, ghost w: seq<nat>, ghost lv0: seq<Level>)
      requires l + 1 < |lv0| && j + 1 < |lv0[l]| && k < |lv0[l+1]| && lpos + 1 < |lv0[l+1][k].es|
      requires lv == MergeStart(lv0, l, j, k, lpos) && Sound(l + 1) && RootWide(lv, n)
      requires Wf(lv0, l + 1, n, top) && j == Off(lv0[l+1], k) + lpos && parent == lv0[l+1][k].ref
      requires LevelOk(lv0[l], n) && NonEmpty(lv0[l]) && Link(lv0[l], Outline(lv0[l+1]))
        && LevelOk(Merged(lv0[l], j), n)
      requires c == j || c == j + 1
      requires Sturdy(n) ==>
        |lv0[l]| == |Outline(lv0[l+1])| && AllMixed(lv0[l+1], Sizes(lv0[l])[c := |lv0[l][c].es| + 1], n)
      requires Sturdy(n) ==> |w| == |Outline(lv0[l])| && AllMixed(lv0[l], w, n)
      requires Sturdy(n) ==> Light(lv0[l], c, w, n)
      modifies this`node, this`height, this`lv, Repr
      ensures Repr == old(Repr) && l < |lv| <= |old(lv)| && lv[..l] == old(lv)[..l]
      ensures Grew(Outline(Merged(lv0[l], j)), Outline(lv[l])) && |lv[l]| + 1 == |lv0[l]|
      ensures Mended(l, w, false)
      decreases |lv| - l, 0
    {
      hide *;
      SoundAt(l + 1);
      ghost var L, U, lv1 := lv0[l], lv0[l+1], lv;
      ghost var M := Merged(L, j);
      WfLevel(lv0, l + 1, n, top, l + 1);
      MergeStartUp(lv0, l, n, j, k, lpos);
      NonEmptyAt(L, j);
      NonEmptyAt(L, j + 1);
      if Sturdy(n) { MergeMixed(U, k, lpos, L, j, c, n); }
      MemAt(l + 1, k);
      SlotKey(lv, l + 1, n, top, k, lpos);
      HoldsAt(parent, lv[l+1][k].es, lpos);
      ReadAt(parent, lpos);
      HitSelf(l + 1, k, lpos);
      OutlineLink(L, U);
      ghost var w2 := Sizes(M);
      LinkChildren(L, U, n, k);
      SwapChildren(U[k].es, lpos);
      var r := RemoveLevel(At(parent, lpos), l + 1, k, lpos, true, w2);
      assert lv[l] == lv1[l] by { assert lv[..l+1][l] == lv1[..l+1][l]; }
      assert lv[..l] == lv1[..l] by { assert lv[..l+1][..l] == lv[..l] && lv1[..l+1][..l] == lv1[..l]; }
      if l + 1 < |lv| {
        MergeWidens(L, Outline(U), j, Outline(lv[l+1]));
        MendedAt(l + 1, w2, !Roomy(lv1, l + 1, k));
      } else {
        LastMerged(lv0, l, n, top, j);
      }
      MergedSkip(L, j);
      MergedNonEmpty(L, j);
      CeilingIs(lv, l, M, top);
      if Sturdy(n) { OffPair(L, j); AllMerge(L, j, w, n); }
      Rebuild(l, j + 1, M, w);
      MendedIntro(l, w, false);
    }

    lemma HitSelf(l: nat, j: nat, p: nat)
      requires 0 < l < |lv| && j < |lv[l]| && p < |lv[l][j].es| && LevelOk(lv[l], n)
      ensures Hit(l, j, p, lv[l][j].es[p].key)
    {
      LevelAt(lv[l], n, j, j);
    }

    lemma ParentHit(l: nat, j: nat, k: nat, p: nat, key: nat)
      requires l + 1 < |lv| && LevelOk(lv[l+1], n) && Link(lv[l], Outline(lv[l+1])) && Cov(lv, l, j, key)
      requires k < |lv[l+1]| && p < |lv[l+1][k].es| && j == Off(lv[l+1], k) + p
      ensures Hit(l + 1, k, p, key)
    {
      hide LevelOk, Link, Outline, Off;
      var m := LinkSlot(lv[l], lv[l+1], n, k, p);
    }

    /** btree_remove_level above the leaves (levels counted from 0). */
    method RemoveLevel(kr: KeyRef, l: nat, ghost j: nat, ghost p: nat, ghost same: bool, ghost w: seq<nat>)
      returns (ret: Slot)
      requires l > 0
      requires Sound(l) && (|lv| > 1 ==> RootWide(lv, n))
      requires kr.At? ==> kr.i < kr.a.Length
      requires Hit(l, j, p, ReadKey(kr)) && (same ==> p + 1 < |lv[l][j].es|)
      requires l > 0 ==> AllChild(lv[l][j].es)
      requires kr.At? ==> l > 0 && same && kr.a == lv[l][j].ref && kr.i == p
      requires Sturdy(n) ==> |w| + 1 == |Outline(lv[l])| && Off(lv[l], j) <= |w|
      requires Sturdy(n) ==> var L := Replace(lv[l], j, [lv[l][j].(es := RemAt(lv[l][j].es, p))]);
        && |Outline(L)| == |w| && AllMixed(L, w, n)
        && (|lv[l][j].es| >= 2 ==> Other(w, Off(lv[l], j), Off(lv[l], j) + |lv[l][j].es| - 1))
      modifies this`node, this`height, this`lv, Repr
      ensures Mem() && Repr == old(Repr) && l <= |lv| <= |old(lv)| && lv[..l] == old(lv)[..l]
      ensures ret == if old(lv)[l][j].es[p].key <= old(ReadKey(kr)) then old(lv)[l][j].es[p].val else Nul
      ensures |lv| > l ==> Mended(l, w, !Roomy(old(lv), l, j))
      ensures |lv| > l ==> Removed(Outline(old(lv)[l]), Off(old(lv)[l], j) + p, same, Outline(lv[l]))
      ensures |lv| == l ==> 0 < l && l + 1 == |old(lv)| && |old(lv)[l]| == 1 && |old(lv)[l][0].es| == 2
      ensures |lv| == l ==> node != null && RemAt(old(lv)[l][0].es, p)[0].val == Child(node)
      decreases |lv| - l, 4
    {
      hide *;
      SoundAt(l);
      HitAt(l, j, p, ReadKey(kr));
      HiTop(lv, l, n, top, j);
      ghost var lv0, key := lv, ReadKey(kr);
      if l + 1 < |lv| { RootWideAt(lv, n); }
      MemAt(l, j);
      ReadRef(kr, lv[l][j].ref, lv[l][j].es);
      var x, jj := FindLevel(ReadKey(kr), l, j);
      MemAt(l, j);
      ReadRef(kr, x, lv[l][j].es);
      WfLevel(lv, l, n, top, l);
      FirstLeIs2(lv[l], n, j, key, p);
      NodeFull(lv, l, n, top, j);
      var pos := GetPos(x, ReadKey(kr), lv[l][j].es);
      var fill := GetFill(x, pos, lv[l][j].es);
      SoundIntro(l);
      ret := RemovePair(kr, l, x, pos, fill, j, p, same, w);
    }

    /** The rest of btree_remove_level: clear the pair, then rebalance or shrink. */
    method RemovePair(kr: KeyRef, l: nat, x: array<Pair>, pos: nat, fill: nat,
                      ghost j: nat, ghost p: nat, ghost same: bool, ghost w: seq<nat>)
      returns (ret: Slot)
      requires Sound(l) && (|lv| > 1 ==> RootWide(lv, n))
      requires kr.At? ==> kr.i < kr.a.Length
      requires Hit(l, j, p, ReadKey(kr)) && (same ==> p + 1 < |lv[l][j].es|)
      requires l > 0 ==> AllChild(lv[l][j].es)
      requires kr.At? ==> l > 0 && same && kr.a == lv[l][j].ref && kr.i == p
      requires Sturdy(n) ==> |w| + 1 == |Outline(lv[l])| && Off(lv[l], j) <= |w|
      requires Sturdy(n) ==> var L := Replace(lv[l], j, [lv[l][j].(es := RemAt(lv[l][j].es, p))]);
        && |Outline(L)| == |w| && AllMixed(L, w, n)
        && (|lv[l][j].es| >= 2 ==> Other(w, Off(lv[l], j), Off(lv[l], j) + |lv[l][j].es| - 1))
      requires x == lv[l][j].ref && fill == |lv[l][j].es| && pos < n
      requires if lv[l][j].es[p].key <= ReadKey(kr) then pos == p else pos == fill
      modifies this`node, this`height, this`lv, Repr
      ensures Mem() && Repr == old(Repr) && l <= |lv| <= |old(lv)| && lv[..l] == old(lv)[..l]
      ensures ret == if old(lv)[l][j].es[p].key <= old(ReadKey(kr)) then old(lv)[l][j].es[p].val else Nul
      ensures |lv| > l ==> Mended(l, w, !Roomy(old(lv), l, j))
      ensures |lv| > l ==> Removed(Outline(old(lv)[l]), Off(old(lv)[l], j) + p, same, Outline(lv[l]))
      ensures |lv| == l ==> 0 < l && l + 1 == |old(lv)| && |old(lv)[l]| == 1 && |old(lv)[l][0].es| == 2
      ensures |lv| == l ==> node != null && RemAt(old(lv)[l][0].es, p)[0].val == Child(node)
      ensures |lv| > l && Goes(old(lv), l, j, fill - 1, n) ==> |lv[l]| + 1 == |old(lv)[l]|
      ensures |lv| > l && !Goes(old(lv), l, j, fill - 1, n) ==> lv == Put(old(lv), l, j, RemAt(old(lv)[l][j].es, p))
      decreases |lv| - l, 3
    {
      hide *;
      SoundAt(l);
      HitAt(l, j, p, ReadKey(kr));
      MemDef();
      RootAt();
      ghost var lv0, es, key := lv, lv[l][j].es, ReadKey(kr);
      MemAt(l, j);
      HoldsAt(x, es, pos);
      EmptySlot();
      ret := x[pos].val;
      ReadRef(kr, x, es);
      WfLevel(lv, l, n, top, l);
      LevelAt(lv[l], n, j, j);
      ClearedLevel(lv, l, n, top, j, p, same);
      if Sturdy(n) { ClearedMixed(lv, l, j, p, n); }
      TopSingle(lv, l, n, top);
      Clear(l, x, pos, fill, j, p);
      PutTail(lv0, l, j, RemAt(es, p));
      RoomyAfter(lv0, lv, l, j);
      RootAt();
      MemAt(l, j);
      GoesIs(lv0, l, j, fill - 1, n);
      if l + 1 < height {
        GoesAfter(lv0, lv, l, j, fill - 1, n);
        PutWide(lv0, l, j, RemAt(es, p), n);
        if fill - 1 < n / 2 {
          MakeReduced(l, lv0, j, p);
          ClearedKey(lv0[l][j], n, p, key, kr, lv[l][j].es, x, same);
          ghost var O := Outline(lv[l]);
          CovIntro(lv, l, j, ReadKey(kr));
          ReplaceOff(lv0[l], j, lv0[l][j].(es := RemAt(es, p)));
          LightIs(lv[l], j, w, n);
          Rebalance(kr, l, x, fill - 1, j, w);
          MendedAt(l, w, !Roomy(lv0, l, j));
          RemovedGrew(Outline(lv0[l]), Off(lv0[l], j) + p, same, O, Outline(lv[l]));
        } else {
          MendedIntro(l, w, !Roomy(lv0, l, j));
        }
      } else {
        ClearedTop(lv0, l, n, j, p);
        if fill - 1 < n / 2 && fill - 1 == 1 && height > 1 {
          RemChildren(es, p);
          ChildAtZero(lv[l][j].es);
          Shrink();
        } else {
          MendedIntro(l, w, !Roomy(lv0, l, j));
        }
      }
    }

    /** The loop of btree_remove_level that shifts and clears. */
    method Clear(l: nat, x: array<Pair>, pos: nat, fill: nat, ghost j: nat, ghost p: nat)
      requires Mem() && RootIs() && l < |lv| && j < |lv[l]| && x == lv[l][j].ref && fill == |lv[l][j].es|
      requires p < fill && pos <= fill && p == if pos < fill then pos else fill - 1
      modifies this`lv, x
      ensures lv == Put(old(lv), l, j, RemAt(old(lv)[l][j].es, p))
      ensures Mem() && RootIs()
    {
      hide *;
      MemDef();
      RootAt();
      MemAt(l, j);
      StoredForget(lv, Repr, n, x);
      ShiftRemove(x, pos, fill, lv[l][j].es);
      PutStored(lv, Repr, n, l, j, RemAt(lv[l][j].es, p));
      PutRoot(lv, l, j, RemAt(lv[l][j].es, p), n);
      lv := Put(lv, l, j, RemAt(lv[l][j].es, p));
      MemIntro();
      RootIntro();
    }

    lemma MakeReduced(l: nat, lv0: seq<Level>, j: nat, p: nat)
      requires Mem() && RootIs() && l + 1 < |lv| == |lv0| && RootWide(lv, n) && Wf(lv, l + 1, n, top)
      requires Wf(lv0, l, n, top) && |lv[l]| == |lv0[l]| && j < |lv[l]|
      requires forall k :: 0 <= k < |lv[l]| && k != j ==> lv[l][k] == lv0[l][k]
      requires LevelOk(lv[l], n) && Link(lv[l], Outline(lv[l+1]))
      requires Sturdy(n) ==>
          MixedTree(lv, l + 1, n) && |lv[l]| == |Outline(lv[l+1])|
          && AllMixed(lv[l+1], Sizes(lv[l])[j := |lv[l][j].es| + 1], n)
      ensures Reduced(l, j)
    {
      hide Mem, RootIs, RootWide, Wf, LevelOk, Link, Outline, MixedTree, AllMixed, Sizes, Sound;
      SoundIntro(l + 1);
      OthersFull(lv0, l, n, top, j);
    }

    /** rebalance: drop an empty child, or merge it with a neighbour if the pairs fit into one node. */
    method Rebalance(kr: KeyRef, l: nat, x: array<Pair>, f: nat, ghost j: nat, ghost w: seq<nat>)
      requires Reduced(l, j) && x == lv[l][j].ref && f == |lv[l][j].es| && f < n / 2
      requires kr.At? ==> kr.i < kr.a.Length && kr.a == x && kr.i < f
      requires Cov(lv, l, j, ReadKey(kr))
      requires Sturdy(n) ==> |w| == |Outline(lv[l])| && AllMixed(lv[l], w, n)
      requires Sturdy(n) && f > 0 ==> Light(lv[l], j, w, n)
      modifies this`node, this`height, this`lv, Repr
      ensures Repr == old(Repr) && l < |lv| <= |old(lv)| && lv[..l] == old(lv)[..l]
      ensures Grew(Outline(old(lv)[l]), Outline(lv[l]))
      ensures Mended(l, w, f == 0 && !Roomy(old(lv), l + 1, ChunkOf(old(lv)[l+1], j)))
      ensures Goes(old(lv), l, j, f, n) ==> |lv[l]| + 1 == |old(lv)[l]|
      ensures !Goes(old(lv), l, j, f, n) ==> lv == old(lv)
      decreases |lv| - l, 2
    {
      hide *;
      ReducedAt(l, j);
      WfLevel(lv, l + 1, n, top, l + 1);
      ghost var k, p := SlotAbove(lv[l], lv[l+1], n, j);
      ghost var key := ReadKey(kr);
      GoesIs(lv, l, j, f, n);
      FitsAt(lv, l, j, f, n, k, p);
      if f == 0 {
        ReadRef(kr, x, lv[l][j].es);
        DropChild(ReadKey(kr), l, j, k, p, w);
        return;
      }
      CovAt(lv, l, j, key);
      HiTop(lv, l + 1, n, top, k);
      NodeFull(lv, l + 1, n, top, k);
      CovIntro(lv, l + 1, k, key);
      RootWideAt(lv, n);
      MemAt(l, j);
      ReadRef(kr, x, lv[l][j].es);
      var parent, kk := FindLevel(ReadKey(kr), l + 1, k);
      MemAt(l, j);
      ReadRef(kr, x, lv[l][j].es);
      MemAt(l + 1, k);
      FirstLeIs2(lv[l+1], n, k, key, p);
      var i := GetPos(parent, ReadKey(kr), lv[l+1][k].es);
      HoldsAt(parent, lv[l+1][k].es, i);
      assert parent[i].val == Child(x);
      ReducedIntro(l, j);
      var merged := MergeLeft(l, x, f, parent, i, j, k, w);
      if merged {
        return;
      }
      merged := MergeRight(l, x, f, parent, i, j, k, w);
      if merged {
        return;
      }
      ReducedAt(l, j);
      GrewRefl(Outline(lv[l]));
      Untouched(lv, l, n, top, j);
      if Sturdy(n) {
        LeftMixed(lv[l+1], k, p, lv[l], j, n);
        MixedExtend(lv, l, n);
      }
      WideNotEmpty(lv, n);
      MendedIntro(l, w, false);
    }

    lemma ReducedIntro(l: nat, c: nat)
      requires l + 1 < |lv| && Mem() && RootIs() && Wf(lv, l + 1, n, top) && RootWide(lv, n)
      requires LevelOk(lv[l], n) && Link(lv[l], Outline(lv[l+1])) && c < |lv[l]|
      requires forall k :: 0 <= k < |lv[l]| && k != c ==> lv[l][k].es != []
      requires Sturdy(n) ==>
          MixedTree(lv, l + 1, n) && |lv[l]| == |Outline(lv[l+1])|
          && AllMixed(lv[l+1], Sizes(lv[l])[c := |lv[l][c].es| + 1], n)
      ensures Reduced(l, c)
    {
      hide Mem, RootIs, RootWide, Wf, LevelOk, Link, Outline, MixedTree, AllMixed, Sizes, Sound;
      SoundIntro(l + 1);
    }

    /** rebalance: try the left neighbour. */
    method MergeLeft(l: nat, x: array<Pair>, f: nat, parent: array<Pair>, i: nat,
                     ghost j: nat, ghost k: nat, ghost w: seq<nat>) returns (merged: bool)
      requires Reduced(l, j) && x == lv[l][j].ref && 0 < f == |lv[l][j].es|
      requires k < |lv[l+1]| && i < |lv[l+1][k].es| && j == Off(lv[l+1], k) + i && parent == lv[l+1][k].ref
      requires Sturdy(n) ==> |w| == |Outline(lv[l])| && AllMixed(lv[l], w, n)
      requires Sturdy(n) ==> Light(lv[l], j, w, n)
      modifies this`node, this`height, this`lv, Repr
      ensures Repr == old(Repr) && l < |lv| <= |old(lv)| && lv[..l] == old(lv)[..l]
      ensures merged <==> FitsLeft(old(lv)[l], j, f, n, i)
      ensures merged ==> Grew(Outline(old(lv)[l]), Outline(lv[l])) && Mended(l, w, false) && |lv[l]| + 1 == |old(lv)[l]|
      ensures !merged ==> lv == old(lv) && Reduced(l, j)
      ensures !merged && i > 0 ==> j > 0 && f + |lv[l][j-1].es| > n
      decreases |lv| - l, 1, 1
    {
      hide *;
      ReducedAt(l, j);
      FitsIs(lv[l], j, f, n, i, |lv[l+1][k].es|);
      if i == 0 {
        return false;
      }
      WfLevel(lv, l + 1, n, top, l + 1);
      ghost var m := LinkSlot(lv[l], lv[l+1], n, k, i - 1);
      MemAt(l + 1, k);
      HoldsAt(parent, lv[l+1][k].es, i - 1);
      var left := parent[i-1].val.node;
      MemAt(l, m);
      LevelAt(lv[l], n, m, m);
      NodeOkFull(lv[l][m], n);
      var noLeft := GetFill(left, 0, lv[l][m].es);
      if f + noLeft <= n {
        Merge(l, left, noLeft, x, f, parent, i - 1, m, k, j, w);
        return true;
      }
      return false;
    }

    /** rebalance: try the right neighbour. */
    method MergeRight(l: nat, x: array<Pair>, f: nat, parent: array<Pair>, i: nat,
                      ghost j: nat, ghost k: nat, ghost w: seq<nat>) returns (merged: bool)
      requires Reduced(l, j) && x == lv[l][j].ref && 0 < f == |lv[l][j].es|
      requires k < |lv[l+1]| && i < |lv[l+1][k].es| && j == Off(lv[l+1], k) + i && parent == lv[l+1][k].ref
      requires Sturdy(n) ==> |w| == |Outline(lv[l])| && AllMixed(lv[l], w, n)
      requires Sturdy(n) ==> Light(lv[l], j, w, n)
      modifies this`node, this`height, this`lv, Repr
      ensures Repr == old(Repr) && l < |lv| <= |old(lv)| && lv[..l] == old(lv)[..l]
      ensures merged <==> FitsRight(old(lv)[l], j, f, n, i, |old(lv)[l+1][k].es|)
      ensures merged ==> Grew(Outline(old(lv)[l]), Outline(lv[l])) && Mended(l, w, false) && |lv[l]| + 1 == |old(lv)[l]|
      ensures !merged ==> lv == old(lv) && Reduced(l, j)
      ensures !merged && i + 1 < |lv[l+1][k].es| ==> j + 1 < |lv[l]| && f + |lv[l][j+1].es| > n
      decreases |lv| - l, 1, 1
    {
      hide *;
      ReducedAt(l, j);
      FitsIs(lv[l], j, f, n, i, |lv[l+1][k].es|);
      WfLevel(lv, l + 1, n, top, l + 1);
      MemAt(l + 1, k);
      NodeFull(lv, l + 1, n, top, k);
      var pfill := GetFill(parent, i, lv[l+1][k].es);
      if pfill <= i + 1 {
        return false;
      }
      ghost var m := LinkSlot(lv[l], lv[l+1], n, k, i + 1);
      HoldsAt(parent, lv[l+1][k].es, i + 1);
      var right := parent[i+1].val.node;
      MemAt(l, m);
      LevelAt(lv[l], n, m, m);
      NodeOkFull(lv[l][m], n);
      var noRight := GetFill(right, 0, lv[l][m].es);
      if f + noRight <= n {
        Merge(l, x, f, right, noRight, parent, i, j, k, j, w);
        return true;
      }
      return false;
    }

    lemma HitAt(l: nat, j: nat, p: nat, key: nat)
      requires Hit(l, j, p, key)
      ensures l < |lv| && j < |lv[l]| && p < |lv[l][j].es| && Cov(lv, l, j, key)
      ensures l > 0 ==> lv[l][j].es[p].key <= key && (p > 0 ==> key < lv[l][j].es[p-1].key)
      ensures lv[l][j].es[p].key > key ==> l == 0 && p + 1 == |lv[l][j].es| < n
    {
    }

    lemma ReadRef(kr: KeyRef, a: array<Pair>, es: seq<Pair>)
      requires kr.At? ==> kr.i < |es| && kr.a == a && Holds(a, es)
      ensures kr.At? ==> kr.i < kr.a.Length && ReadKey(kr) == es[kr.i].key
      ensures kr.Own? ==> ReadKey(kr) == kr.k
    {
    }

    // -------------------------------------------------------------- the tree as a finite map

    /** The invariant of a tree between operations. */
    ghost predicate Valid()
      reads this, Repr
    {
      && Mem() && RootIs()
      && (lv != [] ==> Sound(0))
      && (|lv| > 1 ==> RootWide(lv, n))
    }

    ghost function Map(): map<nat, Slot>
      reads this
    {
      Content(lv)
    }

    lemma ValidAt()
      requires Valid()
      ensures Mem() && RootIs() && n >= 4 && height == |lv| && (height == 0 <==> node == null)
      ensures height > 0 ==> Sound(0) && Wf(lv, 0, n, top) && |lv[height-1]| == 1 && lv[height-1][0].ref == node
      ensures height > 1 ==> RootWide(lv, n) && lv[height-1][0].es != []
      ensures Sturdy(n) && height > 0 ==> MixedTree(lv, 0, n)
    {
      hide Stored, Distinct, Wf, MixedTree;
    }

    lemma ValidIntro()
      requires Mem() && RootIs() && (lv != [] ==> Sound(0)) && (|lv| > 1 ==> RootWide(lv, n))
      ensures Valid()
    {
      hide Mem, RootIs, Sound, RootWide;
    }

    /** btree_init. */
    constructor (pairs: nat, top: nat)
      requires pairs >= 4
      ensures Valid() && Map() == map[] && n == pairs && this.top == top
      ensures fresh(Repr) && fresh(pool) && pool.refused == 0
    {
      pool := new Pool();
      n := pairs;
      this.top := top;
      node := null;
      height := 0;
      lv := [];
      Repr := {};
    }

    /** btree_insert of a key that is not in the tree; fails only if an allocation may fail. */
    method Insert(key: nat, v: Slot, mayFail: bool) returns (err: bool)
      requires Valid() && key < top && key !in Map() && v != Nul
      modifies this`node, this`height, this`lv, this`Repr, Repr, pool
      ensures Valid() && fresh(Repr - old(Repr)) && old(Repr) <= Repr
      ensures err ==> mayFail && Map() == old(Map())
      // it fails exactly if the pool answers NULL; nodes are asked for only if the tree is empty or the leaf full
      ensures pool.refused == old(pool.refused) + if err then 1 else 0
      ensures err || Repr != old(Repr) ==> old(lv) == [] || Cramped(old(lv)[0], key, n)
      ensures !err ==> Map() == old(Map())[key := v]
    {
      hide *;
      ValidAt();
      MapIs();
      ghost var w := Heavy(Items(lv, 0, top));
      if Sturdy(n) && height > 0 { HeavyMixed(lv[0], n); ItemsIn(lv, 0, top); }
      CrampedIs(lv, key, n);
      err := InsertLevel(key, v, 0, mayFail, 0, w, 2);
      MapIs();
      if err && old(lv) != [] {
        DescendedAt(old(lv), lv, 0);
        LoOnlyOutline(old(lv)[0], lv[0]);
        DescendedRoot(old(lv), lv, 0);
        if |lv| > 1 { WideKept(old(lv), lv, n); }
        ContentIs(old(lv));
        ContentIs(lv);
      }
      ValidIntro();
    }

    lemma MapIs()
      ensures Map() == Content(lv)
    {
    }

    /** The descent of btree_lookup and btree_update: no separator is written. */
    method Route(key: nat) returns (x: array?<Pair>, ghost j: nat)
      requires Valid() && height > 0 && key < top
      ensures x == null ==> key !in Map() && forall k: nat :: !Cov(lv, 0, k, key)
      ensures x != null ==> Cov(lv, 0, j, key) && j < |lv[0]| && x == lv[0][j].ref
    {
      hide *;
      ValidAt();
      MapIs();
      j := 0;
      var p: array<Pair> := node;
      var h: nat := height - 1;
      TopCov(lv, 0, n, top, key);
      while h > 0
        invariant h < height && Cov(lv, h, j, key) && j < |lv[h]| && p == lv[h][j].ref
      {
        MemAt(h, j);
        NodeNonEmpty(lv, 0, n, top, h, j);
        var i := GetPos(p, key, lv[h][j].es);
        if i == n {
          NotStored(h, j, key);
          return null, j;
        }
        HoldsAt(p, lv[h][j].es, i);
        if p[i].val == Nul {
          if i < |lv[h][j].es| { SlotChild(lv, 0, n, top, h, j, i); }
          NotStored(h, j, key);
          return null, j;
        }
        EmptySlot();
        SlotChild(lv, 0, n, top, h, j, i);
        WfLevel(lv, 0, n, top, h - 1);
        p := p[i].val.node;
        j := StepDown(lv, h - 1, n, top, j, key);
        CovAt(lv, h - 1, j, key);
        h := h - 1;
      }
      x := p;
    }

    lemma NotStored(h: nat, j: nat, key: nat)
      requires Wf(lv, 0, n, top) && 0 < h < |lv| && Cov(lv, h, j, key)
      requires FirstLe(lv[h][j].es, key) == |lv[h][j].es|
      ensures key !in Content(lv) && forall k: nat :: !Cov(lv, 0, k, key)
    {
      hide *;
      CovAt(lv, h, j, key);
      Missed(lv, n, top, h, j, key, key);
      forall k: nat | Cov(lv, 0, k, key) ensures false {
        Forced(lv, 0, n, top, k, key, h, j);
      }
    }

    /** btree_lookup: the value bound to the key, or NULL. */
    method Lookup(key: nat) returns (r: Slot)
      requires Valid() && key < top
      ensures r == if key in Map() then Map()[key] else Nul
    {
      hide *;
      ValidAt();
      MapIs();
      ContentNone(lv);
      if height == 0 {
        return Nul;
      }
      var x, j := Route(key);
      if x == null {
        return Nul;
      }
      MemAt(0, j);
      NodeFull(lv, 0, n, top, j);
      var i := FindEqual(x, key, lv[0][j].es);
      LeafDecides(lv, n, top, j, key);
      EmptySlot();
      if i < n {
        HoldsAt(x, lv[0][j].es, i);
        return x[i].val;
      }
      return Nul;
    }

    /** A leaf that key 0 is routed to has a cleared slot (whose key reads as 0). */
    ghost predicate FreeZeroSlot()
      reads this
    {
      exists j: nat :: Cov(lv, 0, j, 0) && |lv[0][j].es| < n
    }

    lemma FreeZeroNone()
      ensures (forall k: nat :: !Cov(lv, 0, k, 0)) || lv == [] ==> !FreeZeroSlot()
    {
    }

    lemma FreeZeroIs(j: nat)
      requires Wf(lv, 0, n, top) && Cov(lv, 0, j, 0)
      ensures FreeZeroSlot() <==> |lv[0][j].es| < n
    {
      hide Wf, LevelOk;
      WfLevel(lv, 0, n, top, 0);
      forall k: nat | Cov(lv, 0, k, 0) ensures k == j {
        CovUnique(lv, 0, n, j, k, 0);
      }
    }

    /** btree_update.  An absent key 0 is not always rejected: it matches a cleared slot. */
    method Update(key: nat, v: Slot) returns (ok: bool)
      requires Valid() && key < top && v != Nul
      modifies this`lv, Repr
      ensures Valid()
      ensures ok ==> Map() == old(Map())[key := v]
      ensures !ok ==> key !in old(Map()) && Map() == old(Map())
      ensures ok <==> key in old(Map()) || (key == 0 && old(FreeZeroSlot()))
    {
      hide *;
      ValidAt();
      MapIs();
      ContentNone(lv);
      FreeZeroNone();
      if height == 0 {
        return false;
      }
      var x, j := Route(key);
      if x == null {
        return false;
      }
      MemAt(0, j);
      NodeFull(lv, 0, n, top, j);
      if key == 0 { FreeZeroIs(j); }
      ghost var es := lv[0][j].es;
      var i := FindEqual(x, key, es);
      LeafDecides(lv, n, top, j, key);
      if i == n {
        return false;
      }
      HoldsAt(x, es, i);
      SetSlot(v, x, i, j);
      return true;
    }

    /** setval in a leaf slot, which may be the first cleared one. */
    method SetSlot(v: Slot, x: array<Pair>, i: nat, ghost j: nat)
      requires v != Nul && Valid() && lv != [] && j < |lv[0]| && x == lv[0][j].ref && i < n && i <= |lv[0][j].es|
      requires i == |lv[0][j].es| ==> 0 !in Map() && Cov(lv, 0, j, 0) && FirstLe(lv[0][j].es, 0) == i
      modifies this`lv, x
      ensures Valid()
      ensures Map() == old(Map())[if i < |old(lv)[0][j].es| then old(lv)[0][j].es[i].key else 0 := v]
    {
      hide *;
      ValidAt();
      MapIs();
      MemAt(0, j);
      MemDef();
      ghost var es, lv0 := lv[0][j].es, lv;
      ghost var es2 := Assigned(es, i, v);
      AssignedAll(x, es, i);
      WfLevel(lv, 0, n, top, 0);
      if i == |es| {
        CovAt(lv, 0, j, 0);
        if |lv| > 1 { NodeNonEmpty(lv, 0, n, top, 0, j); }
      }
      AssignedOk(lv[0], n, j, i, v);
      AssignedSome(es, i, v);
      PutDef(lv, 0, j, es2);
      WfStore(lv, 0, n, top, j, es2);
      if Sturdy(n) { AssignedMixed(lv, j, i, v, n); }
      AssignedContent(lv, n, top, j, i, v);
      StoredForget(lv, Repr, n, x);
      x[i] := x[i].(val := v);
      AssignedHolds(x, es, i, v);
      PutStored(lv, Repr, n, 0, j, es2);
      PutRoot(lv, 0, j, es2, n);
      RootAt();
      lv := Put(lv, 0, j, es2);
      MemIntro();
      RootIntro();
      SoundIntro(0);
      MapIs();
      ValidIntro();
    }

    /**
     btree_remove.  An absent key may match a cleared slot (key 0), or, when every
     key of a full leaf is larger, the value words behind the keys.
     */
    method Remove(key: nat, words: Layout) returns (r: RemoveResult, ghost j: nat)
      requires Valid() && key < top
      modifies this`node, this`height, this`lv, Repr
      ensures !r.Fault? ==> Mem() && Repr == old(Repr)
      // a stored key
      ensures key in old(Map()) ==> r == Gone(old(Map())[key]) && Map() == old(Map()) - {key}
      ensures key in old(Map()) ==> (Valid() <==> height <= 1 || PathRoomy(old(lv), key))
      // its leaf goes if it is left empty, or below half fill beside a neighbour that has room; else nothing moves
      ensures key in old(Map()) ==> lv != [] && (LeafGoes(old(lv), key, n) ==> |lv[0]| + 1 == |old(lv)[0]|)
      ensures key in old(Map()) && !LeafGoes(old(lv), key, n) ==> Thinned(old(lv), lv, key)
      // an absent key: the search ends in leaf j
      ensures key !in old(Map()) && old(lv) == [] ==> r == Gone(Nul) && Map() == old(Map()) && Valid()
      ensures key !in old(Map()) && old(lv) != [] ==>
        EndsIn(old(lv)[0], j, key) && (key == 0 ==> j + 1 == |old(lv)[0]|)
      ensures key !in old(Map()) && old(lv) != [] ==> Astray(old(lv)[0][j].es, key, n, words, old(Map()), r, Map())
      ensures key !in old(Map()) && old(lv) != [] && !r.Fault? ==>
        (Valid() <==> height <= 1 || key != 0 || |old(lv)[0][j].es| == n || Roomy(old(lv), 0, j))
      // an invalid tree has an empty interior root, and only where the number of pairs is odd and seven or more
      ensures !r.Fault? ==> Valid() || Hollow()
      ensures !r.Fault? && Sturdy(n) ==> Valid()
    {
      hide *;
      ValidAt();
      MapIs();
      ContentNone(lv);
      if height == 0 {
        return Gone(Nul), 0;
      }
      ghost var w := Heavy(Outline(lv[0]));
      if Sturdy(n) { HeavyMixed(lv[0], n); }
      var x, pos, fill;
      x, pos, fill, j := Locate(key, 0, w);
      SoundAt(0);
      Located(old(lv), key, j);
      r := RemoveLeaf(key, words, x, pos, fill, j);
    }

    /** btree_remove_level at the leaf that the search ends in. */
    method RemoveLeaf(key: nat, words: Layout, x: array<Pair>, pos: nat, fill: nat, ghost j: nat)
      returns (r: RemoveResult)
      requires Valid() && lv != [] && Cov(lv, 0, j, key) && j < |lv[0]| && x == lv[0][j].ref
      requires pos == FirstLe(lv[0][j].es, key) && fill == |lv[0][j].es|
      modifies this`node, this`height, this`lv, Repr
      ensures !r.Fault? ==> Mem() && Repr == old(Repr)
      ensures var es := old(lv)[0][j].es;
        if pos < fill && es[pos].key == key then
          && r == Gone(es[pos].val) && Map() == old(Map()) - {key}
          && lv != [] && (Goes(old(lv), 0, j, fill - 1, n) ==> |lv[0]| + 1 == |old(lv)[0]|)
          && (!Goes(old(lv), 0, j, fill - 1, n) ==> lv == Put(old(lv), 0, j, RemAt(es, pos)))
          && (Valid() <==> height <= 1 || Roomy(old(lv), 0, j))
        else
          && Astray(es, key, n, words, old(Map()), r, Map())
          && (!r.Fault? ==> (Valid() <==> height <= 1 || key != 0 || |es| == n || Roomy(old(lv), 0, j)))
      ensures !r.Fault? ==> Valid() || Hollow()
      ensures !r.Fault? && Sturdy(n) ==> Valid()
    {
      hide *;
      ValidAt();
      MapIs();
      MemAt(0, j);
      ghost var es := lv[0][j].es;
      HoldsLen(x, es);
      ghost var m := Map();
      if pos == n {
        var vals := ReadVals(x, es);
        if words.spell(vals) != key {
          r := Gone(Nul);
        } else if !words.spare {
          r := Fault;
        } else {
          RemoveStray(x, j);
          r := Gone(Nul);
        }
        AstrayIs(es, key, n, words, m, r, Map());
        return;
      }
      HoldsAt(x, es, pos);
      EmptySlot();
      if x[pos].key != key {
        r := Gone(Nul);
      } else if fill == 0 {
        r := Fault;
      } else {
        var v := RemoveFound(key, x, pos, fill, j);
        r := Gone(v);
      }
      AstrayIs(es, key, n, words, m, r, Map());
    }

    /** The value words of a full leaf, which keycmp takes for a key behind the last one. */
    method ReadVals(x: array<Pair>, ghost es: seq<Pair>) returns (vals: seq<Slot>)
      requires Holds(x, es) && |es| == x.Length
      ensures vals == Vals(es)
    {
      vals := seq(x.Length, i requires 0 <= i < x.Length reads x => x[i].val);
    }

    /** The removal behind the last slot of a full leaf: its last pair is cleared, and it stays above half fill. */
    method RemoveStray(x: array<Pair>, ghost j: nat)
      requires Sound(0) && (|lv| > 1 ==> RootWide(lv, n)) && j < |lv[0]| && x == lv[0][j].ref && |lv[0][j].es| == n
      modifies this`lv, x
      ensures Valid() && Mem() && Map() == old(Map()) - {old(lv)[0][j].es[n-1].key}
    {
      hide *;
      SoundAt(0);
      MapIs();
      MemAt(0, j);
      ghost var lv0, es := lv, lv[0][j].es;
      ClearedLevel(lv, 0, n, top, j, n - 1, false);
      if Sturdy(n) { InsertMixed(lv, 0, j, RemAt(es, n - 1), n); }
      Clear(0, x, n, n, j, n - 1);
      ContentRemove(lv0, lv, n, top, j, n - 1);
      PutRoot(lv0, 0, j, RemAt(es, n - 1), n);
      PutDef(lv0, 0, j, RemAt(es, n - 1));
      SoundIntro(0);
      ValidIntro();
      MapIs();
    }

    /** The leaf that the search of btree_remove ends in. */
    lemma Located(lv0: seq<Level>, key: nat, j: nat)
      requires Sound(0) && lv0 != [] && Wf(lv0, 0, n, top) && Descended(lv0, lv, 0) && Cov(lv, 0, j, key) && key < top
      requires |lv0| > 1 ==> RootWide(lv0, n)
      ensures Valid() && Map() == Content(lv0) && lv != []
      ensures (|lv| > 1 ==> RootWide(lv, n)) && j < |lv0[0]| == |lv[0]| && lv[0][j].es == lv0[0][j].es
      ensures Roomy(lv, 0, j) <==> Roomy(lv0, 0, j)
      ensures var es := lv[0][j].es; var p := FirstLe(es, key);
        && (key in Map() <==> p < |es| && es[p].key == key)
        && (key in Map() ==> Map()[key] == es[p].val && (PathRoomy(lv0, key) <==> Roomy(lv, 0, j)))
        && (key in Map() ==> (LeafGoes(lv0, key, n) <==> Goes(lv, 0, j, |es| - 1, n)))
        && (key in Map() ==> Thinned(lv0, Put(lv, 0, j, RemAt(es, p)), key))
      ensures EndsIn(lv0[0], j, key) && (key == 0 ==> j + 1 == |lv[0]|)
    {
      hide *;
      SoundAt(0);
      MapIs();
      CovAt(lv, 0, j, key);
      DescendedAt(lv0, lv, 0);
      DescendedRoot(lv0, lv, 0);
      LoOnlyAt(lv0[0], lv[0], j);
      TopSingle(lv0, 0, n, top);
      if |lv| > 1 { WideKept(lv0, lv, n); }
      ValidIntro();
      ContentDescended(lv0, lv);
      DescendedShape(lv0, lv);
      RoomyShape(lv0, lv, 0, j);
      LeafDecides(lv, n, top, j, key);
      if key in Map() {
        var p := FirstLe(lv[0][j].es, key);
        WfLevel(lv0, 0, n, top, 0);
        LevelAt(lv0[0], n, j, j);
        NodeKey(lv0[0][j], n, p);
        CovIntro(lv0, 0, j, key);
        PathRoomyIs(lv0, n, top, j, key);
        LeafGoesIs(lv0, n, top, j, key);
        GoesShape(lv0, lv, 0, j, |lv[0][j].es| - 1, n);
        ThinnedIs(lv0, lv, n, top, j, key, p);
      }
      WfLevel(lv, 0, n, top, 0);
      EndsAt(lv0[0], lv[0], n, j, key);
      if key == 0 {
        LeafProper(lv, n, top);
        ZeroLast(lv, n, top, j);
      }
    }

    /** The removal half of btree_remove_level at the leaf level. */
    method RemoveFound(key: nat, x: array<Pair>, pos: nat, fill: nat, ghost j: nat) returns (v: Slot)
      requires Sound(0) && (|lv| > 1 ==> RootWide(lv, n)) && Cov(lv, 0, j, key)
      requires x == lv[0][j].ref && pos == FirstLe(lv[0][j].es, key) && fill == |lv[0][j].es| > 0 && pos < n
      requires if pos < fill then lv[0][j].es[pos].key == key else key == 0
      modifies this`node, this`height, this`lv, Repr
      ensures Mem() && Repr == old(Repr)
      ensures v == if pos < fill then old(lv)[0][j].es[pos].val else Nul
      ensures Map() == old(Map()) - {old(lv)[0][j].es[if pos < fill then pos else fill - 1].key}
      ensures Valid() <==> height <= 1 || Roomy(old(lv), 0, j)
      ensures lv != [] && (Goes(old(lv), 0, j, fill - 1, n) ==> |lv[0]| + 1 == |old(lv)[0]|)
      ensures !Goes(old(lv), 0, j, fill - 1, n) ==>
        lv == Put(old(lv), 0, j, RemAt(old(lv)[0][j].es, if pos < fill then pos else fill - 1))
      ensures Sturdy(n) ==> Valid()
      ensures Valid() || Hollow()
    {
      hide *;
      SoundAt(0);
      CovAt(lv, 0, j, key);
      MapIs();
      if Sturdy(n) && |lv| > 1 { WideTwo(lv, n); WideRoomy(lv, 0, n, top, j); }
      ghost var es, lv0 := lv[0][j].es, lv;
      ghost var p := if pos < fill then pos else fill - 1;
      ghost var w := LeafWeights(lv, n, top, j, p);
      MemAt(0, j);
      HoldsLen(x, es);
      LeafHit(key, j, pos, fill, p);
      ReadOwn(key);
      v := RemovePair(Own(key), 0, x, pos, fill, j, p, false, w);
      MendedAt(0, w, !Roomy(lv0, 0, j));
      ContentRemove(lv0, lv, n, top, j, p);
      RootAt();
      SoundFrom();
      MapIs();
    }

    lemma SoundFrom()
      requires Mem() && RootIs() && Wf(lv, 0, n, top) && (Sturdy(n) ==> MixedTree(lv, 0, n))
      requires |lv| > 1 ==> RootEmpty(lv) || RootWide(lv, n)
      ensures Valid() <==> |lv| <= 1 || !RootEmpty(lv)
      ensures height == |lv| && (Valid() || Hollow())
    {
      hide Mem, Wf, MixedTree;
    }

    /** An interior root without children: what removal leaves when no node on the path has two pairs. */
    ghost predicate Hollow()
      reads this, Repr
    {
      Mem() && RootIs() && height > 1 && RootEmpty(lv)
    }

    lemma LeafHit(key: nat, j: nat, pos: nat, fill: nat, p: nat)
      requires lv != [] && Cov(lv, 0, j, key) && fill == |lv[0][j].es| > 0 && pos < n
      requires pos == FirstLe(lv[0][j].es, key) && p == (if pos < fill then pos else fill - 1)
      requires if pos < fill then lv[0][j].es[pos].key == key else key == 0
      ensures Hit(0, j, p, key)
      ensures if pos < fill then lv[0][j].es[p].key <= key else lv[0][j].es[p].key > key
    {
    }

    /** With an even number of pairs to a node, or five, an interior root always has two children. */
    lemma RootHasTwo()
      requires Valid() && Sturdy(n) && height > 1
      ensures node.Length == n && node[0].val != Nul && node[1].val != Nul
    {
      hide *;
      ValidAt();
      WideTwo(lv, n);
      MemAt(height - 1, 0);
      HoldsAt(node, lv[height-1][0].es, 0);
      HoldsAt(node, lv[height-1][0].es, 1);
      WfLevel(lv, 0, n, top, height - 1);
      LevelAt(lv[height-1], n, 0, 0);
      NodeOkFull(lv[height-1][0], n);
      FullAt(lv[height-1][0].es, 0);
      FullAt(lv[height-1][0].es, 1);
    }

    /** btree_last: the binding of the greatest key.  On an empty leaf it also overwrites the caller's key. */
    method Last(keyIn: nat) returns (v: Slot, key: nat)
      requires Valid() && 0 < top
      ensures Map() == map[] ==> v == Nul && key == if height == 0 then keyIn else 0
      ensures Map() != map[] ==> key in Map() && v == Map()[key] && v != Nul && forall y :: y in Map() ==> y <= key
    {
      hide *;
      ValidAt();
      MapIs();
      ContentNone(lv);
      key := keyIn;
      if height == 0 {
        return Nul, key;
      }
      var x: array<Pair> := node;
      var h: nat := height - 1;
      TopCov(lv, 0, n, top, 0);
      TopHi(lv, 0, n, top);
      while h > 0
        invariant h < height && |lv[h]| > 0 && lv[h][0].hi == top && x == lv[h][0].ref
      {
        NodeNonEmpty(lv, 0, n, top, h, 0);
        MemAt(h, 0);
        HoldsAt(x, lv[h][0].es, 0);
        WfLevel(lv, 0, n, top, h - 1);
        FirstHi(lv, h - 1, n, top);
        x := x[0].val.node;
        h := h - 1;
      }
      MemAt(0, 0);
      HoldsAt(x, lv[0][0].es, 0);
      EmptySlot();
      v, key := x[0].val, x[0].key;
      LastIs(key);
    }

    lemma LastIs(key: nat)
      requires Wf(lv, 0, n, top) && |lv[0]| > 0 && lv[0][0].hi == top
      requires lv[0][0].es != [] ==> key == lv[0][0].es[0].key
      ensures lv[0][0].es != [] ==>
          key in Content(lv) && Content(lv)[key] == lv[0][0].es[0].val
          && lv[0][0].es[0].val != Nul
      ensures lv[0][0].es != [] ==> forall y :: y in Content(lv) ==> y <= key
      ensures lv[0][0].es == [] ==> Content(lv) == map[]
    {
      hide *;
      TopSingle(lv, 0, n, top);
      if lv[0][0].es != [] {
        KeyHere(lv, n, top, 0, 0);
        NodeFull(lv, 0, n, top, 0);
        FullAt(lv[0][0].es, 0);
        forall y | y in Content(lv) ensures y <= key {
          FirstGreatest(lv, n, top, y);
        }
      } else {
        if |lv| > 1 { NodeNonEmpty(lv, 0, n, top, 0, 0); }
        forall y | y in Content(lv) ensures false {
          EmptyLeaf(lv, n, top, y);
        }
      }
    }

    /** The last separator of an interior root is 0. */
    ghost predicate ZeroRoot()
      reads this
    {
      && |lv| > 1 && |lv[|lv|-1]| == 1
      && var es := lv[|lv|-1][0].es; es != [] && es[|es|-1].key == 0
    }

    /** One descent of btree_get_prev for the largest key not above d; `retry` is the last separator passed. */
    method PrevOnce(d: nat) returns (found: bool, v: Slot, key: nat, retried: bool, retry: nat)
      requires Valid() && height > 0 && d < top
      ensures found ==> key in Map() && v == Map()[key] && v != Nul && key <= d
      ensures found ==> forall y :: y in Map() && y <= d ==> y <= key
      ensures !found && retried ==> retry <= d && forall y :: y in Map() && y <= d ==> y < retry
      ensures !found && retried && retry == 0 ==> ZeroRoot()
      ensures !found && !retried ==> !ZeroRoot() && forall y :: y in Map() ==> d < y
      ensures d == top - 1 && height > 1 ==> found
    {
      hide *;
      ValidAt();
      MapIs();
      found, v, key, retried, retry := false, Nul, 0, false, 0;
      var x: array<Pair> := node;
      var h: nat := height - 1;
      ghost var j: nat := 0;
      TopCov(lv, 0, n, top, d);
      TopLo(lv, 0, n, top);
      while h > 0
        invariant h < height && Cov(lv, h, j, d) && j < |lv[h]| && x == lv[h][j].ref
        invariant retried <==> h + 1 < height
        invariant !retried ==> j == 0 && lv[h][0].lo == 0
        invariant retried ==> retry == lv[h][j].lo
      {
        MemAt(h, j);
        NodeNonEmpty(lv, 0, n, top, h, j);
        var i := GetPos(x, d, lv[h][j].es);
        if i < n { HoldsAt(x, lv[h][j].es, i); EmptySlot(); }
        if i < |lv[h][j].es| { SlotChild(lv, 0, n, top, h, j, i); }
        TopFinds(h, j, d);
        if i == n || x[i].val == Nul {
          MissedAt(h, j, d);
          return;
        }
        WfLevel(lv, 0, n, top, h - 1);
        j := StepDown(lv, h - 1, n, top, j, d);
        CovAt(lv, h - 1, j, d);
        retried, retry := true, x[i].key;
        x := x[i].val.node;
        h := h - 1;
      }
      MemAt(0, j);
      var i := GetPos(x, d, lv[0][j].es);
      if i < n { HoldsAt(x, lv[0][j].es, i); }
      EmptySlot();
      NodeFull(lv, 0, n, top, j);
      if i < n && x[i].val != Nul {
        FoundAt(j, d);
        FullAt(lv[0][j].es, i);
        return true, x[i].val, x[i].key, retried, retry;
      }
      if i < |lv[0][j].es| { FullAt(lv[0][j].es, i); }
      if height > 1 { NodeNonEmpty(lv, 0, n, top, 0, j); TopFindsLeaf(j, d); }
      MissedAtLeaf(j, d);
    }

    lemma TopFinds(h: nat, j: nat, d: nat)
      requires Wf(lv, 0, n, top) && 0 < h < |lv| && j < |lv[h]| && lv[h][j].es != []
      ensures d == top - 1 ==> FirstLe(lv[h][j].es, d) < |lv[h][j].es|
    {
      hide Wf, LevelOk, NodeOk;
      WfLevel(lv, 0, n, top, h);
      HiTop(lv, h, n, top, j);
      LevelAt(lv[h], n, j, j);
      NodeKey(lv[h][j], n, 0);
    }

    lemma TopFindsLeaf(j: nat, d: nat)
      requires Wf(lv, 0, n, top) && j < |lv[0]| && lv[0][j].es != []
      ensures d == top - 1 ==> FirstLe(lv[0][j].es, d) < |lv[0][j].es|
    {
      hide Wf, LevelOk, NodeOk;
      TopSingle(lv, 0, n, top);
      WfLevel(lv, 0, n, top, 0);
      HiTop(lv, 0, n, top, j);
      LevelAt(lv[0], n, j, j);
      NodeKey(lv[0][j], n, 0);
    }

    lemma MissedAt(h: nat, j: nat, d: nat)
      requires Wf(lv, 0, n, top) && 0 < h < |lv| && Cov(lv, h, j, d) && FirstLe(lv[h][j].es, d) == |lv[h][j].es|
      requires h + 1 == |lv| ==> j == 0 && lv[h][0].lo == 0
      ensures forall y :: y in Content(lv) && y <= d ==> y < lv[h][j].lo
      ensures lv[h][j].lo <= d
      ensures h + 1 < |lv| && lv[h][j].lo == 0 ==> ZeroRoot()
      ensures h + 1 == |lv| ==> !ZeroRoot()
    {
      hide Wf, LevelOk, Content;
      forall y | y in Content(lv) && y <= d ensures y < lv[h][j].lo {
        if lv[h][j].lo <= y { Missed(lv, n, top, h, j, d, y); }
      }
      if h + 1 < |lv| && lv[h][j].lo == 0 {
        WfLevel(lv, 0, n, top, h);
        ZeroBound(lv, h, n, top, j);
      }
      if h + 1 == |lv| && lv[h][j].es != [] { NotFound(lv[h][j].es, d); }
    }

    lemma MissedAtLeaf(j: nat, d: nat)
      requires Wf(lv, 0, n, top) && Cov(lv, 0, j, d) && FirstLe(lv[0][j].es, d) == |lv[0][j].es|
      ensures forall y :: y in Content(lv) && y <= d ==> y < lv[0][j].lo
      ensures lv[0][j].lo <= d
      ensures 1 < |lv| && lv[0][j].lo == 0 ==> ZeroRoot()
      ensures 1 == |lv| ==> !ZeroRoot()
    {
      hide Wf, LevelOk, Content;
      forall y | y in Content(lv) && y <= d ensures y < lv[0][j].lo {
        if lv[0][j].lo <= y { MissedLeaf(lv, n, top, j, d, y); }
      }
      if 1 < |lv| && lv[0][j].lo == 0 { ZeroBound(lv, 0, n, top, j); }
    }

    lemma FoundAt(j: nat, d: nat)
      requires Wf(lv, 0, n, top) && Cov(lv, 0, j, d) && FirstLe(lv[0][j].es, d) < |lv[0][j].es|
      ensures var e := lv[0][j].es[FirstLe(lv[0][j].es, d)];
        e.key <= d && e.key in Content(lv) && Content(lv)[e.key] == e.val && forall y :: y in Content(lv) && y <= d ==>
          y <= e.key
    {
      hide Wf, LevelOk, Content;
      var p := FirstLe(lv[0][j].es, d);
      KeyHere(lv, n, top, j, p);
      forall y | y in Content(lv) && y <= d ensures y <= lv[0][j].es[p].key {
        if lv[0][j].es[p].key < y { FoundLeaf(lv, n, top, j, d, y); }
      }
    }

    /**
     btree_get_prev: the binding of the greatest key below k.  When nothing is
     stored below k and the root's last separator is 0, dec_key wraps around and
     the search answers with the greatest binding of the whole tree.
     */
    method GetPrev(k: nat) returns (v: Slot, key: nat)
      requires Valid() && k < top
      ensures HasBelow(Map(), k) ==>
        key in Map() && v == Map()[key] && v != Nul && key < k && forall y :: y in Map() && y < k ==> y <= key
      ensures !HasBelow(Map(), k) && (k == 0 || !ZeroRoot()) ==> v == Nul && key == k
      ensures !HasBelow(Map(), k) && k > 0 && ZeroRoot() ==>
        key in Map() && v == Map()[key] && v != Nul && forall y :: y in Map() ==> y <= key
    {
      hide *;
      ValidAt();
      MapIs();
      ContentNone(lv);
      BelowIs(Map(), k);
      ZeroRootIs();
      if k == 0 || height == 0 {
        return Nul, k;
      }
      var cur: nat := k;
      while true
        invariant cur <= k
        invariant cur > 0 ==> forall y :: y in Map() && y < k ==> y < cur
        invariant cur == 0 ==> ZeroRoot() && forall y :: y in Map() ==> k <= y
        decreases cur
      {
        var d: nat := if cur == 0 then top - 1 else cur - 1;
        var found, w, at, retried, retry := PrevOnce(d);
        if found {
          if cur == 0 { AllBelow(top, at); }
          return w, at;
        }
        if !retried {
          return Nul, k;
        }
        cur := retry;
      }
    }

    lemma ZeroRootIs()
      ensures ZeroRoot() ==> |lv| > 1
    {
    }

    /** No stored key reaches the top. */
    lemma AllBelow(t: nat, at: nat)
      requires Valid() && lv != [] && t == top
      ensures forall y :: y in Map() ==> y < t
    {
      hide *;
      ValidAt();
      MapIs();
      forall y | y in Content(lv) ensures y < t {
        var j, p := KeyHome(lv, n, top, y);
        KeyHere(lv, n, top, j, p);
      }
    }

    /** The loop of btree_for_each_safe: from the last key downwards. */
    method ForEach() returns (keys: seq<nat>)
      requires Valid() && 0 < top
      requires ZeroRoot() ==> 0 in Map()
      ensures forall i, j :: 0 <= i < j < |keys| ==> keys[i] > keys[j]
      ensures forall y :: y in keys <==> y in Map()
    {
      hide *;
      keys := [];
      KeysBelow();
      var v, key := Last(0);
      while v != Nul
        invariant v != Nul ==> key in Map() && key < top
        invariant v != Nul ==> forall y :: y in Map() <==> y in keys || (y in Map() && y <= key)
        invariant v == Nul ==> forall y :: y in Map() <==> y in keys
        invariant forall i :: 0 <= i < |keys| ==> v != Nul ==> keys[i] > key
        invariant forall i, j :: 0 <= i < j < |keys| ==> keys[i] > keys[j]
        decreases if v == Nul then 0 else key + 1
      {
        ghost var at := key;
        keys := keys + [key];
        BelowIs(Map(), key);
        v, key := GetPrev(key);
      }
    }

    /** Why ForEach asks for it: on such a tree the loop never meets NULL. */
    method NeverEnds(k: nat) returns (v: Slot, key: nat)
      requires Valid() && ZeroRoot() && 0 !in Map() && k in Map()
      ensures v != Nul && key in Map()
    {
      hide *;
      KeysBelow();
      v, key := GetPrev(k);
      BelowIs(Map(), k);
    }

    lemma KeysBelow()
      requires Valid()
      ensures forall y :: y in Map() ==> y < top
    {
      hide *;
      ValidAt();
      MapIs();
      ContentNone(lv);
      if lv != [] { AllBelow(top, 0); }
    }

    lemma EmptyMap()
      requires Valid() && height == 0
      ensures Map() == map[]
    {
      hide *;
      ValidAt();
      MapIs();
      ContentNone(lv);
    }

    /** Stored values are never NULL. */
    lemma NoNul(key: nat)
      requires Valid() && key in Map()
      ensures Map()[key] != Nul
    {
      hide *;
      ValidAt();
      MapIs();
      ContentNone(lv);
      var j, p := KeyHome(lv, n, top, key);
      NodeFull(lv, 0, n, top, j);
      FullAt(lv[0][j].es, p);
    }

    /** The first child pointer of an interior root is NULL. */
    method LooksHollow() returns (b: bool)
      requires Valid() || Hollow()
      ensures b ==> Hollow() && !Valid()
      ensures !b ==> Valid()
    {
      HollowAt();
      b := height > 1 && node[0].val == Nul;
    }

    lemma HollowAt()
      requires Valid() || Hollow()
      ensures height > 1 ==> node != null && node.Length > 0
      ensures height > 1 && node[0].val == Nul ==> Hollow() && !Valid()
      ensures !(height > 1 && node[0].val == Nul) ==> Valid()
    {
      hide *;
      if Valid() {
        ValidAt();
        if height > 1 {
          WfLevel(lv, 0, n, top, height - 1);
          LevelAt(lv[height-1], n, 0, 0);
          NodeOkFull(lv[height-1][0], n);
          FullAt(lv[height-1][0].es, 0);
        }
      } else {
        HollowIs();
        EmptySlot();
      }
      if height > 1 {
        MemAt(height - 1, 0);
        HoldsAt(node, lv[height-1][0].es, 0);
      }
    }

    lemma HollowIs()
      requires Hollow()
      ensures Mem() && RootIs() && height == |lv| > 1 && |lv[height-1]| == 1 && lv[height-1][0].es == []
      ensures node == lv[height-1][0].ref
    {
      hide Stored, Distinct;
    }

    lemma RootFull()
      requires height > 0 && height == |lv| && Wf(lv, height - 1, n, top)
      ensures Full(lv[height-1][0].es)
    {
      hide Outline;
      LevelAt(lv[height-1], n, 0, 0);
    }
  }

  /** An interior root is never empty; with a sturdy number of pairs it keeps two children. */
  ghost predicate RootWide(lv: seq<Level>, n: nat) {
    && lv != [] && |lv[|lv|-1]| > 0
    && lv[|lv|-1][0].es != []
    && (Sturdy(n) ==> |lv[|lv|-1][0].es| >= 2)
  }

  lemma RootWideAt(lv: seq<Level>, n: nat)
    requires RootWide(lv, n)
    ensures lv != [] && |lv[|lv|-1]| > 0 && lv[|lv|-1][0].es != []
  {
  }

  /** Storing in a node keeps the root's array; a root that receives a pair stays wide. */
  lemma PutRoot(lv: seq<Level>, l: nat, j: nat, es: seq<Pair>, n: nat)
    requires l < |lv| && j < |lv[l]|
    ensures |Put(lv, l, j, es)[|lv|-1]| == |lv[|lv|-1]|
    ensures |lv[|lv|-1]| == 1 ==> Put(lv, l, j, es)[|lv|-1][0].ref == lv[|lv|-1][0].ref
    ensures l + 1 < |lv| && RootWide(lv, n) ==> RootWide(Put(lv, l, j, es), n)
    ensures l + 1 == |lv| && |lv[l]| == 1 && |es| >= 2 ==> RootWide(Put(lv, l, j, es), n)
  {
    hide Put;
    PutAt(lv, l, j, es, |lv| - 1, 0);
  }

  lemma RootWideSet(lv: seq<Level>, l: nat, L: Level, n: nat)
    requires l + 1 < |lv| && RootWide(lv, n)
    ensures RootWide(lv[l := L], n)
  {
  }

  lemma RootKept(lv: seq<Level>, l: nat, L: Level, n: nat)
    requires l + 1 < |lv|
    ensures RootEmpty(lv[l := L]) <==> RootEmpty(lv)
    ensures RootWide(lv[l := L], n) <==> RootWide(lv, n)
  {
  }

  lemma RootNew(lv: seq<Level>, l: nat, M: Level, L: Level, n: nat)
    requires l + 1 == |lv| && |M| == 1 && SameNodes(M, L)
    requires M[0].es != [] && (Sturdy(n) ==> |M[0].es| >= 2)
    ensures |L| == 1 && L[0].ref == M[0].ref
    ensures !RootEmpty(lv[l := L]) && RootWide(lv[l := L], n)
  {
  }

  lemma PutWide(lv: seq<Level>, l: nat, j: nat, es: seq<Pair>, n: nat)
    requires l + 1 < |lv| && j < |lv[l]| && RootWide(lv, n)
    ensures RootWide(Put(lv, l, j, es), n) && !RootEmpty(Put(lv, l, j, es))
  {
    hide Replace;
  }

  /** The root level after a pair has been cleared. */
  lemma ClearedTop(lv: seq<Level>, l: nat, n: nat, j: nat, p: nat)
    requires l + 1 == |lv| && |lv[l]| == 1 && j < |lv[l]| && p < |lv[l][j].es|
    ensures var r := Put(lv, l, j, RemAt(lv[l][j].es, p));
      && |r[l]| == 1
      && (RootEmpty(r) <==> |lv[l][j].es| < 2)
      && (|lv[l][j].es| >= 3 ==> RootWide(r, n))
      && (!Sturdy(n) && |lv[l][j].es| >= 2 ==> RootWide(r, n))
    ensures Roomy(lv, l, j) <==> |lv[l][j].es| >= 2
    ensures RootWide(lv, n) && Sturdy(n) ==> |lv[l][j].es| >= 2
  {
    hide Put, RemAt;
    PutAt(lv, l, j, RemAt(lv[l][j].es, p), l, 0);
    RoomyTop(lv, l, j);
  }

  lemma AssignedAll(a: array<Pair>, es: seq<Pair>, i: nat)
    requires Holds(a, es)
    ensures forall k :: 0 <= k < a.Length ==> a[k] == if k < |es| then es[k] else EMPTY
    ensures EMPTY.key == 0
  {
  }

  lemma AssignedSome(es: seq<Pair>, i: nat, v: Slot)
    requires i <= |es|
    ensures Assigned(es, i, v) != []
  {
  }

  /** The path from the leaf of a key to the root has a node with two pairs. */
  ghost predicate PathRoomy(lv: seq<Level>, key: nat) {
    exists j: nat :: Cov(lv, 0, j, key) && Roomy(lv, 0, j)
  }

  lemma PathRoomyIs(lv: seq<Level>, n: nat, top: nat, j: nat, key: nat)
    requires Wf(lv, 0, n, top) && Cov(lv, 0, j, key)
    ensures PathRoomy(lv, key) <==> Roomy(lv, 0, j)
  {
    hide Wf, LevelOk, Roomy, Cov;
    TopSingle(lv, 0, n, top);
    WfLevel(lv, 0, n, top, 0);
    forall k: nat | Cov(lv, 0, k, key) ensures k == j {
      CovUnique(lv, 0, n, j, k, key);
    }
  }

  /** The leaf whose keys have those of the leaves before it above the key, and those of the leaves behind it below. */
  ghost predicate EndsIn(L: Level, j: nat, key: nat) {
    && j < |L|
    && (forall k, i :: 0 <= k < j && 0 <= i < |L[k].es| ==> L[k].es[i].key > key)
    && (forall k, i :: j < k < |L| && 0 <= i < |L[k].es| ==> L[k].es[i].key < key)
  }

  lemma EndsAt(L: Level, M: Level, n: nat, j: nat, key: nat)
    requires LoOnly(L, M) && LevelOk(M, n) && j < |M| && M[j].lo <= key < M[j].hi
    ensures EndsIn(L, j, key)
  {
    forall k, i | 0 <= k < j && 0 <= i < |L[k].es| ensures L[k].es[i].key > key {
      LevelAt(M, n, k, j);
      NodeKey(M[k], n, i);
    }
    forall k, i | j < k < |L| && 0 <= i < |L[k].es| ensures L[k].es[i].key < key {
      LevelAt(M, n, j, k);
      NodeKey(M[k], n, i);
    }
  }

  /** The leaf that the key belongs to is full. */
  ghost predicate Cramped(L: Level, key: nat, n: nat) {
    exists j: nat :: EndsIn(L, j, key) && |L[j].es| == n
  }

  /** The same on a level that is there. */
  ghost predicate CrampedIn(lv: seq<Level>, l: nat, key: nat, n: nat) {
    l < |lv| ==> Cramped(lv[l], key, n)
  }

  lemma CrampedNone(lv: seq<Level>, l: nat, key: nat, n: nat)
    requires l >= |lv|
    ensures CrampedIn(lv, l, key, n)
  {
  }

  lemma CrampedAt(lv: seq<Level>, r: seq<Level>, l: nat, n: nat, j: nat, key: nat)
    requires l < |lv| && l < |r| && LoOnly(lv[l], r[l]) && LevelOk(r[l], n)
    requires j < |r[l]| && r[l][j].lo <= key < r[l][j].hi && |r[l][j].es| == n
    ensures CrampedIn(lv, l, key, n)
  {
    hide LevelOk;
    EndsAt(lv[l], r[l], n, j, key);
  }

  lemma CrampedIs(lv: seq<Level>, key: nat, n: nat)
    ensures CrampedIn(lv, 0, key, n) ==> lv == [] || Cramped(lv[0], key, n)
  {
  }

  ghost function Vals(es: seq<Pair>): (r: seq<Slot>)
    ensures |r| == |es|
  {
    seq(|es|, i requires 0 <= i < |es| => es[i].val)
  }

  /** Every key of the full leaf is larger, and the value words spell the key. */
  ghost predicate Strays(es: seq<Pair>, key: nat, n: nat, words: Layout) {
    |es| == n && FirstLe(es, key) == n && words.spell(Vals(es)) == key
  }

  /** What removing an absent key does whose search ends in a leaf with the pairs es. */
  ghost predicate Astray(es: seq<Pair>, key: nat, n: nat, words: Layout,
                         m0: map<nat, Slot>, r: RemoveResult, m: map<nat, Slot>)
  {
    if Strays(es, key, n, words) || (key == 0 && |es| < n) then
      // the last pair of the leaf goes
      if es == [] || (|es| == n && !words.spare) then r == Fault else r == Gone(Nul) && m == m0 - {es[|es|-1].key}
    else r == Gone(Nul) && m == m0
  }

  lemma AstrayIs(es: seq<Pair>, key: nat, n: nat, words: Layout, m0: map<nat, Slot>, r: RemoveResult, m: map<nat, Slot>)
    ensures Astray(es, key, n, words, m0, r, m) <==>
      if (|es| == n && FirstLe(es, key) == n && words.spell(Vals(es)) == key) || (key == 0 && |es| < n) then
        if es == [] || (|es| == n && !words.spare) then r == Fault else r == Gone(Nul) && m == m0 - {es[|es|-1].key}
      else r == Gone(Nul) && m == m0
  {
  }

  /** The leaf of a stored key is dropped or merged once it has lost a pair. */
  ghost predicate LeafGoes(lv: seq<Level>, key: nat, n: nat) {
    exists j: nat :: Cov(lv, 0, j, key) && lv[0][j].es != [] && Goes(lv, 0, j, |lv[0][j].es| - 1, n)
  }

  lemma LeafGoesIs(lv: seq<Level>, n: nat, top: nat, j: nat, key: nat)
    requires Wf(lv, 0, n, top) && Cov(lv, 0, j, key) && j < |lv[0]| && lv[0][j].es != []
    ensures LeafGoes(lv, key, n) <==> Goes(lv, 0, j, |lv[0][j].es| - 1, n)
  {
    hide Wf, LevelOk, Goes;
    TopSingle(lv, 0, n, top);
    WfLevel(lv, 0, n, top, 0);
    forall k: nat | Cov(lv, 0, k, key) ensures k == j {
      CovUnique(lv, 0, n, j, k, key);
    }
  }

  /** The same nodes in the same places, only the leaf of the key has one pair less. */
  ghost predicate Thinned(lv0: seq<Level>, lv: seq<Level>, key: nat) {
    && |lv| == |lv0|
    && (forall i :: 0 < i < |lv0| ==> ShapeLevel(lv0[i], lv[i]))
    && (forall j: nat :: Cov(lv0, 0, j, key) ==> OneLess(lv0[0], lv[0], j))
  }

  ghost predicate OneLess(L: Level, M: Level, j: nat) {
    && |M| == |L|
    && forall m :: 0 <= m < |L| ==> M[m].ref == L[m].ref && |M[m].es| == |L[m].es| - if m == j then 1 else 0
  }

  lemma ThinnedIs(lv0: seq<Level>, lv: seq<Level>, n: nat, top: nat, j: nat, key: nat, p: nat)
    requires Wf(lv0, 0, n, top) && Shape(lv0, lv) && Cov(lv0, 0, j, key) && lv0 != [] && |lv| > 0
    requires j < |lv[0]| && p < |lv[0][j].es|
    ensures Thinned(lv0, Put(lv, 0, j, RemAt(lv[0][j].es, p)), key)
  {
    hide Wf, LevelOk, Put, RemAt;
    WfLevel(lv0, 0, n, top, 0);
    var r := Put(lv, 0, j, RemAt(lv[0][j].es, p));
    forall k: nat | Cov(lv0, 0, k, key) ensures k == j {
      CovUnique(lv0, 0, n, j, k, key);
    }
    forall i | 0 <= i < |lv0| ensures |r[i]| == |lv[i]| {
      PutAt(lv, 0, j, RemAt(lv[0][j].es, p), i, 0);
    }
    forall i, m | 0 <= i < |lv0| && 0 <= m < |lv0[i]|
      ensures r[i][m] == if i == 0 && m == j then lv[0][j].(es := RemAt(lv[0][j].es, p)) else lv[i][m]
    {
      PutAt(lv, 0, j, RemAt(lv[0][j].es, p), i, m);
    }
  }

  lemma LoOnlyAt(L: Level, M: Level, j: nat)
    requires LoOnly(L, M) && j < |M|
    ensures |L| == |M| && M[j].es == L[j].es
  {
  }

  lemma DescendedShape(lv: seq<Level>, r: seq<Level>)
    requires Descended(lv, r, 0)
    ensures Shape(lv, r)
  {
    hide Shape;
  }

  lemma RemovedLen(O: seq<Iv>, q: nat, same: bool, O2: seq<Iv>)
    requires Removed(O, q, same, O2)
    ensures |O2| + 1 == |O|
  {
  }

  /** The weights of the leaf level once leaf j has lost pair p. */
  lemma LeafWeights(lv: seq<Level>, n: nat, top: nat, j: nat, p: nat) returns (w: seq<nat>)
    requires Wf(lv, 0, n, top) && j < |lv[0]| && p < |lv[0][j].es|
    ensures |w| + 1 == |Outline(lv[0])| && Off(lv[0], j) <= |w|
    ensures var less := Replace(lv[0], j, [lv[0][j].(es := RemAt(lv[0][j].es, p))]);
      |Outline(less)| == |w| && (Sturdy(n) ==> AllMixed(less, w, n))
    ensures |lv[0][j].es| >= 2 ==> Other(w, Off(lv[0], j), Off(lv[0], j) + |lv[0][j].es| - 1)
  {
    hide *;
    TopSingle(lv, 0, n, top);
    var es := lv[0][j].es;
    var less := Replace(lv[0], j, [lv[0][j].(es := RemAt(es, p))]);
    WfLevel(lv, 0, n, top, 0);
    LevelAt(lv[0], n, j, j);
    OutlineRemove(lv[0], n, j, p);
    RemovedLen(Outline(lv[0]), Off(lv[0], j) + p, p + 1 < |es|, Outline(less));
    OutlineAt(lv[0], j, |es| - 1);
    w := Heavy(Outline(less));
    if Sturdy(n) { HeavyMixed(less, n); }
    if |es| >= 2 { HeavyOther(Outline(less), Off(lv[0], j), Off(lv[0], j) + |es| - 1); }
  }

  lemma HeavyOther(O: seq<Iv>, a: nat, b: nat)
    requires a < b <= |O|
    ensures Other(Heavy(O), a, b)
  {
    assert Heavy(O)[a] == 2;
  }

  lemma FullAt(es: seq<Pair>, i: nat)
    requires Full(es) && i < |es|
    ensures es[i].val != Nul
  {
  }

  lemma TopHi(lv: seq<Level>, l: nat, n: nat, top: nat)
    requires Wf(lv, l, n, top)
    ensures |lv[|lv|-1]| == 1 && lv[|lv|-1][0].hi == top
  {
  }

  ghost predicate HasBelow(m: map<nat, Slot>, k: nat) {
    exists y :: y in m && y < k
  }

  lemma BelowIs(m: map<nat, Slot>, k: nat)
    ensures HasBelow(m, k) <==> exists y :: y in m && y < k
  {
  }

  lemma TopLo(lv: seq<Level>, l: nat, n: nat, top: nat)
    requires Wf(lv, l, n, top)
    ensures |lv[|lv|-1]| == 1 && lv[|lv|-1][0].lo == 0
  {
  }

  lemma WideTwo(lv: seq<Level>, n: nat)
    requires RootWide(lv, n) && Sturdy(n)
    ensures lv != [] && |lv[|lv|-1]| > 0 && |lv[|lv|-1][0].es| >= 2
  {
  }

  lemma ContentNone(lv: seq<Level>)
    ensures lv == [] ==> Content(lv) == map[]
  {
  }

  lemma ContentIs(lv: seq<Level>)
    ensures lv != [] ==> Content(lv) == MapOf(Pairs(Outline(lv[0])))
  {
  }

  /** Payloads have no pairs below them: any weight but one will do. */
  ghost function Heavy(O: seq<Iv>): (w: seq<nat>)
    ensures |w| == |O|
  {
    seq(|O|, i => 2)
  }

  lemma {:induction false} HeavyMixed(L: Level, n: nat)
    requires Sturdy(n)
    ensures AllMixed(L, Heavy(Outline(L)), n)
  {
    hide Ivs;
    if L == [] {
    } else {
      HeavyMixed(L[1..], n);
      var k := |L[0].es|;
      assert Heavy(Outline(L))[k..] == Heavy(Outline(L[1..]));
      HeavyNone(Heavy(Outline(L))[..k], n);
    }
  }

  lemma HeavyNone(w: seq<nat>, n: nat)
    requires Sturdy(n) && forall i :: 0 <= i < |w| ==> w[i] == 2
    ensures Mixed(w, n)
  {
    if n != 5 { MixedBy(w, n, 0, if w == [] then 0 else |w| - 1); }
  }

  lemma NodeOkFull(g: NodeG, n: nat)
    requires NodeOk(g, n)
    ensures Full(g.es)
  {
  }

  lemma CovIntro(lv: seq<Level>, l: nat, j: nat, key: nat)
    requires l < |lv| && j < |lv[l]| && lv[l][j].lo <= key < lv[l][j].hi
    ensures Cov(lv, l, j, key)
  {
  }

  lemma WideNotEmpty(lv: seq<Level>, n: nat)
    requires RootWide(lv, n)
    ensures !RootEmpty(lv)
  {
  }

  lemma EmptySlot()
    ensures EMPTY.val == Nul && EMPTY.key == 0
  {
  }

  lemma ChildAtZero(es: seq<Pair>)
    requires AllChild(es) && es != []
    ensures es[0].val.Child?
  {
  }

  /** The key argument still lies in the node's interval after the shift, even if it points into the node. */
  lemma ClearedKey(g: NodeG, n: nat, p: nat, key: nat, kr: KeyRef, less: seq<Pair>, x: array<Pair>, same: bool)
    requires NodeOk(g, n) && p < |g.es| && g.lo <= key < g.hi && less == RemAt(g.es, p) && Holds(x, less)
    requires kr.At? ==> same && p + 1 < |g.es| && kr.a == x && kr.i == p
    requires kr.Own? ==> kr.k == key
    ensures kr.At? ==> kr.i < kr.a.Length && kr.i < |less|
    ensures g.lo <= ReadKey(kr) < g.hi
  {
  }

  lemma NonEmptyAt(L: Level, j: nat)
    requires NonEmpty(L) && j < |L|
    ensures L[j].es != []
  {
  }

  lemma OutlineLink(L: Level, U: Level)
    requires Link(L, Outline(U))
    ensures |L| == |Outline(U)|
  {
    hide Outline;
  }

  lemma SlotKey(lv: seq<Level>, l: nat, n: nat, top: nat, j: nat, p: nat)
    requires Wf(lv, l, n, top) && j < |lv[l]| && p < |lv[l][j].es|
    ensures LevelOk(lv[l], n)
  {
    WfLevel(lv, l, n, top, l);
  }

  lemma ReadAt(a: array<Pair>, i: nat)
    requires i < a.Length
    ensures ReadKey(At(a, i)) == a[i].key
  {
  }

  lemma AllFull(L: Level, c: nat)
    requires c < |L| && L[c].es != [] && forall k :: 0 <= k < |L| && k != c ==> L[k].es != []
    ensures NonEmpty(L)
  {
  }

  lemma WideKept(lv: seq<Level>, r: seq<Level>, n: nat)
    requires RootWide(lv, n) && |r| == |lv| && |r[|lv|-1]| == |lv[|lv|-1]|
    requires |r[|lv|-1][0].es| == |lv[|lv|-1][0].es|
    ensures RootWide(r, n)
  {
  }

  lemma ReadOwn(key: nat)
    ensures ReadKey(Own(key)) == key
  {
  }

  /** Dropping the other child of a two-slot root that has just been shrunk away. */
  lemma LastDropped(lv: seq<Level>, l: nat, n: nat, top: nat, j: nat, p: nat)
    requires Wf(lv, l + 1, n, top) && l + 2 == |lv| && |lv[l+1][0].es| == 2 && p < 2
    requires Link(lv[l], Outline(lv[l+1])) && j == Off(lv[l+1], 0) + p
    requires forall k :: 0 <= k < |lv[l]| && k != j ==> lv[l][k].es != []
    ensures var M := Replace(lv[l], j, []);
      && |M| == 1 && M[0].hi <= top && M[0].es != []
      && RemAt(lv[l+1][0].es, p)[0].val == Child(M[0].ref)
      && Widens(M, [Iv(Child(M[0].ref), 0, top)])
  {
    hide Wf, Link, Outline, RemAt, Replace, Off, Widens;
    LastChild(lv[l], lv, l, n, top, p);
    ReplaceAt(lv[l], j, [], 0);
    var M := Replace(lv[l], j, []);
    assert M == [M[0]];
    WidensRoot(M[0], top);
  }

  lemma SmallRootLo(L: Level, M: Level, h: nat, j: nat)
    requires SmallRoot(L, h) && LoOnly(L, M) && j < |M|
    ensures |M[j].es| <= 1
  {
  }

  /** The level after the pair has been stored. */
  lemma Inserted(lv: seq<Level>, l: nat, j: nat, pos: nat, key: nat, val: Slot, q: nat, w: seq<nat>, v: nat, n: nat)
    requires l < |lv| && j < |lv[l]| && pos <= |lv[l][j].es|
    requires l > 0 ==> pos < |lv[l][j].es| && q == Off(lv[l], j) + pos
    requires l == 0 ==> key !in Content(lv)
    requires Sturdy(n) ==> |w| == |Outline(lv[l])| && AllMixed(lv[l], w, n) && v != 1
    ensures var r := Put(lv, l, j, InsAt(lv[l][j].es, pos, Pair(key, val)));
      && r[..l] == lv[..l]
      && (l > 0 ==> q < |Outline(lv[l])| && Outline(r[l]) == InsBefore(Outline(lv[l]), q, key, val))
      && (l == 0 ==> Content(r) == Content(lv)[key := val])
      && (l > 0 && Sturdy(n) ==> |Outline(r[l])| == |w| + 1 && AllMixed(r[l], InsAt<nat>(w, q, v), n))
  {
    hide Outline, Content, AllMixed, InsAt, InsBefore, Off, Replace;
    if l > 0 {
      OutlineInsert(lv[l], j, pos, key, val);
      if Sturdy(n) { AllInsert(lv[l], j, pos, Pair(key, val), w, v, n); }
    } else {
      ContentInsert(lv, j, pos, key, val);
    }
  }

  ghost predicate SmallRoot(L: Level, h: nat) {
    |L| == 1 && |L[0].es| <= 1 && (h > 0 ==> L[0].es != [])
  }

  /** Everything about a finished split that does not concern memory. */
  lemma SplitGhost(lv0: seq<Level>, lv: seq<Level>, l: nat, n: nat, top: nat, j: nat, h: nat, nw: array<Pair>,
                   O: seq<Iv>, w: seq<nat>, key: nat)
    requires l < |lv0| && l + 1 < |lv| && lv[l] == lv0[l] && n >= 4 && h == n / 2
    requires Wf(lv0, l, n, top) && Cov(lv0, l, j, key) && Wf(lv, l + 1, n, top)
    requires j < |lv[l]| && |lv[l][j].es| == n
    requires Under(lv[l], j, O) && j < |O| && Outline(lv[l+1]) == InsBefore(O, j, lv[l][j].es[h-1].key, Child(nw))
    requires Sturdy(n) ==>
      MixedTree(lv, l + 1, n) && |Outline(lv[l+1])| == |lv[l]| + 1
      && AllMixed(lv[l+1], InsAt<nat>(Sizes(lv[l])[j := n - h], j, h), n)
    requires Sturdy(n) ==> |w| == |Outline(lv[l])| && AllMixed(lv[l], w, n)
    ensures var S := Split(lv[l], j, h, nw, O[j].lo);
      && Wf(lv[l := S], l, n, top) && Outline(S) == Outline(lv[l]) && HalfDone(S, j, key, n)
      && (Sturdy(n) ==> MixedTree(lv[l := S], l, n) && |w| == |Outline(S)| && AllMixed(S, w, n))
  {
    hide *;
    var lo := O[j].lo;
    WfLevel(lv0, l, n, top, l);
    OthersFull(lv0, l, n, top, j);
    SplitWf(lv0[l], lv, l, n, top, j, h, nw, O);
    SplitOutline(lv[l], j, h, nw, lo);
    SplitHalfDone(lv0, l, n, top, j, h, nw, lo, key);
    if Sturdy(n) {
      SplitAt(lv[l], j, h, nw, lo, 0);
      SplitMixed(lv, l, j, h, nw, lo, n);
      AllSplit(lv[l], j, h, nw, lo, w, n);
    }
  }

  /** The weights of the level above the two halves of a split. */
  lemma SplitMixed(lv: seq<Level>, l: nat, j: nat, h: nat, nw: array<Pair>, lo: nat, n: nat)
    requires l + 1 < |lv| && MixedTree(lv, l + 1, n) && j < |lv[l]| && 0 < h < |lv[l][j].es|
    requires |Split(lv[l], j, h, nw, lo)| == |Outline(lv[l+1])|
    requires AllMixed(lv[l+1], InsAt<nat>(Sizes(lv[l])[j := |lv[l][j].es| - h], j, h), n)
    ensures MixedTree(lv[l := Split(lv[l], j, h, nw, lo)], l, n)
  {
    hide MixedTree, Split, Sizes, AllMixed, Outline, InsAt;
    SplitSizes(lv[l], j, h, nw, lo);
    MixedLevelSet(lv, l, Split(lv[l], j, h, nw, lo), n);
  }

  lemma RootOne(lv: seq<Level>, l: nat, n: nat, top: nat)
    requires Wf(lv, l, n, top)
    ensures |lv| > 0 && |lv[|lv|-1]| == 1
  {
  }

  lemma PutDef(lv: seq<Level>, l: nat, j: nat, es: seq<Pair>)
    requires l < |lv| && j < |lv[l]|
    ensures Put(lv, l, j, es) == lv[l := Replace(lv[l], j, [lv[l][j].(es := es)])]
  {
  }

  lemma NodeFull(lv: seq<Level>, l: nat, n: nat, top: nat, j: nat)
    requires Wf(lv, l, n, top) && j < |lv[l]|
    ensures Full(lv[l][j].es) && Desc(lv[l][j].es) && |lv[l][j].es| <= n
  {
    hide Outline, Link, NonEmpty;
    assert LevelOk(lv[l], n);
    LevelAt(lv[l], n, j, j);
  }

  lemma DescendedMixed(lv: seq<Level>, r: seq<Level>, l: nat, w: seq<nat>, n: nat)
    requires Descended(lv, r, l)
    requires Sturdy(n) ==> |w| == |Outline(lv[l])| && AllMixed(lv[l], w, n)
    ensures Sturdy(n) ==> |w| == |Outline(r[l])| && AllMixed(r[l], w, n)
  {
    hide Outline, AllMixed, Shape, LoOnly, Ivs;
    ShapeLen(lv, r);
    ShapeSizes(lv, r, l);
    if Sturdy(n) { AllSame(lv[l], r[l], w, n); }
  }

  lemma GrownHolds(x: array<Pair>, es: seq<Pair>)
    requires x.Length >= 4 && |es| <= 1
    requires es != [] ==> x[0] == es[0]
    requires forall i :: |es| <= i < x.Length ==> x[i] == EMPTY
    ensures Holds(x, es)
  {
  }

  /** The pairs of the root that btree_grow puts above the old tree. */
  ghost function Above(lv: seq<Level>): (r: seq<Pair>)
    requires lv != [] ==> |lv[|lv|-1]| == 1 && lv[|lv|-1][0].es != []
    ensures |r| <= 1 && (r == [] <==> lv == [])
  {
    if lv == [] then []
    else var g := lv[|lv|-1][0]; [Pair(g.es[|g.es|-1].key, Child(g.ref))]
  }
}
