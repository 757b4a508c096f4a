/**
 What the routing intervals say about the stored map: which leaf can hold a key,
 where the largest key sits, and which keys a missed descent has ruled out.
 */
module BTreeQueries {
  import opened BTreeLevels
  import opened BTreeEdits
  import opened BTreeMixed
  import opened BTreePaths
  import opened BTreeInsertion
  import opened BTreeNode
  import opened BTreeMemory

  /** A stored key lies in exactly one leaf, the one it is routed to. */
  lemma KeyHome(lv: seq<Level>, n: nat, top: nat, key: nat) returns (j: nat, p: nat)
    requires Wf(lv, 0, n, top) && key in Content(lv)
    ensures Cov(lv, 0, j, key) && j < |lv[0]| && p < |lv[0][j].es| && lv[0][j].es[p].key == key
    ensures Content(lv)[key] == lv[0][j].es[p].val
  {
    hide LevelOk, Outline, MapOf, Pairs, Link, NonEmpty;
    var O := Outline(lv[0]);
    WfLevel(lv, 0, n, top, 0);
    MapKeys(Pairs(O), key);
    var x :| 0 <= x < |Pairs(O)| && Pairs(O)[x].key == key;
    PairsAt(O, x);
    DescPairs(lv[0], n);
    MapAt(Pairs(O), x);
    j, p := OutlineInside(lv[0], n, x);
    IvsAt(lv[0][j].hi, lv[0][j].es, p);
  }

  lemma KeyHere(lv: seq<Level>, n: nat, top: nat, j: nat, p: nat)
    requires Wf(lv, 0, n, top) && j < |lv[0]| && p < |lv[0][j].es|
    ensures lv[0][j].es[p].key in Content(lv) && Content(lv)[lv[0][j].es[p].key] == lv[0][j].es[p].val
    ensures lv[0][j].es[p].key < top
  {
    hide LevelOk, NodeOk, Ivs, Off, Outline, MapOf, Pairs, Link, NonEmpty, Desc;
    var O := Outline(lv[0]);
    WfLevel(lv, 0, n, top, 0);
    OutlineAt(lv[0], j, p);
    IvsAt(lv[0][j].hi, lv[0][j].es, p);
    PairsAt(O, Off(lv[0], j) + p);
    DescPairs(lv[0], n);
    MapAt(Pairs(O), Off(lv[0], j) + p);
    HiTop(lv, 0, n, top, j);
    LevelAt(lv[0], n, j, j);
    NodeKey(lv[0][j], n, p);
  }

  /** The leaf a key is routed to decides whether the key is stored. */
  lemma LeafDecides(lv: seq<Level>, n: nat, top: nat, j: nat, key: nat)
    requires Wf(lv, 0, n, top) && Cov(lv, 0, j, key)
    ensures j < |lv[0]|
    ensures var es := lv[0][j].es; var p := FirstLe(es, key);
      && (key in Content(lv) <==> p < |es| && es[p].key == key)
      && (key in Content(lv) ==> Content(lv)[key] == es[p].val)
  {
    hide LevelOk, Outline, Content, Wf, Cov, FirstLe;
    CovAt(lv, 0, j, key);
    var es := lv[0][j].es;
    var p := FirstLe(es, key);
    if p < |es| { KeyHere(lv, n, top, j, p); }
    if key in Content(lv) {
      var k, q := KeyHome(lv, n, top, key);
      WfLevel(lv, 0, n, top, 0);
      CovUnique(lv, 0, n, j, k, key);
      FirstLeHit(lv[0], n, j, q);
    }
  }

  lemma FirstLeHit(L: Level, n: nat, j: nat, q: nat)
    requires LevelOk(L, n) && j < |L| && q < |L[j].es|
    ensures FirstLe(L[j].es, L[j].es[q].key) == q
  {
    LevelAt(L, n, j, j);
    FirstLeIs(L[j].es, L[j].es[q].key, q);
  }

  /** A descent that finds no slot at node k of level h: nothing is stored between the node's bound and the key. */
  lemma Missed(lv: seq<Level>, n: nat, top: nat, h: nat, k: nat, key: nat, y: nat)
    requires Wf(lv, 0, n, top) && 0 < h < |lv| && Cov(lv, h, k, key)
    requires FirstLe(lv[h][k].es, key) == |lv[h][k].es| && lv[h][k].lo <= y <= key
    ensures y !in Content(lv)
  {
    hide LevelOk, Outline, Content, Link, NonEmpty;
    if y in Content(lv) {
      var j, p := KeyHome(lv, n, top, y);
      Forced(lv, 0, n, top, j, y, h, k);
    }
  }

  lemma MissedLeaf(lv: seq<Level>, n: nat, top: nat, j: nat, key: nat, y: nat)
    requires Wf(lv, 0, n, top) && Cov(lv, 0, j, key)
    requires FirstLe(lv[0][j].es, key) == |lv[0][j].es| && lv[0][j].lo <= y <= key
    ensures y !in Content(lv)
  {
    hide LevelOk, Outline, Content, Link, NonEmpty;
    LeafDecides(lv, n, top, j, y);
    var q := FirstLe(lv[0][j].es, y);
    assert q < |lv[0][j].es| ==> lv[0][j].es[q].key > key;
  }

  /** The slot found in a leaf holds the greatest stored key not above the argument. */
  lemma FoundLeaf(lv: seq<Level>, n: nat, top: nat, j: nat, key: nat, y: nat)
    requires Wf(lv, 0, n, top) && Cov(lv, 0, j, key)
    requires var p := FirstLe(lv[0][j].es, key); p < |lv[0][j].es| && lv[0][j].es[p].key < y <= key
    ensures y !in Content(lv)
  {
    hide Outline, Content, Link, NonEmpty, NodeOk, LevelOk;
    var es := lv[0][j].es;
    var p := FirstLe(es, key);
    WfLevel(lv, 0, n, top, 0);
    LevelAt(lv[0], n, j, j);
    NodeKey(lv[0][j], n, p);
    LeafDecides(lv, n, top, j, y);
    FirstLeIs(es, y, p);
  }

  lemma NodeKey(g: NodeG, n: nat, p: nat)
    requires NodeOk(g, n) && p < |g.es|
    ensures g.lo <= g.es[p].key < g.hi
  {
  }

  // ---------------------------------------------------------------- both ends of the tree

  /** The first node of every level covers everything from its bound to the top. */
  lemma FirstHi(lv: seq<Level>, l: nat, n: nat, top: nat)
    requires Wf(lv, l, n, top) && l + 1 < |lv| && |lv[l+1]| > 0 && lv[l+1][0].es != [] && lv[l+1][0].hi == top
    ensures |lv[l]| > 0 && lv[l][0].hi == top
    ensures lv[l+1][0].es[0] == Pair(lv[l][0].lo, Child(lv[l][0].ref))
  {
    hide Outline, LevelOk, Link, NonEmpty, Wf;
    WfLevel2(lv, l, n, top);
    var j := ChildAt(lv, l, n, top, 0, 0);
    OffZero(lv[l+1]);
  }

  lemma WfLevel2(lv: seq<Level>, l: nat, n: nat, top: nat)
    requires Wf(lv, l, n, top) && l + 1 < |lv|
    ensures LevelOk(lv[l], n) && LevelOk(lv[l+1], n) && Link(lv[l], Outline(lv[l+1])) && NonEmpty(lv[l])
  {
    hide Outline, LevelOk, Link, NonEmpty;
  }

  lemma OffZero(L: Level)
    ensures Off(L, 0) == 0
  {
    assert L[..0] == [];
  }

  /** The first pair of the first leaf is the greatest binding. */
  lemma FirstGreatest(lv: seq<Level>, n: nat, top: nat, y: nat)
    requires Wf(lv, 0, n, top) && |lv[0]| > 0 && lv[0][0].hi == top && lv[0][0].es != []
    requires y in Content(lv)
    ensures y <= lv[0][0].es[0].key
  {
    hide Outline, Content, Link, NonEmpty, LevelOk, NodeOk;
    var j, p := KeyHome(lv, n, top, y);
    WfLevel(lv, 0, n, top, 0);
    LevelAt(lv[0], n, 0, j);
    NodeKey(lv[0][j], n, p);
    NodeKey(lv[0][0], n, 0);
    if j == 0 { NodeFirst(lv[0][0], n, p); }
  }

  lemma NodeFirst(g: NodeG, n: nat, p: nat)
    requires NodeOk(g, n) && p < |g.es|
    ensures g.es[p].key <= g.es[0].key
  {
  }

  lemma EmptyLeaf(lv: seq<Level>, n: nat, top: nat, y: nat)
    requires Wf(lv, 0, n, top) && |lv| == 1 && lv[0][0].es == []
    ensures y !in Content(lv)
  {
    hide Outline, Content, Link, NonEmpty, LevelOk, NodeOk;
    if y in Content(lv) {
      var j, p := KeyHome(lv, n, top, y);
    }
  }

  /** A node of a lower level whose bound is zero hangs below a zero last separator of the root. */
  lemma {:induction false} ZeroBound(lv: seq<Level>, l: nat, n: nat, top: nat, j: nat)
    requires Wf(lv, l, n, top) && j < |lv[l]| && lv[l][j].lo == 0 && l + 1 < |lv|
    ensures |lv[|lv|-1]| == 1 && lv[|lv|-1][0].es != []
    ensures lv[|lv|-1][0].es[|lv[|lv|-1][0].es|-1].key == 0
    decreases |lv| - l
  {
    hide Outline, LevelOk, Link, NonEmpty, Wf, Off;
    TopSingle2(lv, l, n, top);
    var k, p := Parent(lv, l, n, top, j);
    if l + 2 < |lv| {
      WfUp2(lv, l, n, top);
      ZeroBound(lv, l + 1, n, top, k);
    } else {
      WfLevel(lv, l, n, top, l + 1);
      LastLeast(lv[l+1], n, k, p);
    }
  }

  lemma WfUp2(lv: seq<Level>, l: nat, n: nat, top: nat)
    requires Wf(lv, l, n, top) && l + 1 < |lv|
    ensures Wf(lv, l + 1, n, top)
  {
    WfUp(lv, l, n, top);
  }

  lemma TopSingle2(lv: seq<Level>, l: nat, n: nat, top: nat)
    requires Wf(lv, l, n, top)
    ensures |lv| > l && |lv[|lv|-1]| == 1
  {
  }

  lemma LastLeast(L: Level, n: nat, k: nat, p: nat)
    requires LevelOk(L, n) && k < |L| && p < |L[k].es|
    ensures L[k].es[|L[k].es|-1].key <= L[k].es[p].key
  {
    LevelAt(L, n, k, k);
  }

  // ---------------------------------------------------------------- storing a value in a leaf

  /** The pairs of a leaf after slot i has been given a value: used slot or first cleared slot. */
  ghost function Assigned(es: seq<Pair>, i: nat, v: Slot): seq<Pair>
    requires i <= |es|
  {
    if i < |es| then es[i := Pair(es[i].key, v)] else InsAt(es, i, Pair(0, v))
  }

  lemma AssignedHolds(a: array<Pair>, es: seq<Pair>, i: nat, v: Slot)
    requires i <= |es| <= a.Length && i < a.Length
    requires forall k :: 0 <= k < a.Length && k != i ==> a[k] == if k < |es| then es[k] else EMPTY
    requires a[i] == Pair(if i < |es| then es[i].key else 0, v)
    ensures Holds(a, Assigned(es, i, v))
  {
  }

  lemma AssignedOk(L: Level, n: nat, j: nat, i: nat, v: Slot)
    requires LevelOk(L, n) && j < |L| && i <= |L[j].es| && v != Nul
    requires i == |L[j].es| ==> i < n && L[j].lo == 0 < L[j].hi && FirstLe(L[j].es, 0) == i
    ensures LevelOk(Replace(L, j, [L[j].(es := Assigned(L[j].es, i, v))]), n)
  {
    hide LevelOk, NodeOk, Replace, InsAt;
    var g := L[j].(es := Assigned(L[j].es, i, v));
    if i < |L[j].es| {
      LevelAt(L, n, j, j);
      AssignedNode(L[j], n, i, v);
      ReplaceOkOne(L, j, g, n);
    } else {
      LevelInsert(L, n, j, i, 0, v);
    }
  }

  lemma AssignedNode(g: NodeG, n: nat, i: nat, v: Slot)
    requires NodeOk(g, n) && i < |g.es| && v != Nul
    ensures NodeOk(g.(es := g.es[i := Pair(g.es[i].key, v)]), n)
  {
  }

  lemma AssignedMixed(lv: seq<Level>, j: nat, i: nat, v: Slot, n: nat)
    requires lv != [] && j < |lv[0]| && i <= |lv[0][j].es| && MixedTree(lv, 0, n)
    requires i == |lv[0][j].es| && |lv| > 1 ==> i > 0
    ensures MixedTree(Put(lv, 0, j, Assigned(lv[0][j].es, i, v)), 0, n)
  {
    hide MixedTree, Shape, ShapeLevel, Replace, InsAt;
    var es := Assigned(lv[0][j].es, i, v);
    if i < |lv[0][j].es| {
      ReplaceShape(lv[0], j, lv[0][j].(es := es));
      forall k | 0 <= k < |lv| ensures ShapeLevel(lv[k], lv[k]) { ShapeLevelRefl(lv[k]); }
      ShapeIntro(lv, Put(lv, 0, j, es));
      ShapeMixed(lv, Put(lv, 0, j, es), 0, n);
    } else {
      InsertMixed(lv, 0, j, es, n);
    }
  }

  lemma ShapeIntro(lv: seq<Level>, r: seq<Level>)
    requires |r| == |lv| && forall i :: 0 <= i < |lv| ==> ShapeLevel(lv[i], r[i])
    ensures Shape(lv, r)
  {
    hide ShapeLevel;
  }

  lemma AssignedContent(lv: seq<Level>, n: nat, top: nat, j: nat, i: nat, v: Slot)
    requires Wf(lv, 0, n, top) && j < |lv[0]| && i <= |lv[0][j].es|
    requires i == |lv[0][j].es| ==> 0 !in Content(lv)
    ensures var key := if i < |lv[0][j].es| then lv[0][j].es[i].key else 0;
      Content(Put(lv, 0, j, Assigned(lv[0][j].es, i, v))) == Content(lv)[key := v]
  {
    hide Outline, MapOf, Pairs, Off, Replace, InsAt, LevelOk, Link, NonEmpty, Desc, Ivs;
    var es := lv[0][j].es;
    if i < |es| {
      var O, x := Outline(lv[0]), Off(lv[0], j) + i;
      WfLevel(lv, 0, n, top, 0);
      OutlineAt(lv[0], j, i);
      IvsAt(lv[0][j].hi, es, i);
      PairsAt(O, x);
      DescPairs(lv[0], n);
      PairsSet(lv[0], j, i, Pair(es[i].key, v));
      MapUpdate(Pairs(O), x, v);
    } else {
      ContentInsert(lv, j, i, 0, v);
    }
  }

  // ---------------------------------------------------------------- removing a binding

  lemma ContentRemove(lv: seq<Level>, r: seq<Level>, n: nat, top: nat, j: nat, p: nat)
    requires Wf(lv, 0, n, top) && r != [] && j < |lv[0]| && p < |lv[0][j].es|
    requires Removed(Outline(lv[0]), Off(lv[0], j) + p, false, Outline(r[0]))
    ensures Content(r) == Content(lv) - {lv[0][j].es[p].key}
  {
    hide Outline, MapOf, Pairs, Off, LevelOk, Link, NonEmpty, Desc, Ivs, Removed;
    var O, x := Outline(lv[0]), Off(lv[0], j) + p;
    WfLevel(lv, 0, n, top, 0);
    OutlineAt(lv[0], j, p);
    IvsAt(lv[0][j].hi, lv[0][j].es, p);
    PairsAt(O, x);
    DescPairs(lv[0], n);
    PairsRemoved(O, x, false, Outline(r[0]));
    MapRemove(Pairs(O), x);
  }

  lemma ContentDescended(lv: seq<Level>, r: seq<Level>)
    requires Descended(lv, r, 0)
    ensures Content(r) == Content(lv)
  {
    hide Outline, MapOf, Pairs, Shape, LoOnly;
    DescendedAt(lv, r, 0);
    LoOnlyOutline(lv[0], r[0]);
  }

  /** Key 0 is routed to the last leaf. */
  lemma ZeroLast(lv: seq<Level>, n: nat, top: nat, j: nat)
    requires Wf(lv, 0, n, top) && Cov(lv, 0, j, 0)
    requires forall k :: 0 <= k < |lv[0]| ==> lv[0][k].lo < lv[0][k].hi
    ensures j + 1 == |lv[0]|
  {
    hide Outline, NodeOk, Link, NonEmpty;
    WfLevel(lv, 0, n, top, 0);
    if j + 1 < |lv[0]| {
      LevelAt(lv[0], n, j, j + 1);
    }
  }

  lemma LeafProper(lv: seq<Level>, n: nat, top: nat)
    requires Wf(lv, 0, n, top) && 0 < top
    ensures forall k :: 0 <= k < |lv[0]| ==> lv[0][k].lo < lv[0][k].hi
  {
    hide Outline, NodeOk, Link, NonEmpty, LevelOk;
    forall k | 0 <= k < |lv[0]| ensures lv[0][k].lo < lv[0][k].hi {
      if 1 < |lv| {
        WfUp2(lv, 0, n, top);
        var m, p := Parent(lv, 0, n, top, k);
      }
    }
  }
}
