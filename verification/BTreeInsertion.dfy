/**
 The level-by-level argument for insertion: how a split node is relinked below
 the outline that has just received the new sibling, and where a new pair goes.
 */
module BTreeInsertion {
  import opened BTreeLevels
  import opened BTreeEdits
  import opened BTreeSteps
  import opened BTreeMixed
  import opened BTreePaths
  import opened BTreeNode
  import opened BTreeMemory

  /**
   What a level offers to a pair inserted into it.  One level above the root
   that is the single separator btree_grow is about to create.
   */
  ghost function Items(lv: seq<Level>, l: nat, top: nat): seq<Iv>
    requires l <= |lv|
    requires l == |lv| > 0 ==> |lv[l-1]| == 1 && lv[l-1][0].es != []
  {
    if l < |lv| then Outline(lv[l])
    else if l == 0 then []
    else [Iv(Child(lv[l-1][0].ref), lv[l-1][0].es[|lv[l-1][0].es|-1].key, top)]
  }

  lemma ItemsIn(lv: seq<Level>, l: nat, top: nat)
    requires l <= |lv|
    requires l == |lv| > 0 ==> |lv[l-1]| == 1 && lv[l-1][0].es != []
    ensures l < |lv| ==> Items(lv, l, top) == Outline(lv[l])
  {
    hide Outline;
  }

  lemma ItemsUnder(lv: seq<Level>, l: nat, n: nat, top: nat, j: nat)
    requires Wf(lv, l, n, top) && j < |lv[l]| && lv[l][j].es != []
    ensures l + 1 == |lv| ==> |lv[l]| == 1 && lv[l][0].es != []
    ensures Under(lv[l], j, Items(lv, l + 1, top))
  {
    hide Outline, NodeOk, LevelOk;
    WfLevel(lv, l, n, top, l);
    if l + 1 < |lv| {
      LinkOf(lv, l, n, top);
      UnderLink(lv[l], j, Outline(lv[l+1]), n);
    } else {
      LevelAt(lv[l], n, 0, 0);
      NodeLast(lv[l][0], n);
    }
  }

  lemma LinkOf(lv: seq<Level>, l: nat, n: nat, top: nat)
    requires Wf(lv, l, n, top) && l + 1 < |lv|
    ensures Link(lv[l], Outline(lv[l+1])) && NonEmpty(lv[l]) && Wf(lv, l + 1, n, top)
  {
    hide Outline, LevelOk, Link, NonEmpty;
  }

  lemma NodeLast(g: NodeG, n: nat)
    requires NodeOk(g, n) && g.es != []
    ensures g.lo <= g.es[|g.es|-1].key < g.hi
    ensures forall p :: 0 <= p < |g.es| ==> g.es[|g.es|-1].key <= g.es[p].key
  {
  }

  /** The separator of the new left half lies strictly inside the split node's interval. */
  lemma MidInside(L: Level, j: nat, O: seq<Iv>, h: nat, n: nat)
    requires LevelOk(L, n) && Under(L, j, O) && 0 < h < |L[j].es|
    ensures O[j].lo < L[j].es[h-1].key < O[j].hi == L[j].hi
  {
    LevelAt(L, n, j, j);
    assert L[j].es[h-1].key > L[j].es[h].key >= O[j].lo;
  }

  lemma SplitWf(L: Level, lv: seq<Level>, l: nat, n: nat, top: nat, j: nat, h: nat, nw: array<Pair>, O: seq<Iv>)
    requires l + 1 < |lv| && Wf(lv, l + 1, n, top)
    requires LevelOk(L, n) && Under(L, j, O) && 0 < h < |L[j].es|
    requires forall k :: 0 <= k < |L| && k != j ==> L[k].es != []
    requires Outline(lv[l+1]) == InsBefore(O, j, L[j].es[h-1].key, Child(nw))
    ensures Wf(lv[l := Split(L, j, h, nw, O[j].lo)], l, n, top)
  {
    hide *;
    UnderLen(L, j, O);
    SplitLevelOk(L, j, h, nw, O, n);
    SplitLink(L, j, h, nw, O);
    SplitNonEmpty(L, j, h, nw, O[j].lo);
    WfSet(lv, l, Split(L, j, h, nw, O[j].lo), n, top);
  }

  lemma UnderLen(L: Level, j: nat, O: seq<Iv>)
    requires Under(L, j, O)
    ensures |O| == |L| && j < |L|
  {
  }

  lemma SplitSizes(L: Level, j: nat, h: nat, nw: array<Pair>, lo: nat)
    requires j < |L| && 0 < h < |L[j].es|
    ensures Sizes(Split(L, j, h, nw, lo)) == InsAt<nat>(Sizes(L)[j := |L[j].es| - h], j, h)
  {
    hide Replace, InsAt;
    var mid := L[j].es[h-1].key;
    var R := [NodeG(nw, mid, L[j].hi, L[j].es[..h]), NodeG(L[j].ref, lo, mid, L[j].es[h..])];
    var a, b := Sizes(Split(L, j, h, nw, lo)), InsAt<nat>(Sizes(L)[j := |L[j].es| - h], j, h);
    forall k | 0 <= k < |a| ensures a[k] == b[k] {
      ReplaceAt(L, j, R, k);
      InsAtIdx(Sizes(L)[j := |L[j].es| - h], j, h, k);
    }
  }

  lemma SplitAt(L: Level, j: nat, h: nat, nw: array<Pair>, lo: nat, k: nat)
    requires j < |L| && 0 < h < |L[j].es| && k <= |L|
    ensures |Split(L, j, h, nw, lo)| == |L| + 1
    ensures var mid := L[j].es[h-1].key;
      Split(L, j, h, nw, lo)[k] ==
        if k < j then L[k]
        else if k == j then NodeG(nw, mid, L[j].hi, L[j].es[..h])
        else if k == j + 1 then NodeG(L[j].ref, lo, mid, L[j].es[h..])
        else L[k-1]
  {
    hide Replace;
    var mid := L[j].es[h-1].key;
    ReplaceAt(L, j, [NodeG(nw, mid, L[j].hi, L[j].es[..h]), NodeG(L[j].ref, lo, mid, L[j].es[h..])], k);
  }

  /** Weights for the level above while node j is being split. */
  lemma SplitWeights(lv: seq<Level>, l: nat, j: nat, h: nat, n: nat)
    requires MixedTree(lv, l, n) && l + 1 < |lv| && j < |lv[l]| && 2 <= h && h + 2 <= |lv[l][j].es|
    ensures |Outline(lv[l+1])| == |lv[l]|
    ensures AllMixed(lv[l+1], Sizes(lv[l])[j := |lv[l][j].es| - h], n)
  {
    hide Outline, AllMixed;
    AllWeaken(lv[l+1], Sizes(lv[l]), Sizes(lv[l])[j := |lv[l][j].es| - h], n);
  }

  lemma MixedLevelSet(lv: seq<Level>, l: nat, L: Level, n: nat)
    requires l + 1 < |lv| && MixedTree(lv, l + 1, n)
    requires |L| == |Outline(lv[l+1])| && AllMixed(lv[l+1], Sizes(L), n)
    ensures MixedTree(lv[l := L], l, n)
  {
    hide Outline, AllMixed, Sizes;
  }

  // ---------------------------------------------------------------- memory of a split

  lemma SplitStored(lv: seq<Level>, R: Nodes, n: nat, l: nat, j: nat, h: nat, nw: array<Pair>, lo: nat)
    requires l < |lv| && j < |lv[l]| && 0 < h < |lv[l][j].es|
    requires StoredBut(lv, R, n, lv[l][j].ref) && Distinct(lv) && nw !in R && nw.Length == n
    requires Holds(lv[l][j].ref, lv[l][j].es[h..]) && Holds(nw, lv[l][j].es[..h])
    ensures Stored(lv[l := Split(lv[l], j, h, nw, lo)], R + {nw}, n)
  {
    hide Split, Holds;
    var S := Split(lv[l], j, h, nw, lo);
    var r: seq<Level> := lv[l := S];
    forall k, m | 0 <= k < |r| && 0 <= m < |r[k]|
      ensures r[k][m].ref in R + {nw} && r[k][m].ref.Length == n && Holds(r[k][m].ref, r[k][m].es)
    {
      SplitAt(lv[l], j, h, nw, lo, if m <= |lv[l]| then m else 0);
      if k == l {
        if m > j + 1 { assert lv[l][m-1].ref in R; }
        if m < j { assert lv[l][m].ref in R; }
        if m == j + 1 { assert lv[l][j].ref in R; }
      } else {
        assert lv[k][m].ref in R;
      }
    }
  }

  lemma SplitDistinct(lv: seq<Level>, R: Nodes, n: nat, l: nat, j: nat, h: nat, nw: array<Pair>, lo: nat)
    requires l < |lv| && j < |lv[l]| && 0 < h < |lv[l][j].es|
    requires StoredBut(lv, R, n, lv[l][j].ref) && Distinct(lv) && nw !in R
    ensures Distinct(lv[l := Split(lv[l], j, h, nw, lo)])
  {
    hide Split, Holds;
    var S := Split(lv[l], j, h, nw, lo);
    var r: seq<Level> := lv[l := S];
    SplitAt(lv[l], j, h, nw, lo, 0);
    // where each node of r sits in lv (the new one nowhere)
    forall k, m | 0 <= k < |r| && 0 <= m < |r[k]|
      ensures Origin(r, lv, l, j, nw, k, m)
    {
      SplitAt(lv[l], j, h, nw, lo, if m <= |lv[l]| then m else 0);
      if !(k == l && m == j) {
        var m0 := Old(l, j, k, m);
        assert lv[k][m0].ref in R;
      }
    }
    hide Distinct;
    OriginDistinct(r, lv, l, j, nw);
  }

  ghost function Old(l: nat, j: nat, k: nat, m: nat): nat {
    if k == l && m > j then m - 1 else m
  }

  ghost predicate Origin(r: seq<Level>, lv: seq<Level>, l: nat, j: nat, nw: array<Pair>, k: nat, m: nat)
    requires k < |r| && m < |r[k]|
  {
    if k == l && m == j then r[k][m].ref == nw
    else k < |lv| && Old(l, j, k, m) < |lv[k]| && r[k][m].ref == lv[k][Old(l, j, k, m)].ref && r[k][m].ref != nw
  }

  lemma OriginDistinct(r: seq<Level>, lv: seq<Level>, l: nat, j: nat, nw: array<Pair>)
    requires Distinct(lv)
    requires forall k, m :: 0 <= k < |r| && 0 <= m < |r[k]| ==> Origin(r, lv, l, j, nw, k, m)
    ensures Distinct(r)
  {
    forall i, a, k, m | 0 <= i < |r| && 0 <= a < |r[i]| && 0 <= k < |r| && 0 <= m < |r[k]| && r[i][a].ref == r[k][m].ref
      ensures i == k && a == m
    {
      assert Origin(r, lv, l, j, nw, i, a) && Origin(r, lv, l, j, nw, k, m);
    }
  }

  // ---------------------------------------------------------------- where a pair goes

  /** An interior pair goes directly in front of the slot whose range it splits. */
  lemma InsertPlace(lv: seq<Level>, l: nat, n: nat, top: nat, j: nat, key: nat, q: nat)
    requires Wf(lv, l, n, top) && Cov(lv, l, j, key)
    requires q < |Outline(lv[l])| && Outline(lv[l])[q].lo < key < Outline(lv[l])[q].hi
    ensures var p := FirstLe(lv[l][j].es, key);
      p < |lv[l][j].es| && q == Off(lv[l], j) + p && lv[l][j].es[p].key < key
  {
    hide LevelOk, NodeOk, Outline, Off, Ivs, FirstLe;
    WfLevel(lv, l, n, top, l);
    var k, p := OutlineInside(lv[l], n, q);
    CovUnique(lv, l, n, j, k, key);
    IvsAt(lv[l][j].hi, lv[l][j].es, p);
    FirstLeIs2(lv[l], n, j, key, p);
  }

  /** A key that is not in the map is not in the node it is routed to. */
  lemma AbsentHere(lv: seq<Level>, n: nat, top: nat, j: nat, key: nat, p: nat)
    requires Wf(lv, 0, n, top) && j < |lv[0]| && p < |lv[0][j].es| && key !in Content(lv)
    ensures lv[0][j].es[p].key != key
  {
    hide Outline, MapOf, Pairs, Off, Ivs, LevelOk, NodeOk;
    var L := lv[0];
    OutlineAt(L, j, p);
    IvsAt(L[j].hi, L[j].es, p);
    PairsAt(Outline(L), Off(L, j) + p);
    MapKeys(Pairs(Outline(L)), key);
    assert Pairs(Outline(L))[Off(L, j) + p].key == L[j].es[p].key;
  }

  lemma PairsAt(O: seq<Iv>, x: nat)
    requires x < |O|
    ensures Pairs(O)[x] == Pair(O[x].lo, O[x].val)
  {
  }

  /** Storing an absent key in a leaf extends the map by that binding. */
  lemma ContentInsert(lv: seq<Level>, j: nat, pos: nat, key: nat, val: Slot)
    requires |lv| > 0 && j < |lv[0]| && pos <= |lv[0][j].es| && key !in Content(lv)
    ensures Content(Put(lv, 0, j, InsAt(lv[0][j].es, pos, Pair(key, val)))) == Content(lv)[key := val]
  {
    hide Outline, MapOf, Pairs, Off, Replace, InsAt;
    PairsInsert(lv[0], j, pos, Pair(key, val));
    MapKeys(Pairs(Outline(lv[0])), key);
    MapInsert(Pairs(Outline(lv[0])), Off(lv[0], j) + pos, Pair(key, val));
  }

  lemma PutMixed(lv: seq<Level>, l: nat, j: nat, es: seq<Pair>, n: nat)
    requires l < |lv| && j < |lv[l]| && (l + 1 < |lv| ==> MixedTree(lv, l + 1, n))
    ensures l + 1 < |lv| ==> MixedTree(Put(lv, l, j, es), l + 1, n)
  {
    hide Outline, AllMixed, Sizes, Replace;
  }

  /** The outline of the level keeps its length through a relink of the levels above. */
  lemma AfterFailure(lv: seq<Level>, r: seq<Level>, l: nat, n: nat, top: nat)
    requires Wf(lv, l, n, top) && l + 1 < |lv| && Descended(lv, r, l + 1) && Wf(r, l + 1, n, top)
    ensures Wf(r, l, n, top) && Descended(lv, r, l)
  {
    hide LevelOk, Outline, Link, NonEmpty, Shape, LoOnly;
    LoOnlyOutline(lv[l+1], r[l+1]);
    DescendedStay(lv, r, l + 1);
    ShapeLen(lv, r);
  }

  lemma ShapeMixed(lv: seq<Level>, r: seq<Level>, l: nat, n: nat)
    requires Shape(lv, r) && MixedTree(lv, l, n)
    ensures MixedTree(r, l, n)
  {
    hide Outline, AllMixed, Shape;
    ShapeLen(lv, r);
    forall i | l < i < |r| ensures |r[i-1]| == |Outline(r[i])| && AllMixed(r[i], Sizes(r[i-1]), n) {
      assert |lv[i-1]| == |Outline(lv[i])|;
      ShapeSizes(lv, r, i);
      ShapeSizes(lv, r, i - 1);
      AllSame(lv[i], r[i], Sizes(lv[i-1]), n);
    }
  }

  lemma ShapeSizes(lv: seq<Level>, r: seq<Level>, i: nat)
    requires Shape(lv, r) && i < |lv|
    ensures Sizes(lv[i]) == Sizes(r[i]) && |lv[i]| == |r[i]|
  {
    assert ShapeLevel(lv[i], r[i]);
  }

  /** Adding a pair to a node that is not an empty root keeps the weights above it mixed. */
  lemma InsertMixed(lv: seq<Level>, l: nat, j: nat, es: seq<Pair>, n: nat)
    requires l < |lv| && j < |lv[l]| && MixedTree(lv, l, n)
    requires l + 1 < |lv| ==> |es| != 1
    ensures MixedTree(Put(lv, l, j, es), l, n)
  {
    hide Outline, AllMixed, Sizes, Put;
    var r := Put(lv, l, j, es);
    PutAt(lv, l, j, es, l, 0);
    forall i | l < i < |r| ensures |r[i-1]| == |Outline(r[i])| && AllMixed(r[i], Sizes(r[i-1]), n) {
      PutAt(lv, l, j, es, i, 0);
      PutOther(lv, l, j, es, i);
      if i == l + 1 {
        PutSizes(lv, l, j, es);
        AllWeaken(lv[i], Sizes(lv[l]), Sizes(r[l]), n) by { SizesOne(lv[l], r[l], j, |es|); }
      } else {
        PutOther(lv, l, j, es, i - 1);
      }
    }
  }

  lemma PutOther(lv: seq<Level>, l: nat, j: nat, es: seq<Pair>, i: nat)
    requires l < |lv| && j < |lv[l]| && i < |lv| && i != l
    ensures Put(lv, l, j, es)[i] == lv[i]
  {
  }

  lemma PutSizes(lv: seq<Level>, l: nat, j: nat, es: seq<Pair>)
    requires l < |lv| && j < |lv[l]|
    ensures Sizes(Put(lv, l, j, es)[l]) == Sizes(lv[l])[j := |es|]
  {
    hide Put;
    PutAt(lv, l, j, es, l, 0);
    forall k | 0 <= k < |lv[l]| ensures Sizes(Put(lv, l, j, es)[l])[k] == Sizes(lv[l])[j := |es|][k] {
      PutAt(lv, l, j, es, l, k);
    }
  }

  lemma SizesOne(L: Level, M: Level, j: nat, s: nat)
    requires j < |L| && |M| == |L| && Sizes(M) == Sizes(L)[j := s] && s != 1
    ensures forall x :: 0 <= x < |Sizes(L)| && Sizes(M)[x] == 1 ==> Sizes(L)[x] == 1
  {
  }

  // ---------------------------------------------------------------- at most one split per level

  /** A split has left nodes jj and jj+1, neither full, around the key's interval. */
  ghost predicate HalfDone(L: Level, jj: nat, key: nat, n: nat) {
    && jj + 1 < |L|
    && |L[jj].es| < n && |L[jj+1].es| < n
    && key < L[jj].hi
    && forall k :: jj + 1 < k < |L| ==> L[k].hi <= key
  }

  lemma HalfDoneLo(L: Level, M: Level, jj: nat, key: nat, n: nat)
    requires HalfDone(L, jj, key, n) && LoOnly(L, M)
    ensures HalfDone(M, jj, key, n)
  {
    assert M[jj] == L[jj].(lo := M[jj].lo) && M[jj+1] == L[jj+1].(lo := M[jj+1].lo);
  }

  lemma HalfDoneRoom(lv: seq<Level>, l: nat, n: nat, top: nat, jj: nat, key: nat, j: nat)
    requires Wf(lv, l, n, top) && HalfDone(lv[l], jj, key, n) && Cov(lv, l, j, key)
    ensures |lv[l][j].es| < n
  {
    hide NodeOk, Outline, Link;
    WfLevel(lv, l, n, top, l);
    CovAt(lv, l, j, key);
  }

  lemma SplitHalfDone(lv: seq<Level>, l: nat, n: nat, top: nat, j: nat, h: nat, nw: array<Pair>, lo: nat, key: nat)
    requires Wf(lv, l, n, top) && Cov(lv, l, j, key) && 0 < h < |lv[l][j].es| && h < n
    requires |lv[l][j].es| - h < n
    ensures HalfDone(Split(lv[l], j, h, nw, lo), j, key, n)
  {
    hide NodeOk, Outline, Link, Split;
    var L := lv[l];
    WfLevel(lv, l, n, top, l);
    var S := Split(L, j, h, nw, lo);
    SplitAt(L, j, h, nw, lo, j);
    SplitAt(L, j, h, nw, lo, j + 1);
    forall k | j + 1 < k < |S| ensures S[k].hi <= key {
      SplitAt(L, j, h, nw, lo, k);
      LevelAt(L, n, j, k - 1);
    }
  }

  lemma {:induction false} HiTop(lv: seq<Level>, l: nat, n: nat, top: nat, j: nat)
    requires Wf(lv, l, n, top) && j < |lv[l]|
    ensures lv[l][j].hi <= top
    decreases |lv| - l
  {
    hide Outline, LevelOk, Link, NonEmpty;
    if l + 1 < |lv| {
      var k, p := Parent(lv, l, n, top, j);
      WfUp(lv, l, n, top);
      HiTop(lv, l + 1, n, top, k);
    }
  }

  lemma OthersFull(lv: seq<Level>, l: nat, n: nat, top: nat, j: nat)
    requires Wf(lv, l, n, top) && j < |lv[l]|
    ensures forall k :: 0 <= k < |lv[l]| && k != j ==> lv[l][k].es != []
  {
    hide Outline, LevelOk, Link;
  }

  lemma ItemsLen(lv: seq<Level>, l: nat, n: nat, top: nat, j: nat)
    requires Wf(lv, l, n, top) && j < |lv[l]| && lv[l][j].es != []
    ensures l + 1 == |lv| ==> |lv[l]| == 1 && lv[l][0].es != []
    ensures |Items(lv, l + 1, top)| == |lv[l]|
  {
    hide Outline, NodeOk, LevelOk, Wf, Link, Items;
    ItemsUnder(lv, l, n, top, j);
  }

  lemma SameContent(lv: seq<Level>, r: seq<Level>, top: nat)
    requires r != [] && Outline(r[0]) == Items(lv, 0, top)
    ensures Content(r) == Content(lv)
  {
    hide Outline;
    assert lv == [] ==> Pairs(Outline(r[0])) == [];
  }

  /** The freshly grown root. */
  lemma GrownWf(lv: seq<Level>, r: seq<Level>, n: nat, top: nat, es: seq<Pair>)
    requires n >= 4 && |r| == |lv| + 1 && |r[|lv|]| == 1
    requires var g := r[|lv|][0]; g.lo == 0 && g.hi == top && g.es == es
    requires lv != [] ==> Wf(lv, |lv| - 1, n, top) && lv[|lv|-1][0].es != []
    requires if lv == [] then es == [] else
      es == [Pair(lv[|lv|-1][0].es[|lv[|lv|-1][0].es|-1].key, Child(lv[|lv|-1][0].ref))]
    ensures Wf(r, |lv|, n, top) && MixedTree(r, |lv|, n)
    ensures Outline(r[|lv|]) == Items(lv, |lv|, top)
  {
    hide Outline, Ivs, AllMixed;
    var g := r[|lv|][0];
    if lv != [] {
      WfLevel(lv, |lv| - 1, n, top, |lv| - 1);
      LevelAt(lv[|lv|-1], n, 0, 0);
      NodeLast(lv[|lv|-1][0], n);
    }
    assert r[|lv|] == [g];
    OutlineOne(g);
    GrownIvs(g);
  }

  lemma GrownIvs(g: NodeG)
    requires |g.es| <= 1
    ensures Ivs(g.hi, g.es) == if g.es == [] then [] else [Iv(g.es[0].val, g.es[0].key, g.hi)]
  {
  }

  lemma AllSmall(g: NodeG, w: seq<nat>, n: nat)
    requires |g.es| <= 1 && |w| == |Outline([g])|
    ensures AllMixed([g], w, n)
  {
    hide Outline, AllMixed, Ivs;
    OutlineOne(g);
    AllOne(g, w, n);
  }
}
