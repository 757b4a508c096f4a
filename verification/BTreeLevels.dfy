/**
 The B+tree seen level by level.

 Every operation of btree.c re-descends from the root to one level, so the
 tree is described as a stack of levels rather than as a recursive tree.  A
 level is the list of its nodes from the largest keys to the smallest.  Each
 node carries the half-open key interval [lo, hi) that a descent from the root
 routes to it.  A level is seen from below as its outline: the sequence of all
 its slots, each with the interval it routes.  Level l+1 is linked to level l
 when its outline is exactly the list of nodes of level l.
 */
module BTreeLevels {

  /** What a value slot of a node holds: nothing, a child node or a user's entry. */
  datatype Slot = Nul | Child(node: array<Pair>) | Item(v: int)

  /** One key/value pair of a node.  A node is an array of `no_pairs` of them. */
  datatype Pair = Pair(key: nat, val: Slot)

  const EMPTY := Pair(0, Nul)

  /** A node together with its used pairs and the interval routed to it. */
  datatype NodeG = NodeG(ref: array<Pair>, lo: nat, hi: nat, es: seq<Pair>)

  /** A slot of a level and the interval [lo, hi) it routes. */
  datatype Iv = Iv(val: Slot, lo: nat, hi: nat)

  type Level = seq<NodeG>

  // ---------------------------------------------------------------- nodes

  ghost predicate Desc(es: seq<Pair>) {
    forall i, j :: 0 <= i < j < |es| ==> es[i].key > es[j].key
  }

  ghost predicate Full(es: seq<Pair>) {
    forall i :: 0 <= i < |es| ==> es[i].val != Nul
  }

  /** The used pairs are non-empty, strictly descending and inside the interval. */
  ghost predicate NodeOk(g: NodeG, n: nat) {
    && |g.es| <= n
    && Desc(g.es)
    && Full(g.es)
    && forall i :: 0 <= i < |g.es| ==> g.lo <= g.es[i].key < g.hi
  }

  /** Nodes of a level route disjoint intervals, largest keys first. */
  ghost predicate LevelOk(L: Level, n: nat) {
    && (forall j :: 0 <= j < |L| ==> NodeOk(L[j], n))
    && (forall j, k :: 0 <= j < k < |L| ==> L[k].hi <= L[j].lo)
  }

  ghost function Ivs(hi: nat, es: seq<Pair>): (r: seq<Iv>)
    ensures |r| == |es|
  {
    seq(|es|, p requires 0 <= p < |es| => Iv(es[p].val, es[p].key, if p == 0 then hi else es[p-1].key))
  }

  lemma IvsAt(hi: nat, es: seq<Pair>, p: nat)
    requires p < |es|
    ensures Ivs(hi, es)[p] == Iv(es[p].val, es[p].key, if p == 0 then hi else es[p-1].key)
  {
  }

  ghost function Outline(L: Level): seq<Iv> {
    if L == [] then [] else Ivs(L[0].hi, L[0].es) + Outline(L[1..])
  }

  ghost function Off(L: Level, j: nat): nat
    requires j <= |L|
  {
    |Outline(L[..j])|
  }

  // ---------------------------------------------------------------- outlines

  lemma {:induction false} OutlineConcat(A: Level, B: Level)
    ensures Outline(A + B) == Outline(A) + Outline(B)
  {
    if A == [] {
      assert A + B == B;
    } else {
      assert (A + B)[1..] == A[1..] + B;
      OutlineConcat(A[1..], B);
    }
  }

  lemma OutlineOne(g: NodeG)
    ensures Outline([g]) == Ivs(g.hi, g.es)
  {
    assert [g][1..] == [];
  }

  lemma Around<T>(s: seq<T>, j: nat)
    requires j < |s|
    ensures s == s[..j] + ([s[j]] + s[j+1..])
  {
  }

  /** The outline around node j. */
  lemma OutlineSplit(L: Level, j: nat)
    requires j < |L|
    ensures Outline(L) == Outline(L[..j]) + (Ivs(L[j].hi, L[j].es) + Outline(L[j+1..]))
  {
    hide Outline, Ivs;
    var A, B := L[..j], L[j+1..];
    Around(L, j);
    OutlineConcat(A, [L[j]] + B);
    OutlineConcat([L[j]], B);
    OutlineOne(L[j]);
  }

  lemma OutlineAt(L: Level, j: nat, p: nat)
    requires j < |L| && p < |L[j].es|
    ensures Off(L, j) + p < |Outline(L)|
    ensures Outline(L)[Off(L, j) + p] == Ivs(L[j].hi, L[j].es)[p]
  {
    OutlineSplit(L, j);
  }

  /** Every outline slot sits at one place of one node. */
  lemma {:induction false} OutlineLoc(L: Level, x: nat) returns (j: nat, p: nat)
    requires x < |Outline(L)|
    ensures j < |L| && p < |L[j].es| && x == Off(L, j) + p
    ensures Outline(L)[x] == Ivs(L[j].hi, L[j].es)[p]
  {
    if x < |L[0].es| {
      j, p := 0, x;
      assert L[..0] == [];
    } else {
      j, p := OutlineLoc(L[1..], x - |L[0].es|);
      j := j + 1;
      assert L[..j][1..] == L[1..][..j-1];
    }
  }

  lemma OffMono(L: Level, j: nat, k: nat)
    requires j < k <= |L|
    ensures Off(L, j) + |L[j].es| <= Off(L, k)
  {
    OutlineSplit(L[..k], j);
    assert L[..k][..j] == L[..j];
  }

  lemma LevelAt(L: Level, n: nat, j: nat, k: nat)
    requires LevelOk(L, n) && j <= k < |L|
    ensures NodeOk(L[j], n) && NodeOk(L[k], n)
    ensures j < k ==> L[k].hi <= L[j].lo
  {
  }

  lemma IvsSorted(g: NodeG, n: nat, p: nat, q: nat)
    requires NodeOk(g, n) && p < q < |g.es|
    ensures Ivs(g.hi, g.es)[q].hi <= Ivs(g.hi, g.es)[p].lo
  {
    hide Ivs, Full;
    IvsAt(g.hi, g.es, p);
    IvsAt(g.hi, g.es, q);
    assert p < q - 1 ==> g.es[p].key > g.es[q-1].key;
  }

  /** The slots of a well-formed level route disjoint intervals, largest first. */
  lemma OutlineSorted(L: Level, n: nat, x: nat, y: nat)
    requires LevelOk(L, n) && x < y < |Outline(L)|
    ensures Outline(L)[y].hi <= Outline(L)[x].lo
  {
    hide *;
    var j, p := OutlineInside(L, n, x);
    var k, q := OutlineInside(L, n, y);
    if k < j {
      OffMono(L, k, j);
    } else if j < k {
      LevelAt(L, n, j, k);
    } else {
      LevelAt(L, n, j, j);
      IvsSorted(L[j], n, p, q);
    }
  }

  lemma OutlineInside(L: Level, n: nat, x: nat) returns (j: nat, p: nat)
    requires LevelOk(L, n) && x < |Outline(L)|
    ensures j < |L| && p < |L[j].es| && x == Off(L, j) + p
    ensures Outline(L)[x] == Ivs(L[j].hi, L[j].es)[p]
    ensures L[j].lo <= Outline(L)[x].lo < Outline(L)[x].hi <= L[j].hi
    ensures Outline(L)[x].val != Nul
  {
    j, p := OutlineLoc(L, x);
  }

  // ---------------------------------------------------------------- links

  /** The nodes of a level are exactly the children listed by the outline above it. */
  ghost predicate Link(L: Level, O: seq<Iv>) {
    && |L| == |O|
    && forall j :: 0 <= j < |L| ==> O[j] == Iv(Child(L[j].ref), L[j].lo, L[j].hi)
  }

  /** Interior and non-root nodes are never empty. */
  ghost predicate NonEmpty(L: Level) {
    forall j :: 0 <= j < |L| ==> L[j].es != []
  }

  /** Levels l, l+1, ... up to the root are well formed; `top` bounds all keys. */
  ghost predicate Wf(lv: seq<Level>, l: nat, n: nat, top: nat) {
    && l < |lv|
    && |lv[|lv|-1]| == 1
    && lv[|lv|-1][0].lo == 0 && lv[|lv|-1][0].hi == top
    && (forall i :: l <= i < |lv| ==> LevelOk(lv[i], n))
    && (forall i :: l <= i < |lv| - 1 ==> Link(lv[i], Outline(lv[i+1])))
    && (forall i :: l <= i < |lv| - 1 ==> NonEmpty(lv[i]))
  }

  lemma WfAt(lv: seq<Level>, l: nat, n: nat, top: nat, j: nat)
    requires Wf(lv, l, n, top) && l + 1 < |lv|
    ensures |lv[l]| == |Outline(lv[l+1])| && LevelOk(lv[l+1], n) && LevelOk(lv[l], n)
    ensures j < |lv[l]| ==> Outline(lv[l+1])[j] == Iv(Child(lv[l][j].ref), lv[l][j].lo, lv[l][j].hi)
    ensures j < |lv[l]| ==> lv[l][j].es != []
  {
    hide Outline, LevelOk;
  }

  lemma WfUp(lv: seq<Level>, l: nat, n: nat, top: nat)
    requires Wf(lv, l, n, top) && l + 1 < |lv|
    ensures Wf(lv, l + 1, n, top)
  {
  }

  /** Routing: key lies in the interval of node j of level l. */
  ghost predicate Cov(lv: seq<Level>, l: nat, j: nat, key: nat) {
    l < |lv| && j < |lv[l]| && lv[l][j].lo <= key < lv[l][j].hi
  }

  lemma CovUnique(lv: seq<Level>, l: nat, n: nat, j: nat, k: nat, key: nat)
    requires l < |lv| && LevelOk(lv[l], n) && Cov(lv, l, j, key) && Cov(lv, l, k, key)
    ensures j == k
  {
  }

  /** A node at level l is slot p of the one node above it; its interval lies inside. */
  lemma Parent(lv: seq<Level>, l: nat, n: nat, top: nat, j: nat) returns (k: nat, p: nat)
    requires Wf(lv, l, n, top) && l + 1 < |lv| && j < |lv[l]|
    ensures k < |lv[l+1]| && p < |lv[l+1][k].es| && j == Off(lv[l+1], k) + p
    ensures lv[l+1][k].es[p] == Pair(lv[l][j].lo, Child(lv[l][j].ref))
    ensures lv[l][j].hi == if p == 0 then lv[l+1][k].hi else lv[l+1][k].es[p-1].key
    ensures lv[l+1][k].lo <= lv[l][j].lo < lv[l][j].hi <= lv[l+1][k].hi
  {
    hide *;
    WfAt(lv, l, n, top, j);
    k, p := OutlineInside(lv[l+1], n, j);
    IvsAt(lv[l+1][k].hi, lv[l+1][k].es, p);
  }

  /** Slot p of node k above level l is a node of level l, with the slot's interval. */
  lemma ChildAt(lv: seq<Level>, l: nat, n: nat, top: nat, k: nat, p: nat) returns (j: nat)
    requires Wf(lv, l, n, top) && l + 1 < |lv| && k < |lv[l+1]| && p < |lv[l+1][k].es|
    ensures j == Off(lv[l+1], k) + p && j < |lv[l]|
    ensures lv[l+1][k].es[p] == Pair(lv[l][j].lo, Child(lv[l][j].ref))
    ensures lv[l][j].hi == if p == 0 then lv[l+1][k].hi else lv[l+1][k].es[p-1].key
  {
    hide Wf, LevelOk, NodeOk, Outline, Ivs;
    j := Off(lv[l+1], k) + p;
    OutlineAt(lv[l+1], k, p);
    WfAt(lv, l, n, top, j);
    IvsAt(lv[l+1][k].hi, lv[l+1][k].es, p);
  }

  // ---------------------------------------------------------------- searching

  /** Position of the first pair whose key is not above `key` (getpos). */
  ghost function FirstLe(es: seq<Pair>, key: nat): (r: nat)
    ensures r <= |es|
    ensures forall i :: 0 <= i < r ==> es[i].key > key
    ensures r < |es| ==> es[r].key <= key
  {
    if es == [] || es[0].key <= key then 0 else 1 + FirstLe(es[1..], key)
  }

  lemma FirstLeIs(es: seq<Pair>, key: nat, r: nat)
    requires r <= |es| && (forall i :: 0 <= i < r ==> es[i].key > key)
    requires r < |es| ==> es[r].key <= key
    ensures FirstLe(es, key) == r
  {
    var q := FirstLe(es, key);
  }

  // ---------------------------------------------------------------- replacing nodes

  /** Level L with node j replaced by the nodes R. */
  ghost function Replace(L: Level, j: nat, R: Level): (r: Level)
    requires j < |L|
    ensures |r| == |L| - 1 + |R|
  {
    L[..j] + (R + L[j+1..])
  }

  lemma ReplaceOutline(L: Level, j: nat, R: Level)
    requires j < |L|
    ensures Outline(Replace(L, j, R)) == Outline(L[..j]) + (Outline(R) + Outline(L[j+1..]))
  {
    hide Outline;
    OutlineConcat(L[..j], R + L[j+1..]);
    OutlineConcat(R, L[j+1..]);
  }

  /** The replacing nodes stay inside the interval of the replaced one. */
  ghost predicate Fits(g: NodeG, R: Level, n: nat) {
    && LevelOk(R, n)
    && forall k :: 0 <= k < |R| ==> g.lo <= R[k].lo && R[k].hi <= g.hi
  }

  lemma ReplaceOk(L: Level, j: nat, R: Level, n: nat)
    requires LevelOk(L, n) && j < |L| && Fits(L[j], R, n)
    ensures LevelOk(Replace(L, j, R), n)
  {
    var r := Replace(L, j, R);
    hide NodeOk, Replace;
    forall k | 0 <= k < |r| ensures NodeOk(r[k], n) {
      ReplaceAt(L, j, R, k);
    }
    forall a, b | 0 <= a < b < |r| ensures r[b].hi <= r[a].lo {
      ReplaceAt(L, j, R, a);
      ReplaceAt(L, j, R, b);
    }
  }

  lemma ReplaceAt(L: Level, j: nat, R: Level, k: nat)
    requires j < |L| && k < |L| - 1 + |R|
    ensures k < j ==> Replace(L, j, R)[k] == L[k]
    ensures j <= k < j + |R| ==> Replace(L, j, R)[k] == R[k-j]
    ensures j + |R| <= k ==> k + 1 - |R| < |L| && Replace(L, j, R)[k] == L[k + 1 - |R|]
  {
  }

  /** Same slots in the same order, every interval at least as high as before. */
  ghost predicate Grew(O: seq<Iv>, O2: seq<Iv>) {
    && |O| == |O2|
    && forall x :: 0 <= x < |O| ==> O2[x].val == O[x].val && O2[x].lo == O[x].lo && O[x].hi <= O2[x].hi
  }

  lemma GrewConcat(A: seq<Iv>, A2: seq<Iv>, B: seq<Iv>, B2: seq<Iv>)
    requires Grew(A, A2) && Grew(B, B2)
    ensures Grew(A + B, A2 + B2)
  {
  }

  lemma GrewTrans(A: seq<Iv>, B: seq<Iv>, C: seq<Iv>)
    requires Grew(A, B) && Grew(B, C)
    ensures Grew(A, C)
  {
  }

  /** A level below an outline: intervals are sorted because the outline is. */
  lemma LinkedLevelOk(L: Level, U: Level, n: nat)
    requires LevelOk(U, n) && Link(L, Outline(U))
    requires forall j :: 0 <= j < |L| ==> NodeOk(L[j], n)
    ensures LevelOk(L, n)
  {
    hide NodeOk, Outline;
    forall j, k | 0 <= j < k < |L| ensures L[k].hi <= L[j].lo {
      OutlineSorted(U, n, j, k);
      assert Outline(U)[j].lo == L[j].lo && Outline(U)[k].hi == L[k].hi;
    }
  }
}
