/**
 How the stack of levels lies in memory: every node of every level is a
 different array, and that array holds the node's pairs.
 */
module BTreeMemory {
  import opened BTreeLevels
  import opened BTreeNode
  import opened BTreePaths

  type Nodes = set<array<Pair>>

  ghost predicate Stored(lv: seq<Level>, R: Nodes, n: nat)
    reads R
  {
    forall i, j :: 0 <= i < |lv| && 0 <= j < |lv[i]| ==>
      lv[i][j].ref in R && lv[i][j].ref.Length == n && Holds(lv[i][j].ref, lv[i][j].es)
  }

  ghost predicate Distinct(lv: seq<Level>) {
    forall i, j, k, m ::
      0 <= i < |lv| && 0 <= j < |lv[i]| && 0 <= k < |lv| && 0 <= m < |lv[k]| && lv[i][j].ref == lv[k][m].ref
      ==> i == k && j == m
  }

  lemma StoredAt(lv: seq<Level>, R: Nodes, n: nat, i: nat, j: nat)
    requires Stored(lv, R, n) && i < |lv| && j < |lv[i]|
    ensures lv[i][j].ref in R && lv[i][j].ref.Length == n && Holds(lv[i][j].ref, lv[i][j].es)
  {
    hide Holds;
  }

  lemma DistinctAt(lv: seq<Level>, i: nat, j: nat, k: nat, m: nat)
    requires Distinct(lv) && i < |lv| && j < |lv[i]| && k < |lv| && m < |lv[k]| && (i != k || j != m)
    ensures lv[i][j].ref != lv[k][m].ref
  {
  }

  /** Node j of level i now holds es. */
  ghost function Put(lv: seq<Level>, i: nat, j: nat, es: seq<Pair>): (r: seq<Level>)
    requires i < |lv| && j < |lv[i]|
    ensures |r| == |lv|
  {
    lv[i := Replace(lv[i], j, [lv[i][j].(es := es)])]
  }

  lemma PutAt(lv: seq<Level>, i: nat, j: nat, es: seq<Pair>, k: nat, m: nat)
    requires i < |lv| && j < |lv[i]| && k < |lv|
    ensures |Put(lv, i, j, es)[k]| == |lv[k]|
    ensures m < |lv[k]| ==> Put(lv, i, j, es)[k][m] == if k == i && m == j then lv[k][m].(es := es) else lv[k][m]
  {
    hide Replace;
    if k == i && m < |lv[k]| {
      ReplaceAt(lv[i], j, [lv[i][j].(es := es)], m);
    }
  }

  lemma PutDistinct(lv: seq<Level>, i: nat, j: nat, es: seq<Pair>)
    requires Distinct(lv) && i < |lv| && j < |lv[i]|
    ensures Distinct(Put(lv, i, j, es))
  {
    hide Put;
    forall k | 0 <= k < |lv| ensures |Put(lv, i, j, es)[k]| == |lv[k]| {
      PutAt(lv, i, j, es, k, 0);
    }
    SameRefsDistinct(lv, Put(lv, i, j, es)) by {
      forall k, m | 0 <= k < |lv| && 0 <= m < |lv[k]| ensures Put(lv, i, j, es)[k][m].ref == lv[k][m].ref {
        PutAt(lv, i, j, es, k, m);
      }
    }
  }

  lemma SameRefsDistinct(lv: seq<Level>, r: seq<Level>)
    requires Distinct(lv) && |r| == |lv|
    requires forall k :: 0 <= k < |lv| ==> |r[k]| == |lv[k]|
    requires forall k, m :: 0 <= k < |lv| && 0 <= m < |lv[k]| ==> r[k][m].ref == lv[k][m].ref
    ensures Distinct(r)
  {
  }

  /** Like Stored, but nothing is said about the content of array a. */
  ghost predicate StoredBut(lv: seq<Level>, R: Nodes, n: nat, a: array<Pair>)
    reads R - {a}
  {
    forall i, j :: 0 <= i < |lv| && 0 <= j < |lv[i]| ==>
      lv[i][j].ref in R && lv[i][j].ref.Length == n && (lv[i][j].ref != a ==> Holds(lv[i][j].ref, lv[i][j].es))
  }

  lemma StoredForget(lv: seq<Level>, R: Nodes, n: nat, a: array<Pair>)
    requires Stored(lv, R, n)
    ensures StoredBut(lv, R, n, a)
  {
    hide Holds;
  }

  /** Once the array of node j of level i holds es, the memory matches again. */
  lemma PutStored(lv: seq<Level>, R: Nodes, n: nat, i: nat, j: nat, es: seq<Pair>)
    requires i < |lv| && j < |lv[i]| && StoredBut(lv, R, n, lv[i][j].ref) && Distinct(lv)
    requires Holds(lv[i][j].ref, es)
    ensures Stored(Put(lv, i, j, es), R, n) && Distinct(Put(lv, i, j, es))
  {
    hide Put, Holds;
    PutDistinct(lv, i, j, es);
    var p: seq<Level> := Put(lv, i, j, es);
    forall k, m | 0 <= k < |p| && 0 <= m < |p[k]|
      ensures p[k][m].ref in R && p[k][m].ref.Length == n && Holds(p[k][m].ref, p[k][m].es)
    {
      PutAt(lv, i, j, es, k, m);
      assert lv[k][m].ref in R;
    }
  }

  /** Same nodes with the same pairs; the intervals may differ. */
  ghost predicate SameNodes(L: Level, M: Level) {
    && |L| == |M|
    && forall m :: 0 <= m < |L| ==> M[m].ref == L[m].ref && M[m].es == L[m].es
  }

  ghost predicate SameTree(lv: seq<Level>, r: seq<Level>) {
    && |r| == |lv|
    && forall k :: 0 <= k < |lv| ==> SameNodes(lv[k], r[k])
  }

  lemma SameTreeAt(lv: seq<Level>, r: seq<Level>, k: nat, m: nat)
    requires SameTree(lv, r) && k < |lv|
    ensures |lv[k]| == |r[k]|
    ensures m < |lv[k]| ==> r[k][m].ref == lv[k][m].ref && r[k][m].es == lv[k][m].es
  {
    assert SameNodes(lv[k], r[k]);
  }

  lemma SameStored(lv: seq<Level>, r: seq<Level>, R: Nodes, n: nat)
    requires SameTree(lv, r) && Stored(lv, R, n) && Distinct(lv)
    ensures Stored(r, R, n) && Distinct(r)
  {
    hide SameTree, Holds;
    assert |r| == |lv| by { SameTreeLen(lv, r); }
    forall k, m | 0 <= k < |r| && 0 <= m < |r[k]|
      ensures r[k][m].ref in R && r[k][m].ref.Length == n && Holds(r[k][m].ref, r[k][m].es) {
      SameTreeAt(lv, r, k, m);
    }
    forall k | 0 <= k < |lv| ensures |r[k]| == |lv[k]| {
      SameTreeAt(lv, r, k, 0);
    }
    forall k, m | 0 <= k < |lv| && 0 <= m < |lv[k]| ensures r[k][m].ref == lv[k][m].ref {
      SameTreeAt(lv, r, k, m);
    }
    SameRefsDistinct(lv, r);
  }

  lemma SameTreeLen(lv: seq<Level>, r: seq<Level>)
    requires SameTree(lv, r)
    ensures |r| == |lv|
  {
  }

  /** Lowering a separator is storing in one node and relabelling an interval. */
  lemma LoweredSame(lv: seq<Level>, l: nat, k: nat, key: nat)
    requires l + 1 < |lv| && k < |lv[l+1]| && lv[l+1][k].es != []
    requires Off(lv[l+1], k) + |lv[l+1][k].es| <= |lv[l]|
    ensures SameTree(Put(lv, l + 1, k, LowerNode(lv[l+1][k], key).es), Lowered(lv, l, k, key))
  {
    hide Replace, LowerNode, Off;
    var j := Off(lv[l+1], k) + |lv[l+1][k].es| - 1;
    var p, r := Put(lv, l + 1, k, LowerNode(lv[l+1][k], key).es), Lowered(lv, l, k, key);
    LowerHi(lv[l+1][k], key);
    assert r[l] == Replace(lv[l], j, [lv[l][j].(lo := key)]) && p[l] == lv[l];
    forall m | 0 <= m < |lv[l]| ensures r[l][m].ref == p[l][m].ref && r[l][m].es == p[l][m].es {
      ReplaceAt(lv[l], j, [lv[l][j].(lo := key)], m);
    }
    LowerNodeEs(lv[l+1][k], key);
  }

  lemma LowerEs(g: NodeG, key: nat)
    requires g.es != []
    ensures LowerNode(g, key).es == g.es[|g.es|-1 := Pair(key, g.es[|g.es|-1].val)]
  {
  }

  /** After the last key of node k of level l+1 has been overwritten. */
  lemma LoweredStored(lv: seq<Level>, R: Nodes, n: nat, l: nat, k: nat, key: nat)
    requires l + 1 < |lv| && k < |lv[l+1]| && lv[l+1][k].es != []
    requires StoredBut(lv, R, n, lv[l+1][k].ref) && Distinct(lv)
    requires Off(lv[l+1], k) + |lv[l+1][k].es| <= |lv[l]|
    requires Holds(lv[l+1][k].ref, LowerNode(lv[l+1][k], key).es)
    ensures Stored(Lowered(lv, l, k, key), R, n) && Distinct(Lowered(lv, l, k, key))
  {
    hide *;
    var es := LowerNode(lv[l+1][k], key).es;
    PutStored(lv, R, n, l + 1, k, es);
    LoweredSame(lv, l, k, key);
    SameStored(Put(lv, l + 1, k, es), Lowered(lv, l, k, key), R, n);
  }

  lemma LowerNodeEs(g: NodeG, key: nat)
    requires g.es != []
    ensures LowerNode(g, key) == g.(es := LowerNode(g, key).es)
  {
  }

  /** A fresh node becomes a new highest level. */
  lemma NewLevel(lv: seq<Level>, R: Nodes, n: nat, x: array<Pair>, es: seq<Pair>, top: nat)
    requires Stored(lv, R, n) && Distinct(lv) && x !in R && x.Length == n && Holds(x, es)
    ensures Stored(lv + [[NodeG(x, 0, top, es)]], R + {x}, n)
    ensures Distinct(lv + [[NodeG(x, 0, top, es)]])
  {
    hide Holds;
    assert forall i, j :: 0 <= i < |lv| && 0 <= j < |lv[i]| ==> lv[i][j].ref in R;
  }
}
