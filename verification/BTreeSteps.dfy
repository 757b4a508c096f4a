/**
 What one structural step does to the stack of levels: storing a pair,
 splitting a node below an outline that has just gained the new sibling,
 dropping or merging nodes below an outline that has just lost one slot, and
 lowering a separator on the way down.
 */
module BTreeSteps {
  import opened BTreeLevels
  import opened BTreeEdits

  ghost predicate Sorted(O: seq<Iv>) {
    forall x, y :: 0 <= x < y < |O| ==> O[y].hi <= O[x].lo
  }

  lemma SortedOutline(L: Level, n: nat)
    requires LevelOk(L, n)
    ensures Sorted(Outline(L))
  {
    hide LevelOk, Outline;
    forall x, y | 0 <= x < y < |Outline(L)| ensures Outline(L)[y].hi <= Outline(L)[x].lo {
      OutlineSorted(L, n, x, y);
    }
  }

  /** Replacing level l keeps the levels above it. */
  lemma WfSet(lv: seq<Level>, l: nat, L: Level, n: nat, top: nat)
    requires l < |lv| && LevelOk(L, n)
    requires l + 1 < |lv| ==> Wf(lv, l + 1, n, top) && Link(L, Outline(lv[l+1])) && NonEmpty(L)
    requires l + 1 == |lv| ==> |L| == 1 && L[0].lo == 0 && L[0].hi == top
    ensures Wf(lv[l := L], l, n, top)
  {
    hide LevelOk, Outline, Link, NonEmpty;
  }

  // ---------------------------------------------------------------- storing a pair

  /** Changing the pairs of node j but neither its array nor its interval. */
  lemma WfStore(lv: seq<Level>, l: nat, n: nat, top: nat, j: nat, es: seq<Pair>)
    requires Wf(lv, l, n, top) && j < |lv[l]|
    requires LevelOk(Replace(lv[l], j, [lv[l][j].(es := es)]), n)
    requires es != [] || l + 1 == |lv|
    ensures Wf(lv[l := Replace(lv[l], j, [lv[l][j].(es := es)])], l, n, top)
  {
    hide LevelOk, Outline, Replace;
    var g := lv[l][j].(es := es);
    var L := Replace(lv[l], j, [g]);
    hide Link, NonEmpty;
    if l + 1 < |lv| {
      StoreLink(lv[l], j, es, Outline(lv[l+1]));
    } else {
      ReplaceAt(lv[l], j, [g], 0);
    }
    WfSet(lv, l, L, n, top);
  }

  lemma StoreLink(L: Level, j: nat, es: seq<Pair>, O: seq<Iv>)
    requires j < |L| && Link(L, O) && NonEmpty(L) && es != []
    ensures Link(Replace(L, j, [L[j].(es := es)]), O)
    ensures NonEmpty(Replace(L, j, [L[j].(es := es)]))
  {
    hide Replace;
    var r := Replace(L, j, [L[j].(es := es)]);
    forall k | 0 <= k < |r| ensures O[k] == Iv(Child(r[k].ref), r[k].lo, r[k].hi) && r[k].es != [] {
      ReplaceAt(L, j, [L[j].(es := es)], k);
    }
  }

  // ---------------------------------------------------------------- splitting

  /** Outline O lists level L; only node j's separator may already be higher. */
  ghost predicate Under(L: Level, j: nat, O: seq<Iv>) {
    && |O| == |L| && j < |L|
    && (forall x :: 0 <= x < |L| ==> O[x].val == Child(L[x].ref) && O[x].hi == L[x].hi)
    && (forall x :: 0 <= x < |L| && x != j ==> O[x].lo == L[x].lo)
    && L[j].lo <= O[j].lo
    && forall p :: 0 <= p < |L[j].es| ==> O[j].lo <= L[j].es[p].key
  }

  lemma UnderLink(L: Level, j: nat, O: seq<Iv>, n: nat)
    requires Link(L, O) && LevelOk(L, n) && j < |L|
    ensures Under(L, j, O)
  {
  }

  /** Level L with node j split at h; the new left half lives in node nw. */
  ghost function Split(L: Level, j: nat, h: nat, nw: array<Pair>, lo: nat): Level
    requires j < |L| && 0 < h < |L[j].es|
  {
    var g := L[j];
    var mid := g.es[h-1].key;
    Replace(L, j, [NodeG(nw, mid, g.hi, g.es[..h]), NodeG(g.ref, lo, mid, g.es[h..])])
  }

  lemma HalvesOk(g: NodeG, h: nat, nw: array<Pair>, lo: nat, n: nat)
    requires NodeOk(g, n) && 0 < h < |g.es| && g.lo <= lo
    requires forall p :: 0 <= p < |g.es| ==> lo <= g.es[p].key
    ensures var mid := g.es[h-1].key;
      Fits(g, [NodeG(nw, mid, g.hi, g.es[..h]), NodeG(g.ref, lo, mid, g.es[h..])], n)
  {
    var mid := g.es[h-1].key;
    var x, y := NodeG(nw, mid, g.hi, g.es[..h]), NodeG(g.ref, lo, mid, g.es[h..]);
    assert NodeOk(x, n);
    assert NodeOk(y, n);
  }

  lemma SplitLevelOk(L: Level, j: nat, h: nat, nw: array<Pair>, O: seq<Iv>, n: nat)
    requires LevelOk(L, n) && Under(L, j, O) && 0 < h < |L[j].es|
    ensures LevelOk(Split(L, j, h, nw, O[j].lo), n)
  {
    hide NodeOk, Replace, Fits;
    LevelAt(L, n, j, j);
    HalvesOk(L[j], h, nw, O[j].lo, n);
    var mid := L[j].es[h-1].key;
    ReplaceOk(L, j, [NodeG(nw, mid, L[j].hi, L[j].es[..h]), NodeG(L[j].ref, O[j].lo, mid, L[j].es[h..])], n);
  }

  lemma SplitOutline(L: Level, j: nat, h: nat, nw: array<Pair>, lo: nat)
    requires j < |L| && 0 < h < |L[j].es|
    ensures Outline(Split(L, j, h, nw, lo)) == Outline(L)
  {
    hide Replace, Outline;
    var g := L[j];
    var mid := g.es[h-1].key;
    OutlineHalves(L, j, NodeG(nw, mid, g.hi, g.es[..h]), NodeG(g.ref, lo, mid, g.es[h..]), h);
  }

  lemma SplitLink(L: Level, j: nat, h: nat, nw: array<Pair>, O: seq<Iv>)
    requires Under(L, j, O) && 0 < h < |L[j].es|
    ensures Link(Split(L, j, h, nw, O[j].lo), InsBefore(O, j, L[j].es[h-1].key, Child(nw)))
  {
    hide Replace, InsBefore;
    var mid := L[j].es[h-1].key;
    var R := [NodeG(nw, mid, L[j].hi, L[j].es[..h]), NodeG(L[j].ref, O[j].lo, mid, L[j].es[h..])];
    var S, P := Replace(L, j, R), InsBefore(O, j, mid, Child(nw));
    forall k | 0 <= k < |S| ensures P[k] == Iv(Child(S[k].ref), S[k].lo, S[k].hi) {
      ReplaceAt(L, j, R, k);
      InsBeforeAt(O, j, mid, Child(nw), k);
    }
  }

  lemma SplitNonEmpty(L: Level, j: nat, h: nat, nw: array<Pair>, lo: nat)
    requires j < |L| && 0 < h < |L[j].es|
    requires forall k :: 0 <= k < |L| && k != j ==> L[k].es != []
    ensures NonEmpty(Split(L, j, h, nw, lo))
  {
    hide Replace;
    var mid := L[j].es[h-1].key;
    var R := [NodeG(nw, mid, L[j].hi, L[j].es[..h]), NodeG(L[j].ref, lo, mid, L[j].es[h..])];
    forall k | 0 <= k < |Replace(L, j, R)| ensures Replace(L, j, R)[k].es != [] {
      ReplaceAt(L, j, R, k);
    }
  }

  // ---------------------------------------------------------------- relinking after a removal above

  /** The nodes of L with the intervals the outline O gives them. */
  ghost function Relink(L: Level, O: seq<Iv>): (r: Level)
    requires |L| == |O|
    ensures |r| == |L|
  {
    seq(|L|, x requires 0 <= x < |L| => NodeG(L[x].ref, O[x].lo, O[x].hi, L[x].es))
  }

  lemma RelinkAt(L: Level, O: seq<Iv>, x: nat)
    requires |L| == |O| && x < |L|
    ensures Relink(L, O)[x] == NodeG(L[x].ref, O[x].lo, O[x].hi, L[x].es)
  {
  }

  ghost predicate Widens(L: Level, O: seq<Iv>) {
    && |L| == |O|
    && forall x :: 0 <= x < |L| ==> O[x].val == Child(L[x].ref) && O[x].lo <= L[x].lo && L[x].hi <= O[x].hi
  }

  lemma WidenNode(g: NodeG, lo: nat, hi: nat, n: nat)
    requires NodeOk(g, n) && lo <= g.lo && g.hi <= hi
    ensures NodeOk(NodeG(g.ref, lo, hi, g.es), n)
  {
  }

  lemma RelinkOk(L: Level, O: seq<Iv>, n: nat)
    requires LevelOk(L, n) && Widens(L, O) && Sorted(O)
    ensures LevelOk(Relink(L, O), n) && Link(Relink(L, O), O)
  {
    hide NodeOk, Relink;
    var r := Relink(L, O);
    forall k | 0 <= k < |r| ensures NodeOk(r[k], n) && O[k] == Iv(Child(r[k].ref), r[k].lo, r[k].hi) {
      RelinkAt(L, O, k);
      WidenNode(L[k], O[k].lo, O[k].hi, n);
    }
    forall a, b | 0 <= a < b < |r| ensures r[b].hi <= r[a].lo {
      RelinkAt(L, O, a);
      RelinkAt(L, O, b);
    }
  }

  lemma {:induction false} RelinkOutline(L: Level, O: seq<Iv>)
    requires Widens(L, O)
    ensures Grew(Outline(L), Outline(Relink(L, O)))
  {
    hide Ivs, Grew, Relink;
    if L == [] {
      RelinkEmpty(O);
    } else {
      RelinkTail(L, O);
      RelinkAt(L, O, 0);
      RelinkOutline(L[1..], O[1..]);
      IvsRaise(L[0].hi, O[0].hi, L[0].es);
      GrewConcat(Ivs(L[0].hi, L[0].es), Ivs(O[0].hi, L[0].es), Outline(L[1..]), Outline(Relink(L[1..], O[1..])));
    }
  }

  lemma RelinkEmpty(O: seq<Iv>)
    requires O == []
    ensures Grew(Outline([]), Outline(Relink([], O)))
  {
    assert Relink([], O) == [];
  }

  lemma RelinkTail(L: Level, O: seq<Iv>)
    requires |L| == |O| && L != []
    ensures Relink(L, O) != [] && Relink(L, O)[1..] == Relink(L[1..], O[1..])
  {
  }

  lemma RelinkNonEmpty(L: Level, O: seq<Iv>)
    requires NonEmpty(L) && |L| == |O|
    ensures NonEmpty(Relink(L, O))
  {
  }

  // ---------------------------------------------------------------- dropping an emptied node

  lemma DropWidens(L: Level, O: seq<Iv>, j: nat, same: bool, O2: seq<Iv>)
    requires Link(L, O) && j < |L| && Removed(O, j, same, O2)
    ensures Widens(Replace(L, j, []), O2)
  {
    hide RemAt, Replace;
    var r := Replace(L, j, []);
    assert |RemAt(O, j)| == |O2|;
    forall x | 0 <= x < |r| ensures O2[x].val == Child(r[x].ref) && O2[x].lo <= r[x].lo && r[x].hi <= O2[x].hi {
      ReplaceAt(L, j, [], x);
      RemAtIdx(O, j, x);
      assert RemAt(O, j)[x].hi <= O2[x].hi;
    }
  }

  lemma DropOk(L: Level, j: nat, n: nat)
    requires LevelOk(L, n) && j < |L|
    ensures LevelOk(Replace(L, j, []), n)
  {
    hide NodeOk, Replace;
    ReplaceOk(L, j, [], n);
  }

  lemma DropNonEmpty(L: Level, j: nat)
    requires j < |L| && forall k :: 0 <= k < |L| && k != j ==> L[k].es != []
    ensures NonEmpty(Replace(L, j, []))
  {
    hide Replace;
    forall k | 0 <= k < |Replace(L, j, [])| ensures Replace(L, j, [])[k].es != [] {
      ReplaceAt(L, j, [], k);
    }
  }

  // ---------------------------------------------------------------- merging two neighbours

  /** Node j+1's pairs appended to node j, in node j's array, at node j+1's separator. */
  ghost function MergedNode(L: Level, j: nat): NodeG
    requires j + 1 < |L|
  {
    NodeG(L[j].ref, L[j+1].lo, L[j].hi, L[j].es + L[j+1].es)
  }

  ghost function Merged(L: Level, j: nat): (r: Level)
    requires j + 1 < |L|
    ensures |r| == |L| - 1
  {
    L[..j] + ([MergedNode(L, j)] + L[j+2..])
  }

  lemma MergedAt(L: Level, j: nat, k: nat)
    requires j + 1 < |L| && k < |L| - 1
    ensures Merged(L, j)[k] == if k < j then L[k] else if k == j then MergedNode(L, j) else L[k+1]
  {
  }

  lemma MergedNodeOk(L: Level, j: nat, n: nat)
    requires LevelOk(L, n) && j + 1 < |L| && |L[j].es| + |L[j+1].es| <= n
    requires L[j].lo < L[j].hi && L[j+1].lo < L[j+1].hi
    ensures NodeOk(MergedNode(L, j), n)
  {
    hide LevelOk, NodeOk;
    LevelAt(L, n, j, j + 1);
    JoinOk(L[j], L[j+1], MergedNode(L, j), n);
  }

  lemma JoinOk(x: NodeG, y: NodeG, z: NodeG, n: nat)
    requires NodeOk(x, n) && NodeOk(y, n) && y.hi <= x.lo && x.lo < x.hi && y.lo < y.hi
    requires |x.es| + |y.es| <= n
    requires z.lo == y.lo && z.hi == x.hi && z.es == x.es + y.es
    ensures NodeOk(z, n)
  {
  }

  lemma MergedOk(L: Level, j: nat, n: nat)
    requires LevelOk(L, n) && j + 1 < |L| && |L[j].es| + |L[j+1].es| <= n
    requires L[j].lo < L[j].hi && L[j+1].lo < L[j+1].hi
    ensures LevelOk(Merged(L, j), n)
  {
    hide NodeOk, Merged;
    MergedNodeOk(L, j, n);
    var r := Merged(L, j);
    forall k | 0 <= k < |r| ensures NodeOk(r[k], n) {
      MergedAt(L, j, k);
    }
    forall a, b | 0 <= a < b < |r| ensures r[b].hi <= r[a].lo {
      MergedAt(L, j, a);
      MergedAt(L, j, b);
      assert L[j+1].hi <= L[j].lo;
    }
  }

  lemma MergedOutline(L: Level, j: nat, n: nat)
    requires LevelOk(L, n) && j + 1 < |L| && L[j].es != []
    ensures Grew(Outline(L), Outline(Merged(L, j)))
  {
    hide LevelOk, NodeOk, Outline, Ivs, Grew;
    LevelAt(L, n, j, j + 1);
    NodeLow(L[j], n);
    var A, B, m := L[..j], L[j+2..], MergedNode(L, j);
    OutlineConcat(A, [m] + B);
    OutlineConcat([m], B);
    OutlineOne(m);
    OutlineSplit(L, j);
    OutlineSplit2(L, j);
    var I, J, K := Ivs(L[j].hi, L[j].es), Ivs(L[j+1].hi, L[j+1].es), Ivs(m.hi, m.es);
    IvsMerge(L[j].hi, L[j].es, L[j+1].hi, L[j+1].es, m.hi);
    GrewMid(Outline(A), I + J, K, Outline(B));
    Assoc(Outline(A), I, J, Outline(B));
  }

  lemma NodeLow(g: NodeG, n: nat)
    requires NodeOk(g, n) && g.es != []
    ensures g.lo <= g.es[|g.es|-1].key
  {
  }

  lemma Assoc<T>(A: seq<T>, I: seq<T>, J: seq<T>, B: seq<T>)
    ensures A + (I + (J + B)) == A + ((I + J) + B)
  {
  }

  lemma OutlineSplit2(L: Level, j: nat)
    requires j + 1 < |L|
    ensures Outline(L[j+1..]) == Ivs(L[j+1].hi, L[j+1].es) + Outline(L[j+2..])
  {
    hide Ivs;
    assert L[j+1..][1..] == L[j+2..];
  }

  /** The outline with the two child pointers of slots j and j+1 exchanged. */
  ghost function Swap(O: seq<Iv>, j: nat): seq<Iv>
    requires j + 1 < |O|
  {
    O[j := Iv(O[j+1].val, O[j].lo, O[j].hi)][j+1 := Iv(O[j].val, O[j+1].lo, O[j+1].hi)]
  }

  lemma MergeWidens(L: Level, O: seq<Iv>, j: nat, O2: seq<Iv>)
    requires Link(L, O) && j + 1 < |L| && Removed(Swap(O, j), j, true, O2)
    ensures Widens(Merged(L, j), O2)
  {
    hide RemAt, Merged;
    var r, O1 := Merged(L, j), Swap(O, j);
    assert |RemAt(O1, j)| == |O2|;
    forall x | 0 <= x < |r| ensures O2[x].val == Child(r[x].ref) && O2[x].lo <= r[x].lo && r[x].hi <= O2[x].hi {
      MergedAt(L, j, x);
      RemAtIdx(O1, j, x);
      assert RemAt(O1, j)[x].hi <= O2[x].hi;
    }
  }

  lemma MergedNonEmpty(L: Level, j: nat)
    requires NonEmpty(L) && j + 1 < |L|
    ensures NonEmpty(Merged(L, j))
  {
    hide Merged;
    forall k | 0 <= k < |Merged(L, j)| ensures Merged(L, j)[k].es != [] {
      MergedAt(L, j, k);
    }
  }
}
