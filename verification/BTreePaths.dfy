/**
 Paths from the root to a level: which node a key is routed to, how a descent
 may lower a separator on its way, whether the path has room to lose a node,
 and the finite map that the leaf level stores.
 */
module BTreePaths {
  import opened BTreeLevels
  import opened BTreeEdits
  import opened BTreeSteps
  import opened BTreeMixed

  // ---------------------------------------------------------------- the map

  /** The key/value pairs of an outline, without the intervals. */
  ghost function Pairs(O: seq<Iv>): (r: seq<Pair>)
    ensures |r| == |O|
  {
    seq(|O|, x requires 0 <= x < |O| => Pair(O[x].lo, O[x].val))
  }

  ghost function MapOf(s: seq<Pair>): map<nat, Slot> {
    if s == [] then map[] else MapOf(s[1..])[s[0].key := s[0].val]
  }

  /** The finite map stored in a tree: nothing if there is no node at all. */
  ghost function Content(lv: seq<Level>): map<nat, Slot> {
    if lv == [] then map[] else MapOf(Pairs(Outline(lv[0])))
  }

  lemma PairsIvs(hi: nat, es: seq<Pair>)
    ensures Pairs(Ivs(hi, es)) == es
  {
    hide Ivs;
    forall p | 0 <= p < |es| ensures Pairs(Ivs(hi, es))[p] == es[p] {
      IvsAt(hi, es, p);
    }
  }

  lemma PairsConcat(A: seq<Iv>, B: seq<Iv>)
    ensures Pairs(A + B) == Pairs(A) + Pairs(B)
  {
  }

  lemma PairsGrew(A: seq<Iv>, B: seq<Iv>)
    requires Grew(A, B)
    ensures Pairs(A) == Pairs(B)
  {
  }

  lemma PairsRemAt(O: seq<Iv>, q: nat)
    requires q < |O|
    ensures Pairs(RemAt(O, q)) == RemAt(Pairs(O), q)
  {
    hide RemAt;
    forall x | 0 <= x < |O| - 1 ensures Pairs(RemAt(O, q))[x] == RemAt(Pairs(O), q)[x] {
      RemAtIdx(O, q, x);
      RemAtIdx(Pairs(O), q, x);
    }
  }

  lemma PairsRemoved(O: seq<Iv>, q: nat, same: bool, O2: seq<Iv>)
    requires Removed(O, q, same, O2)
    ensures q < |O| && Pairs(O2) == RemAt(Pairs(O), q)
  {
    hide RemAt, Pairs, Grew;
    PairsGrew(RemAt(O, q), O2);
    PairsRemAt(O, q);
  }

  lemma PairsNode(L: Level, j: nat, g: NodeG)
    requires j < |L|
    ensures Pairs(Outline(Replace(L, j, [g]))) == Pairs(Outline(L[..j])) + (g.es + Pairs(Outline(L[j+1..])))
  {
    hide Outline, Pairs, Ivs, Replace;
    ReplaceOutlineOne(L, j, g);
    PairsIvs(g.hi, g.es);
    PairsConcat(Ivs(g.hi, g.es), Outline(L[j+1..]));
    PairsConcat(Outline(L[..j]), Ivs(g.hi, g.es) + Outline(L[j+1..]));
  }

  lemma PairsInsert(L: Level, j: nat, pos: nat, pr: Pair)
    requires j < |L| && pos <= |L[j].es|
    ensures Off(L, j) + pos <= |Outline(L)|
    ensures Pairs(Outline(Replace(L, j, [L[j].(es := InsAt(L[j].es, pos, pr))])))
         == InsAt(Pairs(Outline(L)), Off(L, j) + pos, pr)
  {
    hide Outline, Pairs, Ivs, Replace, InsAt;
    OutlineSplit(L, j);
    PairsNode(L, j, L[j]);
    ReplaceSelf(L, j);
    PairsNode(L, j, L[j].(es := InsAt(L[j].es, pos, pr)));
    InsAtMid(Pairs(Outline(L[..j])), L[j].es, Pairs(Outline(L[j+1..])), pos, pr);
  }

  lemma PairsSet(L: Level, j: nat, pos: nat, pr: Pair)
    requires j < |L| && pos < |L[j].es|
    ensures Off(L, j) + pos < |Outline(L)|
    ensures Pairs(Outline(Replace(L, j, [L[j].(es := L[j].es[pos := pr])])))
         == Pairs(Outline(L))[Off(L, j) + pos := pr]
  {
    hide Outline, Pairs, Ivs, Replace;
    OutlineSplit(L, j);
    PairsNode(L, j, L[j]);
    ReplaceSelf(L, j);
    PairsNode(L, j, L[j].(es := L[j].es[pos := pr]));
    SetMid(Pairs(Outline(L[..j])), L[j].es, Pairs(Outline(L[j+1..])), pos, pr);
  }

  ghost predicate HasKey(s: seq<Pair>, k: nat) {
    exists x :: 0 <= x < |s| && s[x].key == k
  }

  lemma {:induction false} MapKeys(s: seq<Pair>, k: nat)
    ensures k in MapOf(s) <==> HasKey(s, k)
  {
    if s == [] {
    } else {
      MapKeys(s[1..], k);
      if HasKey(s[1..], k) {
        var x :| 0 <= x < |s[1..]| && s[1..][x].key == k;
        assert s[x+1].key == k;
      }
      if HasKey(s, k) && s[0].key != k {
        var x :| 0 <= x < |s| && s[x].key == k;
        assert s[1..][x-1].key == k;
      }
    }
  }

  lemma {:induction false} MapAt(s: seq<Pair>, x: nat)
    requires Desc(s) && x < |s|
    ensures s[x].key in MapOf(s) && MapOf(s)[s[x].key] == s[x].val
  {
    if x == 0 {
    } else {
      MapAt(s[1..], x - 1);
    }
  }

  lemma {:induction false} MapInsert(s: seq<Pair>, p: nat, pr: Pair)
    requires p <= |s| && !HasKey(s, pr.key)
    ensures MapOf(InsAt(s, p, pr)) == MapOf(s)[pr.key := pr.val]
  {
    if p == 0 {
      assert InsAt(s, p, pr)[1..] == s;
    } else {
      assert InsAt(s, p, pr)[1..] == InsAt(s[1..], p - 1, pr);
      assert s[0].key != pr.key;
      forall x | 0 <= x < |s[1..]| ensures s[1..][x].key != pr.key {
        assert s[x+1].key != pr.key;
      }
      MapInsert(s[1..], p - 1, pr);
    }
  }

  lemma {:induction false} MapRemove(s: seq<Pair>, p: nat)
    requires Desc(s) && p < |s|
    ensures MapOf(RemAt(s, p)) == MapOf(s) - {s[p].key}
  {
    if p == 0 {
      assert RemAt(s, p) == s[1..];
      MapKeys(s[1..], s[0].key);
    } else {
      assert RemAt(s, p)[1..] == RemAt(s[1..], p - 1);
      MapRemove(s[1..], p - 1);
    }
  }

  lemma {:induction false} MapUpdate(s: seq<Pair>, p: nat, v: Slot)
    requires Desc(s) && p < |s|
    ensures MapOf(s[p := Pair(s[p].key, v)]) == MapOf(s)[s[p].key := v]
  {
    var t := s[p := Pair(s[p].key, v)];
    if p == 0 {
      assert t[1..] == s[1..];
    } else {
      assert t[1..] == s[1..][p - 1 := Pair(s[p].key, v)];
      MapUpdate(s[1..], p - 1, v);
    }
  }

  lemma DescPairs(L: Level, n: nat)
    requires LevelOk(L, n)
    ensures Desc(Pairs(Outline(L)))
  {
    hide LevelOk, Outline;
    forall x, y | 0 <= x < y < |Outline(L)| ensures Outline(L)[x].lo > Outline(L)[y].lo {
      OutlineSorted(L, n, x, y);
      var j, p := OutlineInside(L, n, y);
    }
  }

  // ---------------------------------------------------------------- routing

  /** The node of level i that a key routed to a node of level l passes through. */
  lemma {:induction false} Ancestor(lv: seq<Level>, l: nat, n: nat, top: nat, j: nat, key: nat, i: nat) returns (k: nat)
    requires Wf(lv, l, n, top) && Cov(lv, l, j, key) && l <= i < |lv|
    ensures Cov(lv, i, k, key)
    decreases i - l
  {
    hide LevelOk, Outline, Link;
    if l == i {
      k := j;
    } else {
      var m, p := Parent(lv, l, n, top, j);
      WfUp(lv, l, n, top);
      k := Ancestor(lv, l + 1, n, top, m, key, i);
    }
  }

  lemma CovAt(lv: seq<Level>, l: nat, j: nat, key: nat)
    requires Cov(lv, l, j, key)
    ensures l < |lv| && j < |lv[l]| && lv[l][j].lo <= key < lv[l][j].hi
  {
  }

  /** Slots above level l hold children. */
  lemma SlotChild(lv: seq<Level>, l: nat, n: nat, top: nat, h: nat, k: nat, p: nat)
    requires Wf(lv, l, n, top) && l < h < |lv| && k < |lv[h]| && p < |lv[h][k].es|
    ensures lv[h][k].es[p].val.Child?
    ensures Off(lv[h], k) + p < |lv[h-1]| && lv[h-1][Off(lv[h], k) + p].ref == lv[h][k].es[p].val.node
  {
    hide Wf, LevelOk, Outline, Link, Off;
    WfLevel(lv, l, n, top, h - 1);
    var j := ChildAt(lv, h - 1, n, top, k, p);
  }

  lemma LoweredAt(lv: seq<Level>, l: nat, k: nat, key: nat, m: nat)
    requires l + 1 < |lv| && k < |lv[l+1]| && lv[l+1][k].es != []
    requires Off(lv[l+1], k) + |lv[l+1][k].es| <= |lv[l]|
    ensures |Lowered(lv, l, k, key)[l]| == |lv[l]|
    ensures m < |lv[l]| ==>
        Lowered(lv, l, k, key)[l][m].ref == lv[l][m].ref
        && Lowered(lv, l, k, key)[l][m].es == lv[l][m].es
  {
    hide Replace, LowerNode, Off;
    var j := Off(lv[l+1], k) + |lv[l+1][k].es| - 1;
    if m < |lv[l]| {
      ReplaceAt(lv[l], j, [lv[l][j].(lo := key)], m);
    }
  }

  /** All keys of a node are above a key that getpos does not find. */
  lemma NotFound(es: seq<Pair>, key: nat)
    requires es != [] && FirstLe(es, key) == |es|
    ensures key < es[|es|-1].key
  {
  }

  lemma TopCov(lv: seq<Level>, l: nat, n: nat, top: nat, key: nat)
    requires Wf(lv, l, n, top) && key < top
    ensures |lv[|lv|-1]| == 1 && Cov(lv, |lv| - 1, 0, key)
  {
  }

  lemma NodeNonEmpty(lv: seq<Level>, l: nat, n: nat, top: nat, h: nat, j: nat)
    requires Wf(lv, l, n, top) && l <= h < |lv| && j < |lv[h]|
    requires h + 1 == |lv| ==> lv[h][0].es != []
    ensures lv[h][j].es != []
  {
    hide LevelOk, Outline, Link;
  }

  /** A node of level l that covers the key forces the descent: no separator is lowered. */
  lemma Forced(lv: seq<Level>, l: nat, n: nat, top: nat, j0: nat, key: nat, h: nat, j: nat)
    requires Wf(lv, l, n, top) && Cov(lv, l, j0, key) && l < h < |lv| && Cov(lv, h, j, key)
    ensures j < |lv[h]| && FirstLe(lv[h][j].es, key) < |lv[h][j].es|
  {
    hide LevelOk, Outline, Link, NonEmpty, FirstLe, Off;
    CovAt(lv, h, j, key);
    var m := Ancestor(lv, l, n, top, j0, key, h - 1);
    WfLevel(lv, l, n, top, h - 1);
    RouteDown(lv, h - 1, n, top, j, m, key);
  }

  /** A key routed below node k goes through the slot that getpos finds. */
  lemma RouteDown(lv: seq<Level>, l: nat, n: nat, top: nat, k: nat, j: nat, key: nat)
    requires Wf(lv, l, n, top) && l + 1 < |lv| && Cov(lv, l + 1, k, key) && Cov(lv, l, j, key)
    ensures var p := FirstLe(lv[l+1][k].es, key); p < |lv[l+1][k].es| && j == Off(lv[l+1], k) + p
  {
    hide LevelOk, Outline, Link, Off;
    var m, p := Parent(lv, l, n, top, j);
    WfLevel(lv, l, n, top, l + 1);
    CovUnique(lv, l + 1, n, m, k, key);
    FirstLeIs2(lv[l+1], n, k, key, p);
  }

  lemma WfLevel(lv: seq<Level>, l: nat, n: nat, top: nat, i: nat)
    requires Wf(lv, l, n, top) && l <= i < |lv|
    ensures LevelOk(lv[i], n) && Wf(lv, i, n, top)
  {
    hide LevelOk, Outline, Link, NonEmpty;
  }

  lemma FirstLeIs2(L: Level, n: nat, k: nat, key: nat, p: nat)
    requires LevelOk(L, n) && k < |L| && p < |L[k].es|
    requires L[k].es[p].key <= key && (p > 0 ==> key < L[k].es[p-1].key)
    ensures FirstLe(L[k].es, key) == p
  {
    LevelAt(L, n, k, k);
    FirstLeIs(L[k].es, key, p);
  }

  /** Following the slot that getpos finds. */
  lemma StepDown(lv: seq<Level>, l: nat, n: nat, top: nat, k: nat, key: nat) returns (j: nat)
    requires Wf(lv, l, n, top) && l + 1 < |lv| && Cov(lv, l + 1, k, key)
    requires FirstLe(lv[l+1][k].es, key) < |lv[l+1][k].es|
    ensures var p := FirstLe(lv[l+1][k].es, key);
      j == Off(lv[l+1], k) + p && Cov(lv, l, j, key) && lv[l+1][k].es[p] == Pair(lv[l][j].lo, Child(lv[l][j].ref))
  {
    hide Wf, LevelOk, Outline, Link, Off;
    var p := FirstLe(lv[l+1][k].es, key);
    j := ChildAt(lv, l, n, top, k, p);
  }

  // ---------------------------------------------------------------- lowering a separator

  ghost function LowerNode(g: NodeG, key: nat): NodeG
    requires g.es != []
  {
    g.(es := g.es[|g.es|-1 := Pair(key, g.es[|g.es|-1].val)])
  }

  lemma LowerNodeOk(g: NodeG, n: nat, key: nat)
    requires NodeOk(g, n) && g.es != [] && g.lo <= key < g.es[|g.es|-1].key
    ensures NodeOk(LowerNode(g, key), n)
  {
  }

  lemma LowerIvs(g: NodeG, key: nat)
    requires g.es != []
    ensures Ivs(g.hi, LowerNode(g, key).es)
         == Ivs(g.hi, g.es)[|g.es|-1 := Iv(Ivs(g.hi, g.es)[|g.es|-1].val, key, Ivs(g.hi, g.es)[|g.es|-1].hi)]
  {
  }

  lemma LowerOutline(L: Level, j: nat, key: nat)
    requires j < |L| && L[j].es != []
    ensures var x := Off(L, j) + |L[j].es| - 1;
      x < |Outline(L)| && Outline(Replace(L, j, [LowerNode(L[j], key)]))
        == Outline(L)[x := Iv(Outline(L)[x].val, key, Outline(L)[x].hi)]
  {
    hide Outline, Ivs, Replace, LowerNode, Off;
    var p := |L[j].es| - 1;
    OutlineAt(L, j, p);
    var g := LowerNode(L[j], key);
    LowerHi(L[j], key);
    ReplaceOutlineOne(L, j, g);
    OutlineSplit(L, j);
    LowerIvs(L[j], key);
    var A, I, B := Outline(L[..j]), Ivs(L[j].hi, L[j].es), Outline(L[j+1..]);
    SetMid(A, I, B, p, Iv(I[p].val, key, I[p].hi));
    OffDef(L, j);
  }

  lemma LowerHi(g: NodeG, key: nat)
    requires g.es != []
    ensures LowerNode(g, key).hi == g.hi && |LowerNode(g, key).es| == |g.es|
    ensures LowerNode(g, key).lo == g.lo && LowerNode(g, key).ref == g.ref
  {
  }

  lemma OffDef(L: Level, j: nat)
    requires j <= |L|
    ensures Off(L, j) == |Outline(L[..j])|
  {
  }

  /** The levels after the last separator of node k of level l+1 is lowered to key. */
  ghost function Lowered(lv: seq<Level>, l: nat, k: nat, key: nat): (r: seq<Level>)
    requires l + 1 < |lv| && k < |lv[l+1]| && lv[l+1][k].es != []
    requires Off(lv[l+1], k) + |lv[l+1][k].es| <= |lv[l]|
    ensures |r| == |lv|
  {
    var j := Off(lv[l+1], k) + |lv[l+1][k].es| - 1;
    lv[l+1 := Replace(lv[l+1], k, [LowerNode(lv[l+1][k], key)])]
      [l := Replace(lv[l], j, [lv[l][j].(lo := key)])]
  }

  lemma OutlineLo(L: Level, j: nat, lo: nat)
    requires j < |L|
    ensures Outline(Replace(L, j, [L[j].(lo := lo)])) == Outline(L)
  {
    hide Outline, Ivs, Replace;
    ReplaceOutlineOne(L, j, L[j].(lo := lo));
    OutlineSplit(L, j);
  }

  lemma LowerLink(L: Level, O: seq<Iv>, j: nat, key: nat)
    requires Link(L, O) && j < |L|
    ensures Link(Replace(L, j, [L[j].(lo := key)]), O[j := Iv(O[j].val, key, O[j].hi)])
  {
    hide Replace;
    var r := Replace(L, j, [L[j].(lo := key)]);
    forall k | 0 <= k < |r|
      ensures O[j := Iv(O[j].val, key, O[j].hi)][k] == Iv(Child(r[k].ref), r[k].lo, r[k].hi) {
      ReplaceAt(L, j, [L[j].(lo := key)], k);
    }
  }

  lemma LowerNodes(L: Level, j: nat, key: nat, n: nat)
    requires LevelOk(L, n) && j < |L| && key <= L[j].lo
    ensures forall k :: 0 <= k < |L| ==> NodeOk(Replace(L, j, [L[j].(lo := key)])[k], n)
    ensures NonEmpty(L) ==> NonEmpty(Replace(L, j, [L[j].(lo := key)]))
  {
    hide NodeOk, Replace;
    var r := Replace(L, j, [L[j].(lo := key)]);
    WidenNode(L[j], key, L[j].hi, n);
    forall k | 0 <= k < |r| ensures NodeOk(r[k], n) && (NonEmpty(L) ==> r[k].es != []) {
      ReplaceAt(L, j, [L[j].(lo := key)], k);
    }
  }

  lemma LowerWf(lv: seq<Level>, l: nat, n: nat, top: nat, k: nat, key: nat, b: nat)
    requires b <= l && Wf(lv, b, n, top) && l + 1 < |lv| && Cov(lv, l + 1, k, key)
    requires lv[l+1][k].es != [] && key < lv[l+1][k].es[|lv[l+1][k].es|-1].key
    ensures Off(lv[l+1], k) + |lv[l+1][k].es| <= |lv[l]|
    ensures Wf(Lowered(lv, l, k, key), b, n, top)
    ensures Cov(Lowered(lv, l, k, key), l, Off(lv[l+1], k) + |lv[l+1][k].es| - 1, key)
  {
    hide LevelOk, NodeOk, Outline, Link, NonEmpty, Replace, LowerNode, Off;
    var U, L, g := lv[l+1], lv[l], lv[l+1][k];
    var j := ChildAt(lv, l, n, top, k, |g.es| - 1) by { WfLevel(lv, b, n, top, l); }
    WfLevel(lv, b, n, top, l);
    WfLevel(lv, b, n, top, l + 1);
    LevelAt(U, n, k, k);
    LowerNodeOk(g, n, key);
    LowerHi(g, key);
    var U2, L2 := Replace(U, k, [LowerNode(g, key)]), Replace(L, j, [L[j].(lo := key)]);
    ReplaceOkOne(U, k, LowerNode(g, key), n);
    LowerOutline(U, k, key);
    LowerLink(L, Outline(U), j, key);
    LowerNodes(L, j, key, n);
    LinkedLevelOk(L2, U2, n);
    OutlineLo(L, j, key);
    LowerUpper(lv, l, n, top, k, key);
    WfSet2(lv, l, b, U2, L2, n, top);
    LowerHiAbove(g, n, key, L[j].hi);
    ReplaceAt(L, j, [L[j].(lo := key)], j);
  }

  lemma LowerHiAbove(g: NodeG, n: nat, key: nat, hi: nat)
    requires NodeOk(g, n) && g.es != [] && key < g.es[|g.es|-1].key && key < g.hi
    requires hi == if |g.es| == 1 then g.hi else g.es[|g.es|-2].key
    ensures key < hi
  {
  }

  lemma LowerUpper(lv: seq<Level>, l: nat, n: nat, top: nat, k: nat, key: nat)
    requires l + 1 < |lv| && Wf(lv, l + 1, n, top) && k < |lv[l+1]| && lv[l+1][k].es != []
    requires LevelOk(Replace(lv[l+1], k, [LowerNode(lv[l+1][k], key)]), n)
    ensures Wf(lv[l+1 := Replace(lv[l+1], k, [LowerNode(lv[l+1][k], key)])], l + 1, n, top)
  {
    hide LevelOk, Outline, Replace;
    var g := lv[l+1][k];
    WfStore(lv, l + 1, n, top, k, g.es[|g.es|-1 := Pair(key, g.es[|g.es|-1].val)]);
  }

  /** Two neighbouring levels change; the outline seen from further below does not. */
  lemma WfSet2(lv: seq<Level>, l: nat, b: nat, U: Level, L: Level, n: nat, top: nat)
    requires b <= l && l + 1 < |lv| && Wf(lv, b, n, top)
    requires Wf(lv[l+1 := U], l + 1, n, top)
    requires LevelOk(L, n) && Link(L, Outline(U)) && NonEmpty(L)
    requires Outline(L) == Outline(lv[l])
    ensures Wf(lv[l+1 := U][l := L], b, n, top)
  {
    hide LevelOk, Outline, Link, NonEmpty;
    var r := lv[l+1 := U][l := L];
    assert forall i :: l + 1 <= i < |lv| ==> r[i] == lv[l+1 := U][i];
  }

  // ---------------------------------------------------------------- what a descent may change

  /** Same arrays with the same number of pairs. */
  ghost predicate ShapeLevel(L: Level, M: Level) {
    && |L| == |M|
    && forall m :: 0 <= m < |L| ==> M[m].ref == L[m].ref && |M[m].es| == |L[m].es|
  }

  ghost predicate Shape(lv: seq<Level>, r: seq<Level>) {
    && |r| == |lv|
    && forall i :: 0 <= i < |lv| ==> ShapeLevel(lv[i], r[i])
  }

  /** Only lower interval bounds differ. */
  ghost predicate LoOnly(L: Level, M: Level) {
    && |L| == |M|
    && forall m :: 0 <= m < |L| ==> M[m] == L[m].(lo := M[m].lo)
  }

  lemma ShapeRefl(lv: seq<Level>)
    ensures Shape(lv, lv)
  {
  }

  lemma ShapeTrans(a: seq<Level>, b: seq<Level>, c: seq<Level>)
    requires Shape(a, b) && Shape(b, c)
    ensures Shape(a, c)
  {
    hide ShapeLevel;
    forall i | 0 <= i < |a| ensures ShapeLevel(a[i], c[i]) {
      ShapeLevelTrans(a[i], b[i], c[i]);
    }
  }

  lemma ShapeLevelTrans(a: Level, b: Level, c: Level)
    requires ShapeLevel(a, b) && ShapeLevel(b, c)
    ensures ShapeLevel(a, c)
  {
  }

  lemma ShapeAt(lv: seq<Level>, r: seq<Level>, i: nat, m: nat)
    requires Shape(lv, r) && i < |lv|
    ensures |r[i]| == |lv[i]|
    ensures m < |lv[i]| ==> r[i][m].ref == lv[i][m].ref && |r[i][m].es| == |lv[i][m].es|
  {
    assert ShapeLevel(lv[i], r[i]);
  }

  lemma ReplaceShape(L: Level, j: nat, g: NodeG)
    requires j < |L| && g.ref == L[j].ref && |g.es| == |L[j].es|
    ensures ShapeLevel(L, Replace(L, j, [g]))
  {
    hide Replace;
    forall m | 0 <= m < |L| ensures Replace(L, j, [g])[m].ref == L[m].ref && |Replace(L, j, [g])[m].es| == |L[m].es| {
      ReplaceAt(L, j, [g], m);
    }
  }

  lemma ReplaceLo(L: Level, j: nat, lo: nat)
    requires j < |L|
    ensures LoOnly(L, Replace(L, j, [L[j].(lo := lo)]))
  {
    hide Replace;
    var r := Replace(L, j, [L[j].(lo := lo)]);
    forall m | 0 <= m < |L| ensures r[m] == L[m].(lo := r[m].lo) {
      ReplaceAt(L, j, [L[j].(lo := lo)], m);
    }
  }

  lemma LoOnlyShape(L: Level, M: Level)
    requires LoOnly(L, M)
    ensures ShapeLevel(L, M)
  {
  }

  lemma {:induction false} LoOnlyOutline(L: Level, M: Level)
    requires LoOnly(L, M)
    ensures Outline(L) == Outline(M)
  {
    hide Ivs;
    if L == [] {
    } else {
      assert M[0] == L[0].(lo := M[0].lo);
      LoOnlyOutline(L[1..], M[1..]);
    }
  }

  lemma LoweredShape(lv: seq<Level>, l: nat, k: nat, key: nat)
    requires l + 1 < |lv| && k < |lv[l+1]| && lv[l+1][k].es != []
    requires Off(lv[l+1], k) + |lv[l+1][k].es| <= |lv[l]|
    ensures Shape(lv, Lowered(lv, l, k, key))
    ensures forall i :: 0 <= i < |lv| && i != l && i != l + 1 ==> Lowered(lv, l, k, key)[i] == lv[i]
    ensures LoOnly(lv[l], Lowered(lv, l, k, key)[l])
  {
    hide Replace, LowerNode, Off, ShapeLevel, LoOnly;
    var j := Off(lv[l+1], k) + |lv[l+1][k].es| - 1;
    LowerHi(lv[l+1][k], key);
    ReplaceShape(lv[l+1], k, LowerNode(lv[l+1][k], key));
    ReplaceLo(lv[l], j, key);
    LoOnlyShape(lv[l], Replace(lv[l], j, [lv[l][j].(lo := key)]));
    forall i | 0 <= i < |lv| ensures ShapeLevel(lv[i], lv[i]) { ShapeLevelRefl(lv[i]); }
  }

  lemma ShapeLevelRefl(L: Level)
    ensures ShapeLevel(L, L)
  {
  }

  lemma LoOnlyRefl(L: Level)
    ensures LoOnly(L, L)
  {
  }

  /** A descent to level h may have lowered separators above h, nothing else. */
  ghost predicate Descended(lv: seq<Level>, r: seq<Level>, h: nat) {
    && Shape(lv, r)
    && h < |lv|
    && (forall i :: 0 <= i < h ==> r[i] == lv[i])
    && LoOnly(lv[h], r[h])
  }

  lemma DescendedRefl(lv: seq<Level>, h: nat)
    requires h < |lv|
    ensures Descended(lv, lv, h)
  {
    ShapeRefl(lv);
  }

  lemma DescendedLower(lv: seq<Level>, r: seq<Level>, h: nat, k: nat, key: nat)
    requires Descended(lv, r, h) && h > 0 && k < |r[h]| && r[h][k].es != []
    requires Off(r[h], k) + |r[h][k].es| <= |r[h-1]|
    ensures Descended(lv, Lowered(r, h - 1, k, key), h - 1)
  {
    hide Shape, Off, Lowered;
    ShapeLen(lv, r);
    LoweredShape(r, h - 1, k, key);
    ShapeTrans(lv, r, Lowered(r, h - 1, k, key));
  }

  lemma ShapeLen(lv: seq<Level>, r: seq<Level>)
    requires Shape(lv, r)
    ensures |r| == |lv|
  {
  }

  lemma DescendedAt(lv: seq<Level>, r: seq<Level>, h: nat)
    requires Descended(lv, r, h)
    ensures |r| == |lv| && h < |lv| && LoOnly(lv[h], r[h]) && r[..h] == lv[..h]
  {
    hide Shape, LoOnly;
    ShapeLen(lv, r);
  }

  lemma DescendedTrans(a: seq<Level>, b: seq<Level>, c: seq<Level>, h: nat)
    requires Descended(a, b, h) && Descended(b, c, h)
    ensures Descended(a, c, h)
  {
    hide Shape;
    ShapeLen(a, b);
    ShapeLen(b, c);
    ShapeTrans(a, b, c);
  }

  lemma DescendedRoot(lv: seq<Level>, r: seq<Level>, h: nat)
    requires Descended(lv, r, h)
    ensures |r| == |lv| > 0 && |r[|r|-1]| == |lv[|lv|-1]|
    ensures |lv[|lv|-1]| > 0 ==> r[|r|-1][0].ref == lv[|lv|-1][0].ref && |r[|r|-1][0].es| == |lv[|lv|-1][0].es|
  {
    hide Shape, LoOnly;
    ShapeLen(lv, r);
    ShapeAt(lv, r, |lv| - 1, 0);
  }

  lemma DescendedStay(lv: seq<Level>, r: seq<Level>, h: nat)
    requires Descended(lv, r, h) && h > 0
    ensures Descended(lv, r, h - 1)
  {
    hide Shape;
    LoOnlyRefl(lv[h-1]);
    ShapeLen(lv, r);
  }
}
