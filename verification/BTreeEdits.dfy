/**
 What one change of one node does to the level and to the level's outline:
 inserting a pair, removing a pair, splitting a node, merging two nodes and
 lowering a separator.
 */
module BTreeEdits {
  import opened BTreeLevels

  ghost function InsAt<T>(s: seq<T>, p: nat, x: T): (r: seq<T>)
    requires p <= |s|
    ensures |r| == |s| + 1
  {
    s[..p] + ([x] + s[p..])
  }

  ghost function RemAt<T>(s: seq<T>, p: nat): (r: seq<T>)
    requires p < |s|
    ensures |r| == |s| - 1
  {
    s[..p] + s[p+1..]
  }

  lemma InsAtIdx<T>(s: seq<T>, p: nat, x: T, i: nat)
    requires p <= |s| && i <= |s|
    ensures InsAt(s, p, x)[i] == if i < p then s[i] else if i == p then x else s[i-1]
  {
  }

  lemma RemAtIdx<T>(s: seq<T>, p: nat, i: nat)
    requires p < |s| && i < |s| - 1
    ensures RemAt(s, p)[i] == if i < p then s[i] else s[i+1]
  {
  }

  lemma RemAtMid<T>(A: seq<T>, I: seq<T>, B: seq<T>, p: nat)
    requires p < |I|
    ensures RemAt(A + (I + B), |A| + p) == A + (RemAt(I, p) + B)
  {
  }

  lemma InsAtMid<T>(A: seq<T>, I: seq<T>, B: seq<T>, p: nat, x: T)
    requires p <= |I|
    ensures InsAt(A + (I + B), |A| + p, x) == A + (InsAt(I, p, x) + B)
  {
  }

  /** A new slot (key, val) in front of slot q, which keeps only the range below key. */
  ghost function InsBefore(O: seq<Iv>, q: nat, key: nat, val: Slot): (r: seq<Iv>)
    requires q < |O|
    ensures |r| == |O| + 1
  {
    InsAt(O[q := Iv(O[q].val, O[q].lo, key)], q, Iv(val, key, O[q].hi))
  }

  lemma InsBeforeAt(O: seq<Iv>, q: nat, key: nat, val: Slot, x: nat)
    requires q < |O| && x <= |O|
    ensures InsBefore(O, q, key, val)[x] ==
      if x < q then O[x] else if x == q then Iv(val, key, O[q].hi)
      else if x == q + 1 then Iv(O[q].val, O[q].lo, key) else O[x-1]
  {
  }

  lemma InsBeforeMid(A: seq<Iv>, I: seq<Iv>, B: seq<Iv>, p: nat, key: nat, val: Slot)
    requires p < |I|
    ensures InsBefore(A + (I + B), |A| + p, key, val) == A + (InsBefore(I, p, key, val) + B)
  {
  }

  // ---------------------------------------------------------------- one node

  lemma NodeInsert(g: NodeG, n: nat, pos: nat, key: nat, val: Slot)
    requires NodeOk(g, n) && |g.es| < n && val != Nul && g.lo <= key < g.hi
    requires pos <= |g.es|
    requires forall i :: 0 <= i < pos ==> g.es[i].key > key
    requires pos < |g.es| ==> g.es[pos].key < key
    ensures NodeOk(g.(es := InsAt(g.es, pos, Pair(key, val))), n)
  {
    var es := InsAt(g.es, pos, Pair(key, val));
    hide InsAt;
    forall i | 0 <= i < |es| ensures es[i].val != Nul && g.lo <= es[i].key < g.hi {
      InsAtIdx(g.es, pos, Pair(key, val), i);
    }
    forall i, j | 0 <= i < j < |es| ensures es[i].key > es[j].key {
      InsAtIdx(g.es, pos, Pair(key, val), i);
      InsAtIdx(g.es, pos, Pair(key, val), j);
      if pos < |g.es| && pos < j - 1 { assert g.es[pos].key > g.es[j-1].key; }
    }
  }

  lemma NodeRemove(g: NodeG, n: nat, pos: nat)
    requires NodeOk(g, n) && pos < |g.es|
    ensures NodeOk(g.(es := RemAt(g.es, pos)), n)
  {
  }

  lemma IvsInsert(hi: nat, es: seq<Pair>, pos: nat, key: nat, val: Slot)
    requires pos < |es|
    ensures Ivs(hi, InsAt(es, pos, Pair(key, val))) == InsBefore(Ivs(hi, es), pos, key, val)
  {
    hide InsAt, InsBefore, Ivs;
    var e := InsAt(es, pos, Pair(key, val));
    var a, b := Ivs(hi, e), InsBefore(Ivs(hi, es), pos, key, val);
    forall p | 0 <= p < |a| ensures a[p] == b[p] {
      IvsAt(hi, e, p);
      InsAtIdx(es, pos, Pair(key, val), p);
      if p > 0 { InsAtIdx(es, pos, Pair(key, val), p - 1); }
      InsBeforeAt(Ivs(hi, es), pos, key, val, p);
      if p <= pos { IvsAt(hi, es, p); } else { IvsAt(hi, es, p - 1); }
    }
  }

  lemma IvsRemove(hi: nat, es: seq<Pair>, pos: nat)
    requires pos < |es| && Desc(es)
    requires forall i :: 0 <= i < |es| ==> es[i].key < hi
    ensures Grew(RemAt(Ivs(hi, es), pos), Ivs(hi, RemAt(es, pos)))
    ensures pos + 1 < |es| ==> Ivs(hi, RemAt(es, pos))[pos].hi == Ivs(hi, es)[pos].hi
  {
    hide RemAt, Ivs;
    var a, b := RemAt(Ivs(hi, es), pos), Ivs(hi, RemAt(es, pos));
    forall p | 0 <= p < |a| ensures b[p].val == a[p].val && b[p].lo == a[p].lo && a[p].hi <= b[p].hi {
      IvsAt(hi, RemAt(es, pos), p);
      RemAtIdx(es, pos, p);
      RemAtIdx(Ivs(hi, es), pos, p);
      if p > 0 { RemAtIdx(es, pos, p - 1); }
      IvsAt(hi, es, p);
      IvsAt(hi, es, p + 1);
    }
    if pos + 1 < |es| {
      IvsAt(hi, RemAt(es, pos), pos);
      if pos > 0 { RemAtIdx(es, pos, pos - 1); }
      IvsAt(hi, es, pos);
    }
  }

  lemma IvsSplit(hi: nat, es: seq<Pair>, h: nat)
    requires 0 < h < |es|
    ensures Ivs(hi, es[..h]) + Ivs(es[h-1].key, es[h..]) == Ivs(hi, es)
  {
    var a, b := Ivs(hi, es[..h]), Ivs(es[h-1].key, es[h..]);
    hide Ivs;
    forall p | 0 <= p < |es| ensures (a + b)[p] == Ivs(hi, es)[p] {
      IvsAt(hi, es, p);
      if p < h {
        IvsAt(hi, es[..h], p);
      } else {
        IvsAt(es[h-1].key, es[h..], p - h);
      }
    }
  }

  lemma IvsMerge(hl: nat, a: seq<Pair>, hr: nat, b: seq<Pair>, hi: nat)
    requires hl <= hi && a != []
    requires hr <= a[|a|-1].key
    ensures Grew(Ivs(hl, a) + Ivs(hr, b), Ivs(hi, a + b))
  {
    var I, J, K := Ivs(hl, a), Ivs(hr, b), Ivs(hi, a + b);
    hide Ivs;
    var IJ: seq<Iv> := I + J;
    forall p | 0 <= p < |a| + |b| ensures K[p].val == IJ[p].val && K[p].lo == IJ[p].lo && IJ[p].hi <= K[p].hi
    {
      IvsAt(hi, a + b, p);
      if p < |a| {
        IvsAt(hl, a, p);
      } else {
        IvsAt(hr, b, p - |a|);
      }
    }
  }

  lemma IvsRaise(hl: nat, hi: nat, es: seq<Pair>)
    requires hl <= hi
    ensures Grew(Ivs(hl, es), Ivs(hi, es))
  {
  }

  // ---------------------------------------------------------------- one level

  /** Insert a pair into node j: the level stays well formed and gains one slot. */
  lemma LevelInsert(L: Level, n: nat, j: nat, pos: nat, key: nat, val: Slot)
    requires LevelOk(L, n) && j < |L| && |L[j].es| < n && val != Nul && L[j].lo <= key < L[j].hi
    requires pos == FirstLe(L[j].es, key) && (pos < |L[j].es| ==> L[j].es[pos].key != key)
    ensures var g := L[j].(es := InsAt(L[j].es, pos, Pair(key, val)));
      LevelOk(Replace(L, j, [g]), n)
  {
    LevelAt(L, n, j, j);
    var g := L[j].(es := InsAt(L[j].es, pos, Pair(key, val)));
    NodeInsert(L[j], n, pos, key, val);
    hide *;
    ReplaceOkOne(L, j, g, n);
  }

  lemma ReplaceOkOne(L: Level, j: nat, g: NodeG, n: nat)
    requires LevelOk(L, n) && j < |L| && NodeOk(g, n) && L[j].lo <= g.lo && g.hi <= L[j].hi
    ensures LevelOk(Replace(L, j, [g]), n)
  {
    hide NodeOk, Replace;
    assert LevelOk([g], n);
    ReplaceOk(L, j, [g], n);
  }

  lemma ReplaceOutlineOne(L: Level, j: nat, g: NodeG)
    requires j < |L|
    ensures Outline(Replace(L, j, [g])) == Outline(L[..j]) + (Ivs(g.hi, g.es) + Outline(L[j+1..]))
  {
    hide *;
    ReplaceOutline(L, j, [g]);
    OutlineOne(g);
  }

  lemma OffIs(L: Level, j: nat)
    requires j <= |L|
    ensures Off(L, j) == |Outline(L[..j])|
  {
  }

  lemma OutlineInsert(L: Level, j: nat, pos: nat, key: nat, val: Slot)
    requires j < |L| && pos < |L[j].es|
    ensures Off(L, j) + pos < |Outline(L)|
    ensures Outline(Replace(L, j, [L[j].(es := InsAt(L[j].es, pos, Pair(key, val)))]))
         == InsBefore(Outline(L), Off(L, j) + pos, key, val)
  {
    hide Outline, Ivs, InsAt, InsBefore, Replace, Off;
    OutlineAt(L, j, pos);
    OffIs(L, j);
    var g := L[j].(es := InsAt(L[j].es, pos, Pair(key, val)));
    ReplaceOutlineOne(L, j, g);
    IvsInsert(L[j].hi, L[j].es, pos, key, val);
    InsBeforeMid(Outline(L[..j]), Ivs(L[j].hi, L[j].es), Outline(L[j+1..]), pos, key, val);
    OutlineSplit(L, j);
  }

  /** `O2` is `O` without slot q; `same` says the slot after q inherits q's upper bound. */
  ghost predicate Removed(O: seq<Iv>, q: nat, same: bool, O2: seq<Iv>) {
    && q < |O|
    && Grew(RemAt(O, q), O2)
    && (same ==> q < |O2| && O[q].hi <= O2[q].hi)
  }

  lemma NodeRemoved(g: NodeG, n: nat, pos: nat)
    requires NodeOk(g, n) && pos < |g.es|
    ensures Removed(Ivs(g.hi, g.es), pos, pos + 1 < |g.es|, Ivs(g.hi, RemAt(g.es, pos)))
  {
    hide Ivs, RemAt, Grew, Full;
    IvsRemove(g.hi, g.es, pos);
  }

  lemma RemovedMid(A: seq<Iv>, I: seq<Iv>, B: seq<Iv>, J: seq<Iv>, p: nat)
    requires Removed(I, p, p + 1 < |I|, J)
    ensures Removed(A + (I + B), |A| + p, p + 1 < |I|, A + (J + B))
  {
    RemAtMid(A, I, B, p);
    GrewMid(A, RemAt(I, p), J, B);
    MidAt(A, I, B, p);
    if p + 1 < |I| {
      MidAt(A, J, B, p);
    }
  }

  lemma RemovedGrew(O: seq<Iv>, q: nat, same: bool, O2: seq<Iv>, O3: seq<Iv>)
    requires Removed(O, q, same, O2) && Grew(O2, O3)
    ensures Removed(O, q, same, O3)
  {
    hide RemAt;
  }

  /** Remove a pair from node j: one slot disappears, all others keep their keys. */
  lemma LevelRemove(L: Level, n: nat, j: nat, pos: nat)
    requires LevelOk(L, n) && j < |L| && pos < |L[j].es|
    ensures LevelOk(Replace(L, j, [L[j].(es := RemAt(L[j].es, pos))]), n)
  {
    LevelAt(L, n, j, j);
    NodeRemove(L[j], n, pos);
    hide *;
    ReplaceOkOne(L, j, L[j].(es := RemAt(L[j].es, pos)), n);
  }

  lemma OutlineRemove(L: Level, n: nat, j: nat, pos: nat)
    requires LevelOk(L, n) && j < |L| && pos < |L[j].es|
    ensures Removed(Outline(L), Off(L, j) + pos, pos + 1 < |L[j].es|,
                    Outline(Replace(L, j, [L[j].(es := RemAt(L[j].es, pos))])))
  {
    hide LevelOk, NodeOk, Outline, Ivs, RemAt, Replace, Removed;
    LevelAt(L, n, j, j);
    var g := L[j].(es := RemAt(L[j].es, pos));
    NodeRemoved(L[j], n, pos);
    ReplaceOutlineOne(L, j, g);
    OutlineSplit(L, j);
    RemovedMid(Outline(L[..j]), Ivs(L[j].hi, L[j].es), Outline(L[j+1..]), Ivs(g.hi, g.es), pos);
  }

  lemma MidAt<T>(A: seq<T>, I: seq<T>, B: seq<T>, p: nat)
    requires p < |I|
    ensures (A + (I + B))[|A| + p] == I[p]
  {
  }

  lemma GrewMid(A: seq<Iv>, I: seq<Iv>, J: seq<Iv>, B: seq<Iv>)
    requires Grew(I, J)
    ensures Grew(A + (I + B), A + (J + B))
  {
  }

  /** Splitting node j in two at position h leaves the outline unchanged. */
  lemma OutlineHalves(L: Level, j: nat, x: NodeG, y: NodeG, h: nat)
    requires j < |L| && 0 < h < |L[j].es|
    requires x.hi == L[j].hi && x.es == L[j].es[..h]
    requires y.hi == L[j].es[h-1].key && y.es == L[j].es[h..]
    ensures Outline(Replace(L, j, [x, y])) == Outline(L)
  {
    hide Outline, Ivs, Replace;
    ReplaceOutline(L, j, [x, y]);
    OutlineSplit(L, j);
    assert [x, y] == [x] + [y];
    OutlineConcat([x], [y]);
    OutlineOne(x);
    OutlineOne(y);
    IvsSplit(L[j].hi, L[j].es, h);
  }

  /** Dropping an empty node leaves the outline unchanged. */
  lemma OutlineDrop(L: Level, j: nat)
    requires j < |L| && L[j].es == []
    ensures Outline(Replace(L, j, [])) == Outline(L)
  {
    ReplaceOutline(L, j, []);
    OutlineSplit(L, j);
  }
}
