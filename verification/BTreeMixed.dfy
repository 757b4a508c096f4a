/**
 Why an interior root keeps two children.

 `w` gives every slot of a node a weight: the number of pairs in the child below
 it.  A node whose two slots both have weight one could leave the root with a
 single child, so weights other than one must not get lost.  Splitting a node
 must not part them from the ones: with an even number of pairs it is enough
 that the first half of a node's slots and the last half both hold a weight
 other than one; with five pairs that no two ones are adjacent.
 */
module BTreeMixed {
  import opened BTreeLevels
  import opened BTreeEdits
  import opened BTreeSteps

  /** The numbers of pairs for which the weights stay mixed. */
  predicate Sturdy(n: nat) {
    n >= 4 && (n % 2 == 0 || n == 5)
  }

  /** Some weight in [a, b) is not one. */
  ghost predicate Other(w: seq<nat>, a: int, b: int) {
    exists i :: a <= i < b && 0 <= i < |w| && w[i] != 1
  }

  ghost predicate NoTwins(w: seq<nat>) {
    forall i :: 0 < i < |w| ==> w[i-1] != 1 || w[i] != 1
  }

  /** No more than half a node, and no more than there is. */
  function Window(w: seq<nat>, n: nat): (k: nat)
    ensures k <= |w|
  {
    if |w| < n / 2 then |w| else n / 2
  }

  /** The weights of one node. */
  ghost predicate Mixed(w: seq<nat>, n: nat) {
    if n == 5 then NoTwins(w)
    else |w| >= 2 ==> Other(w, 0, Window(w, n)) && Other(w, |w| - Window(w, n), |w|)
  }

  ghost predicate AllMixed(L: Level, w: seq<nat>, n: nat)
    requires |w| == |Outline(L)|
  {
    if L == [] then true
    else Mixed(w[..|L[0].es|], n) && AllMixed(L[1..], w[|L[0].es|..], n)
  }

  ghost function Sizes(L: Level): (r: seq<nat>)
    ensures |r| == |L|
    ensures forall k :: 0 <= k < |L| ==> r[k] == |L[k].es|
  {
    seq(|L|, k requires 0 <= k < |L| => |L[k].es|)
  }

  /** Every level from l up has mixed weights, the sizes of the level below it. */
  ghost predicate MixedTree(lv: seq<Level>, l: nat, n: nat) {
    forall i :: l < i < |lv| ==> |lv[i-1]| == |Outline(lv[i])| && AllMixed(lv[i], Sizes(lv[i-1]), n)
  }

  lemma OutlineLen(A: Level, B: Level)
    ensures |Outline(A + B)| == |Outline(A)| + |Outline(B)|
  {
    OutlineConcat(A, B);
  }

  lemma {:induction false} AllConcat(A: Level, B: Level, wa: seq<nat>, wb: seq<nat>, n: nat)
    requires |wa| == |Outline(A)| && |wb| == |Outline(B)|
    ensures |Outline(A + B)| == |wa + wb|
    ensures AllMixed(A + B, wa + wb, n) <==> AllMixed(A, wa, n) && AllMixed(B, wb, n)
  {
    hide Ivs, Mixed;
    OutlineLen(A, B);
    if A == [] {
      assert A + B == B && wa + wb == wb;
    } else {
      var k := |A[0].es|;
      assert (A + B)[1..] == A[1..] + B;
      assert (wa + wb)[k..] == wa[k..] + wb;
      assert (wa + wb)[..k] == wa[..k];
      AllConcat(A[1..], B, wa[k..], wb, n);
    }
  }

  lemma AllOne(g: NodeG, w: seq<nat>, n: nat)
    requires |w| == |g.es|
    ensures |Outline([g])| == |w|
    ensures AllMixed([g], w, n) <==> Mixed(w, n)
  {
    hide Mixed, Ivs;
    OutlineOne(g);
    assert w[..|g.es|] == w;
    assert [g][1..] == [];
  }

  /** The three parts of the weights around node j. */
  ghost function Before(L: Level, j: nat, w: seq<nat>): seq<nat>
    requires j < |L| && |w| == |Outline(L)|
  {
    OutlineSplit(L, j);
    w[..Off(L, j)]
  }

  ghost function Inside(L: Level, j: nat, w: seq<nat>): (r: seq<nat>)
    requires j < |L| && |w| == |Outline(L)|
    ensures |r| == |L[j].es|
  {
    OutlineSplit(L, j);
    w[Off(L, j)..Off(L, j) + |L[j].es|]
  }

  ghost function After(L: Level, j: nat, w: seq<nat>): seq<nat>
    requires j < |L| && |w| == |Outline(L)|
  {
    OutlineSplit(L, j);
    w[Off(L, j) + |L[j].es|..]
  }

  lemma Parts(L: Level, j: nat, w: seq<nat>)
    requires j < |L| && |w| == |Outline(L)|
    ensures w == Before(L, j, w) + (Inside(L, j, w) + After(L, j, w))
    ensures |Before(L, j, w)| == |Outline(L[..j])| == Off(L, j)
    ensures |After(L, j, w)| == |Outline(L[j+1..])|
  {
    hide Ivs, Outline;
    OutlineSplit(L, j);
  }

  lemma ReplaceLen(L: Level, j: nat, R: Level)
    requires j < |L|
    ensures |Outline(Replace(L, j, R))| == |Outline(L[..j])| + |Outline(R)| + |Outline(L[j+1..])|
  {
    hide Outline, Replace;
    ReplaceOutline(L, j, R);
  }

  /** The weights of a level with node j replaced, part by part. */
  lemma AllReplace(L: Level, j: nat, R: Level, w: seq<nat>, wr: seq<nat>, n: nat)
    requires j < |L| && |w| == |Outline(L)| && |wr| == |Outline(R)|
    requires AllMixed(L, w, n) && AllMixed(R, wr, n)
    ensures |Outline(Replace(L, j, R))| == |Before(L, j, w) + (wr + After(L, j, w))|
    ensures AllMixed(Replace(L, j, R), Before(L, j, w) + (wr + After(L, j, w)), n)
  {
    hide Outline, AllMixed, Before, After, Inside;
    AllNode(L, j, w, n);
    ReplaceLen(L, j, R);
    AllConcat(R, L[j+1..], wr, After(L, j, w), n);
    AllConcat(L[..j], R + L[j+1..], Before(L, j, w), wr + After(L, j, w), n);
  }

  lemma AllNode(L: Level, j: nat, w: seq<nat>, n: nat)
    requires j < |L| && |w| == |Outline(L)|
    requires AllMixed(L, w, n)
    ensures |Before(L, j, w)| == |Outline(L[..j])| && |After(L, j, w)| == |Outline(L[j+1..])|
    ensures AllMixed(L[..j], Before(L, j, w), n) && AllMixed(L[j+1..], After(L, j, w), n)
    ensures Mixed(Inside(L, j, w), n)
  {
    hide Outline, AllMixed, Before, After, Inside, Mixed;
    Parts(L, j, w);
    AllOne(L[j], Inside(L, j, w), n);
    assert L == L[..j] + ([L[j]] + L[j+1..]);
    AllConcat([L[j]], L[j+1..], Inside(L, j, w), After(L, j, w), n);
    AllConcat(L[..j], [L[j]] + L[j+1..], Before(L, j, w), Inside(L, j, w) + After(L, j, w), n);
  }

  // ---------------------------------------------------------------- single steps

  /** Whoever names a weight other than one in the first and in the last slots of a node has shown it mixed. */
  lemma MixedBy(w: seq<nat>, n: nat, i: nat, j: nat)
    requires Sturdy(n) && n != 5
    requires |w| >= 2 ==> i < Window(w, n) && w[i] != 1 && |w| - Window(w, n) <= j < |w| && w[j] != 1
    ensures Mixed(w, n)
  {
  }

  lemma MixedAt(w: seq<nat>, n: nat) returns (i: nat, j: nat)
    requires Sturdy(n) && n != 5 && Mixed(w, n) && |w| >= 2
    ensures i < Window(w, n) && w[i] != 1 && |w| - Window(w, n) <= j < |w| && w[j] != 1
  {
    i :| 0 <= i < Window(w, n) && w[i] != 1;
    j :| |w| - Window(w, n) <= j < |w| && w[j] != 1;
  }

  /** Two slots and not all weights one. */
  lemma MixedOther(w: seq<nat>, n: nat)
    requires Sturdy(n) && Mixed(w, n) && |w| >= 2
    ensures Other(w, 0, |w|)
  {
    if n == 5 {
      assert w[0] != 1 || w[1] != 1;
    } else {
      var i, j := MixedAt(w, n);
    }
  }

  lemma MixedInsert(w: seq<nat>, p: nat, v: nat, n: nat)
    requires Sturdy(n) && Mixed(w, n) && p <= |w| && v != 1
    ensures Mixed(InsAt<nat>(w, p, v), n)
  {
    hide InsAt, Mixed;
    var r, k := InsAt<nat>(w, p, v), n / 2;
    InsAtIdx(w, p, v, p);
    if n == 5 {
      NoTwinsInsert(w, p, v);
    } else if |w| < 2 {
      MixedBy(r, n, p, p);
    } else {
      var i, j := MixedAt(w, n);
      var i', j' := if p < k then p else i, if p > |w| - k then p else j + 1;
      InsAtIdx(w, p, v, i');
      InsAtIdx(w, p, v, j');
      MixedBy(r, n, i', j');
    }
  }

  lemma NoTwinsInsert(w: seq<nat>, p: nat, v: nat)
    requires Mixed(w, 5) && p <= |w| && v != 1
    ensures Mixed(InsAt<nat>(w, p, v), 5)
  {
    hide InsAt;
    var r := InsAt<nat>(w, p, v);
    forall i | 0 < i < |r| ensures r[i-1] != 1 || r[i] != 1 {
      InsAtIdx(w, p, v, i);
      InsAtIdx(w, p, v, i - 1);
    }
  }

  lemma InsideSplice(L: Level, j: nat, w: seq<nat>, p: nat, v: nat)
    requires j < |L| && |w| == |Outline(L)| && p <= |L[j].es|
    ensures Off(L, j) + p <= |w|
    ensures Before(L, j, w) + (InsAt<nat>(Inside(L, j, w), p, v) + After(L, j, w)) == InsAt<nat>(w, Off(L, j) + p, v)
  {
    hide Outline, Before, After, Inside, InsAt, Off;
    Parts(L, j, w);
    InsAtMid(Before(L, j, w), Inside(L, j, w), After(L, j, w), p, v);
  }

  /** A new slot of a weight other than one. */
  lemma AllInsert(L: Level, j: nat, pos: nat, pr: Pair, w: seq<nat>, v: nat, n: nat)
    requires Sturdy(n) && j < |L| && pos <= |L[j].es| && |w| == |Outline(L)| && AllMixed(L, w, n) && v != 1
    ensures var L2 := Replace(L, j, [L[j].(es := InsAt(L[j].es, pos, pr))]);
      Off(L, j) + pos <= |w| && |Outline(L2)| == |w| + 1 && AllMixed(L2, InsAt<nat>(w, Off(L, j) + pos, v), n)
  {
    hide Outline, AllMixed, Before, After, Inside, Mixed, InsAt, Off, Replace;
    var g := L[j].(es := InsAt(L[j].es, pos, pr));
    AllNode(L, j, w, n);
    InsideSplice(L, j, w, pos, v);
    MixedInsert(Inside(L, j, w), pos, v, n);
    AllOne(g, InsAt<nat>(Inside(L, j, w), pos, v), n);
    AllReplace(L, j, [g], w, InsAt<nat>(Inside(L, j, w), pos, v), n);
  }

  /** A full node is cut in the middle. */
  lemma AllSplit(L: Level, j: nat, h: nat, nw: array<Pair>, lo: nat, w: seq<nat>, n: nat)
    requires Sturdy(n) && j < |L| && h == n / 2 && |L[j].es| == n && |w| == |Outline(L)| && AllMixed(L, w, n)
    ensures |Outline(Split(L, j, h, nw, lo))| == |w| && AllMixed(Split(L, j, h, nw, lo), w, n)
  {
    hide Outline, AllMixed, Before, After, Inside, Mixed, Replace;
    var g := L[j];
    var mid := g.es[h-1].key;
    var x, y := NodeG(nw, mid, g.hi, g.es[..h]), NodeG(g.ref, lo, mid, g.es[h..]);
    var v := Inside(L, j, w);
    AllNode(L, j, w, n);
    MixedHalves(v, n);
    AllOne(x, v[..h], n);
    AllOne(y, v[h..], n);
    AllConcat([x], [y], v[..h], v[h..], n);
    assert [x] + [y] == [x, y] && v[..h] + v[h..] == v;
    AllReplace(L, j, [x, y], w, v, n);
    Parts(L, j, w);
  }

  lemma MixedHalves(v: seq<nat>, n: nat)
    requires Sturdy(n) && Mixed(v, n) && |v| == n
    ensures Mixed(v[..n/2], n) && Mixed(v[n/2..], n)
  {
    if n != 5 {
      var h := n / 2;
      var i, j := MixedAt(v, n);
      assert v[h..][j - h] == v[j];
      MixedBy(v[..h], n, i, i);
      MixedBy(v[h..], n, j - h, j - h);
    }
  }

  lemma AllDrop(L: Level, j: nat, w: seq<nat>, n: nat)
    requires j < |L| && L[j].es == [] && |w| == |Outline(L)| && AllMixed(L, w, n)
    ensures |Outline(Replace(L, j, []))| == |w| && AllMixed(Replace(L, j, []), w, n)
  {
    hide Outline, AllMixed, Before, After, Inside, Mixed, Replace;
    AllNone(n);
    AllReplace(L, j, [], w, [], n);
    Parts(L, j, w);
  }

  lemma AllNone(n: nat)
    ensures Outline([]) == [] && AllMixed([], [], n)
  {
  }

  /** Only the sizes of the nodes matter. */
  lemma {:induction false} AllSame(L: Level, M: Level, w: seq<nat>, n: nat)
    requires Sizes(L) == Sizes(M) && |w| == |Outline(L)| && AllMixed(L, w, n)
    ensures |Outline(M)| == |w| && AllMixed(M, w, n)
  {
    hide Mixed, Ivs;
    assert |L| == |Sizes(L)| == |M|;
    if L == [] {
    } else {
      assert |L[0].es| == Sizes(L)[0] == |M[0].es|;
      SizesTail(L);
      SizesTail(M);
      AllSame(L[1..], M[1..], w[|L[0].es|..], n);
    }
  }

  lemma SizesTail(L: Level)
    requires L != []
    ensures Sizes(L[1..]) == Sizes(L)[1..]
  {
  }

  /** Ones only where there were ones before. */
  lemma {:induction false} AllWeaken(L: Level, w: seq<nat>, v: seq<nat>, n: nat)
    requires |w| == |v| == |Outline(L)| && AllMixed(L, w, n)
    requires forall x :: 0 <= x < |w| && v[x] == 1 ==> w[x] == 1
    ensures AllMixed(L, v, n)
  {
    hide Ivs;
    if L == [] {
    } else {
      var k := |L[0].es|;
      AllWeaken(L[1..], w[k..], v[k..], n);
      MixedWeaken(w[..k], v[..k], n);
    }
  }

  lemma MixedWeaken(w: seq<nat>, v: seq<nat>, n: nat)
    requires |w| == |v| && Mixed(w, n)
    requires forall x :: 0 <= x < |w| && v[x] == 1 ==> w[x] == 1
    ensures Mixed(v, n)
  {
  }

  // ---------------------------------------------------------------- removals

  lemma MixedDrop(v: seq<nat>, p: nat, n: nat)
    requires Sturdy(n) && Mixed(v, n) && p < |v| && v[p] == 1
    ensures Mixed(RemAt<nat>(v, p), n) && (|v| >= 2 ==> Other(RemAt<nat>(v, p), 0, |v| - 1))
  {
    hide RemAt, Mixed;
    var r := RemAt<nat>(v, p);
    if |v| >= 2 {
      MixedOther(v, n);
      var i :| 0 <= i < |v| && v[i] != 1;
      RemAtIdx(v, p, if i < p then i else i - 1);
    }
    if n == 5 {
      NoTwinsDrop(v, p);
    } else if |v| < 2 {
      MixedBy(r, n, 0, 0);
    } else {
      var i, j := MixedAt(v, n);
      var i', j' := if i < p then i else i - 1, if j < p then j else j - 1;
      RemAtIdx(v, p, i');
      RemAtIdx(v, p, j');
      MixedBy(r, n, i', j');
    }
  }

  lemma NoTwinsDrop(v: seq<nat>, p: nat)
    requires Mixed(v, 5) && p < |v| && v[p] == 1
    ensures Mixed(RemAt<nat>(v, p), 5)
  {
    hide RemAt;
    var r := RemAt<nat>(v, p);
    forall i | 0 < i < |r| ensures r[i-1] != 1 || r[i] != 1 {
      RemAtIdx(v, p, i);
      RemAtIdx(v, p, i - 1);
    }
  }

  lemma MixedJoin(v: seq<nat>, p: nat, s: nat, n: nat)
    requires Sturdy(n) && Mixed(v, n) && p + 1 < |v| && s != 1
    ensures Mixed(RemAt<nat>(v, p)[p := s], n)
  {
    hide RemAt, Mixed;
    var r := RemAt<nat>(v, p)[p := s];
    if n == 5 {
      NoTwinsJoin(v, p, s);
    } else {
      var i, j := MixedAt(v, n);
      var k := n / 2;
      var a, b := if p < k then p else i, if p >= |r| - k then p else j - 1;
      if a != p { RemAtIdx(v, p, a); }
      if b != p { RemAtIdx(v, p, b); }
      MixedBy(r, n, a, b);
    }
  }

  lemma NoTwinsJoin(v: seq<nat>, p: nat, s: nat)
    requires Mixed(v, 5) && p + 1 < |v| && s != 1
    ensures Mixed(RemAt<nat>(v, p)[p := s], 5)
  {
    hide RemAt;
    var r := RemAt<nat>(v, p)[p := s];
    forall i | 0 < i < |r| ensures r[i-1] != 1 || r[i] != 1 {
      RemAtIdx(v, p, i);
      RemAtIdx(v, p, i - 1);
    }
  }

  lemma MixedSet(v: seq<nat>, p: nat, s: nat, n: nat)
    requires Sturdy(n) && Mixed(v, n) && p < |v|
    requires p > 0 ==> v[p-1] != 1
    requires p + 1 < |v| ==> v[p+1] != 1
    ensures Mixed(v[p := s], n)
  {
    if n != 5 && |v| >= 2 {
      var i, j := MixedAt(v, n);
      var i' := if i != p then i else if p > 0 then p - 1 else 1;
      var j' := if j != p then j else if p + 1 < |v| then p + 1 else p - 1;
      MixedBy(v[p := s], n, i', j');
    }
  }

  /** Node j loses the pair at pos and its slots get the weights v. */
  lemma AllRemove(L: Level, j: nat, pos: nat, w: seq<nat>, v: seq<nat>, n: nat)
    requires j < |L| && pos < |L[j].es| && |w| == |Outline(L)| && AllMixed(L, w, n)
    requires |v| == |L[j].es| - 1 && Mixed(v, n)
    ensures var L2 := Replace(L, j, [L[j].(es := RemAt(L[j].es, pos))]);
      && |Outline(L2)| == |Before(L, j, w) + (v + After(L, j, w))|
      && AllMixed(L2, Before(L, j, w) + (v + After(L, j, w)), n)
  {
    hide Outline, AllMixed, Before, After, Inside, Mixed, RemAt, Replace;
    var g := L[j].(es := RemAt(L[j].es, pos));
    AllOne(g, v, n);
    AllReplace(L, j, [g], w, v, n);
  }

  lemma InsideDrop(L: Level, j: nat, w: seq<nat>, p: nat)
    requires j < |L| && |w| == |Outline(L)| && p < |L[j].es|
    ensures Off(L, j) + p < |w| && Inside(L, j, w)[p] == w[Off(L, j) + p]
    ensures Before(L, j, w) + (RemAt<nat>(Inside(L, j, w), p) + After(L, j, w)) == RemAt<nat>(w, Off(L, j) + p)
  {
    hide Outline, Before, After, Inside, RemAt, Off;
    Parts(L, j, w);
    RemAtMid(Before(L, j, w), Inside(L, j, w), After(L, j, w), p);
    MidAt(Before(L, j, w), Inside(L, j, w), After(L, j, w), p);
  }

  lemma SetMid<T>(A: seq<T>, I: seq<T>, B: seq<T>, p: nat, x: T)
    requires p < |I|
    ensures A + (I[p := x] + B) == (A + (I + B))[|A| + p := x]
  {
  }

  /** A slot of weight one disappears. */
  lemma AllDropSlot(L: Level, j: nat, pos: nat, w: seq<nat>, n: nat)
    requires Sturdy(n) && j < |L| && pos < |L[j].es| && |w| == |Outline(L)| && AllMixed(L, w, n)
    requires Off(L, j) + pos < |w| && w[Off(L, j) + pos] == 1
    ensures var L2 := Replace(L, j, [L[j].(es := RemAt(L[j].es, pos))]);
      |Outline(L2)| == |w| - 1 && AllMixed(L2, RemAt<nat>(w, Off(L, j) + pos), n)
    ensures |L[j].es| >= 2 ==> Other(RemAt<nat>(w, Off(L, j) + pos), Off(L, j), Off(L, j) + |L[j].es| - 1)
  {
    hide Outline, AllMixed, Before, After, Inside, Mixed, RemAt, Replace, Off, Other;
    AllNode(L, j, w, n);
    InsideDrop(L, j, w, pos);
    var v := Inside(L, j, w);
    MixedDrop(v, pos, n);
    AllRemove(L, j, pos, w, RemAt<nat>(v, pos), n);
    Parts(L, j, w);
    if |L[j].es| >= 2 { OtherMid(Before(L, j, w), RemAt<nat>(v, pos), After(L, j, w)); }
  }

  lemma OtherMid(A: seq<nat>, I: seq<nat>, B: seq<nat>)
    ensures Other(I, 0, |I|) <==> Other(A + (I + B), |A|, |A| + |I|)
  {
    var w := A + (I + B);
    assert forall i :: 0 <= i < |I| ==> w[|A| + i] == I[i];
    if Other(w, |A|, |A| + |I|) {
      var i :| |A| <= i < |A| + |I| && w[i] != 1;
      assert I[i - |A|] != 1;
    }
  }

  /** The slot at pos disappears and its right neighbour gets the weight s. */
  lemma AllJoinSlot(L: Level, j: nat, pos: nat, w: seq<nat>, s: nat, n: nat)
    requires Sturdy(n) && j < |L| && pos + 1 < |L[j].es| && |w| == |Outline(L)| && AllMixed(L, w, n) && s != 1
    requires Off(L, j) + pos + 1 < |w|
    ensures var L2 := Replace(L, j, [L[j].(es := RemAt(L[j].es, pos))]);
      var w2 := RemAt<nat>(w, Off(L, j) + pos)[Off(L, j) + pos := s];
      |Outline(L2)| == |w2| && AllMixed(L2, w2, n) && Other(w2, Off(L, j), Off(L, j) + |L[j].es| - 1)
  {
    hide Outline, AllMixed, Before, After, Inside, Mixed, RemAt, Replace, Off;
    AllNode(L, j, w, n);
    InsideDrop(L, j, w, pos);
    var v := Inside(L, j, w);
    MixedJoin(v, pos, s, n);
    AllRemove(L, j, pos, w, RemAt<nat>(v, pos)[pos := s], n);
    SetMid(Before(L, j, w), RemAt<nat>(v, pos), After(L, j, w), pos, s);
    Parts(L, j, w);
    assert RemAt<nat>(w, Off(L, j) + pos)[Off(L, j) + pos := s][Off(L, j) + pos] != 1;
  }

  /** One weight changes; its neighbours in the same node are not one. */
  lemma AllSetSlot(L: Level, j: nat, pos: nat, w: seq<nat>, s: nat, n: nat)
    requires Sturdy(n) && j < |L| && pos < |L[j].es| && |w| == |Outline(L)| && AllMixed(L, w, n)
    requires Off(L, j) + |L[j].es| <= |w|
    requires pos > 0 ==> w[Off(L, j) + pos - 1] != 1
    requires pos + 1 < |L[j].es| ==> w[Off(L, j) + pos + 1] != 1
    ensures AllMixed(L, w[Off(L, j) + pos := s], n)
  {
    hide Outline, AllMixed, Before, After, Inside, Mixed, Off, Replace;
    AllNode(L, j, w, n);
    if pos > 0 { InsideAt(L, j, w, pos - 1); }
    if pos + 1 < |L[j].es| { InsideAt(L, j, w, pos + 1); }
    var v := Inside(L, j, w)[pos := s];
    MixedSet(Inside(L, j, w), pos, s, n);
    AllOne(L[j], v, n);
    AllReplace(L, j, [L[j]], w, v, n);
    ReplaceSelf(L, j);
    InsideSet(L, j, w, pos, s);
  }

  lemma InsideAt(L: Level, j: nat, w: seq<nat>, p: nat)
    requires j < |L| && |w| == |Outline(L)| && p < |L[j].es|
    ensures Off(L, j) + p < |w| && Inside(L, j, w)[p] == w[Off(L, j) + p]
  {
    hide Outline;
    OutlineSplit(L, j);
  }

  lemma InsideSet(L: Level, j: nat, w: seq<nat>, p: nat, s: nat)
    requires j < |L| && |w| == |Outline(L)| && p < |L[j].es|
    ensures Off(L, j) + p < |w|
    ensures Before(L, j, w) + (Inside(L, j, w)[p := s] + After(L, j, w)) == w[Off(L, j) + p := s]
  {
    hide Outline, Before, After, Inside, Off;
    Parts(L, j, w);
    SetMid(Before(L, j, w), Inside(L, j, w), After(L, j, w), p, s);
  }

  lemma ReplaceSelf(L: Level, j: nat)
    requires j < |L|
    ensures Replace(L, j, [L[j]]) == L
  {
  }

  // ---------------------------------------------------------------- merging

  /** A node below half fill with a weight other than one can be put on either side of another. */
  lemma MixedConcat(v: seq<nat>, u: seq<nat>, n: nat)
    requires Sturdy(n) && Mixed(v, n) && Mixed(u, n) && v != [] && u != []
    requires (|v| < n / 2 && Other(v, 0, |v|)) || (|u| < n / 2 && Other(u, 0, |u|))
    ensures Mixed(v + u, n)
  {
    hide Mixed;
    var w := v + u;
    if n == 5 {
      NoTwinsConcat(v, u);
    } else if |v| < n / 2 && Other(v, 0, |v|) {
      var i :| 0 <= i < |v| && v[i] != 1;
      assert w[i] == v[i];
      var j := i;
      if |u| >= 2 {
        var a, b := MixedAt(u, n);
        j := |v| + b;
        assert w[j] == u[b];
      }
      MixedBy(w, n, i, j);
    } else {
      var i :| 0 <= i < |u| && u[i] != 1;
      assert w[|v| + i] == u[i];
      var j := |v| + i;
      if |v| >= 2 {
        var a, b := MixedAt(v, n);
        j := a;
        assert w[j] == v[a];
      }
      MixedBy(w, n, j, |v| + i);
    }
  }

  lemma NoTwinsConcat(v: seq<nat>, u: seq<nat>)
    requires Mixed(v, 5) && Mixed(u, 5) && v != [] && u != []
    requires (|v| == 1 && v[0] != 1) || (|u| == 1 && u[0] != 1)
    ensures Mixed(v + u, 5)
  {
  }

  lemma AfterNext(L: Level, j: nat, w: seq<nat>)
    requires j + 1 < |L| && |w| == |Outline(L)|
    ensures After(L, j, w) == Inside(L, j + 1, w) + After(L, j + 1, w)
    ensures Before(L, j + 1, w) == Before(L, j, w) + Inside(L, j, w)
  {
    hide Outline, Ivs;
    OutlineSplit(L, j);
    OutlineSplit(L, j + 1);
    OffNext(L, j);
  }

  lemma OffNext(L: Level, j: nat)
    requires j < |L|
    ensures Off(L, j + 1) == Off(L, j) + |L[j].es|
  {
    hide Outline, Ivs;
    assert L[..j+1] == L[..j] + [L[j]];
    OutlineConcat(L[..j], [L[j]]);
    OutlineOne(L[j]);
  }

  /** Merging a node below half fill that holds a slot of a weight other than one. */
  lemma AllMerge(L: Level, j: nat, w: seq<nat>, n: nat)
    requires Sturdy(n) && j + 1 < |L| && |w| == |Outline(L)| && AllMixed(L, w, n)
    requires L[j].es != [] && L[j+1].es != []
    requires Light(L, j, w, n) || Light(L, j + 1, w, n)
    ensures |Outline(Merged(L, j))| == |w| && AllMixed(Merged(L, j), w, n)
  {
    hide Outline, AllMixed, Before, After, Inside, Mixed, Off, Ivs, Other;
    var v, u, m := Inside(L, j, w), Inside(L, j + 1, w), MergedNode(L, j);
    AllNode(L, j, w, n);
    AllNode(L, j + 1, w, n);
    Parts(L, j, w);
    Parts(L, j + 1, w);
    AfterNext(L, j, w);
    OffNext(L, j);
    OtherMid(Before(L, j, w), v, After(L, j, w));
    OtherMid(Before(L, j + 1, w), u, After(L, j + 1, w));
    MixedConcat(v, u, n);
    AllOne(m, v + u, n);
    AllConcat([m], L[j+2..], v + u, After(L, j + 1, w), n);
    AllConcat(L[..j], [m] + L[j+2..], Before(L, j, w), (v + u) + After(L, j + 1, w), n);
    Assoc(Before(L, j, w), v, u, After(L, j + 1, w));
  }

  /** Node c is below half fill but has a slot of a weight other than one. */
  ghost predicate Light(L: Level, c: nat, w: seq<nat>, n: nat)
    requires c < |L|
  {
    |L[c].es| < n / 2 && Other(w, Off(L, c), Off(L, c) + |L[c].es|)
  }

  lemma LightIs(L: Level, c: nat, w: seq<nat>, n: nat)
    requires c < |L|
    ensures Light(L, c, w, n) <==> |L[c].es| < n / 2 && Other(w, Off(L, c), Off(L, c) + |L[c].es|)
  {
  }
}
