/**
 The level-by-level argument for removal: which nodes a removal may empty, how
 merged or dropped nodes are relinked below the outline that lost their slot,
 and why the weights stay mixed.
 */
module BTreeRemoval {
  import opened BTreeLevels
  import opened BTreeEdits
  import opened BTreeSteps
  import opened BTreeMixed
  import opened BTreePaths
  import opened BTreeNode
  import opened BTreeMemory
  import opened BTreeInsertion

  // ---------------------------------------------------------------- room on the path to the root

  /** The node that holds slot x of a level. */
  ghost function ChunkOf(L: Level, x: nat): nat {
    if L == [] then 0 else if x < |L[0].es| then 0 else 1 + ChunkOf(L[1..], x - |L[0].es|)
  }

  lemma {:induction false} ChunkAt(L: Level, j: nat, p: nat)
    requires j < |L| && p < |L[j].es|
    ensures ChunkOf(L, Off(L, j) + p) == j
  {
    hide Ivs;
    if j == 0 {
      assert L[..0] == [];
    } else {
      assert L[..j][1..] == L[1..][..j-1];
      assert Off(L, j) == |L[0].es| + Off(L[1..], j - 1);
      ChunkAt(L[1..], j - 1, p);
    }
  }

  /** The position of slot x of a level inside its node. */
  ghost function SlotOf(L: Level, x: nat): nat {
    if L == [] then 0 else if x < |L[0].es| then x else SlotOf(L[1..], x - |L[0].es|)
  }

  lemma {:induction false} SlotAt(L: Level, j: nat, p: nat)
    requires j < |L| && p < |L[j].es|
    ensures SlotOf(L, Off(L, j) + p) == p
  {
    hide Ivs;
    if j == 0 {
      assert L[..0] == [];
    } else {
      assert L[..j][1..] == L[1..][..j-1];
      assert Off(L, j) == |L[0].es| + Off(L[1..], j - 1);
      SlotAt(L[1..], j - 1, p);
    }
  }

  /** With f pairs, node j of level l and a neighbour under the same parent fit into one node. */
  ghost predicate HasRoomBeside(lv: seq<Level>, l: nat, j: nat, f: nat, n: nat) {
    && l + 1 < |lv| && j < |lv[l]|
    && var k, p := ChunkOf(lv[l+1], j), SlotOf(lv[l+1], j);
       && k < |lv[l+1]|
       && (FitsLeft(lv[l], j, f, n, p) || FitsRight(lv[l], j, f, n, p, |lv[l+1][k].es|))
  }

  ghost predicate FitsLeft(L: Level, j: nat, f: nat, n: nat, p: nat) {
    0 < p && 0 < j <= |L| && f + |L[j-1].es| <= n
  }

  ghost predicate FitsRight(L: Level, j: nat, f: nat, n: nat, p: nat, m: nat) {
    p + 1 < m && j + 1 < |L| && f + |L[j+1].es| <= n
  }

  /** What becomes of a node that is left with f pairs: it goes, by being dropped or merged. */
  ghost predicate Goes(lv: seq<Level>, l: nat, j: nat, f: nat, n: nat) {
    l + 1 < |lv| && f < n / 2 && (f == 0 || HasRoomBeside(lv, l, j, f, n))
  }

  lemma FitsIs(L: Level, j: nat, f: nat, n: nat, p: nat, m: nat)
    ensures FitsLeft(L, j, f, n, p) <==> 0 < p && 0 < j <= |L| && f + |L[j-1].es| <= n
    ensures FitsRight(L, j, f, n, p, m) <==> p + 1 < m && j + 1 < |L| && f + |L[j+1].es| <= n
  {
  }

  lemma GoesIs(lv: seq<Level>, l: nat, j: nat, f: nat, n: nat)
    ensures Goes(lv, l, j, f, n) <==> l + 1 < |lv| && f < n / 2 && (f == 0 || HasRoomBeside(lv, l, j, f, n))
  {
  }

  /** Only the neighbours' pairs and the level above matter. */
  lemma FitsAround(lv: seq<Level>, r: seq<Level>, l: nat, j: nat, f: nat, n: nat)
    requires |lv| == |r| && l + 1 < |lv| && r[l+1] == lv[l+1] && |r[l]| == |lv[l]|
    requires forall k :: 0 <= k < |lv[l]| && k != j ==> r[l][k] == lv[l][k]
    ensures HasRoomBeside(lv, l, j, f, n) <==> HasRoomBeside(r, l, j, f, n)
  {
    hide ChunkOf, SlotOf;
  }

  lemma GoesAfter(lv: seq<Level>, r: seq<Level>, l: nat, j: nat, f: nat, n: nat)
    requires |lv| == |r| && l + 1 < |lv| && r[l+1] == lv[l+1] && |r[l]| == |lv[l]|
    requires forall k :: 0 <= k < |lv[l]| && k != j ==> r[l][k] == lv[l][k]
    ensures Goes(lv, l, j, f, n) <==> Goes(r, l, j, f, n)
  {
    hide HasRoomBeside;
    FitsAround(lv, r, l, j, f, n);
  }

  lemma FitsAt(lv: seq<Level>, l: nat, j: nat, f: nat, n: nat, k: nat, p: nat)
    requires l + 1 < |lv| && j < |lv[l]| && k < |lv[l+1]| && p < |lv[l+1][k].es| && j == Off(lv[l+1], k) + p
    ensures HasRoomBeside(lv, l, j, f, n) <==>
            FitsLeft(lv[l], j, f, n, p) || FitsRight(lv[l], j, f, n, p, |lv[l+1][k].es|)
  {
    hide ChunkOf, SlotOf, FitsLeft, FitsRight, Off;
    ChunkAt(lv[l+1], k, p);
    SlotAt(lv[l+1], k, p);
  }

  /** Some node on the path from node j of level l to the root has two pairs. */
  ghost predicate Roomy(lv: seq<Level>, l: nat, j: nat)
    decreases |lv| - l
  {
    l < |lv| && j < |lv[l]| && (|lv[l][j].es| >= 2 || (l + 1 < |lv| && Roomy(lv, l + 1, ChunkOf(lv[l+1], j))))
  }

  lemma {:induction false} RoomyAgree(lv: seq<Level>, r: seq<Level>, l: nat, j: nat)
    requires |lv| == |r| && l <= |lv| && lv[l..] == r[l..]
    ensures Roomy(lv, l, j) <==> Roomy(r, l, j)
    decreases |lv| - l
  {
    hide ChunkOf;
    if l < |lv| {
      assert lv[l] == lv[l..][0] == r[l..][0] == r[l];
      assert lv[l+1..] == lv[l..][1..] && r[l+1..] == r[l..][1..];
      if l + 1 < |lv| {
        assert lv[l+1] == lv[l+1..][0] == r[l+1..][0] == r[l+1];
        RoomyAgree(lv, r, l + 1, ChunkOf(lv[l+1], j));
      }
    }
  }

  lemma RoomyStep(lv: seq<Level>, l: nat, j: nat, k: nat, p: nat)
    requires l + 1 < |lv| && j < |lv[l]| && k < |lv[l+1]| && p < |lv[l+1][k].es| && j == Off(lv[l+1], k) + p
    ensures Roomy(lv, l, j) <==> |lv[l][j].es| >= 2 || Roomy(lv, l + 1, k)
    ensures |lv[l+1][k].es| >= 2 ==> Roomy(lv, l + 1, k)
  {
    hide ChunkOf, Off;
    ChunkAt(lv[l+1], k, p);
  }

  // ---------------------------------------------------------------- the parent's view

  ghost predicate RootEmpty(lv: seq<Level>) {
    lv != [] && |lv[|lv|-1]| == 1 && lv[|lv|-1][0].es == []
  }

  /** What level l is relinked to once the slot above has gone: the outline above, or the root's interval. */
  ghost function Ceiling(lv: seq<Level>, l: nat, M: Level, top: nat): seq<Iv>
    requires l < |lv|
    requires l + 1 == |lv| ==> M != []
  {
    if l + 1 < |lv| then Outline(lv[l+1]) else [Iv(Child(M[0].ref), 0, top)]
  }

  lemma CeilingIs(lv: seq<Level>, l: nat, M: Level, top: nat)
    requires l < |lv| && (l + 1 == |lv| ==> M != [])
    ensures Ceiling(lv, l, M, top) == if l + 1 < |lv| then Outline(lv[l+1]) else [Iv(Child(M[0].ref), 0, top)]
  {
  }

  /** Level l rebuilt from the nodes M below the levels above it. */
  lemma RelinkWf(lv: seq<Level>, l: nat, M: Level, n: nat, top: nat)
    requires l < |lv| && LevelOk(M, n)
    requires l + 1 < |lv| ==> Wf(lv, l + 1, n, top) && NonEmpty(M)
    requires l + 1 == |lv| ==> |M| == 1 && M[0].hi <= top
    requires Widens(M, Ceiling(lv, l, M, top))
    ensures |M| == |Ceiling(lv, l, M, top)|
    ensures Wf(lv[l := Relink(M, Ceiling(lv, l, M, top))], l, n, top)
    ensures Grew(Outline(M), Outline(Relink(M, Ceiling(lv, l, M, top))))
  {
    hide LevelOk, Outline, Link, NonEmpty, Relink, Widens, Sorted, Grew;
    var C := Ceiling(lv, l, M, top);
    WidensLen(M, C);
    if l + 1 < |lv| {
      WfLevel(lv, l + 1, n, top, l + 1);
      SortedOutline(lv[l+1], n);
      RelinkNonEmpty(M, C);
    } else {
      RelinkAt(M, C, 0);
      SortedOne(C);
    }
    RelinkOk(M, C, n);
    RelinkOutline(M, C);
    WfSet(lv, l, Relink(M, C), n, top);
  }

  lemma WidensLen(M: Level, C: seq<Iv>)
    requires Widens(M, C)
    ensures |M| == |C|
  {
  }

  lemma SortedOne(C: seq<Iv>)
    requires |C| == 1
    ensures Sorted(C)
  {
  }

  /** Relinking changes neither arrays nor pairs. */
  lemma RelinkSame(M: Level, C: seq<Iv>)
    requires |M| == |C|
    ensures SameNodes(M, Relink(M, C)) && Sizes(M) == Sizes(Relink(M, C))
  {
    hide Relink;
    forall m | 0 <= m < |M| ensures Relink(M, C)[m].ref == M[m].ref && Relink(M, C)[m].es == M[m].es {
      RelinkAt(M, C, m);
    }
  }

  // ---------------------------------------------------------------- swapping two children in the parent

  ghost function SwapEs(es: seq<Pair>, p: nat): (r: seq<Pair>)
    requires p + 1 < |es|
    ensures |r| == |es|
  {
    es[p := Pair(es[p].key, es[p+1].val)][p+1 := Pair(es[p+1].key, es[p].val)]
  }

  lemma SwapEsIs(es: seq<Pair>, p: nat, x: Slot, y: Slot)
    requires p + 1 < |es| && es[p].val == x && es[p+1].val == y
    ensures SwapEs(es, p) == es[p := Pair(es[p].key, y)][p+1 := Pair(es[p := Pair(es[p].key, y)][p+1].key, x)]
  {
  }

  lemma SwapNodeOk(g: NodeG, n: nat, p: nat)
    requires NodeOk(g, n) && p + 1 < |g.es|
    ensures NodeOk(g.(es := SwapEs(g.es, p)), n)
  {
  }

  lemma SwapIvs(hi: nat, es: seq<Pair>, p: nat)
    requires p + 1 < |es|
    ensures Ivs(hi, SwapEs(es, p)) == Swap(Ivs(hi, es), p)
  {
    var a, b := Ivs(hi, SwapEs(es, p)), Swap(Ivs(hi, es), p);
    hide Ivs;
    forall x | 0 <= x < |es| ensures a[x] == b[x] {
      IvsAt(hi, SwapEs(es, p), x);
      IvsAt(hi, es, x);
      IvsAt(hi, es, p);
      IvsAt(hi, es, p + 1);
    }
  }

  lemma SwapMid(A: seq<Iv>, I: seq<Iv>, B: seq<Iv>, p: nat)
    requires p + 1 < |I|
    ensures Swap(A + (I + B), |A| + p) == A + (Swap(I, p) + B)
  {
  }

  lemma SwapOutline(L: Level, n: nat, j: nat, p: nat)
    requires LevelOk(L, n) && j < |L| && p + 1 < |L[j].es|
    ensures Off(L, j) + p + 1 < |Outline(L)|
    ensures var M := Replace(L, j, [L[j].(es := SwapEs(L[j].es, p))]);
      LevelOk(M, n) && Outline(M) == Swap(Outline(L), Off(L, j) + p)
  {
    hide LevelOk, Outline, Ivs, Swap, Replace, SwapEs;
    OutlineAt(L, j, p + 1);
    LevelAt(L, n, j, j);
    var g := L[j].(es := SwapEs(L[j].es, p));
    SwapNodeOk(L[j], n, p);
    ReplaceOkOne(L, j, g, n);
    ReplaceOutlineOne(L, j, g);
    SwapIvs(L[j].hi, L[j].es, p);
    OutlineSplit(L, j);
    SwapMid(Outline(L[..j]), Ivs(L[j].hi, L[j].es), Outline(L[j+1..]), p);
  }

  lemma SwapWf(lv: seq<Level>, l: nat, n: nat, top: nat, j: nat, p: nat)
    requires Wf(lv, l, n, top) && j < |lv[l]| && p + 1 < |lv[l][j].es|
    ensures Wf(Put(lv, l, j, SwapEs(lv[l][j].es, p)), l, n, top)
  {
    hide LevelOk, Outline, SwapEs, Link, NonEmpty, Put;
    WfLevel(lv, l, n, top, l);
    SwapOutline(lv[l], n, j, p);
    WfStore(lv, l, n, top, j, SwapEs(lv[l][j].es, p));
    PutIs(lv, l, j, SwapEs(lv[l][j].es, p));
  }

  // ---------------------------------------------------------------- weights

  lemma MergedSizes(L: Level, j: nat)
    requires j + 1 < |L|
    ensures Sizes(Merged(L, j)) == RemAt<nat>(Sizes(L), j)[j := |L[j].es| + |L[j+1].es|]
  {
    hide Merged, RemAt;
    var a, b := Sizes(Merged(L, j)), RemAt<nat>(Sizes(L), j)[j := |L[j].es| + |L[j+1].es|];
    forall k | 0 <= k < |a| ensures a[k] == b[k] {
      MergedAt(L, j, k);
      RemAtIdx(Sizes(L), j, k);
    }
  }

  lemma DropSizes(L: Level, j: nat)
    requires j < |L|
    ensures Sizes(Replace(L, j, [])) == RemAt<nat>(Sizes(L), j)
  {
    hide Replace, RemAt;
    var a, b := Sizes(Replace(L, j, [])), RemAt<nat>(Sizes(L), j);
    forall k | 0 <= k < |a| ensures a[k] == b[k] {
      ReplaceAt(L, j, [], k);
      RemAtIdx(Sizes(L), j, k);
    }
  }

  lemma PutIs(lv: seq<Level>, l: nat, j: nat, es: seq<Pair>)
    requires l < |lv| && j < |lv[l]|
    ensures Put(lv, l, j, es) == lv[l := Replace(lv[l], j, [lv[l][j].(es := es)])]
  {
  }

  // ---------------------------------------------------------------- memory

  /** Level l is rebuilt from its nodes without node c. */
  lemma SkipStored(lv: seq<Level>, R: Nodes, n: nat, l: nat, c: nat, M: Level)
    requires Stored(lv, R, n) && Distinct(lv) && l < |lv| && c < |lv[l]|
    requires SameNodes(Replace(lv[l], c, []), M)
    ensures Stored(lv[l := M], R, n) && Distinct(lv[l := M])
  {
    hide Holds, Replace;
    var r: seq<Level> := lv[l := M];
    forall k, m | 0 <= k < |r| && 0 <= m < |r[k]| ensures From(r, lv, l, c, k, m) {
      if k == l { ReplaceAt(lv[l], c, [], m); }
    }
    forall k, m | 0 <= k < |r| && 0 <= m < |r[k]|
      ensures r[k][m].ref in R && r[k][m].ref.Length == n && Holds(r[k][m].ref, r[k][m].es)
    {
      assert From(r, lv, l, c, k, m);
      assert lv[k][Skip(l, c, k, m)].ref in R;
    }
    FromDistinct(r, lv, l, c);
  }

  ghost function Skip(l: nat, c: nat, k: nat, m: nat): nat {
    if k == l && m >= c then m + 1 else m
  }

  ghost predicate From(r: seq<Level>, lv: seq<Level>, l: nat, c: nat, k: nat, m: nat)
    requires k < |r| && m < |r[k]|
  {
    k < |lv| && Skip(l, c, k, m) < |lv[k]| &&
    r[k][m].ref == lv[k][Skip(l, c, k, m)].ref && r[k][m].es == lv[k][Skip(l, c, k, m)].es
  }

  lemma FromDistinct(r: seq<Level>, lv: seq<Level>, l: nat, c: nat)
    requires Distinct(lv)
    requires forall k, m :: 0 <= k < |r| && 0 <= m < |r[k]| ==> From(r, lv, l, c, k, m)
    ensures Distinct(r)
  {
    forall i, a, k, m | 0 <= i < |r| && 0 <= a < |r[i]| && 0 <= k < |r| && 0 <= m < |r[k]| && r[i][a].ref == r[k][m].ref
      ensures i == k && a == m
    {
      assert From(r, lv, l, c, i, a) && From(r, lv, l, c, k, m);
    }
  }

  lemma MergedSkip(L: Level, j: nat)
    requires j + 1 < |L|
    ensures SameNodes(Replace(Replace(L, j, [L[j].(es := L[j].es + L[j+1].es)]), j + 1, []), Merged(L, j))
  {
    hide Replace, Merged;
    var A := Replace(L, j, [L[j].(es := L[j].es + L[j+1].es)]);
    var B := Replace(A, j + 1, []);
    forall m | 0 <= m < |B| ensures Merged(L, j)[m].ref == B[m].ref && Merged(L, j)[m].es == B[m].es {
      MergedAt(L, j, m);
      ReplaceAt(A, j + 1, [], m);
      ReplaceAt(L, j, [L[j].(es := L[j].es + L[j+1].es)], if m <= j then m else m + 1);
    }
  }

  lemma SameNodesTrans(A: Level, B: Level, C: Level)
    requires SameNodes(A, B) && SameNodes(B, C)
    ensures SameNodes(A, C)
  {
  }

  lemma SameNodesRefl(A: Level)
    ensures SameNodes(A, A)
  {
  }

  lemma DistinctPrefix(lv: seq<Level>, R: Nodes, n: nat, k: nat)
    requires Stored(lv, R, n) && Distinct(lv) && k <= |lv|
    ensures Stored(lv[..k], R, n) && Distinct(lv[..k])
  {
    hide Holds;
  }

  // ---------------------------------------------------------------- the root stays wide

  lemma {:induction false} WideRoomy(lv: seq<Level>, l: nat, n: nat, top: nat, j: nat)
    requires Wf(lv, l, n, top) && j < |lv[l]| && |lv[|lv|-1][0].es| >= 2
    ensures Roomy(lv, l, j)
    decreases |lv| - l
  {
    hide Outline, LevelOk, Link, NonEmpty, Roomy, Off;
    if l + 1 < |lv| {
      var k, p := Parent(lv, l, n, top, j);
      WfUp(lv, l, n, top);
      WideRoomy(lv, l + 1, n, top, k);
      RoomyStep(lv, l, j, k, p);
    } else {
      RoomyTop(lv, l, j);
    }
  }

  lemma RoomyTop(lv: seq<Level>, l: nat, j: nat)
    requires l + 1 == |lv| && j < |lv[l]|
    ensures Roomy(lv, l, j) <==> |lv[l][j].es| >= 2
  {
  }

  /** Exchanging two child pointers keeps sizes, weights and the root. */
  lemma SwapShape(lv: seq<Level>, l: nat, k: nat, p: nat)
    requires l < |lv| && k < |lv[l]| && p + 1 < |lv[l][k].es|
    ensures Shape(lv, Put(lv, l, k, SwapEs(lv[l][k].es, p)))
  {
    hide ShapeLevel, Replace, SwapEs;
    forall i | 0 <= i < |lv| ensures ShapeLevel(lv[i], lv[i]) { ShapeLevelRefl(lv[i]); }
    ReplaceShape(lv[l], k, lv[l][k].(es := SwapEs(lv[l][k].es, p)));
  }

  /** The weights for the removal above a merge. */
  lemma JoinWeights(L: Level, j: nat, c: nat, S: seq<nat>)
    requires j + 1 < |L| && (c == j || c == j + 1) && S == Sizes(L)[c := |L[c].es| + 1]
    ensures |S| == |L|
    ensures RemAt<nat>(S, j)[j := |L[j].es| + |L[j+1].es|] == Sizes(Merged(L, j))
  {
    hide Merged, RemAt, Sizes;
    MergedSizes(L, j);
    var s := |L[j].es| + |L[j+1].es|;
    var a, b := RemAt<nat>(S, j)[j := s], RemAt<nat>(Sizes(L), j)[j := s];
    forall x | 0 <= x < |a| ensures a[x] == b[x] {
      RemAtIdx(S, j, x);
      RemAtIdx(Sizes(L), j, x);
    }
  }

  lemma DropWeights(L: Level, j: nat, S: seq<nat>)
    requires j < |L| && S == Sizes(L)[j := 1]
    ensures |S| == |L| && S[j] == 1
    ensures RemAt<nat>(S, j) == Sizes(Replace(L, j, []))
  {
    hide Replace, RemAt, Sizes;
    DropSizes(L, j);
    var a, b := RemAt<nat>(S, j), RemAt<nat>(Sizes(L), j);
    forall x | 0 <= x < |a| ensures a[x] == b[x] {
      RemAtIdx(S, j, x);
      RemAtIdx(Sizes(L), j, x);
    }
  }

  /** Rebuilding a level keeps everything that is said about weights. */
  lemma RelinkMixed(lv: seq<Level>, l: nat, M: Level, C: seq<Iv>, w: seq<nat>, n: nat)
    requires l < |lv| && |M| == |C|
    requires l + 1 < |lv| ==> MixedTree(lv, l + 1, n) && |M| == |Outline(lv[l+1])| && AllMixed(lv[l+1], Sizes(M), n)
    requires |w| == |Outline(M)| && AllMixed(M, w, n)
    ensures MixedTree(lv[l := Relink(M, C)], l, n)
    ensures |w| == |Outline(Relink(M, C))| && AllMixed(Relink(M, C), w, n)
  {
    hide MixedTree, Relink, Sizes, AllMixed, Outline;
    RelinkSame(M, C);
    AllSame(M, Relink(M, C), w, n);
    if l + 1 < |lv| {
      MixedLevelSet(lv, l, Relink(M, C), n);
    } else {
      MixedTop(lv[l := Relink(M, C)], l, n);
    }
  }

  lemma MixedTop(lv: seq<Level>, l: nat, n: nat)
    requires l + 1 == |lv|
    ensures MixedTree(lv, l, n)
  {
    hide AllMixed, Outline;
  }

  // ---------------------------------------------------------------- one link

  lemma LinkSlot(L: Level, U: Level, n: nat, k: nat, p: nat) returns (j: nat)
    requires LevelOk(U, n) && Link(L, Outline(U)) && k < |U| && p < |U[k].es|
    ensures j == Off(U, k) + p && j < |L| && U[k].es[p] == Pair(L[j].lo, Child(L[j].ref))
    ensures L[j].hi == if p == 0 then U[k].hi else U[k].es[p-1].key
    ensures U[k].lo <= L[j].lo < L[j].hi <= U[k].hi
  {
    hide LevelOk, NodeOk, Outline, Ivs, Off;
    j := Off(U, k) + p;
    OutlineAt(U, k, p);
    IvsAt(U[k].hi, U[k].es, p);
    LevelAt(U, n, k, k);
    SlotInside(U[k], n, p);
  }

  lemma SlotInside(g: NodeG, n: nat, p: nat)
    requires NodeOk(g, n) && p < |g.es|
    ensures g.lo <= g.es[p].key < (if p == 0 then g.hi else g.es[p-1].key) <= g.hi
  {
  }

  /** A root with two slots has lost slot p: the other child becomes the root. */
  lemma LastChild(L: Level, lv: seq<Level>, l: nat, n: nat, top: nat, p: nat)
    requires Wf(lv, l + 1, n, top) && l + 2 == |lv| && |lv[l+1][0].es| == 2 && p < 2
    requires Link(L, Outline(lv[l+1]))
    ensures |L| == 2 && L[1-p].hi <= top && Off(lv[l+1], 0) == 0
    ensures RemAt(lv[l+1][0].es, p)[0].val == Child(L[1-p].ref)
  {
    hide LevelOk, Outline, RemAt;
    WfLevel(lv, l + 1, n, top, l + 1);
    OutlineSingle(lv[l+1]);
    var j := LinkSlot(L, lv[l+1], n, 0, 1 - p);
    RemAtIdx(lv[l+1][0].es, p, 0);
  }

  lemma OutlineSingle(U: Level)
    requires |U| == 1
    ensures |Outline(U)| == |U[0].es| && Off(U, 0) == 0
  {
    assert U == [U[0]];
    OutlineOne(U[0]);
  }

  lemma WidensRoot(g: NodeG, top: nat)
    requires g.hi <= top
    ensures Widens([g], [Iv(Child(g.ref), 0, top)])
  {
  }

  // ---------------------------------------------------------------- the two levels of a merge

  lemma PutAbove(lv: seq<Level>, l: nat, j: nat, es: seq<Pair>, n: nat, top: nat)
    requires l + 1 < |lv| && j < |lv[l]| && Wf(lv, l + 1, n, top)
    ensures Wf(Put(lv, l, j, es), l + 1, n, top)
    ensures Put(lv, l, j, es)[l+1] == lv[l+1] && Put(lv, l, j, es)[|lv|-1] == lv[|lv|-1]
  {
    hide LevelOk, Outline, Link, NonEmpty, Replace;
  }

  /** Levels after the pairs have moved left and the parent's children have been swapped. */
  ghost function MergeStart(lv: seq<Level>, l: nat, j: nat, k: nat, p: nat): (r: seq<Level>)
    requires l + 1 < |lv| && j + 1 < |lv[l]| && k < |lv[l+1]| && p + 1 < |lv[l+1][k].es|
    ensures |r| == |lv|
  {
    lv[l := Replace(lv[l], j, [lv[l][j].(es := lv[l][j].es + lv[l][j+1].es)])]
      [l+1 := Replace(lv[l+1], k, [lv[l+1][k].(es := SwapEs(lv[l+1][k].es, p))])]
  }

  lemma MergeStartPut(lv: seq<Level>, l: nat, j: nat, k: nat, p: nat)
    requires l + 1 < |lv| && j + 1 < |lv[l]| && k < |lv[l+1]| && p + 1 < |lv[l+1][k].es|
    ensures var a := Put(lv, l, j, lv[l][j].es + lv[l][j+1].es);
      && a[l+1] == lv[l+1]
      && MergeStart(lv, l, j, k, p) == Put(a, l + 1, k, SwapEs(lv[l+1][k].es, p))
  {
    hide Replace, SwapEs;
  }

  /** Everything above the merged level is still well formed after the swap. */
  lemma MergeStartWf(lv: seq<Level>, l: nat, n: nat, top: nat, j: nat, k: nat, p: nat)
    requires l + 1 < |lv| && j + 1 < |lv[l]| && k < |lv[l+1]| && p + 1 < |lv[l+1][k].es|
    requires Wf(lv, l + 1, n, top)
    ensures Wf(MergeStart(lv, l, j, k, p), l + 1, n, top)
    ensures MixedTree(lv, l + 1, n) ==> MixedTree(MergeStart(lv, l, j, k, p), l + 1, n)
    ensures var r := MergeStart(lv, l, j, k, p);
      |r[|lv|-1]| == |lv[|lv|-1]| == 1 && r[|lv|-1][0].ref == lv[|lv|-1][0].ref
        && |r[|lv|-1][0].es| == |lv[|lv|-1][0].es|
  {
    hide Wf, MixedTree, MergeStart, Shape, SwapEs, Put;
    var es := lv[l][j].es + lv[l][j+1].es;
    var a := Put(lv, l, j, es);
    MergeStartPut(lv, l, j, k, p);
    PutAbove(lv, l, j, es, n, top);
    SwapWf(a, l + 1, n, top, k, p);
    SwapShape(a, l + 1, k, p);
    ShapeAt(a, MergeStart(lv, l, j, k, p), |lv| - 1, 0);
    TopSingle(lv, l + 1, n, top);
    if MixedTree(lv, l + 1, n) { PutMixed(lv, l, j, es, n); ShapeMixed(a, MergeStart(lv, l, j, k, p), l + 1, n); }
  }

  lemma TopSingle(lv: seq<Level>, l: nat, n: nat, top: nat)
    requires Wf(lv, l, n, top)
    ensures |lv| > l && |lv[|lv|-1]| == 1
  {
  }

  /** What the removal above finds: the swapped outline and room on the path. */
  lemma MergeStartUp(lv: seq<Level>, l: nat, n: nat, j: nat, k: nat, p: nat)
    requires l + 1 < |lv| && j + 1 < |lv[l]| && k < |lv[l+1]| && p + 1 < |lv[l+1][k].es|
    requires LevelOk(lv[l+1], n) && j == Off(lv[l+1], k) + p
    ensures var r := MergeStart(lv, l, j, k, p);
      && r[l+1] == Replace(lv[l+1], k, [lv[l+1][k].(es := SwapEs(lv[l+1][k].es, p))])
      && |Outline(r[l+1])| == |Outline(lv[l+1])|
      && |r[l+1]| == |lv[l+1]| && r[l+1][k] == lv[l+1][k].(es := SwapEs(lv[l+1][k].es, p))
      && Off(r[l+1], k) == Off(lv[l+1], k)
      && j + 1 < |Outline(lv[l+1])| && Outline(r[l+1]) == Swap(Outline(lv[l+1]), j)
      && r[l] == Replace(lv[l], j, [lv[l][j].(es := lv[l][j].es + lv[l][j+1].es)])
      && r[..l] == lv[..l]
      && Roomy(r, l + 1, k)
  {
    hide LevelOk, Outline, Replace, Swap, Off, SwapEs;
    var g := lv[l+1][k].(es := SwapEs(lv[l+1][k].es, p));
    SwapOutline(lv[l+1], n, k, p);
    ReplaceAt(lv[l+1], k, [g], k);
    ReplaceOff(lv[l+1], k, g);
    SwapLen(Outline(lv[l+1]), j);
  }

  lemma SwapLen(O: seq<Iv>, j: nat)
    requires j + 1 < |O|
    ensures |Swap(O, j)| == |O|
  {
  }

  lemma ReplaceOff(L: Level, k: nat, g: NodeG)
    requires k < |L|
    ensures Off(Replace(L, k, [g]), k) == Off(L, k)
  {
    hide Outline;
    assert Replace(L, k, [g])[..k] == L[..k];
  }

  /** The weights in a merge: what the removal of the parent's slot needs. */
  lemma MergeMixed(U: Level, k: nat, p: nat, L: Level, j: nat, c: nat, n: nat)
    requires Sturdy(n) && k < |U| && p + 1 < |U[k].es| && j == Off(U, k) + p && |L| == |Outline(U)|
    requires j + 1 < |L| && (c == j || c == j + 1) && L[j].es != [] && L[j+1].es != []
    requires AllMixed(U, Sizes(L)[c := |L[c].es| + 1], n)
    ensures var V := Replace(U, k, [U[k].(es := SwapEs(U[k].es, p))]);
      var W := Replace(V, k, [U[k].(es := RemAt(SwapEs(U[k].es, p), p))]);
      var w := Sizes(Merged(L, j));
      && |Outline(W)| == |w| && AllMixed(W, w, n)
      && Off(V, k) == Off(U, k)
      && Other(w, Off(V, k), Off(V, k) + |U[k].es| - 1)
  {
    hide Replace, Sizes, Merged, RemAt, Outline, AllMixed, SwapEs, Off;
    var g := U[k].(es := SwapEs(U[k].es, p));
    var V, S, s := Replace(U, k, [g]), Sizes(L)[c := |L[c].es| + 1], |L[j].es| + |L[j+1].es|;
    ReplaceShape(U, k, g);
    LevelSizes(U, V);
    AllSame(U, V, S, n);
    ReplaceOff(U, k, g);
    ReplaceAt(U, k, [g], k);
    AllJoinSlot(V, k, p, S, s, n);
    JoinWeights(L, j, c, S);
  }

  lemma LevelSizes(L: Level, M: Level)
    requires ShapeLevel(L, M)
    ensures Sizes(L) == Sizes(M)
  {
  }

  lemma MergeParts(L: Level, U: Level, n: nat, j: nat, k: nat, p: nat)
    requires LevelOk(L, n) && LevelOk(U, n) && Link(L, Outline(U)) && k < |U| && p + 1 < |U[k].es| && j == Off(U, k) + p
    requires j + 1 < |L| ==> L[j].es != [] && L[j+1].es != [] && |L[j].es| + |L[j+1].es| <= n
    ensures j + 1 < |L| && LevelOk(Merged(L, j), n) && Grew(Outline(L), Outline(Merged(L, j)))
    ensures U[k].es[p].val == Child(L[j].ref) && U[k].es[p+1].val == Child(L[j+1].ref)
  {
    hide *;
    var a := LinkSlot(L, U, n, k, p);
    var b := LinkSlot(L, U, n, k, p + 1);
    MergedOk(L, j, n);
    MergedOutline(L, j, n);
  }

  /** Merging the two children of a root that has just been shrunk away. */
  lemma LastMerged(lv: seq<Level>, l: nat, n: nat, top: nat, j: nat)
    requires Wf(lv, l + 1, n, top) && l + 2 == |lv| && |lv[l+1][0].es| == 2
    requires Link(lv[l], Outline(lv[l+1])) && j == Off(lv[l+1], 0)
    requires j + 1 < |lv[l]| && lv[l][j].es != [] && lv[l][j+1].es != []
    ensures var M := Merged(lv[l], j);
      && |M| == 1 && M[0].hi <= top && |M[0].es| >= 2
      && RemAt(SwapEs(lv[l+1][0].es, 0), 0)[0].val == Child(M[0].ref)
      && Widens(M, [Iv(Child(M[0].ref), 0, top)])
  {
    hide Wf, Link, Outline, RemAt, Merged, Off, Widens;
    TopSingle(lv, l + 1, n, top);
    LastChild(lv[l], lv, l, n, top, 1);
    LastChild(lv[l], lv, l, n, top, 0);
    MergedAt(lv[l], j, 0);
    RemAtIdx(lv[l+1][0].es, 1, 0);
    RemAtIdx(SwapEs(lv[l+1][0].es, 0), 0, 0);
    var M := Merged(lv[l], j);
    assert M == [M[0]];
    WidensRoot(M[0], top);
  }

  lemma OffPair(L: Level, j: nat)
    requires j + 1 < |L|
    ensures Off(L, j) + |L[j].es| + |L[j+1].es| <= |Outline(L)|
    ensures Off(L, j + 1) == Off(L, j) + |L[j].es|
  {
    hide Outline, Ivs;
    OffNext(L, j);
    OutlineSplit(L, j + 1);
  }

  /** The only child left of a root had been the other one of two. */
  lemma LastWide(M: Level, a: nat, b: nat)
    requires |M| == 1 && M[0].es != [] && Other(Sizes(M), a, b)
    ensures |M[0].es| >= 2
  {
  }

  /** A node that shrank next to neighbours that are too full to merge with. */
  lemma LeftMixed(U: Level, k: nat, p: nat, L: Level, j: nat, n: nat)
    requires Sturdy(n) && k < |U| && p < |U[k].es| && j == Off(U, k) + p && |L| == |Outline(U)| && j < |L|
    requires L[j].es != [] && AllMixed(U, Sizes(L)[j := |L[j].es| + 1], n)
    requires p > 0 ==> |L[j-1].es| != 1
    requires p + 1 < |U[k].es| ==> j + 1 < |L| && |L[j+1].es| != 1
    ensures AllMixed(U, Sizes(L), n)
  {
    hide Outline, AllMixed;
    var f := |L[j].es|;
    var S := Sizes(L)[j := f + 1];
    if f == 1 {
      OutlineSplit(U, k);
      AllSetSlot(U, k, p, S, 1, n);
      assert S[j := 1] == Sizes(L);
    } else {
      AllWeaken(U, S, Sizes(L), n);
    }
  }

  // ---------------------------------------------------------------- one pair less

  ghost predicate AllChild(es: seq<Pair>) {
    forall i :: 0 <= i < |es| ==> es[i].val.Child?
  }

  lemma LinkChildren(L: Level, U: Level, n: nat, k: nat)
    requires LevelOk(U, n) && Link(L, Outline(U)) && k < |U|
    ensures AllChild(U[k].es)
  {
    hide LevelOk, Outline, Link, Off;
    forall i | 0 <= i < |U[k].es| ensures U[k].es[i].val.Child? {
      var j := LinkSlot(L, U, n, k, i);
    }
  }

  lemma SwapChildren(es: seq<Pair>, p: nat)
    requires AllChild(es) && p + 1 < |es|
    ensures AllChild(SwapEs(es, p))
  {
  }

  lemma RemChildren(es: seq<Pair>, p: nat)
    requires AllChild(es) && p < |es|
    ensures AllChild(RemAt(es, p))
  {
  }

  lemma RemovedWeaken(O: seq<Iv>, q: nat, a: bool, b: bool, O2: seq<Iv>)
    requires Removed(O, q, a, O2) && (b ==> a)
    ensures Removed(O, q, b, O2)
  {
    hide RemAt, Grew;
  }

  lemma StoreLinkOnly(L: Level, j: nat, es: seq<Pair>, O: seq<Iv>)
    requires j < |L| && Link(L, O)
    ensures Link(Replace(L, j, [L[j].(es := es)]), O)
    ensures |Replace(L, j, [L[j].(es := es)])| == |L|
    ensures forall k :: 0 <= k < |L| ==> Replace(L, j, [L[j].(es := es)])[k] == if k == j then L[j].(es := es) else L[k]
  {
    hide Replace;
    var r := Replace(L, j, [L[j].(es := es)]);
    forall k | 0 <= k < |L| ensures r[k] == if k == j then L[j].(es := es) else L[k] {
      ReplaceAt(L, j, [L[j].(es := es)], k);
    }
  }

  /** Room on the path before and after the pair has been cleared. */
  lemma RoomyAfter(lv: seq<Level>, r: seq<Level>, l: nat, j: nat)
    requires l < |lv| == |r| && j < |lv[l]| && lv[l+1..] == r[l+1..]
    ensures Roomy(lv, l, j) <==> |lv[l][j].es| >= 2 || (l + 1 < |lv| && Roomy(r, l + 1, ChunkOf(r[l+1], j)))
  {
    hide ChunkOf;
    if l + 1 < |lv| {
      assert lv[l+1] == lv[l+1..][0] == r[l+1..][0] == r[l+1];
      RoomyAgree(lv, r, l + 1, ChunkOf(lv[l+1], j));
    }
  }

  lemma PutTail(lv: seq<Level>, l: nat, j: nat, es: seq<Pair>)
    requires l < |lv| && j < |lv[l]|
    ensures Put(lv, l, j, es)[l+1..] == lv[l+1..] && Put(lv, l, j, es)[..l] == lv[..l]
    ensures Put(lv, l, j, es)[l] == Replace(lv[l], j, [lv[l][j].(es := es)])
    ensures l + 1 < |lv| ==> Put(lv, l, j, es)[l+1] == lv[l+1]
  {
    hide Replace;
  }

  /** The level after pair p of node j has been cleared. */
  lemma ClearedLevel(lv: seq<Level>, l: nat, n: nat, top: nat, j: nat, p: nat, same: bool)
    requires Wf(lv, l, n, top) && j < |lv[l]| && p < |lv[l][j].es| && (same ==> p + 1 < |lv[l][j].es|)
    ensures var less := RemAt(lv[l][j].es, p); var r := Put(lv, l, j, less);
      && LevelOk(r[l], n) && |r[l]| == |lv[l]|
      && (forall k :: 0 <= k < |lv[l]| ==> r[l][k] == if k == j then lv[l][j].(es := less) else lv[l][k])
      && Removed(Outline(lv[l]), Off(lv[l], j) + p, same, Outline(r[l]))
      && (less != [] || l + 1 == |lv| ==> Wf(r, l, n, top))
      && (l + 1 < |lv| ==> Wf(r, l + 1, n, top) && Link(r[l], Outline(r[l+1])))
  {
    hide LevelOk, Outline, Link, NonEmpty, Replace, Put, RemAt, Off, Removed, Wf;
    TopSingle(lv, l, n, top);
    var less := RemAt(lv[l][j].es, p);
    WfLevel(lv, l, n, top, l);
    PutTail(lv, l, j, less);
    PutIs(lv, l, j, less);
    LevelRemove(lv[l], n, j, p);
    OutlineRemove(lv[l], n, j, p);
    RemovedWeaken(Outline(lv[l]), Off(lv[l], j) + p, p + 1 < |lv[l][j].es|, same, Outline(Put(lv, l, j, less)[l]));
    forall k | 0 <= k < |lv[l]|
      ensures Put(lv, l, j, less)[l][k] == if k == j then lv[l][j].(es := less) else lv[l][k]
    {
      PutAt(lv, l, j, less, l, k);
    }
    PutAt(lv, l, j, less, l, 0);
    TopSingle(lv, l, n, top);
    if less != [] || l + 1 == |lv| { WfStore(lv, l, n, top, j, less); }
    if l + 1 < |lv| {
      LinkOf(lv, l, n, top);
      PutAbove(lv, l, j, less, n, top);
      StoreLinkOnly(lv[l], j, less, Outline(lv[l+1]));
    }
  }

  lemma ClearedMixed(lv: seq<Level>, l: nat, j: nat, p: nat, n: nat)
    requires l < |lv| && MixedTree(lv, l, n) && j < |lv[l]| && p < |lv[l][j].es|
    ensures var less := RemAt(lv[l][j].es, p); var r := Put(lv, l, j, less);
      && (l + 1 < |lv| ==> MixedTree(r, l + 1, n) && |r[l]| == |Outline(r[l+1])|)
      && (l + 1 < |lv| ==> j < |r[l]| && AllMixed(r[l+1], Sizes(r[l])[j := |less| + 1], n))
      && (l + 1 == |lv| || |less| != 1 ==> MixedTree(r, l, n))
  {
    hide Outline, AllMixed, Sizes, Put, RemAt;
    var less := RemAt(lv[l][j].es, p);
    var r := Put(lv, l, j, less);
    PutAt(lv, l, j, less, l, 0);
    if l + 1 < |lv| {
      PutTail(lv, l, j, less);
      PutMixed(lv, l, j, less, n);
      PutSizes(lv, l, j, less);
      assert Sizes(r[l])[j := |less| + 1] == Sizes(lv[l]) by { SizesAt(lv[l], j); }
    }
    if l + 1 == |lv| || |less| != 1 { InsertMixed(lv, l, j, less, n); }
  }

  lemma SizesAt(L: Level, j: nat)
    requires j < |L|
    ensures Sizes(L)[j] == |L[j].es|
  {
  }

  /** The slot above node j. */
  lemma SlotAbove(L: Level, U: Level, n: nat, j: nat) returns (k: nat, p: nat)
    requires LevelOk(U, n) && Link(L, Outline(U)) && j < |L|
    ensures k < |U| && p < |U[k].es| && j == Off(U, k) + p && k == ChunkOf(U, j)
    ensures U[k].es[p] == Pair(L[j].lo, Child(L[j].ref))
    ensures L[j].hi == if p == 0 then U[k].hi else U[k].es[p-1].key
    ensures U[k].lo <= L[j].lo < L[j].hi <= U[k].hi
  {
    hide LevelOk, NodeOk, Outline, Ivs, Off, ChunkOf, Link;
    LinkLen(L, Outline(U));
    k, p := OutlineInside(U, n, j);
    ChunkAt(U, k, p);
    var m := LinkSlot(L, U, n, k, p);
  }

  lemma LinkLen(L: Level, O: seq<Iv>)
    requires Link(L, O)
    ensures |L| == |O|
  {
  }

  /** Nothing could be merged: the level is well formed as it is. */
  lemma Untouched(lv: seq<Level>, l: nat, n: nat, top: nat, c: nat)
    requires l + 1 < |lv| && Wf(lv, l + 1, n, top) && LevelOk(lv[l], n) && Link(lv[l], Outline(lv[l+1]))
    requires c < |lv[l]| && lv[l][c].es != [] && forall k :: 0 <= k < |lv[l]| && k != c ==> lv[l][k].es != []
    ensures Wf(lv, l, n, top)
  {
    hide LevelOk, Outline, Link;
    assert NonEmpty(lv[l]);
  }

  lemma GrewRefl(O: seq<Iv>)
    ensures Grew(O, O)
  {
  }

  lemma MixedExtend(lv: seq<Level>, l: nat, n: nat)
    requires l + 1 < |lv| && MixedTree(lv, l + 1, n)
    requires |lv[l]| == |Outline(lv[l+1])| && AllMixed(lv[l+1], Sizes(lv[l]), n)
    ensures MixedTree(lv, l, n)
  {
    hide Outline, AllMixed, Sizes;
  }

  // ---------------------------------------------------------------- descents do not change the room on a path

  lemma {:induction false} ChunkShape(L: Level, M: Level, x: nat)
    requires ShapeLevel(L, M)
    ensures ChunkOf(L, x) == ChunkOf(M, x)
  {
    if L == [] {
    } else {
      assert |M[0].es| == |L[0].es|;
      ChunkShape(L[1..], M[1..], if x < |L[0].es| then 0 else x - |L[0].es|);
    }
  }

  lemma {:induction false} RoomyShape(lv: seq<Level>, r: seq<Level>, l: nat, j: nat)
    requires Shape(lv, r) && l <= |lv|
    ensures Roomy(lv, l, j) <==> Roomy(r, l, j)
    decreases |lv| - l
  {
    hide ChunkOf, ShapeLevel;
    if l < |lv| {
      ShapeAt(lv, r, l, j);
      if l + 1 < |lv| {
        ShapeOne(lv, r, l + 1);
        ChunkShape(lv[l+1], r[l+1], j);
        RoomyShape(lv, r, l + 1, ChunkOf(lv[l+1], j));
      }
    }
  }

  lemma {:induction false} SlotShape(L: Level, M: Level, x: nat)
    requires ShapeLevel(L, M)
    ensures SlotOf(L, x) == SlotOf(M, x)
  {
    if L == [] {
    } else {
      assert |M[0].es| == |L[0].es|;
      SlotShape(L[1..], M[1..], if x < |L[0].es| then 0 else x - |L[0].es|);
    }
  }

  lemma FitsShape(lv: seq<Level>, r: seq<Level>, l: nat, j: nat, f: nat, n: nat)
    requires Shape(lv, r)
    ensures HasRoomBeside(lv, l, j, f, n) <==> HasRoomBeside(r, l, j, f, n)
  {
    hide ChunkOf, SlotOf;
    if l + 1 < |lv| {
      ShapeOne(lv, r, l);
      ShapeOne(lv, r, l + 1);
      ChunkShape(lv[l+1], r[l+1], j);
      SlotShape(lv[l+1], r[l+1], j);
    } else {
      ShapeLen(lv, r);
    }
  }

  lemma GoesShape(lv: seq<Level>, r: seq<Level>, l: nat, j: nat, f: nat, n: nat)
    requires Shape(lv, r)
    ensures Goes(lv, l, j, f, n) <==> Goes(r, l, j, f, n)
  {
    hide HasRoomBeside;
    ShapeLen(lv, r);
    FitsShape(lv, r, l, j, f, n);
  }

  lemma ShapeOne(lv: seq<Level>, r: seq<Level>, i: nat)
    requires Shape(lv, r) && i < |lv|
    ensures |r| == |lv| && ShapeLevel(lv[i], r[i])
  {
  }
}
