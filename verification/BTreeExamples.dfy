/**
 One small tree on which the code does what its comments do not say.  It is the tree that the keys 1 to 5 make
 in nodes of four pairs, with a last separator of 0, as inserting and removing the key 0 leaves it.
 */
module BTreeExamples {
  import opened BTreeLevels
  import opened BTreeMixed
  import opened BTreePaths
  import opened BTreeNode
  import opened BTreeMemory
  import opened BTreeRemoval
  import opened BTreeQueries
  import opened BTree
  import opened KeyWords

  ghost function HighLeaf(v: Slot): seq<Pair> {
    [Pair(5, v), Pair(4, v), Pair(3, v)]
  }

  ghost function LowLeaf(v: Slot): seq<Pair> {
    [Pair(2, v), Pair(1, v)]
  }

  ghost function RootPairs(a: array<Pair>, b: array<Pair>): seq<Pair> {
    [Pair(3, Child(a)), Pair(0, Child(b))]
  }

  ghost function Levels(a: array<Pair>, b: array<Pair>, r: array<Pair>, v: Slot): seq<Level> {
    [[NodeG(a, 3, 6, HighLeaf(v)), NodeG(b, 0, 3, LowLeaf(v))], [NodeG(r, 0, 6, RootPairs(a, b))]]
  }

  lemma RootOutline(r: array<Pair>, a: array<Pair>, b: array<Pair>)
    ensures Outline([NodeG(r, 0, 6, RootPairs(a, b))]) == [Iv(Child(a), 3, 6), Iv(Child(b), 0, 3)]
  {
    var L := [NodeG(r, 0, 6, RootPairs(a, b))];
    assert L[1..] == [];
    assert Ivs(6, RootPairs(a, b)) + [] == Ivs(6, RootPairs(a, b));
  }

  lemma LevelsWf(a: array<Pair>, b: array<Pair>, r: array<Pair>, v: Slot)
    requires v != Nul
    ensures Wf(Levels(a, b, r, v), 0, 4, 6)
  {
    hide Outline;
    RootOutline(r, a, b);
    var lv := Levels(a, b, r, v);
    assert LevelOk(lv[0], 4) && LevelOk(lv[1], 4);
    assert Link(lv[0], Outline(lv[1])) && NonEmpty(lv[0]);
  }

  lemma LevelsMixed(a: array<Pair>, b: array<Pair>, r: array<Pair>, v: Slot)
    ensures MixedTree(Levels(a, b, r, v), 0, 4)
  {
    RootOutline(r, a, b);
    var lv := Levels(a, b, r, v);
    var w := Sizes(lv[0]);
    assert lv[1] == [NodeG(r, 0, 6, RootPairs(a, b))];
    assert |w| == 2 && w[0] == 3 && w[1] == 2 && w[..2] == w && w[2..] == [] && lv[1][1..] == [];
    assert Mixed(w, 4) && AllMixed([], [], 4);
    assert AllMixed(lv[1], w, 4);
  }

  /** The keys of the tree are those of its two leaves. */
  lemma LevelsContent(a: array<Pair>, b: array<Pair>, r: array<Pair>, v: Slot)
    requires v != Nul
    ensures forall k :: k in Content(Levels(a, b, r, v)) <==> 1 <= k <= 5
  {
    hide Wf, Content, Cov;
    var lv := Levels(a, b, r, v);
    LevelsWf(a, b, r, v);
    KeyHere(lv, 4, 6, 0, 0);
    KeyHere(lv, 4, 6, 0, 1);
    KeyHere(lv, 4, 6, 0, 2);
    KeyHere(lv, 4, 6, 1, 0);
    KeyHere(lv, 4, 6, 1, 1);
    forall k | k in Content(lv) ensures 1 <= k <= 5 {
      var j, p := KeyHome(lv, 4, 6, k);
    }
  }

  method Leaf(high: bool, v: Slot) returns (a: array<Pair>)
    requires v != Nul
    ensures fresh(a) && a.Length == 4 && Holds(a, if high then HighLeaf(v) else LowLeaf(v))
  {
    a := new Pair[4](_ => EMPTY);
    if high {
      a[0], a[1], a[2] := Pair(5, v), Pair(4, v), Pair(3, v);
    } else {
      a[0], a[1] := Pair(2, v), Pair(1, v);
    }
  }

  method RootNode(a: array<Pair>, b: array<Pair>) returns (r: array<Pair>)
    ensures fresh(r) && r.Length == 4 && Holds(r, RootPairs(a, b))
  {
    r := new Pair[4](_ => EMPTY);
    r[0], r[1] := Pair(3, Child(a)), Pair(0, Child(b));
  }

  method Example(v: Slot) returns (t: BTreeHead)
    requires v != Nul
    ensures fresh(t) && fresh(t.Repr) && t.Valid() && t.n == 4 && t.top == 6 && t.height == 2
    ensures forall k :: k in t.Map() <==> 1 <= k <= 5
    ensures exists a, b, r :: t.lv == Levels(a, b, r, v)
  {
    hide BTreeHead.Valid, Levels, Content, Holds;
    t := new BTreeHead(4, 6);
    var a := Leaf(true, v);
    var b := Leaf(false, v);
    var r := RootNode(a, b);
    t.node, t.height, t.lv, t.Repr := r, 2, Levels(a, b, r, v), {a, b, r};
    AllValid(t, a, b, r, v);
    LevelsContent(a, b, r, v);
  }

  lemma InMemory(a: array<Pair>, b: array<Pair>, r: array<Pair>, v: Slot)
    requires a.Length == b.Length == r.Length == 4 && a != b && a != r && b != r
    requires Holds(a, HighLeaf(v)) && Holds(b, LowLeaf(v)) && Holds(r, RootPairs(a, b))
    ensures Stored(Levels(a, b, r, v), {a, b, r}, 4) && Distinct(Levels(a, b, r, v))
  {
    hide Holds;
  }

  lemma AllValid(t: BTreeHead, a: array<Pair>, b: array<Pair>, r: array<Pair>, v: Slot)
    requires v != Nul && t.n == 4 && t.top == 6 && t.height == 2 && t.node == r
    requires t.lv == Levels(a, b, r, v) && t.Repr == {a, b, r}
    requires a.Length == b.Length == r.Length == 4 && a != b && a != r && b != r
    requires Holds(a, HighLeaf(v)) && Holds(b, LowLeaf(v)) && Holds(r, RootPairs(a, b))
    ensures t.Valid() && t.Map() == Content(Levels(a, b, r, v))
  {
    hide Wf, MixedTree, Content, Holds, Stored, Distinct;
    LevelsWf(a, b, r, v);
    LevelsMixed(a, b, r, v);
    InMemory(a, b, r, v);
  }

  /** What the examples need to know of the shape. */
  lemma LevelsShape(lv: seq<Level>, a: array<Pair>, b: array<Pair>, r: array<Pair>, v: Slot)
    requires lv == Levels(a, b, r, v)
    ensures |lv| == 2 && |lv[0]| == 2 && |lv[1]| == 1
    ensures |lv[0][0].es| == 3 && |lv[0][1].es| == 2 && |lv[1][0].es| == 2
    ensures lv[0][1].es[1].key == 1 && lv[1][0].es[1].key == 0
    ensures Cov(lv, 0, 0, 4) && !Cov(lv, 0, 1, 4) && Cov(lv, 0, 1, 0)
  {
  }

  /** With one key removed both leaves have two pairs and would fit into one node of four, but they stay two. */
  method NeighboursStay(v: Slot) returns (t: BTreeHead)
    requires v != Nul
    ensures t.Valid() && |t.lv| == 2 && |t.lv[0]| == 2 && HasRoomBeside(t.lv, 0, 0, |t.lv[0][0].es|, t.n)
  {
    hide BTreeHead.Valid, BTreeHead.Map, BTreeHead.Hollow, Levels, Content, LeafGoes, Thinned, HasRoomBeside, Wf;
    t := Example(v);
    ghost var lv0 := t.lv;
    ghost var a, b, r :| lv0 == Levels(a, b, r, v);
    LevelsShape(lv0, a, b, r, v);
    LevelsWfOf(lv0, a, b, r, v);
    LeafGoesIs(lv0, 4, 6, 0, 4);
    var gone, leaf := t.Remove(4, Layout(_ => 0, true));
    Stay(lv0, t.lv);
  }

  lemma LevelsWfOf(lv: seq<Level>, a: array<Pair>, b: array<Pair>, r: array<Pair>, v: Slot)
    requires lv == Levels(a, b, r, v) && v != Nul
    ensures Wf(lv, 0, 4, 6)
  {
    LevelsWf(a, b, r, v);
  }

  lemma Stay(lv0: seq<Level>, lv: seq<Level>)
    requires |lv0| == 2 && |lv0[0]| == 2 && |lv0[1]| == 1 && Cov(lv0, 0, 0, 4) && Thinned(lv0, lv, 4)
    requires |lv0[0][0].es| == 3 && |lv0[0][1].es| == 2 && |lv0[1][0].es| == 2
    ensures |lv| == 2 && |lv[0]| == 2 && HasRoomBeside(lv, 0, 0, |lv[0][0].es|, 4)
  {
    assert OneLess(lv0[0], lv[0], 0);
    assert ShapeLevel(lv0[1], lv[1]);
  }

  /** There is nothing below the key 1, yet the greatest binding comes back. */
  method PrevWraps(v: Slot) returns (found: Slot, key: nat)
    requires v != Nul
    ensures found != Nul && key == 5
  {
    hide BTreeHead.Valid, BTreeHead.Map, Levels, Content;
    var t := Example(v);
    ghost var a, b, r :| t.lv == Levels(a, b, r, v);
    LevelsShape(t.lv, a, b, r, v);
    assert 5 in t.Map();
    found, key := t.GetPrev(1);
  }

  /** The key 0 is not stored; removing it takes the key 1 away. */
  method RemoveTakesLeast(v: Slot) returns (t: BTreeHead, gone: RemoveResult)
    requires v != Nul
    ensures gone == Gone(Nul) && forall k :: k in t.Map() <==> 2 <= k <= 5
  {
    hide BTreeHead.Valid, BTreeHead.Map, BTreeHead.Hollow, Levels, Content, LeafGoes, Thinned;
    t := Example(v);
    ghost var a, b, r :| t.lv == Levels(a, b, r, v);
    LevelsShape(t.lv, a, b, r, v);
    ghost var leaf;
    gone, leaf := t.Remove(0, Layout(_ => 0, true));
  }

  /** One more than the greatest 64-bit word. */
  const B: nat := 0x1_0000_0000_0000_0000

  /** The word that a value slot holds; the examples store numbers. */
  function WordOf(s: Slot): nat {
    if s.Item? && s.v >= 0 then s.v else 0
  }

  /** 128-bit keys on 64-bit words: the first two value words spell a key, and the sixteenth word is spare. */
  function Geo128(): Layout {
    Layout(vals => if |vals| < 2 then 0 else Value([WordOf(vals[0]), WordOf(vals[1])], B), true)
  }

  /** The key that the value word `v` spells when it stands there twice. */
  function Spelled(v: nat): (k: nat)
    ensures k == v * B + v
  {
    v * B + v
  }

  ghost function FullLeaf(v: nat): seq<Pair> {
    var k := Spelled(v);
    [Pair(k + 5, Item(v)), Pair(k + 4, Item(v)), Pair(k + 3, Item(v)), Pair(k + 2, Item(v)), Pair(k + 1, Item(v))]
  }

  ghost function OneLeaf(a: array<Pair>, v: nat): seq<Level> {
    [[NodeG(a, 0, B * B, FullLeaf(v))]]
  }

  lemma SpelledFits(v: nat)
    requires 0 < v < B - 1
    ensures Spelled(v) + 5 < B * B
    ensures Geo128().spare && Geo128().spell(Vals(FullLeaf(v))) == Spelled(v)
  {
    var vals := Vals(FullLeaf(v));
    assert vals[0] == vals[1] == Item(v);
    ValueOfTwo(v, B);
  }

  lemma ValueOfTwo(v: nat, base: nat)
    ensures Value([v, v], base) == v * base + v
  {
    assert [v, v][..1] == [v] && [v][..0] == [];
    assert Value([v], base) == 0 * base + v;
  }

  lemma OneLeafFacts(a: array<Pair>, v: nat)
    requires 0 < v < B - 1
    ensures Wf(OneLeaf(a, v), 0, 5, B * B) && MixedTree(OneLeaf(a, v), 0, 5)
    ensures forall k :: k in Content(OneLeaf(a, v)) <==> Spelled(v) < k <= Spelled(v) + 5
  {
    hide Outline, Content, Cov, Spelled;
    var lv, s := OneLeaf(a, v), Spelled(v);
    SpelledFits(v);
    assert LevelOk(lv[0], 5);
    KeyHere(lv, 5, B * B, 0, 0);
    KeyHere(lv, 5, B * B, 0, 1);
    KeyHere(lv, 5, B * B, 0, 2);
    KeyHere(lv, 5, B * B, 0, 3);
    KeyHere(lv, 5, B * B, 0, 4);
    forall k | k in Content(lv) ensures s < k <= s + 5 {
      var j, p := KeyHome(lv, 5, B * B, k);
    }
  }

  /** A full leaf in the geometry of 128-bit keys, all of them above the key that its value words spell. */
  method FullExample(v: nat) returns (t: BTreeHead, ghost a: array<Pair>)
    requires 0 < v < B - 1
    ensures fresh(t) && fresh(t.Repr) && t.Valid() && t.n == 5 && t.top == B * B && t.lv == OneLeaf(a, v)
    ensures forall k :: k in t.Map() <==> Spelled(v) < k <= Spelled(v) + 5
  {
    hide BTreeHead.Valid, OneLeaf, Content, Holds, Spelled;
    t := new BTreeHead(5, B * B);
    var x := FivePairs(v);
    a := x;
    t.node, t.height, t.lv, t.Repr := x, 1, OneLeaf(x, v), {x};
    OneLeafFacts(x, v);
    OneLeafValid(t, x, v);
  }

  method FivePairs(v: nat) returns (x: array<Pair>)
    ensures fresh(x) && x.Length == 5 && Holds(x, FullLeaf(v))
  {
    hide Spelled;
    x := new Pair[5](_ => EMPTY);
    var k := Spelled(v);
    x[0], x[1], x[2] := Pair(k + 5, Item(v)), Pair(k + 4, Item(v)), Pair(k + 3, Item(v));
    x[3], x[4] := Pair(k + 2, Item(v)), Pair(k + 1, Item(v));
  }

  lemma OneLeafValid(t: BTreeHead, a: array<Pair>, v: nat)
    requires 0 < v < B - 1 && t.n == 5 && t.top == B * B && t.height == 1 && t.node == a
    requires t.lv == OneLeaf(a, v) && t.Repr == {a} && a.Length == 5 && Holds(a, FullLeaf(v))
    ensures t.Valid() && t.Map() == Content(OneLeaf(a, v))
  {
    hide Wf, MixedTree, Content, Holds, Spelled;
    OneLeafFacts(a, v);
  }

  /**
   The value word v stored five times, under keys above the one it spells: removing that key, which is not stored,
   takes the least stored key away.
   */
  method RemoveStrays(v: nat) returns (t: BTreeHead, gone: RemoveResult)
    requires 0 < v < B - 1
    ensures gone == Gone(Nul) && forall k :: k in t.Map() <==> Spelled(v) + 1 < k <= Spelled(v) + 5
  {
    hide BTreeHead.Valid, BTreeHead.Map, BTreeHead.Hollow, Content, LeafGoes, Thinned, Spelled, Geo128, Value;
    ghost var a, leaf;
    t, a := FullExample(v);
    SpelledFits(v);
    FirstLeIs(FullLeaf(v), Spelled(v), 5);
    gone, leaf := t.Remove(Spelled(v), Geo128());
  }

  /** Updating the absent key 0 binds it. */
  method UpdateBinds(v: Slot) returns (t: BTreeHead, ok: bool)
    requires v != Nul
    ensures ok && forall k :: k in t.Map() <==> 0 <= k <= 5
  {
    hide BTreeHead.Valid, BTreeHead.Map, Levels, Content;
    t := Example(v);
    ghost var a, b, r :| t.lv == Levels(a, b, r, v);
    LevelsShape(t.lv, a, b, r, v);
    ok := t.Update(0, v);
  }

  /** A tree emptied by removal keeps its leaf, and the caller's key is overwritten. */
  method LastOverwrites(v: Slot, key: nat) returns (t: BTreeHead, found: Slot, after: nat)
    requires v != Nul && key > 0
    ensures t.Map() == map[] && found == Nul && after == 0 != key
  {
    hide BTreeHead.Valid, BTreeHead.Map, BTreeHead.Hollow, Content, LeafGoes, Thinned, Stored, Distinct;
    t := new BTreeHead(4, 6);
    var err := t.Insert(1, v, false);
    var gone, leaf := t.Remove(1, Layout(_ => 0, true));
    found, after := t.Last(key);
  }
}
