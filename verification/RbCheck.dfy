/** rbtree_test.c's own checks: on linked nodes they decide exactly the rules of a sorted red-black tree. */
module RbCheck {
  import opened Basics
  import opened RbShape
  import opened RbHeap
  import opened RbTree

  function Ink(red: bool): nat {
    if red then 0 else 1
  }

  /** The black nodes of the context above its hole. */
  function Blacks(c: Ctx): nat
    decreases c
  {
    match c
    case Top => 0
    case Up(_, _, red, _, up) => Blacks(up) + Ink(red)
  }

  /** The subtree whose root is the `i`-th node in order. */
  function Sub(t: Tree, i: nat): (s: Tree)
    requires i < |InOrder(t)|
    ensures s.Node? && s.n == InOrder(t)[i]
  {
    var k := |InOrder(t.l)|;
    if i < k then Sub(t.l, i) else if i == k then t else Sub(t.r, i - k - 1)
  }

  /** The black nodes on the way from the root to the `i`-th node, both included. */
  function BlacksTo(t: Tree, i: nat): nat
    requires i < |InOrder(t)|
  {
    var k := |InOrder(t.l)|;
    Ink(t.red) + if i < k then BlacksTo(t.l, i) else if i == k then 0 else BlacksTo(t.r, i - k - 1)
  }

  /** The `i`-th node has a missing child. */
  predicate Low(t: Tree, i: nat)
    requires i < |InOrder(t)|
  {
    Sub(t, i).l.Leaf? || Sub(t, i).r.Leaf?
  }

  /** All nodes with a missing child have `b` black nodes on their way. */
  predicate Even(t: Tree, b: int) {
    forall i :: 0 <= i < |InOrder(t)| && Low(t, i) ==> BlacksTo(t, i) == b
  }

  /** Equal black counts on all paths. */
  predicate Counted(t: Tree) {
    match t
    case Leaf => true
    case Node(l, _, _, r) => Counted(l) && Counted(r) && BlackHeight(l) == BlackHeight(r)
  }

  /** No red node has a red child. */
  predicate NoRedPair(t: Tree) {
    match t
    case Leaf => true
    case Node(l, _, red, r) => NoRedPair(l) && NoRedPair(r) && (red ==> !Red(l) && !Red(r))
  }

  lemma {:induction false} BalancedParts(t: Tree)
    ensures Balanced(t) <==> Counted(t) && NoRedPair(t)
  {
    match t
    case Leaf =>
    case Node(l, _, _, r) =>
      BalancedParts(l);
      BalancedParts(r);
  }

  lemma {:induction false} AtIndex(c: Ctx, t: Tree, i: nat)
    requires i < |InOrder(t)|
    ensures |Before(c)| + i < |InOrder(Plug(c, t))|
    ensures Sub(Plug(c, t), |Before(c)| + i) == Sub(t, i)
    ensures BlacksTo(Plug(c, t), |Before(c)| + i) == Blacks(c) + BlacksTo(t, i)
    ensures Clean(Plug(c, t), |Before(c)| + i, false) == Clean(t, i, c.Up? && !c.red)
    decreases c
  {
    match c
    case Top =>
    case Up(d, n, red, sib, up) =>
      var m := Mk(d, t, n, red, sib);
      NodeOrder(m);
      AtIndex(up, m, if d == Left then i else |InOrder(sib)| + 1 + i);
  }

  /** One node's own share in the evenness of a tree. */
  lemma EvenNode(t: Tree, b: int)
    requires t.Node?
    ensures Even(t, b) <==>
            Even(t.l, b - Ink(t.red)) && Even(t.r, b - Ink(t.red)) && (t.l.Leaf? || t.r.Leaf? ==> b == Ink(t.red))
  {
    hide InOrder;
    NodeOrder(t);
    var k, own := |InOrder(t.l)|, Ink(t.red);
    if Even(t, b) {
      forall i | 0 <= i < k && Low(t.l, i) ensures BlacksTo(t.l, i) == b - own {
        assert Low(t, i);
      }
      forall i | 0 <= i < |InOrder(t.r)| && Low(t.r, i) ensures BlacksTo(t.r, i) == b - own {
        assert Low(t, k + 1 + i) && BlacksTo(t, k + 1 + i) == own + BlacksTo(t.r, i);
      }
      assert t.l.Leaf? || t.r.Leaf? ==> Low(t, k);
    }
    if Even(t.l, b - own) && Even(t.r, b - own) && (t.l.Leaf? || t.r.Leaf? ==> b == own) {
      forall i | 0 <= i < |InOrder(t)| && Low(t, i) ensures BlacksTo(t, i) == b {
        if i < k {
          assert Low(t.l, i);
        } else if i > k {
          assert Low(t.r, i - k - 1);
        }
      }
    }
  }

  /** Looking at the nodes with a missing child alone decides whether all paths are equally black. */
  lemma {:induction false} EvenIsCounted(t: Tree, b: int)
    ensures t.Node? ==> (Even(t, b) <==> Counted(t) && BlackHeight(t) == b)
  {
    hide Even, InOrder, Ink;
    match t
    case Leaf =>
    case Node(l, _, red, r) =>
      var rest := b - Ink(red);
      EvenIsCounted(l, rest);
      EvenIsCounted(r, rest);
      EvenNode(t, b);
      EvenLeaf(rest);
      InkIs(red);
      assert BlackHeight(t) == BlackHeight(l) + Ink(red);
      if l.Leaf? || r.Leaf? {
        assert Even(t, b) <==> Even(l, rest) && Even(r, rest) && rest == 0;
      } else {
        assert Even(t, b) <==> Even(l, rest) && Even(r, rest);
      }
  }

  lemma InkIs(red: bool)
    ensures Ink(red) == if red then 0 else 1
  {
  }

  lemma EvenLeaf(b: int)
    ensures Even(Leaf, b)
  {
  }

  /** The `i`-th node is black or hangs below a black node; `black` says what the whole tree hangs below. */
  predicate Clean(t: Tree, i: nat, black: bool)
    requires i < |InOrder(t)|
  {
    var k := |InOrder(t.l)|;
    if i < k then Clean(t.l, i, !t.red) else if i == k then t.red ==> black else Clean(t.r, i - k - 1, !t.red)
  }

  predicate AllClean(t: Tree, black: bool) {
    forall i :: 0 <= i < |InOrder(t)| ==> Clean(t, i, black)
  }

  lemma CleanNode(t: Tree, black: bool)
    requires t.Node?
    ensures AllClean(t, black) <==> AllClean(t.l, !t.red) && AllClean(t.r, !t.red) && (t.red ==> black)
  {
    hide InOrder;
    NodeOrder(t);
    var k, above := |InOrder(t.l)|, !t.red;
    if AllClean(t, black) {
      forall i | 0 <= i < k ensures Clean(t.l, i, above) {
        assert Clean(t, i, black);
      }
      forall i | 0 <= i < |InOrder(t.r)| ensures Clean(t.r, i, above) {
        assert Clean(t, k + 1 + i, black);
      }
      assert Clean(t, k, black);
    }
    if AllClean(t.l, above) && AllClean(t.r, above) && (t.red ==> black) {
      forall i | 0 <= i < |InOrder(t)| ensures Clean(t, i, black) {
        if i < k {
          assert Clean(t.l, i, above);
        } else if i > k {
          assert Clean(t.r, i - k - 1, above);
        }
      }
    }
  }

  lemma {:induction false} RedsAreClean(t: Tree, black: bool)
    ensures AllClean(t, black) <==> NoRedPair(t) && (Red(t) ==> black)
  {
    match t
    case Leaf =>
    case Node(l, _, red, r) =>
      CleanNode(t, black);
      hide AllClean;
      RedsAreClean(l, !red);
      RedsAreClean(r, !red);
  }

  /** Each node stores what `compute` makes of its children's summaries exactly if all summaries are right. */
  lemma {:induction false} StoredIsRecomputed(root: RbRoot, t: Tree, p: RbNode?)
    requires Linked(t, p)
    ensures Stored(root.compute, t) <==> forall x :: x in Nodes(t) ==> x.aug == root.Recompute(x)
  {
    match t
    case Leaf =>
    case Node(l, n, _, r) =>
      StoredIsRecomputed(root, l, n);
      StoredIsRecomputed(root, r, n);
      if Stored(root.compute, l) && Stored(root.compute, r) {
        root.RecomputeFolds(n, l, r);
      }
  }

  /** No node is smaller than the one before it. */
  predicate Ascending(less: (Val, Val) -> bool, s: seq<RbNode>) {
    forall i :: 0 < i < |s| ==> !less(s[i].val, s[i - 1].val)
  }

  lemma AscendingSorted(less: (Val, Val) -> bool, s: seq<RbNode>)
    requires Ordering(less)
    ensures Ascending(less, s) <==> Sorted(less, s)
  {
    if Ascending(less, s) {
      forall i, j | 0 <= i < j < |s| ensures !less(s[j].val, s[i].val) {
        Climb(less, s, i, j);
      }
    }
  }

  lemma {:induction false} Climb(less: (Val, Val) -> bool, s: seq<RbNode>, i: nat, j: nat)
    requires Ordering(less) && Ascending(less, s) && i < j < |s|
    ensures !less(s[j].val, s[i].val)
  {
    if j == i + 1 {
    } else {
      Climb(less, s, i, j - 1);
      var a, b, c := s[j].val, s[j - 1].val, s[i].val;
      assert less(a, c) ==> less(a, b) || less(b, c);
    }
  }

  /** `black_path_count`: the black nodes from `rb0` up to the root are those on the way down to it. */
  method BlackPathCount(root: RbRoot, rb0: RbNode, ghost i: nat) returns (count: nat)
    requires root.Placed(Top, root.tree) && i < |InOrder(root.tree)| && InOrder(root.tree)[i] == rb0
    ensures count == BlacksTo(root.tree, i)
  {
    hide InOrder, RbRoot.Placed, Plug, Linked, Blacks, Ink, Sub, BlacksTo;
    count := 0;
    var rb: RbNode? := rb0;
    ghost var c0, t0 := root.Seek(rb0, i);
    ghost var c, t := Up(Left, rb0, t0.red, t0.r, c0), t0.l;
    NodeAt(c0, t0);
    root.PlacedUp(c, t);
    while rb != null
      invariant root.Placed(c, t) && rb == CRef(c, null)
      invariant count + Blacks(c) == Blacks(Up(Left, rb0, t0.red, t0.r, c0))
      decreases c
    {
      root.Look(c, t);
      root.PlacedUp(c, t);
      BlacksUp(c);
      count := count + if rb.red then 0 else 1;
      rb := rb.parent;
      t, c := Mk(c.d, t, c.n, c.red, c.sib), c.up;
    }
    BlacksTop();
  }

  lemma BlacksUp(c: Ctx)
    requires c.Up?
    ensures Blacks(c) == Blacks(c.up) + if c.red then 0 else 1
  {
  }

  lemma BlacksTop()
    ensures Blacks(Top) == 0
  {
  }

  lemma NodeAt(c: Ctx, t: Tree)
    requires t.Node?
    ensures var i := |Before(c)| + |InOrder(t.l)|;
      && i < |InOrder(Plug(c, t))| && Sub(Plug(c, t), i) == t
      && BlacksTo(Plug(c, t), i) == Blacks(Up(Left, t.n, t.red, t.r, c))
      && Clean(Plug(c, t), i, false) == (t.red ==> c.Up? && !c.red)
      && Low(Plug(c, t), i) == (t.l.Leaf? || t.r.Leaf?)
    ensures t == Mk(Left, t.l, t.n, t.red, t.r)
  {
    hide InOrder, Plug, Before;
    NodeOrder(t);
    AtIndex(c, t, |InOrder(t.l)|);
  }

  /** In a red-black tree a node's black count is the tree's black height less that of its children. */
  lemma {:induction false} BlacksToBalanced(t: Tree, i: nat)
    requires Balanced(t) && i < |InOrder(t)|
    ensures BlacksTo(t, i) == BlackHeight(t) - BlackHeight(Sub(t, i).l) == BlackHeight(t) - BlackHeight(Sub(t, i).r)
  {
    var k := |InOrder(t.l)|;
    if i == k {
    } else if i < k {
      BlacksToBalanced(t.l, i);
    } else {
      BlacksToBalanced(t.r, i - k - 1);
    }
  }

  /** What the walk finds in order about the first `count` nodes. */
  ghost predicate Fine(t: Tree, less: (Val, Val) -> bool, count: nat, blacks: nat)
    requires count <= |InOrder(t)|
  {
    && (forall i :: 0 < i < count ==> !less(InOrder(t)[i].val, InOrder(t)[i - 1].val))
    && (forall i :: 0 <= i < count ==> Clean(t, i, false))
    && (forall i :: 0 <= i < count && Low(t, i) ==> BlacksTo(t, i) == blacks)
  }

  lemma FineNext(t: Tree, less: (Val, Val) -> bool, i: nat, blacks: nat)
    requires i < |InOrder(t)|
    ensures Fine(t, less, i + 1, blacks) <==>
      && Fine(t, less, i, blacks) && (i > 0 ==> !less(InOrder(t)[i].val, InOrder(t)[i - 1].val))
      && Clean(t, i, false) && (Low(t, i) ==> BlacksTo(t, i) == blacks)
    ensures i == 0 ==> Fine(t, less, i, blacks)
  {
    hide InOrder, Clean, Low, BlacksTo;
  }

  /** Having found every node fine is having found a sorted red-black tree. */
  lemma FineIsRedBlack(t: Tree, less: (Val, Val) -> bool, blacks: nat)
    requires Ordering(less) && (InOrder(t) != [] ==> blacks == BlacksTo(t, 0))
    ensures Fine(t, less, |InOrder(t)|, blacks) <==> RedBlack(t) && Sorted(less, InOrder(t))
  {
    hide InOrder, Clean, Low, BlacksTo, Ordering, Sorted;
    AscendingSorted(less, InOrder(t));
    RedsAreClean(t, false);
    BalancedParts(t);
    EvenIsCounted(t, blacks);
    if t.Node? {
      NodeOrder(t);
      if Counted(t) {
        LowestFirst(t);
        EvenIsCounted(t, BlackHeight(t));
      }
    } else {
      NoneIn();
    }
  }

  /** The first node has no left child. */
  lemma {:induction false} LowestFirst(t: Tree)
    requires t.Node?
    ensures |InOrder(t)| > 0 && Low(t, 0)
  {
    match t.l
    case Leaf =>
    case Node(_, _, _, _) => LowestFirst(t.l);
  }

  lemma NoneIn()
    ensures InOrder(Leaf) == []
  {
  }

  /** What the walk reads at the `i`-th node. */
  lemma NodeRead(root: RbRoot, i: nat)
    requires root.Placed(Top, root.tree) && i < |InOrder(root.tree)|
    ensures var rb := InOrder(root.tree)[i];
      && Clean(root.tree, i, false) == (rb.red ==> rb.parent != null && !rb.parent.red)
      && Low(root.tree, i) == (rb.left == null || rb.right == null)
  {
    hide InOrder, RbRoot.Placed, Plug, Linked, Low, Clean, Blacks, BlacksTo, Sub, RbNode.Kid;
    var rb := InOrder(root.tree)[i];
    var c, t := root.Seek(rb, i);
    root.AtFields(c, t);
    NodeAt(c, t);
    KidIs(rb);
    if c.Up? {
      root.Look(c, t);
    }
  }

  lemma KidIs(x: RbNode)
    ensures x.Kid(Left) == x.left && x.Kid(Right) == x.right
  {
  }

  /**
   * `check`: on any tree of linked nodes, red-black or not, a warning is missing exactly if the tree is a
   * sorted red-black tree of the right size.
   */
  method Check(root: RbRoot, less: (Val, Val) -> bool, nrNodes: nat) returns (warned: bool)
    requires root.Placed(Top, root.tree) && Ordering(less)
    ensures !warned <==>
            RedBlack(root.tree) && Sorted(less, InOrder(root.tree)) && nrNodes == |InOrder(root.tree)|
  {
    hide InOrder, RbRoot.Placed, Plug, RedBlack, Linked, Sorted, Ordering, Fine, Low, Clean, BlacksTo;
    warned := false;
    var count, blacks, prev: RbNode? := 0, 0, null;
    assert allocated(Nodes(root.tree)) && allocated(CNodes(Top));
    var rb := root.End(Left);
    ghost var order := InOrder(root.tree);
    while rb != null
      invariant root.Placed(Top, root.tree) && order == InOrder(root.tree) && count <= |order|
      invariant (rb == null <==> count == |order|) && (rb != null ==> rb == order[count])
      invariant prev == (if count == 0 then null else order[count - 1])
      invariant count > 0 ==> blacks == BlacksTo(root.tree, 0)
      invariant !warned <==> count == 0 || Fine(root.tree, less, count, blacks)
      decreases |order| - count
    {
      NodeRead(root, count);
      warned := warned || (prev != null && less(rb.val, prev.val));
      warned := warned || (rb.red && (rb.parent == null || rb.parent.red));
      assert allocated(Nodes(root.tree)) && allocated(CNodes(Top));
      var b := BlackPathCount(root, rb, count);
      if count == 0 {
        blacks := b;
      } else {
        warned := warned || ((rb.left == null || rb.right == null) && blacks != b);
      }
      FineNext(root.tree, less, count, blacks);
      prev := rb;
      rb := root.Neighbour(rb, Right, count);
      count := count + 1;
    }
    FineIsRedBlack(root.tree, less, blacks);
    FineNone(root.tree, less, blacks);
    warned := warned || count != nrNodes;
  }

  lemma FineNone(t: Tree, less: (Val, Val) -> bool, blacks: nat)
    ensures Fine(t, less, 0, blacks)
  {
  }

  /** `check_augmented`: `check`, and each node's summary is its recomputed one. */
  method CheckAugmented(root: RbRoot, less: (Val, Val) -> bool, nrNodes: nat) returns (warned: bool)
    requires root.Placed(Top, root.tree) && Ordering(less)
    ensures !warned <==>
            && RedBlack(root.tree) && Sorted(less, InOrder(root.tree)) && nrNodes == |InOrder(root.tree)|
            && Stored(root.compute, root.tree)
  {
    hide InOrder, RbRoot.Placed, Plug, RedBlack, Linked, Sorted, Ordering, Stored;
    ghost var order := InOrder(root.tree);
    assert allocated(Nodes(root.tree)) && allocated(CNodes(Top));
    OrderInside(root.tree);
    AllRecomputed(root, order);
    warned := Check(root, less, nrNodes);
    ghost var checked, count: nat := warned, 0;
    var rb := root.End(Left);
    while rb != null
      invariant root.Placed(Top, root.tree) && order == InOrder(root.tree) && count <= |order|
      invariant (rb == null <==> count == |order|) && (rb != null ==> rb == order[count])
      invariant !warned <==> !checked && forall i :: 0 <= i < count ==> old(order[i].aug == root.Recompute(order[i]))
      decreases |order| - count
    {
      assert allocated(Nodes(root.tree)) && allocated(CNodes(Top));
      warned := warned || rb.aug != root.Recompute(rb);
      rb := root.Neighbour(rb, Right, count);
      count := count + 1;
    }
  }

  lemma AllRecomputed(root: RbRoot, order: seq<RbNode>)
    requires root.Placed(Top, root.tree) && order == InOrder(root.tree)
    ensures Stored(root.compute, root.tree) <==> forall i :: 0 <= i < |order| ==>
      order[i].aug == root.Recompute(order[i])
  {
    hide InOrder, Linked, Stored;
    StoredIsRecomputed(root, root.tree, null);
    OrderInside(root.tree);
    if forall i :: 0 <= i < |order| ==> order[i].aug == root.Recompute(order[i]) {
      forall x | x in Nodes(root.tree) ensures x.aug == root.Recompute(x) {
        NodesInOrder(root.tree, x);
        var i :| 0 <= i < |order| && order[i] == x;
      }
    }
  }

  lemma OrderInside(t: Tree)
    ensures forall i :: 0 <= i < |InOrder(t)| ==> InOrder(t)[i] in Nodes(t)
  {
    forall i | 0 <= i < |InOrder(t)| ensures InOrder(t)[i] in Nodes(t) {
      NodesInOrder(t, InOrder(t)[i]);
    }
  }

  /** The root's summary is the total of all values in order, whatever the tree's shape. */
  lemma RootSummary(root: RbRoot)
    requires root.Valid() && root.rbNode != null
    ensures Some(root.rbNode.aug) == Total(root.compute, InOrder(root.tree))
  {
    hide InOrder, Plug, RedBlack, Linked, CLinked, CStored, Apart, CApart;
    FoldIsTotal(root.compute, root.tree);
  }
}
