/** rbtree_test.c's augmented tree: every node stores the greatest value below it. */
module RbMax {
  import opened Basics
  import opened RbShape
  import opened RbTree

  /** How a node carries its number, and how a summary holds one. */
  datatype Numbers = Numbers(of: Val -> nat, hold: nat -> Sum, read: Sum -> nat) {
    ghost predicate Sound() {
      forall n :: read(hold(n)) == n
    }

    function ReadAny(s: Option<Sum>): Option<nat> {
      match s
      case None => None
      case Some(x) => Some(read(x))
    }

    /** `augment_recompute` as the tree's summary function. */
    function Greatest(): Compute {
      (v, a, b) => hold(MaxOf(of(v), ReadAny(a), ReadAny(b)))
    }

    /** What `insert_augmented` does to the ancestors on the way down. */
    function Raise(): (Sum, Val) -> Sum {
      (s, v) => hold(MaxWith(read(s), of(v)))
    }
  }

  function Max(a: nat, b: Option<nat>): nat {
    if b.Some? && a < b.value then b.value else a
  }

  /** The largest value, rbtree_test.c's summary. */
  function MaxOf(v: nat, a: Option<nat>, b: Option<nat>): nat {
    Max(Max(v, a), b)
  }

  function MaxWith(s: nat, v: nat): nat {
    if s < v then v else s
  }

  lemma MaxAssoc(x: nat, y: nat, a: Option<nat>, b: Option<nat>, c: Option<nat>)
    ensures MaxOf(y, Some(MaxOf(x, a, b)), c) == MaxOf(x, a, Some(MaxOf(y, b, c)))
  {
  }

  lemma MaxAbsorbs(x: nat, v: nat, a: Option<nat>, b: Option<nat>)
    ensures MaxWith(MaxOf(x, a, b), v) == MaxOf(x, Some(if a.Some? then MaxWith(a.value, v) else v), b)
    ensures MaxWith(MaxOf(x, a, b), v) == MaxOf(x, a, Some(if b.Some? then MaxWith(b.value, v) else v))
  {
  }

  lemma MaxAlone(v: nat)
    ensures MaxOf(v, None, None) == v
  {
  }

  lemma GreatestHolds(w: Numbers, v: Val, a: Option<Sum>, b: Option<Sum>)
    requires w.Sound()
    ensures var m := MaxOf(w.of(v), w.ReadAny(a), w.ReadAny(b));
      w.Greatest()(v, a, b) == w.hold(m) && w.ReadAny(Some(w.Greatest()(v, a, b))) == Some(m)
  {
    var m := MaxOf(w.of(v), w.ReadAny(a), w.ReadAny(b));
    assert w.read(w.hold(m)) == m;
  }

  lemma RaiseHolds(w: Numbers, s: Sum, v: Val)
    ensures w.Raise()(s, v) == w.hold(MaxWith(w.read(s), w.of(v)))
  {
  }

  /** The maximum obeys the law of rotations and the law of updating ancestors on the way down. */
  lemma MaxIsLawful(w: Numbers)
    requires w.Sound()
    ensures Lawful(w.Greatest()) && Absorbs(w.Greatest(), w.Raise())
  {
    hide Max, MaxOf, MaxWith, Numbers.Greatest, Numbers.Raise, Numbers.Sound;
    var f, absorb := w.Greatest(), w.Raise();
    forall x, y, a, b, c ensures f(y, Some(f(x, a, b)), c) == f(x, a, Some(f(y, b, c))) {
      GreatestHolds(w, x, a, b);
      GreatestHolds(w, y, b, c);
      GreatestHolds(w, y, Some(f(x, a, b)), c);
      GreatestHolds(w, x, a, Some(f(y, b, c)));
      MaxAssoc(w.of(x), w.of(y), w.ReadAny(a), w.ReadAny(b), w.ReadAny(c));
    }
    forall x, v, a, b
      ensures absorb(f(x, a, b), v) == f(x, Plus(f, absorb, a, v), b) == f(x, a, Plus(f, absorb, b, v))
    {
      AbsorbsOne(w, x, v, a, b);
    }
  }

  lemma PlusRead(w: Numbers, a: Option<Sum>, v: Val)
    requires w.Sound()
    ensures w.ReadAny(Plus(w.Greatest(), w.Raise(), a, v))
         == Some(if a.Some? then MaxWith(w.read(a.value), w.of(v)) else w.of(v))
  {
    hide MaxOf, MaxWith, Numbers.Greatest, Numbers.Raise;
    match a
    case None =>
      GreatestHolds(w, v, None, None);
      MaxAlone(w.of(v));
    case Some(s) =>
      RaiseHolds(w, s, v);
      var m := MaxWith(w.read(s), w.of(v));
      assert w.read(w.hold(m)) == m;
  }

  lemma AbsorbsOne(w: Numbers, x: Val, v: Val, a: Option<Sum>, b: Option<Sum>)
    requires w.Sound()
    ensures var f, absorb := w.Greatest(), w.Raise();
      absorb(f(x, a, b), v) == f(x, Plus(f, absorb, a, v), b) == f(x, a, Plus(f, absorb, b, v))
  {
    hide MaxOf, MaxWith, Numbers.Greatest, Numbers.Raise, Numbers.Sound, Plus;
    var f, absorb := w.Greatest(), w.Raise();
    GreatestHolds(w, x, a, b);
    RaiseHolds(w, f(x, a, b), v);
    PlusRead(w, a, v);
    PlusRead(w, b, v);
    GreatestHolds(w, x, Plus(f, absorb, a, v), b);
    GreatestHolds(w, x, a, Plus(f, absorb, b, v));
    MaxAbsorbs(w.of(x), w.of(v), w.ReadAny(a), w.ReadAny(b));
  }

  /** `augment_recompute` */
  method AugmentRecompute(val: nat, left: Option<nat>, right: Option<nat>) returns (max: nat)
    ensures max == MaxOf(val, left, right)
    ensures max >= val && (left.Some? ==> max >= left.value) && (right.Some? ==> max >= right.value)
    ensures max == val || Some(max) == left || Some(max) == right
  {
    max := val;
    if left.Some? {
      var childAugmented := left.value;
      if max < childAugmented {
        max := childAugmented;
      }
    }
    if right.Some? {
      var childAugmented := right.value;
      if max < childAugmented {
        max := childAugmented;
      }
    }
  }

  /** `m` is the greatest number the nodes carry. */
  predicate IsGreatest(w: Numbers, s: seq<RbNode>, m: nat) {
    (exists x :: x in s && w.of(x.val) == m) && forall x :: x in s ==> w.of(x.val) <= m
  }

  lemma {:induction false} TotalIsGreatest(w: Numbers, s: seq<RbNode>)
    requires w.Sound() && s != []
    ensures Total(w.Greatest(), s).Some? && IsGreatest(w, s, w.read(Total(w.Greatest(), s).value))
  {
    hide Numbers.Greatest, Numbers.Sound;
    var rest := s[1..];
    assert s == [s[0]] + rest;
    GreatestHolds(w, s[0].val, None, Total(w.Greatest(), rest));
    if rest == [] {
    } else {
      TotalIsGreatest(w, rest);
    }
  }

  /** The summary stored at any node is the greatest number below it. */
  lemma StoresGreatest(root: RbRoot, w: Numbers, c: Ctx, t: Tree)
    requires root.At(c, t) && t.Node? && root.compute == w.Greatest() && w.Sound()
    ensures IsGreatest(w, InOrder(t), w.read(t.n.aug))
  {
    hide Total, IsGreatest, Numbers.Greatest, Numbers.Sound;
    FoldIsTotal(root.compute, t);
    NodeOrder(t);
    TotalIsGreatest(w, InOrder(t));
  }

  lemma RootIsGreatest(root: RbRoot, w: Numbers)
    requires root.Valid() && root.compute == w.Greatest() && w.Sound()
    ensures root.rbNode == null <==> InOrder(root.tree) == []
    ensures root.rbNode != null ==> IsGreatest(w, InOrder(root.tree), w.read(root.rbNode.aug))
  {
    hide IsGreatest, Numbers.Greatest, Numbers.Sound, RedBlack;
    if root.rbNode != null {
      NodeOrder(root.tree);
      StoresGreatest(root, w, Top, root.tree);
    }
  }

  lemma InsertedThere(less: (Val, Val) -> bool, s: seq<RbNode>, x: RbNode)
    ensures InsertSorted(less, s, x) != []
  {
  }

  /** `insert_augmented` */
  method InsertAugmented(root: RbRoot, node: RbNode, less: (Val, Val) -> bool, w: Numbers)
    requires root.Valid() && node !in Nodes(root.tree) && root.compute == w.Greatest() && w.Sound()
    requires Ordering(less) && Sorted(less, InOrder(root.tree))
    modifies root, node, Nodes(root.tree)
    ensures root.Valid() && InOrder(root.tree) == InsertSorted(less, old(InOrder(root.tree)), node)
    ensures root.rbNode != null && IsGreatest(w, InOrder(root.tree), w.read(root.rbNode.aug))
  {
    hide InOrder, Ordering, Sorted, InsertSorted, IsGreatest, Numbers.Greatest, Numbers.Sound, Numbers.Raise, Absorbs,
      Lawful,
      RedBlack;
    MaxIsLawful(w);
    root.Insert(node, less, w.Raise());
    InsertedThere(less, old(InOrder(root.tree)), node);
    RootIsGreatest(root, w);
  }

  /** `erase_augmented` */
  method EraseAugmented(root: RbRoot, node: RbNode, w: Numbers)
    requires root.Valid() && node in Nodes(root.tree) && root.compute == w.Greatest() && w.Sound()
    modifies root, Nodes(root.tree)
    ensures root.Valid() && InOrder(root.tree) == Without(old(InOrder(root.tree)), node)
    ensures root.rbNode != null ==> IsGreatest(w, InOrder(root.tree), w.read(root.rbNode.aug))
  {
    hide InOrder, IsGreatest, Numbers.Greatest, Numbers.Sound, RedBlack;
    root.Erase(node);
    RootIsGreatest(root, w);
  }
}
