/** Trees and contexts as the nodes' own fields hold them, and the small pointer steps all cases share. */
module RbHeap {
  import opened Basics
  import opened RbShape

  /** The links, parent pointers and colours of `t`'s nodes are those of `t`, under the parent `p`. */
  ghost predicate Linked(t: Tree, p: RbNode?)
    reads Nodes(t)`left, Nodes(t)`right, Nodes(t)`parent, Nodes(t)`red
  {
    match t
    case Leaf => true
    case Node(l, n, red, r) =>
      && n.left == Ref(l) && n.right == Ref(r) && n.parent == p && n.red == red
      && Linked(l, n) && Linked(r, n)
  }

  /** The same for the nodes of a context whose hole holds `hole`, below the node `above`. */
  ghost predicate CLinked(c: Ctx, hole: RbNode?, above: RbNode?)
    reads CNodes(c)`left, CNodes(c)`right, CNodes(c)`parent, CNodes(c)`red
    decreases c
  {
    match c
    case Top => true
    case Up(d, n, red, sib, up) =>
      && n.Kid(d) == hole && n.Kid(d.Other()) == Ref(sib) && n.parent == CRef(up, above) && n.red == red
      && Linked(sib, n) && CLinked(up, n, above)
  }

  /** No node sits at two places of the context. */
  ghost predicate CApart(c: Ctx)
    decreases c
  {
    match c
    case Top => true
    case Up(_, n, _, sib, up) =>
      && Apart(sib) && CApart(up)
      && n !in Nodes(sib) && n !in CNodes(up) && Nodes(sib) !! CNodes(up)
  }

  ghost predicate Separate(c: Ctx, t: Tree) {
    Apart(t) && CApart(c) && Nodes(t) !! CNodes(c)
  }

  /** Three subtrees and two nodes at a place, none sharing a node with another or with the context. */
  ghost predicate Strewn(a: Tree, p: RbNode, b: Tree, g: RbNode, u: Tree, c: Ctx) {
    && Apart(a) && Apart(b) && Apart(u) && CApart(c) && p != g
    && p !in Nodes(a) && p !in Nodes(b) && p !in Nodes(u) && p !in CNodes(c)
    && g !in Nodes(a) && g !in Nodes(b) && g !in Nodes(u) && g !in CNodes(c)
    && Nodes(a) !! Nodes(b) && Nodes(a) !! Nodes(u) && Nodes(b) !! Nodes(u)
    && Nodes(a) !! CNodes(c) && Nodes(b) !! CNodes(c) && Nodes(u) !! CNodes(c)
  }

  /** The nodes a rotation writes lie outside the subtrees it does not. */
  lemma StrewnOut(a: Tree, p: RbNode, b: Tree, g: RbNode, u: Tree, c: Ctx, x: RbNode?)
    requires Strewn(a, p, b, g, u, c)
    ensures p != g && Apart(a) && Apart(b) && Nodes(a) !! Nodes(b) && CApart(c)
    ensures x == p || x == g ==> x !in Nodes(a) && x !in Nodes(b) && x !in Nodes(u) && x !in CNodes(c)
    ensures x == Ref(a) ==> x != p && x != g && x !in Nodes(b) && x !in Nodes(u) && x !in CNodes(c)
    ensures x == Ref(b) ==> x != p && x != g && x !in Nodes(a) && x !in Nodes(u) && x !in CNodes(c)
    ensures x == CRef(c, null) ==> x != p && x != g && x !in Nodes(a) && x !in Nodes(b) && x !in Nodes(u)
  {
    RefInside(a);
    RefInside(b);
    CRefInside(c);
  }

  lemma RotateSeparate(d: Side, a: Tree, p: RbNode, b: Tree, g: RbNode, u: Tree, c: Ctx, c1: bool, c2: bool)
    ensures Separate(c, Mk(d, Mk(d, a, p, c1, b), g, c2, u)) <==> Strewn(a, p, b, g, u, c)
    ensures Separate(c, Mk(d, a, p, c1, Mk(d, b, g, c2, u))) <==> Strewn(a, p, b, g, u, c)
  {
    hide Apart, CApart, Nodes, CNodes, Mk;
    ApartMk(d, a, p, c1, b);
    ApartMk(d, Mk(d, a, p, c1, b), g, c2, u);
    ApartMk(d, b, g, c2, u);
    ApartMk(d, a, p, c1, Mk(d, b, g, c2, u));
  }

  lemma ApartMk(d: Side, a: Tree, p: RbNode, red: bool, b: Tree)
    ensures Nodes(Mk(d, a, p, red, b)) == Nodes(a) + {p} + Nodes(b)
    ensures Apart(Mk(d, a, p, red, b)) <==>
            p !in Nodes(a) && p !in Nodes(b) && Nodes(a) !! Nodes(b) && Apart(a) && Apart(b)
  {
  }

  lemma {:induction false} PlugSeparate(c: Ctx, t: Tree)
    ensures Apart(Plug(c, t)) <==> Separate(c, t)
    decreases c
  {
    match c
    case Top =>
    case Up(d, n, red, sib, up) => PlugSeparate(up, Mk(d, t, n, red, sib));
  }

  lemma {:induction false} PlugLinked(c: Ctx, t: Tree, above: RbNode?)
    ensures Linked(Plug(c, t), above) <==> Linked(t, CRef(c, above)) && CLinked(c, Ref(t), above)
    decreases c
  {
    match c
    case Top =>
    case Up(d, n, red, sib, up) => PlugLinked(up, Mk(d, t, n, red, sib), above);
  }

  lemma {:induction false} CLinkedJoin(k: Ctx, c: Ctx, hole: RbNode?, above: RbNode?)
    ensures CLinked(Join(k, c), hole, above) <==> CLinked(k, hole, CRef(c, above)) && CLinked(c, TopRef(k, hole), above)
    decreases k
  {
    if k.Top? {
    } else {
      CLinkedJoin(k.up, c, k.n, above);
    }
  }

  lemma {:induction false} JoinFacts(k: Ctx, c: Ctx, hole: RbNode?)
    ensures TopRef(Join(k, c), hole) == TopRef(c, TopRef(k, hole))
    ensures CNodes(Join(k, c)) == CNodes(k) + CNodes(c)
    ensures CApart(Join(k, c)) <==> CApart(k) && CApart(c) && CNodes(k) !! CNodes(c)
    ensures Leftmost(Join(k, c)) <==> Leftmost(k) && Leftmost(c)
    ensures forall a: RbNode? :: CRef(Join(k, c), a) == CRef(k, CRef(c, a))
    decreases k
  {
    if k.Top? {
    } else {
      JoinFacts(k.up, c, k.n);
    }
  }

  /**
   * The pieces a node with two subtrees falls into when `s`, found at the hole of `m` in its right subtree,
   * replaces it.
   */
  ghost predicate Parted(l: Tree, n: RbNode, m: Ctx, s: RbNode, e: Tree, c: Ctx) {
    && Apart(l) && CApart(m) && Apart(e) && CApart(c) && n != s
    && n !in Nodes(l) && n !in CNodes(m) && n !in Nodes(e) && n !in CNodes(c)
    && s !in Nodes(l) && s !in CNodes(m) && s !in Nodes(e) && s !in CNodes(c)
    && Nodes(l) !! CNodes(m) && Nodes(l) !! Nodes(e) && Nodes(l) !! CNodes(c)
    && CNodes(m) !! Nodes(e) && CNodes(m) !! CNodes(c) && Nodes(e) !! CNodes(c)
  }

  lemma PartedIff(l: Tree, n: RbNode, red: bool, m: Ctx, s: RbNode, sr: bool, e: Tree, c: Ctx)
    ensures Separate(c, Node(l, n, red, Plug(m, Node(Leaf, s, sr, e)))) <==> Parted(l, n, m, s, e, c)
    ensures Separate(Up(Right, s, red, l, c), Plug(m, e)) && n != s
            && n !in Nodes(l) + CNodes(m) + Nodes(e) + CNodes(c) <== Parted(l, n, m, s, e, c)
  {
    hide Apart, CApart, Nodes, CNodes, Plug;
    var r := Plug(m, Node(Leaf, s, sr, e));
    ApartMk(Left, l, n, red, r);
    ApartMk(Left, Leaf, s, sr, e);
    LeafApart();
    PlugSeparate(m, Node(Leaf, s, sr, e));
    PlugNodes(m, Node(Leaf, s, sr, e));
    PlugSeparate(m, e);
    PlugNodes(m, e);
    CApartUp(Right, s, red, l, c);
  }

  lemma LeafApart()
    ensures Apart(Leaf) && Nodes(Leaf) == {}
  {
  }

  lemma CApartUp(d: Side, n: RbNode, red: bool, sib: Tree, up: Ctx)
    ensures CNodes(Up(d, n, red, sib, up)) == Nodes(sib) + {n} + CNodes(up)
    ensures CApart(Up(d, n, red, sib, up)) <==>
            (Apart(sib) && CApart(up) && n !in Nodes(sib) && n !in CNodes(up) && Nodes(sib) !! CNodes(up))
  {
  }

  // ---- stored summaries ----

  /** Each node of `t` stores the summary of its subtree. */
  ghost predicate Stored(f: Compute, t: Tree)
    reads Nodes(t)`aug
  {
    match t
    case Leaf => true
    case Node(l, n, _, r) => Fold(f, t) == Some(n.aug) && Stored(f, l) && Stored(f, r)
  }

  /** Each node of the context stores its summary, the hole's subtree having the summary `s`. */
  ghost predicate CStored(f: Compute, c: Ctx, s: Option<Sum>)
    reads CNodes(c)`aug
    decreases c
  {
    match c
    case Top => true
    case Up(d, n, _, sib, up) =>
      n.aug == Apply(f, d, n.val, s, Fold(f, sib)) && Stored(f, sib) && CStored(f, up, Some(n.aug))
  }

  lemma {:induction false} PlugStored(f: Compute, c: Ctx, t: Tree)
    ensures Stored(f, Plug(c, t)) <==> Stored(f, t) && CStored(f, c, Fold(f, t))
    decreases c
  {
    match c
    case Top =>
    case Up(d, n, red, sib, up) => PlugStored(f, up, Mk(d, t, n, red, sib));
  }

  lemma FoldMk(f: Compute, d: Side, a: Tree, n: RbNode, red: bool, b: Tree)
    ensures Fold(f, Mk(d, a, n, red, b)) == Some(Apply(f, d, n.val, Fold(f, a), Fold(f, b)))
    ensures Stored(f, Mk(d, a, n, red, b)) <==>
            (Some(n.aug) == Fold(f, Mk(d, a, n, red, b)) && Stored(f, a) && Stored(f, b))
  {
  }

  /** A rotation keeps the summary of the subtree it turns. */
  lemma RotateFold(f: Compute, d: Side, a: Tree, p: RbNode, b: Tree, g: RbNode, u: Tree, c1: bool, c2: bool, c3: bool,
      c4: bool)
    requires Lawful(f)
    ensures Fold(f, Mk(d, Mk(d, a, p, c1, b), g, c2, u)) == Fold(f, Mk(d, a, p, c3, Mk(d, b, g, c4, u)))
  {
    hide Fold, Mk;
    FoldMk(f, d, a, p, c1, b);
    FoldMk(f, d, Mk(d, a, p, c1, b), g, c2, u);
    FoldMk(f, d, b, g, c4, u);
    FoldMk(f, d, a, p, c3, Mk(d, b, g, c4, u));
    var x, y, z := Fold(f, a), Fold(f, b), Fold(f, u);
    if d == Left {
      assert f(g.val, Some(f(p.val, x, y)), z) == f(p.val, x, Some(f(g.val, y, z)));
    } else {
      assert f(p.val, Some(f(g.val, z, y)), x) == f(g.val, z, Some(f(p.val, y, x)));
    }
  }

  function Painted(t: Tree, red: bool): Tree {
    match t
    case Leaf => Leaf
    case Node(l, n, _, r) => Node(l, n, red, r)
  }

  lemma RefInside(t: Tree)
    ensures Ref(t) != null ==> Ref(t) in Nodes(t)
  {
  }

  lemma UpOut(d: Side, n: RbNode, red: bool, sib: Tree, c: Ctx)
    ensures n in CNodes(Up(d, n, red, sib, c)) && Nodes(sib) <= CNodes(Up(d, n, red, sib, c))
    ensures CNodes(c) <= CNodes(Up(d, n, red, sib, c))
  {
  }

  lemma CRefInside(c: Ctx)
    ensures CRef(c, null) != null ==> CRef(c, null) in CNodes(c)
  {
  }

  /** The same nodes, grouped as a rotation at the child and then at the place itself need them. */
  lemma InnerStrewn(d: Side, a: Tree, p: RbNode, b: Tree, x: RbNode, e: Tree, g: RbNode, u: Tree, c: Ctx, xr: bool,
      red: bool)
    requires Strewn(a, p, Mk(d, b, x, xr, e), g, u, c)
    ensures Strewn(e, x, b, p, a, Up(d, g, red, u, c)) && Strewn(Mk(d, a, p, true, b), x, e, g, u, c)
    ensures Nodes(Mk(d, a, p, true, b)) == Nodes(a) + {p} + Nodes(b) && g != p && g != x
  {
    hide Apart, Nodes, Mk;
    ApartMk(d, b, x, xr, e);
    ApartMk(d, a, p, true, b);
  }

  lemma MkFlip(d: Side, a: Tree, n: RbNode, red: bool, b: Tree)
    ensures Mk(d, a, n, red, b) == Mk(d.Other(), b, n, red, a)
  {
  }

  lemma RefMk(d: Side, a: Tree, n: RbNode, red: bool, b: Tree)
    ensures Ref(Mk(d, a, n, red, b)) == n
  {
  }

  lemma LinkedMk(d: Side, a: Tree, n: RbNode, red: bool, b: Tree, p: RbNode?)
    ensures Linked(Mk(d, a, n, red, b), p) <==>
            (n.Kid(d) == Ref(a) && n.Kid(d.Other()) == Ref(b) && n.parent == p && n.red == red && Linked(a, n)
              && Linked(b, n))
  {
  }

  lemma PaintedLinked(t: Tree)
    requires t.Node?
    ensures Apart(t) ==> t.n !in Nodes(t.l) && t.n !in Nodes(t.r)
    ensures Linked(t, t.n.parent) <==>
            (t.n.left == Ref(t.l) && t.n.right == Ref(t.r) && t.n.red == t.red && Linked(t.l, t.n) && Linked(t.r, t.n))
    ensures Linked(Painted(t, false), null) <==>
            (t.n.left == Ref(t.l) && t.n.right == Ref(t.r) && t.n.parent == null && !t.n.red
            && Linked(t.l, t.n) && Linked(t.r, t.n))
  {
  }

  lemma PaintedBlack(t: Tree)
    requires Balanced(t)
    ensures RedBlack(Painted(t, false))
  {
  }

  lemma BlackenedSame(x: RbNode?, t: Tree)
    ensures Ref(Blackened(x, t)) == Ref(t) && Nodes(Blackened(x, t)) == Nodes(t)
      && InOrder(Blackened(x, t)) == InOrder(t)
    ensures Apart(Blackened(x, t)) <==> Apart(t)
  {
    PaintedSame(t, false);
  }

  lemma StrewnBlack(x: RbNode?, a: Tree, p: RbNode, b: Tree, g: RbNode, u: Tree, c: Ctx)
    requires Strewn(a, p, b, g, u, c)
    ensures Strewn(Blackened(x, a), p, b, g, u, c)
  {
    BlackenedSame(x, a);
  }

  /** A place with a node, its child on one side and that child's subtrees, taken apart. */
  lemma TwoDeep(e: Side, d: Side, t: Tree, p: RbNode, c1: bool, s: Tree, g: RbNode, c2: bool, u: Tree, c: Ctx)
    ensures Separate(c, Mk(e, Mk(d, t, p, c1, s), g, c2, u)) <==> Strewn(t, p, s, g, u, c)
    ensures forall q: RbNode? :: Linked(Mk(e, Mk(d, t, p, c1, s), g, c2, u), q) <==>
              (g.Kid(e) == p && g.Kid(e.Other()) == Ref(u) && g.parent == q && g.red == c2 && Linked(u, g)
              && p.Kid(d) == Ref(t) && p.Kid(d.Other()) == Ref(s) && p.parent == g && p.red == c1 && Linked(t, p)
                && Linked(s, p))
  {
    hide Apart, CApart, Nodes, CNodes, Mk, Linked, Ref;
    ApartMk(d, t, p, c1, s);
    ApartMk(e, Mk(d, t, p, c1, s), g, c2, u);
    LinkedMk(d, t, p, c1, s, g);
    RefMk(d, t, p, c1, s);
    forall q: RbNode? {
      LinkedMk(e, Mk(d, t, p, c1, s), g, c2, u, q);
    }
  }

  lemma PaintedSame(t: Tree, red: bool)
    ensures Ref(Painted(t, red)) == Ref(t) && Nodes(Painted(t, red)) == Nodes(t)
      && InOrder(Painted(t, red)) == InOrder(t)
    ensures Apart(Painted(t, red)) <==> Apart(t)
    ensures t.Node? ==> Red(Painted(t, red)) == red
  {
  }

  // ---- pointer steps ----

  ghost function Own(x: RbNode?): set<RbNode> {
    if x == null then {} else {x}
  }

  /** A subtree, if there is one, gets a new parent. */
  method SetParent(x: RbNode?, p: RbNode, ghost t: Tree, ghost q: RbNode?)
    requires x == Ref(t) && Apart(t) && Linked(t, q)
    modifies Own(x)`parent
    ensures Linked(t, p)
  {
    if x != null {
      x.parent := p;
    }
  }

  /** The same with a colour for its root. */
  method SetParentColor(x: RbNode?, p: RbNode, red: bool, ghost t: Tree, ghost q: RbNode?)
    requires x == Ref(t) && Apart(t) && Linked(t, q)
    modifies Own(x)`parent, Own(x)`red
    ensures Linked(Painted(t, red), p)
  {
    if x != null {
      x.parent, x.red := p, red;
    }
  }

  /** The subtree that changes hands in a rotation keeps its colour, by `rb_set_parent` or by setting it black again. */
  method HandOver(x: RbNode?, p: RbNode, keep: bool, ghost t: Tree, ghost q: RbNode?)
    requires x == Ref(t) && Apart(t) && Linked(t, q) && (keep || !Red(t))
    modifies Own(x)`parent, Own(x)`red
    ensures Linked(t, p)
  {
    if keep {
      SetParent(x, p, t, q);
    } else {
      SetParentColor(x, p, false, t, q);
    }
  }

  /** The nodes a rotation may write. */
  ghost function Turned(was: RbNode, now: RbNode, a: Tree, b: Tree, parent: RbNode?): set<RbNode> {
    {was, now} + Own(Ref(a)) + Own(Ref(b)) + Own(parent)
  }

  lemma PaintedFold(f: Compute, t: Tree, red: bool)
    ensures Fold(f, Painted(t, red)) == Fold(f, t)
    ensures Stored(f, Painted(t, red)) <==> Stored(f, t)
  {
  }

  lemma BlackenedFold(f: Compute, x: RbNode?, t: Tree)
    ensures Fold(f, Blackened(x, t)) == Fold(f, t)
    ensures Stored(f, Blackened(x, t)) <==> Stored(f, t)
  {
  }

  /** The subtree `t` once its root, if named, has been set black. */
  ghost function Blackened(x: RbNode?, t: Tree): Tree {
    if x == null then t else Painted(t, false)
  }

  method SetBlackChild(x: RbNode?, p: RbNode, ghost t: Tree, ghost q: RbNode?)
    requires (if x == null then q == p else x == Ref(t)) && Apart(t) && Linked(t, q)
    modifies Own(x)`parent, Own(x)`red
    ensures Linked(Blackened(x, t), p)
  {
    if x != null {
      SetParentColor(x, p, false, t, q);
    }
  }

  /** The two child pointers of a rotation; `was` is left alone on its other side, `now` on side `d`. */
  method TurnKids(d: Side, was: RbNode, now: RbNode, tmp: RbNode?)
    requires was != now
    modifies was`left, was`right, now`left, now`right
    ensures was.Kid(d) == tmp && was.Kid(d.Other()) == old(was.Kid(d.Other()))
    ensures now.Kid(d) == old(now.Kid(d)) && now.Kid(d.Other()) == was
  {
    if d == Left {
      was.left := tmp;
      now.right := was;
    } else {
      was.right := tmp;
      now.left := was;
    }
  }

  /** The parent pointers of the two subtrees below `now`. */
  method Rehang(far: RbNode?, now: RbNode, tmp: RbNode?, was: RbNode, keep: bool, ghost q: RbNode?, ghost a: Tree,
      ghost b: Tree)
    requires Apart(a) && Apart(b) && Nodes(a) !! Nodes(b) && tmp == Ref(b) && (keep || !Red(b))
    requires if far == null then q == now else far == Ref(a)
    requires Linked(a, q) && Linked(b, now)
    modifies Own(far)`parent, Own(far)`red, Own(tmp)`parent, Own(tmp)`red
    ensures Linked(Blackened(far, a), now) && Linked(b, was)
  {
    hide Apart, Linked, Nodes, Blackened, Ref, Red;
    assert allocated(Nodes(a)) && allocated(Nodes(b));
    RefInside(a);
    RefInside(b);
    BlackenedSame(far, a);
    SetBlackChild(far, now, a, q);
    HandOver(tmp, was, keep, b, now);
  }

  /** The pointer writes of a rotation below the place it happens at. */
  method TurnLinks(d: Side, was: RbNode, now: RbNode, far: RbNode?, keep: bool,
      ghost q: RbNode?, ghost a: Tree, ghost b: Tree, ghost u: Tree, ghost c: Ctx)
    requires Strewn(a, now, b, was, u, c)
    requires now.Kid(d) == Ref(a) && now.Kid(d.Other()) == Ref(b) && was.Kid(d.Other()) == Ref(u)
    requires if far == null then q == now else far == Ref(a)
    requires Linked(a, q) && Linked(b, now) && Linked(u, was) && (keep || !Red(b))
    modifies was`left, was`right, now`left, now`right
    modifies Own(far)`parent, Own(far)`red, Own(Ref(b))`parent, Own(Ref(b))`red
    ensures now.Kid(d) == Ref(a) && now.Kid(d.Other()) == was && was.Kid(d) == Ref(b) && was.Kid(d.Other()) == Ref(u)
    ensures Linked(Blackened(far, a), now) && Linked(b, was) && Linked(u, was)
  {
    hide Apart, Strewn, Linked, Nodes, Blackened, Ref, Red, RbNode.Kid;
    assert allocated(Nodes(a)) && allocated(Nodes(b)) && allocated(Nodes(u));
    StrewnOut(a, now, b, was, u, c, now);
    StrewnOut(a, now, b, was, u, c, was);
    StrewnOut(a, now, b, was, u, c, Ref(a));
    StrewnOut(a, now, b, was, u, c, Ref(b));
    var tmp := now.Kid(d.Other());
    TurnKids(d, was, now, tmp);
    Rehang(far, now, tmp, was, keep, q, a, b);
  }
}
