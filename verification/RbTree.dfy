/** rbtree.c and rbtree_augmented.h: insertion and removal fix-up on linked nodes. */
module RbTree {
  import opened Basics
  import opened RbShape
  import opened RbHeap

  class RbRoot {
    /** `struct rb_root`, and the user's summary function. */
    var rbNode: RbNode?
    const compute: Compute
    ghost var tree: Tree

    /** `RB_ROOT` */
    constructor (f: Compute)
      requires Lawful(f)
      ensures compute == f && tree == Leaf && Valid()
    {
      compute, rbNode, tree := f, null, Leaf;
    }

    /** The nodes form `tree`, by the red-black rules, each storing the summary of its subtree. */
    ghost predicate Valid()
      reads this, Nodes(tree)
    {
      At(Top, tree) && RedBlack(tree)
    }

    /** The whole tree is `t` filled into `c`: links, parents, colours and summaries all agree. */
    ghost predicate At(c: Ctx, t: Tree)
      reads this`rbNode
      reads Nodes(t)`left, Nodes(t)`right, Nodes(t)`parent, Nodes(t)`red, Nodes(t)`aug
      reads CNodes(c)`left, CNodes(c)`right, CNodes(c)`parent, CNodes(c)`red, CNodes(c)`aug
    {
      && Lawful(compute) && Placed(c, t)
      && Stored(compute, t) && CStored(compute, c, Fold(compute, t))
    }

    ghost predicate Placed(c: Ctx, t: Tree)
      reads this`rbNode
      reads Nodes(t)`left, Nodes(t)`right, Nodes(t)`parent, Nodes(t)`red
      reads CNodes(c)`left, CNodes(c)`right, CNodes(c)`parent, CNodes(c)`red
    {
      && Separate(c, t) && Linked(t, CRef(c, null)) && CLinked(c, Ref(t), null)
      && rbNode == TopRef(c, Ref(t))
    }

    /** `__rb_change_child` */
    method ChangeChild(was: RbNode, now: RbNode?, parent: RbNode?, ghost c: Ctx)
      requires parent == CRef(c, null) && CApart(c) && was !in CNodes(c)
      requires CLinked(c, was, null) && rbNode == TopRef(c, was)
      modifies this`rbNode
      modifies Own(parent)`left, Own(parent)`right
      ensures CLinked(c, now, null) && rbNode == TopRef(c, now)
    {
      if parent != null {
        if parent.left == was {
          parent.left := now;
        } else {
          parent.right := now;
        }
      } else {
        rbNode := now;
      }
    }

    /** `__rb_rotate_set_parents` */
    method RotateSetParents(was: RbNode, now: RbNode, red: bool, ghost c: Ctx)
      requires was.parent == CRef(c, null) && CApart(c) && was !in CNodes(c) && now !in CNodes(c) && was != now
      requires CLinked(c, was, null) && rbNode == TopRef(c, was)
      modifies this`rbNode, was`parent, was`red, now`parent, now`red
      modifies Own(was.parent)`left, Own(was.parent)`right
      ensures now.parent == old(was.parent) && now.red == old(was.red) && was.parent == now && was.red == red
      ensures CLinked(c, now, null) && rbNode == TopRef(c, now)
    {
      var parent := was.parent;
      now.parent, now.red := was.parent, was.red;
      was.parent, was.red := now, red;
      ChangeChild(was, now, parent, c);
    }

    function Stub(x: RbNode?): Option<Sum>
      reads Own(x)`aug
    {
      if x == null then None else Some(x.aug)
    }

    /** The summary of a node, from those its children store. */
    function Recompute(x: RbNode): Sum
      reads x`left, x`right, Own(x.left)`aug, Own(x.right)`aug
    {
      compute(x.val, Stub(x.left), Stub(x.right))
    }

    lemma RecomputeFolds(x: RbNode, l: Tree, r: Tree)
      requires x.left == Ref(l) && x.right == Ref(r) && Stored(compute, l) && Stored(compute, r)
      ensures Recompute(x) == compute(x.val, Fold(compute, l), Fold(compute, r))
    {
    }

    /** `rbname_rotate`: the new root takes over the summary, the old one recomputes its own. */
    method AugmentRotate(was: RbNode, now: RbNode, ghost d: Side, ghost b: Tree, ghost u: Tree)
      requires was != now && was !in Nodes(b) && was !in Nodes(u) && now !in Nodes(b) && now !in Nodes(u)
      requires was.Kid(d) == Ref(b) && was.Kid(d.Other()) == Ref(u) && Stored(compute, b) && Stored(compute, u)
      modifies was`aug, now`aug
      ensures now.aug == old(was.aug) && Fold(compute, Mk(d, b, was, true, u)) == Some(was.aug)
    {
      now.aug := was.aug;
      RecomputeFolds(was, if d == Left then b else u, if d == Left then u else b);
      was.aug := Recompute(was);
    }

    /**
     * The rotation the cases share: `now`, the child of `was` on side `d`, takes its place. `was` gets
     * the colour `red`; `far`, if given, becomes a black child of `now`; the subtree that changes
     * hands keeps its colour or is set black.
     */
    method RotateLinks(d: Side, was: RbNode, now: RbNode, red: bool, far: RbNode?, keep: bool,
        ghost q: RbNode?, ghost a: Tree, ghost b: Tree, ghost u: Tree, ghost c: Ctx)
      requires Strewn(a, now, b, was, u, c)
      requires now.Kid(d) == Ref(a) && now.Kid(d.Other()) == Ref(b) && was.Kid(d.Other()) == Ref(u)
      requires if far == null then q == now else far == Ref(a)
      requires Linked(a, q) && Linked(b, now) && Linked(u, was) && (keep || !Red(b))
      requires was.parent == CRef(c, null) && CLinked(c, was, null) && rbNode == TopRef(c, was)
      modifies this`rbNode
      modifies Turned(was, now, a, b, was.parent)`left, Turned(was, now, a, b, was.parent)`right
      modifies Turned(was, now, a, b, was.parent)`parent, Turned(was, now, a, b, was.parent)`red
      ensures Placed(c, Mk(d, Blackened(far, a), now, old(was.red), Mk(d, b, was, red, u)))
    {
      hide Apart, CApart, Separate, Strewn, Linked, CLinked, Placed, TopRef, Nodes, CNodes, Mk, Blackened, Ref, Red,
        RbNode.Kid;
      assert allocated(Nodes(a)) && allocated(Nodes(b)) && allocated(Nodes(u)) && allocated(CNodes(c));
      StrewnOut(a, now, b, was, u, c, now);
      StrewnOut(a, now, b, was, u, c, was);
      StrewnOut(a, now, b, was, u, c, Ref(a));
      StrewnOut(a, now, b, was, u, c, Ref(b));
      StrewnOut(a, now, b, was, u, c, was.parent);
      BlackenedSame(far, a);
      StrewnBlack(far, a, now, b, was, u, c);
      ghost var top := was.red;
      TurnLinks(d, was, now, far, keep, q, a, b, u, c);
      RotateSetParents(was, now, red, c);
      Assemble(d, Blackened(far, a), now, top, b, was, red, u, c);
    }

    /** Everything is in place to rotate `now` over `was`; `now`'s own parent and colour may be out of date. */
    ghost predicate Ready(d: Side, was: RbNode, now: RbNode, far: RbNode?, q: RbNode?, a: Tree, b: Tree, u: Tree,
        c: Ctx)
      reads this`rbNode, was, now, Nodes(a), Nodes(b), Nodes(u), CNodes(c)
    {
      && Lawful(compute) && Strewn(a, now, b, was, u, c)
      && now.Kid(d) == Ref(a) && now.Kid(d.Other()) == Ref(b) && was.Kid(d.Other()) == Ref(u)
      && (if far == null then q == now else far == Ref(a))
      && Linked(a, q) && Linked(b, now) && Linked(u, was)
      && was.parent == CRef(c, null) && CLinked(c, was, null) && rbNode == TopRef(c, was)
      && Stored(compute, a) && Stored(compute, b) && Stored(compute, u) && CStored(compute, c, Some(was.aug))
      && Fold(compute, Mk(d, Mk(d, a, now, true, b), was, true, u)) == Some(was.aug)
    }

    /** The same rotation with `augment_rotate`, in a tree whose summaries are right. */
    method Rotate(d: Side, was: RbNode, now: RbNode, red: bool, far: RbNode?, keep: bool,
        ghost q: RbNode?, ghost a: Tree, ghost b: Tree, ghost u: Tree, ghost c: Ctx)
      requires Ready(d, was, now, far, q, a, b, u, c) && (keep || !Red(b))
      modifies this`rbNode
      modifies Turned(was, now, a, b, was.parent)`left, Turned(was, now, a, b, was.parent)`right
      modifies Turned(was, now, a, b, was.parent)`parent, Turned(was, now, a, b, was.parent)`red
      modifies was`aug, now`aug
      ensures At(c, Mk(d, Blackened(far, a), now, old(was.red), Mk(d, b, was, red, u)))
    {
      hide Apart, CApart, Separate, Strewn, Linked, CLinked, Placed, TopRef, Nodes, CNodes, Mk, Blackened, Ref, Red,
        RbNode.Kid, Lawful, Fold, Stored, CStored;
      ghost var a', top := Blackened(far, a), was.red;
      assert allocated(Nodes(a)) && allocated(Nodes(b)) && allocated(Nodes(u)) && allocated(CNodes(c));
      RotateLinks(d, was, now, red, far, keep, q, a, b, u, c);
      StrewnOut(a, now, b, was, u, c, now);
      StrewnOut(a, now, b, was, u, c, was);
      PlacedKids(d, a', now, top, b, was, red, u, c);
      assert allocated(Nodes(Mk(d, a', now, top, Mk(d, b, was, red, u))));
      AugmentRotate(was, now, d, b, u);
      RotateFold(compute, d, a, now, b, was, u, true, true, top, red);
      BlackenedFold(compute, far, a);
      FoldMk(compute, d, b, was, true, u);
      FoldMk(compute, d, b, was, red, u);
      FoldMk(compute, d, a, now, top, Mk(d, b, was, red, u));
      FoldMk(compute, d, a', now, top, Mk(d, b, was, red, u));
    }

    lemma PlacedKids(d: Side, a: Tree, p: RbNode, top: bool, b: Tree, g: RbNode, red: bool, u: Tree, c: Ctx)
      requires Placed(c, Mk(d, a, p, top, Mk(d, b, g, red, u)))
      ensures g.Kid(d) == Ref(b) && g.Kid(d.Other()) == Ref(u)
    {
      LinkedMk(d, a, p, top, Mk(d, b, g, red, u), CRef(c, null));
      LinkedMk(d, b, g, red, u, p);
    }

    /** The parts of a rotated place make up the whole. */
    lemma Assemble(d: Side, a: Tree, p: RbNode, top: bool, b: Tree, g: RbNode, red: bool, u: Tree, c: Ctx)
      requires Strewn(a, p, b, g, u, c)
      requires p.Kid(d) == Ref(a) && p.Kid(d.Other()) == g && p.parent == CRef(c, null) && p.red == top
      requires g.Kid(d) == Ref(b) && g.Kid(d.Other()) == Ref(u) && g.parent == p && g.red == red
      requires Linked(a, p) && Linked(b, g) && Linked(u, g) && CLinked(c, p, null) && rbNode == TopRef(c, p)
      ensures Placed(c, Mk(d, a, p, top, Mk(d, b, g, red, u)))
    {
      hide Apart, CApart, Separate, Nodes, CNodes, Linked, CLinked, TopRef, Mk, Ref, Strewn;
      LinkedMk(d, b, g, red, u, p);
      LinkedMk(d, a, p, top, Mk(d, b, g, red, u), CRef(c, null));
      RefMk(d, b, g, red, u);
      RefMk(d, a, p, top, Mk(d, b, g, red, u));
      RotateSeparate(d, a, p, b, g, u, c, top, red);
    }

    lemma AtUp(c: Ctx, t: Tree)
      requires c.Up?
      ensures At(c, t) <==> At(c.up, Mk(c.d, t, c.n, c.red, c.sib))
    {
      var m := Mk(c.d, t, c.n, c.red, c.sib);
      hide Apart, Linked, Fold, Stored, Mk;
      ApartMk(c.d, t, c.n, c.red, c.sib);
      LinkedMk(c.d, t, c.n, c.red, c.sib, CRef(c.up, null));
      FoldMk(compute, c.d, t, c.n, c.red, c.sib);
      RefMk(c.d, t, c.n, c.red, c.sib);
    }

    // ---- __rb_insert ----

    /** Case 1: the parent and the uncle turn black, the grandparent red. */
    method InsertFlip(ghost d: Side, p: RbNode, ghost e: Side, g: RbNode, ghost t: Tree, ghost s: Tree, uncle: RbNode,
        ghost u: Tree, ghost c: Ctx)
      requires At(c, Mk(e, Mk(d, t, p, true, s), g, false, u)) && uncle == Ref(u)
      modifies p`parent, p`red, g`parent, g`red, uncle`parent, uncle`red
      ensures At(c, Mk(e, Mk(d, t, p, false, s), g, true, Painted(u, false)))
    {
      hide Apart, CApart, Linked, CLinked, TopRef, Nodes, CNodes, Mk, Lawful, Fold, Stored, CStored, RbNode.Kid;
      assert allocated(Nodes(t)) && allocated(Nodes(s)) && allocated(Nodes(u)) && allocated(CNodes(c));
      ghost var u' := Painted(u, false);
      PaintedSame(u, false);
      RefInside(u);
      assert allocated(Nodes(Mk(e, Mk(d, t, p, true, s), g, false, u)));
      TwoDeep(e, d, t, p, true, s, g, false, u, c);
      TwoDeep(e, d, t, p, false, s, g, true, u', c);
      RefMk(e, Mk(d, t, p, true, s), g, false, u);
      RefMk(e, Mk(d, t, p, false, s), g, true, u');
      SetParentColor(uncle, g, false, u, g);
      p.parent, p.red := g, false;
      g.parent, g.red := g.parent, true;
      TwoDeep(e, d, t, p, false, s, g, true, u', c);
      FlipFold(e, d, t, p, s, g, u, c);
    }

    lemma FlipFold(e: Side, d: Side, t: Tree, p: RbNode, s: Tree, g: RbNode, u: Tree, c: Ctx)
      ensures var t0, t1 := Mk(e, Mk(d, t, p, true, s), g, false, u),
        Mk(e, Mk(d, t, p, false, s), g, true, Painted(u, false));
        Fold(compute, t0) == Fold(compute, t1) && (Stored(compute, t0) <==> Stored(compute, t1))
    {
      hide Mk, Fold, Stored;
      FoldMk(compute, d, t, p, true, s);
      FoldMk(compute, d, t, p, false, s);
      FoldMk(compute, e, Mk(d, t, p, true, s), g, false, u);
      FoldMk(compute, e, Mk(d, t, p, false, s), g, true, Painted(u, false));
      PaintedFold(compute, u, false);
    }

    lemma AtReady(d: Side, was: RbNode, wr: bool, now: RbNode, nr: bool, a: Tree, b: Tree, u: Tree, c: Ctx)
      requires At(c, Mk(d, Mk(d, a, now, nr, b), was, wr, u))
      ensures Ready(d, was, now, null, now, a, b, u, c)
      ensures was.Kid(d) == now && was.red == wr && now.parent == was && now.red == nr
      ensures Some(now.aug) == Fold(compute, Mk(d, a, now, nr, b))
    {
      hide Apart, CApart, Linked, CLinked, TopRef, Nodes, CNodes, Mk, Fold, Stored, CStored, Lawful, RbNode.Kid,
        Strewn, Ref;
      TwoDeep(d, d, a, now, nr, b, was, wr, u, c);
      RefMk(d, Mk(d, a, now, nr, b), was, wr, u);
      FoldMk(compute, d, a, now, nr, b);
      FoldMk(compute, d, a, now, true, b);
      FoldMk(compute, d, Mk(d, a, now, nr, b), was, wr, u);
      FoldMk(compute, d, Mk(d, a, now, true, b), was, true, u);
    }

    /** After the child pointers of a rotation at `p` are written: `x` above `p`, whatever `g` points to. */
    ghost predicate Brought(d: Side, p: RbNode, x: RbNode, g: RbNode, a: Tree, b: Tree, e: Tree, u: Tree, c: Ctx)
      reads p, x, g, Nodes(a), Nodes(b), Nodes(e), Nodes(u), CNodes(c)
    {
      && p.Kid(d) == Ref(a) && p.Kid(d.Other()) == Ref(b) && x.Kid(d) == p && x.Kid(d.Other()) == Ref(e)
      && Linked(a, p) && Linked(b, p) && Linked(e, x) && Linked(u, g) && CLinked(c, g, null)
    }

    /** The links of a rotation at `p`, the child of `g` on side `d`, that brings up `p`'s inner child `x`. */
    method InnerLinks(d: Side, p: RbNode, x: RbNode, ghost g: RbNode,
        ghost a: Tree, ghost b: Tree, ghost e: Tree, ghost u: Tree, ghost c: Ctx)
      requires Strewn(e, x, b, p, a, Up(d, g, false, u, c)) && !Red(b)
      requires p.Kid(d) == Ref(a) && x.Kid(d) == Ref(b) && x.Kid(d.Other()) == Ref(e)
      requires Linked(a, p) && Linked(b, x) && Linked(e, x) && Linked(u, g) && CLinked(c, g, null)
      modifies p`left, p`right, x`left, x`right, Own(Ref(b))`parent, Own(Ref(b))`red
      ensures Brought(d, p, x, g, a, b, e, u, c)
      ensures p.parent == old(p.parent) && p.red == old(p.red) && g.parent == old(g.parent) && g.red == old(g.red)
      ensures g.Kid(d.Other()) == old(g.Kid(d.Other()))
    {
      hide Apart, CApart, Linked, CLinked, Nodes, CNodes, RbNode.Kid, Ref, Strewn;
      assert allocated(Nodes(u)) && allocated(CNodes(c));
      ghost var k := Up(d, g, false, u, c);
      UpOut(d, g, false, u, c);
      StrewnOut(e, x, b, p, a, k, Ref(b));
      StrewnOut(e, x, b, p, a, k, p);
      StrewnOut(e, x, b, p, a, k, x);
      TurnLinks(d.Other(), p, x, null, false, x, e, b, a, k);
    }

    /** Case 2 of insertion: the old parent turns red below the node that rises. */
    method InnerMend(d: Side, p: RbNode, x: RbNode, ghost g: RbNode,
        ghost a: Tree, ghost b: Tree, ghost e: Tree, ghost u: Tree, ghost c: Ctx)
      requires Strewn(e, x, b, p, a, Up(d, g, false, u, c)) && Brought(d, p, x, g, a, b, e, u, c)
      modifies p`parent, p`red
      ensures Brought(d, p, x, g, a, b, e, u, c) && p.parent == x && p.red
    {
      hide Apart, CApart, Linked, CLinked, Nodes, CNodes, RbNode.Kid, Ref, Strewn;
      ghost var k := Up(d, g, false, u, c);
      UpOut(d, g, false, u, c);
      StrewnOut(e, x, b, p, a, k, p);
      p.parent, p.red := x, true;
    }

    /** The summaries of `p` and `x` after a rotation; `mend` says whether `p`'s parent and colour are already right. */
    method InnerFinish(d: Side, p: RbNode, x: RbNode, ghost mend: bool, ghost g: RbNode,
        ghost a: Tree, ghost b: Tree, ghost e: Tree, ghost u: Tree, ghost c: Ctx)
      requires Lawful(compute) && Strewn(e, x, b, p, a, Up(d, g, false, u, c))
        && Strewn(Mk(d, a, p, true, b), x, e, g, u, c)
      requires Brought(d, p, x, g, a, b, e, u, c)
      requires g.Kid(d.Other()) == Ref(u) && g.parent == CRef(c, null) && rbNode == TopRef(c, g)
      requires if mend then p.parent == x && p.red else p.parent == g && !p.red
      requires Stored(compute, a) && Stored(compute, b) && Stored(compute, e) && Stored(compute, u)
        && CStored(compute, c, Some(g.aug))
      requires Fold(compute, Mk(d, Mk(d, Mk(d, a, p, true, b), x, true, e), g, true, u)) == Some(g.aug)
      modifies p`aug, x`aug
      ensures if mend then Ready(d, g, x, null, x, Mk(d, a, p, true, b), e, u, c)
              else Ready(d, g, x, p, g, Mk(d, a, p, false, b), e, u, c)
    {
      hide Apart, CApart, Linked, CLinked, TopRef, Nodes, CNodes, Mk, Fold, Stored, CStored, Lawful, RbNode.Kid, Ref,
        Strewn, Ready, Red;
      assert allocated(Nodes(a)) && allocated(Nodes(b)) && allocated(Nodes(e)) && allocated(Nodes(u))
        && allocated(CNodes(c));
      ghost var k := Up(d, g, false, u, c);
      UpOut(d, g, false, u, c);
      StrewnOut(e, x, b, p, a, k, p);
      StrewnOut(e, x, b, p, a, k, x);
      AugmentRotate(p, x, d.Other(), b, a);
      InnerReady(d, p, x, mend, g, a, b, e, u, c);
    }

    lemma InnerReady(d: Side, p: RbNode, x: RbNode, mend: bool, g: RbNode, a: Tree, b: Tree, e: Tree, u: Tree, c: Ctx)
      requires Lawful(compute) && Strewn(Mk(d, a, p, true, b), x, e, g, u, c)
      requires Brought(d, p, x, g, a, b, e, u, c)
      requires g.Kid(d.Other()) == Ref(u) && g.parent == CRef(c, null) && rbNode == TopRef(c, g)
      requires (if mend then p.parent == x else p.parent == g) && p.red == mend
      requires Stored(compute, a) && Stored(compute, b) && Stored(compute, e) && Stored(compute, u)
        && CStored(compute, c, Some(g.aug))
      requires Fold(compute, Mk(d, Mk(d, Mk(d, a, p, true, b), x, true, e), g, true, u)) == Some(g.aug)
      requires Fold(compute, Mk(d.Other(), b, p, true, a)) == Some(p.aug)
      ensures if mend then Ready(d, g, x, null, x, Mk(d, a, p, true, b), e, u, c)
              else Ready(d, g, x, p, g, Mk(d, a, p, false, b), e, u, c)
    {
      hide Apart, CApart, Linked, CLinked, TopRef, Nodes, CNodes, Mk, Fold, Stored, CStored, Lawful, RbNode.Kid, Ref;
      var t, t' := Mk(d, a, p, true, b), Mk(d, a, p, mend, b);
      LinkedMk(d, a, p, mend, b, p.parent);
      RefMk(d, a, p, mend, b);
      MkFlip(d, a, p, true, b);
      ApartMk(d, a, p, true, b);
      ApartMk(d, a, p, mend, b);
      FoldMk(compute, d, a, p, true, b);
      FoldMk(compute, d, a, p, mend, b);
      FoldMk(compute, d, t, x, true, e);
      FoldMk(compute, d, t', x, true, e);
      FoldMk(compute, d, Mk(d, t, x, true, e), g, true, u);
      FoldMk(compute, d, Mk(d, t', x, true, e), g, true, u);
    }

    /** Case 2: rotate at the parent, which leaves `x` under an out-of-date grandparent link for case 3. */
    method InsertInner(d: Side, p: RbNode, x: RbNode, ghost g: RbNode,
        ghost a: Tree, ghost b: Tree, ghost e: Tree, ghost u: Tree, ghost c: Ctx)
      requires At(c, Mk(d, Mk(d, a, p, true, Mk(d, b, x, true, e)), g, false, u)) && !Red(b)
      modifies p`left, p`right, p`parent, p`red, p`aug, x`left, x`right, x`aug, Own(Ref(b))`parent, Own(Ref(b))`red
      ensures Ready(d, g, x, null, x, Mk(d, a, p, true, b), e, u, c)
      ensures g.parent == CRef(c, null) && !g.red
    {
      hide Apart, CApart, Linked, CLinked, TopRef, Nodes, CNodes, Mk, Fold, Stored, CStored, Lawful, RbNode.Kid, Ref,
        Strewn, Brought, Ready, Red;
      assert allocated(Nodes(a)) && allocated(Nodes(b)) && allocated(Nodes(e)) && allocated(Nodes(u))
        && allocated(CNodes(c));
      InnerParts(d, g, false, p, true, x, a, b, e, u, c);
      InnerApart(d, g, false, p, true, x, a, b, e, u, c);
      InnerFold(d, g, false, p, true, x, a, b, e, u, c);
      RefInside(b);
      InnerLinks(d, p, x, g, a, b, e, u, c);
      InnerMend(d, p, x, g, a, b, e, u, c);
      InnerFinish(d, p, x, true, g, a, b, e, u, c);
    }

    lemma InnerApart(d: Side, g: RbNode, gr: bool, p: RbNode, pr: bool, x: RbNode, a: Tree, b: Tree, e: Tree, u: Tree,
        c: Ctx)
      requires At(c, Mk(d, Mk(d, a, p, pr, Mk(d, b, x, true, e)), g, gr, u))
      ensures Strewn(e, x, b, p, a, Up(d, g, false, u, c)) && Strewn(Mk(d, a, p, true, b), x, e, g, u, c)
      ensures Nodes(Mk(d, a, p, true, b)) == Nodes(a) + {p} + Nodes(b) && g != p && g != x
    {
      hide Apart, CApart, Strewn, Linked, CLinked, TopRef, Nodes, CNodes, Mk, Ref, RbNode.Kid, Fold, Stored, CStored,
        Lawful;
      var x' := Mk(d, b, x, true, e);
      TwoDeep(d, d, a, p, pr, x', g, gr, u, c);
      InnerStrewn(d, a, p, b, x, e, g, u, c, true, false);
    }

    lemma InnerParts(d: Side, g: RbNode, gr: bool, p: RbNode, pr: bool, x: RbNode, a: Tree, b: Tree, e: Tree, u: Tree,
        c: Ctx)
      requires At(c, Mk(d, Mk(d, a, p, pr, Mk(d, b, x, true, e)), g, gr, u))
      ensures g.Kid(d) == p && g.Kid(d.Other()) == Ref(u) && g.parent == CRef(c, null) && g.red == gr && Linked(u, g)
      ensures p.Kid(d) == Ref(a) && p.Kid(d.Other()) == x && Linked(a, p) && p.parent == g && p.red == pr
      ensures x.Kid(d) == Ref(b) && x.Kid(d.Other()) == Ref(e) && Linked(b, x) && Linked(e, x)
      ensures CLinked(c, g, null) && rbNode == TopRef(c, g)
    {
      hide Separate, Linked, CLinked, TopRef, Nodes, CNodes, Mk, Ref, RbNode.Kid, Fold, Stored, CStored, Lawful, At;
      AtTop(c, Mk(d, Mk(d, a, p, pr, Mk(d, b, x, true, e)), g, gr, u));
      var x' := Mk(d, b, x, true, e);
      var m := Mk(d, a, p, pr, x');
      LinkedMk(d, m, g, gr, u, CRef(c, null));
      LinkedMk(d, a, p, pr, x', g);
      LinkedMk(d, b, x, true, e, p);
      RefMk(d, m, g, gr, u);
      RefMk(d, a, p, pr, x');
      RefMk(d, b, x, true, e);
    }

    lemma AtTop(c: Ctx, t: Tree)
      requires At(c, t)
      ensures Linked(t, CRef(c, null)) && CLinked(c, Ref(t), null) && rbNode == TopRef(c, Ref(t))
    {
    }

    lemma InnerFold(d: Side, g: RbNode, gr: bool, p: RbNode, pr: bool, x: RbNode, a: Tree, b: Tree, e: Tree, u: Tree,
        c: Ctx)
      requires At(c, Mk(d, Mk(d, a, p, pr, Mk(d, b, x, true, e)), g, gr, u))
      ensures Stored(compute, a) && Stored(compute, b) && Stored(compute, e) && Stored(compute, u)
        && CStored(compute, c, Some(g.aug))
      ensures Fold(compute, Mk(d, Mk(d, Mk(d, a, p, true, b), x, true, e), g, true, u)) == Some(g.aug)
    {
      hide Apart, CApart, Linked, CLinked, TopRef, Nodes, CNodes, Mk, Ref, RbNode.Kid, Fold, Stored, CStored, Lawful,
        Placed;
      var f, x' := compute, Mk(d, b, x, true, e);
      FoldMk(f, d, Mk(d, a, p, pr, x'), g, gr, u);
      FoldMk(f, d, a, p, pr, x');
      FoldMk(f, d, b, x, true, e);
      RotateFold(f, d, a, p, b, x, e, true, true, pr, true);
      FoldMk(f, d, Mk(d, Mk(d, a, p, true, b), x, true, e), g, true, u);
    }

    /** What a node's fields say when the subtree below it is `t` and it is the innermost node of the context. */
    lemma IsPlaced(c: Ctx, t: Tree)
      requires At(c, t)
      ensures Placed(c, t)
    {
    }

    lemma Look(c: Ctx, t: Tree)
      requires Placed(c, t) && c.Up?
      ensures c.n.Kid(c.d) == Ref(t) && c.n.Kid(c.d.Other()) == Ref(c.sib)
      ensures c.n.parent == CRef(c.up, null) && c.n.red == c.red
      ensures t.Node? ==> t.n.parent == c.n && t.n.red == t.red
      ensures Ref(t) != null ==> Ref(t) != Ref(c.sib)
      ensures c.sib.Node? ==> c.sib.n.parent == c.n && c.sib.n.red == c.sib.red
      ensures Nodes(t) + CNodes(c) == Nodes(Mk(c.d, t, c.n, c.red, c.sib)) + CNodes(c.up)
    {
      RefInside(t);
      RefInside(c.sib);
    }

    /** The place two levels above the subtree `t`. */
    lemma AtUpTwice(c: Ctx, t: Tree)
      requires At(c, t) && c.Up? && c.up.Up?
      ensures At(c.up.up, Mk(c.up.d, Mk(c.d, t, c.n, c.red, c.sib), c.up.n, c.up.red, c.up.sib))
      ensures c.n.Kid(c.d) == Ref(t) && c.n.Kid(c.d.Other()) == Ref(c.sib) && (Ref(t) != null ==> Ref(t) != Ref(c.sib))
      ensures c.n.parent == c.up.n && c.n.red == c.red && c.up.n.parent == CRef(c.up.up, null) && c.up.n.red == c.up.red
      ensures c.up.n.Kid(c.up.d) == c.n && c.up.n.Kid(c.up.d.Other()) == Ref(c.up.sib) && c.n != Ref(c.up.sib)
      ensures Nodes(t) + Nodes(c.sib) + Nodes(c.up.sib) + CNodes(c.up.up) + {c.n, c.up.n} == Nodes(t) + CNodes(c)
    {
      hide At, CLinked, CStored, CApart, Linked, Stored, Apart, Fold, TopRef, RbNode.Kid, Mk, Ref, Nodes;
      var m := Mk(c.d, t, c.n, c.red, c.sib);
      AtUp(c, t);
      IsPlaced(c, t);
      Look(c, t);
      AtUp(c.up, m);
      IsPlaced(c.up, m);
      Look(c.up, m);
      RefMk(c.d, t, c.n, c.red, c.sib);
    }

    lemma TurnOuter(c: Ctx, t: Tree)
      requires At(c, t) && Growing(c, t) && c.Up? && c.red && c.up.Up? && !Red(c.up.sib) && c.d == c.up.d
      ensures At(c.up.up, Mk(c.d, Mk(c.d, t, c.n, true, c.sib), c.up.n, false, c.up.sib)) && !Red(c.sib) && !c.up.red
      ensures var t' := Mk(c.d, t, c.n, false, Mk(c.d, c.sib, c.up.n, true, c.up.sib));
        RedBlack(Plug(c.up.up, t')) && InOrder(Plug(c.up.up, t')) == InOrder(Plug(c, t))
    {
      hide At, CLinked, CStored, CApart, Linked, Stored, Apart, Fold, TopRef, RbNode.Kid, Mk, Ref, Nodes, RedBlack,
        InOrder;
      var d, p, g, s, u := c.d, c.n, c.up.n, c.sib, c.up.sib;
      AtUpTwice(c, t);
      OuterBalanced(d, p, g, t, s, u, c.up.up);
      RotateInOrder(d, t, p, s, g, u, true, false, false, true);
      SameOrder(c.up.up, Mk(d, Mk(d, t, p, true, s), g, false, u), Mk(d, t, p, false, Mk(d, s, g, true, u)));
    }

    lemma TurnInner(c: Ctx, t: Tree, b: Tree, e: Tree)
      requires At(c, t) && Growing(c, t) && c.Up? && c.red && c.up.Up? && !Red(c.up.sib) && c.d == c.up.d.Other()
      requires t == Mk(c.up.d, b, t.n, true, e)
      ensures At(c.up.up, Mk(c.up.d, Mk(c.up.d, c.sib, c.n, true, t), c.up.n, false, c.up.sib)) && !Red(b) && !Red(e)
        && !c.up.red
      ensures var t' := Mk(c.up.d, Mk(c.up.d, c.sib, c.n, true, b), t.n, false, Mk(c.up.d, e, c.up.n, true, c.up.sib));
        RedBlack(Plug(c.up.up, t')) && InOrder(Plug(c.up.up, t')) == InOrder(Plug(c, t))
    {
      hide At, CLinked, CStored, CApart, Linked, Stored, Apart, Fold, TopRef, RbNode.Kid, Mk, Ref, Nodes, RedBlack,
        InOrder;
      var d, p, g, s, u, x := c.up.d, c.n, c.up.n, c.sib, c.up.sib, t.n;
      AtUpTwice(c, t);
      MkFlip(d, s, p, true, t);
      InnerBalanced(d, p, g, x, b, e, s, u, c.up.up);
      InnerInOrder(d, s, p, b, x, e, g, u, true, true, false, true, false, true);
      SameOrder(c.up.up, Mk(d, Mk(d, s, p, true, t), g, false, u),
        Mk(d, Mk(d, s, p, true, b), x, false, Mk(d, e, g, true, u)));
    }

    /** A red node under a red parent with a black uncle: cases 2 and 3. */
    method InsertTurn(x: RbNode, parent: RbNode, gparent: RbNode, d: Side, ghost c0: Ctx,
        ghost t0: Tree) returns (ghost t: Tree)
      requires At(c0, t0) && Growing(c0, t0) && t0.n == x
      requires c0.Up? && c0.red && parent == c0.n && c0.up.Up? && gparent == c0.up.n && d == c0.up.d && !Red(c0.up.sib)
      modifies this`rbNode, Nodes(t0), CNodes(c0)
      ensures At(c0.up.up, t) && RedBlack(Plug(c0.up.up, t)) && InOrder(Plug(c0.up.up, t)) == InOrder(Plug(c0, t0))
    {
      hide At, CLinked, CStored, CApart, Linked, Stored, Apart, Fold, TopRef, RbNode.Kid, Nodes, CNodes, RedBlack,
        InOrder,
        Balanced, CBalanced, BlackHeight, Ready, Placed;
      ghost var up, s, u := c0.up.up, c0.sib, c0.up.sib;
      AtUpTwice(c0, t0);
      RefInside(t0);
      CRefInside(up);
      RefInside(s);
      if x == parent.Kid(d.Other()) {
        ghost var b, e := if d == Left then t0.l else t0.r, if d == Left then t0.r else t0.l;
        TurnInner(c0, t0, b, e);
        RefInside(b);
        RefInside(e);
        ApartMk(d, b, x, true, e);
        RefMk(d, s, parent, true, b);
        InsertInner(d, parent, x, gparent, s, b, e, u, up);
        t := Mk(d, Mk(d, s, parent, true, b), x, false, Mk(d, e, gparent, true, u));
        Rotate(d, gparent, x, true, null, false, x, Mk(d, s, parent, true, b), e, u, up);
      } else {
        TurnOuter(c0, t0);
        t := Mk(d, t0, parent, false, Mk(d, s, gparent, true, u));
        AtReady(d, gparent, false, parent, true, t0, s, u, up);
        Rotate(d, gparent, parent, true, null, false, parent, t0, s, u, up);
      }
    }

    /** The grandparent's fields decide the side and find the uncle. */
    lemma LookUp(c: Ctx, t: Tree)
      requires At(c, t) && Growing(c, t) && c.Up? && c.red
      ensures c.up.Up? && !c.up.red && c.n.parent == c.up.n
      ensures c.up.d == (if c.n != c.up.n.right then Left else Right)
      ensures c.up.n.Kid(c.up.d.Other()) == Ref(c.up.sib) && (c.up.sib.Node? ==> c.up.sib.n.red == c.up.sib.red)
      ensures At(c.up.up, Mk(c.up.d, Mk(c.d, t, c.n, true, c.sib), c.up.n, false, c.up.sib))
      ensures c.n in CNodes(c) && c.up.n in CNodes(c) && Nodes(c.up.sib) <= CNodes(c)
    {
      hide At, CLinked, CStored, CApart, Linked, Stored, Apart, Fold, TopRef, Mk, Ref;
      var m := Mk(c.d, t, c.n, true, c.sib);
      AtUpTwice(c, t);
      AtUp(c, t);
      IsPlaced(c.up, m);
      Look(c.up, m);
    }

    lemma FlipKeeps(c: Ctx, t: Tree, t': Tree)
      requires Growing(c, t) && c.Up? && c.red && c.up.Up? && !c.up.red && Red(c.up.sib)
      requires t' == Mk(c.up.d, Mk(c.d, t, c.n, false, c.sib), c.up.n, true, Painted(c.up.sib, false))
      ensures Growing(c.up.up, t') && InOrder(Plug(c.up.up, t')) == InOrder(Plug(c, t))
      ensures t'.Node? && t'.n == c.up.n && Nodes(t') + CNodes(c.up.up) == Nodes(t) + CNodes(c)
    {
      hide InOrder, Balanced, CBalanced, BlackHeight, Plug;
      var d, p, s, e, g, u := c.d, c.n, c.sib, c.up.d, c.up.n, c.up.sib;
      FlipGrowing(d, p, e, g, t, s, u, c.up.up);
      PlugTwice(c, t);
      PaintedSame(u, false);
      MkInOrder(d, t, t, p, true, false, s);
      MkInOrder(e, Mk(d, t, p, true, s), Mk(d, t, p, false, s), g, false, true, u);
      MkInOrder(e.Other(), u, Painted(u, false), g, true, true, Mk(d, t, p, false, s));
      SameOrder(c.up.up, Mk(e, Mk(d, t, p, true, s), g, false, u), t');
    }

    lemma PlugTwice(c: Ctx, t: Tree)
      requires c.Up? && c.up.Up?
      ensures Plug(c, t) == Plug(c.up.up, Mk(c.up.d, Mk(c.d, t, c.n, c.red, c.sib), c.up.n, c.up.red, c.up.sib))
    {
    }

    /** A red root is set black. */
    method BlackenRoot(x: RbNode, ghost t: Tree)
      requires At(Top, t) && Growing(Top, t) && t.n == x
      modifies x`parent, x`red
      ensures At(Top, Painted(t, false)) && RedBlack(Painted(t, false))
    {
      hide Apart, Fold, Stored, Lawful, Painted, Balanced, BlackHeight, Nodes;
      PaintedSame(t, false);
      PaintedFold(compute, t, false);
      PaintedBlack(t);
      PaintedLinked(t);
      x.parent, x.red := null, false;
      PaintedLinked(t);
    }

    /** `__rb_insert`: from a red node that may sit under a red parent back to a red-black tree. */
    method InsertColor(node: RbNode, ghost c0: Ctx, ghost t0: Tree) returns (ghost c: Ctx, ghost t: Tree)
      requires At(c0, t0) && Growing(c0, t0) && t0.n == node
      modifies this`rbNode, Nodes(t0), CNodes(c0)
      ensures At(c, t) && RedBlack(Plug(c, t)) && InOrder(Plug(c, t)) == InOrder(Plug(c0, t0))
    {
      hide At, CLinked, CStored, CApart, Linked, Stored, Apart, Fold, TopRef, RbNode.Kid, Mk, InOrder, Plug, RedBlack;
      ghost var order, all := InOrder(Plug(c0, t0)), Nodes(t0) + CNodes(c0);
      var x := node;
      c, t := c0, t0;
      IsPlaced(c, t);
      AtFields(c, t);
      var parent := x.parent;
      while true
        invariant At(c, t) && Growing(c, t) && t.n == x && parent == CRef(c, null)
        invariant InOrder(Plug(c, t)) == order && Nodes(t) + CNodes(c) == all
        decreases c
      {
        if parent == null {
          BlackenRoot(x, t);
          PlugTop(t);
          PlugTop(Painted(t, false));
          PaintedSame(t, false);
          t := Painted(t, false);
          break;
        } else {
          IsPlaced(c, t);
          Look(c, t);
          if !parent.red {
            PlugBalanced(c, t);
            IsRedBlack(Plug(c, t));
            break;
          }
        }
        LookUp(c, t);
        var gparent := parent.parent;
        var d := if parent != gparent.right then Left else Right;
        var tmp := gparent.Kid(d.Other());
        if tmp != null && tmp.red {
          ghost var t' := Mk(d, Mk(c.d, t, parent, false, c.sib), gparent, true, Painted(c.up.sib, false));
          RefInside(c.up.sib);
          InsertFlip(c.d, parent, d, gparent, t, c.sib, tmp, c.up.sib, c.up.up);
          FlipKeeps(c, t, t');
          c, t := c.up.up, t';
          IsPlaced(c, t);
          AtFields(c, t);
          x := gparent;
          parent := x.parent;
          continue;
        }
        t := InsertTurn(x, parent, gparent, d, c, t);
        c := c.up.up;
        break;
      }
    }

    lemma AtFields(c: Ctx, t: Tree)
      requires Placed(c, t)
      ensures t.Node? ==> t.n.parent == CRef(c, null) && t.n.red == t.red
    {
    }

    // ---- __rb_erase_color ----

    /** Case 1: a red sibling is rotated above the parent; the hole gets a black sibling under a red parent. */
    method EraseRedSibling(d: Side, parent: RbNode, sibling: RbNode, ghost near: Tree, ghost far: Tree, ghost t: Tree,
        ghost c: Ctx)
      requires At(Up(d, parent, false, Mk(d.Other(), far, sibling, true, near), c), t) && !Red(near)
      modifies this`rbNode, Nodes(t), {parent, sibling}, Nodes(near), Nodes(far), CNodes(c)
      ensures At(Up(d, parent, true, near, Up(d, sibling, false, far, c)), t)
    {
      hide At, CLinked, CStored, CApart, Linked, Stored, Apart, Fold, TopRef, RbNode.Kid, Mk, Ref, Nodes, CNodes,
        Ready, Placed, Red;
      SiblingReady(d, parent, false, sibling, true, near, far, t, c);
      RefInside(near);
      RefInside(far);
      CRefInside(c);
      Rotate(d.Other(), parent, sibling, true, null, false, sibling, far, near, t, c);
      MkFlip(d, t, parent, true, near);
      MkFlip(d, Mk(d, t, parent, true, near), sibling, false, far);
      AtUp(Up(d, sibling, false, far, c), Mk(d, t, parent, true, near));
      AtUp(Up(d, parent, true, near, Up(d, sibling, false, far, c)), t);
    }

    lemma SiblingReady(d: Side, p: RbNode, pr: bool, s: RbNode, sr: bool, near: Tree, far: Tree, t: Tree, c: Ctx)
      requires At(Up(d, p, pr, Mk(d.Other(), far, s, sr, near), c), t)
      ensures At(c, Mk(d.Other(), Mk(d.Other(), far, s, sr, near), p, pr, t))
      ensures Ready(d.Other(), p, s, null, s, far, near, t, c)
      ensures p.Kid(d.Other()) == s && p.red == pr && s.parent == p && s.red == sr && p.parent == CRef(c, null)
      ensures s.Kid(d.Other()) == Ref(far) && s.Kid(d) == Ref(near)
      ensures (far.Node? ==> far.n.red == far.red) && (near.Node? ==> near.n.red == near.red)
    {
      hide At, CLinked, CStored, CApart, Stored, Apart, Fold, TopRef, RbNode.Kid, Mk, Nodes, CNodes, Strewn;
      var o, sib := d.Other(), Mk(d.Other(), far, s, sr, near);
      AtUp(Up(d, p, pr, sib, c), t);
      MkFlip(d, t, p, pr, sib);
      AtReady(o, p, pr, s, sr, far, near, t, c);
    }

    /** Case 2: the sibling turns red, and a red parent black. */
    method EraseFlip(parent: RbNode, sibling: RbNode, ghost o: Side, ghost near: Tree, ghost far: Tree, ghost t: Tree,
        ghost c: Ctx)
      requires At(c, Mk(o, Mk(o, far, sibling, false, near), parent, parent.red, t))
      modifies parent`red, sibling`parent, sibling`red
      ensures At(c, Mk(o, Mk(o, far, sibling, true, near), parent, false, t)) && parent.parent == CRef(c, null)
    {
      hide Apart, CApart, Linked, CLinked, TopRef, Nodes, CNodes, Mk, Lawful, Fold, Stored, CStored, RbNode.Kid,
        Strewn, Ref;
      TwoDeep(o, o, far, sibling, false, near, parent, parent.red, t, c);
      TwoDeep(o, o, far, sibling, true, near, parent, false, t, c);
      StrewnOut(far, sibling, near, parent, t, c, sibling);
      StrewnOut(far, sibling, near, parent, t, c, parent);
      RefMk(o, Mk(o, far, sibling, false, near), parent, parent.red, t);
      RefMk(o, Mk(o, far, sibling, true, near), parent, false, t);
      EraseFlipFold(o, parent, parent.red, sibling, near, far, t);
      sibling.parent, sibling.red := parent, true;
      if parent.red {
        parent.red := false;
      }
      TwoDeep(o, o, far, sibling, true, near, parent, false, t, c);
    }

    lemma EraseFlipFold(o: Side, p: RbNode, pr: bool, s: RbNode, near: Tree, far: Tree, t: Tree)
      ensures var t0, t1 := Mk(o, Mk(o, far, s, false, near), p, pr, t), Mk(o, Mk(o, far, s, true, near), p, false, t);
        Fold(compute, t0) == Fold(compute, t1) && (Stored(compute, t0) <==> Stored(compute, t1))
    {
      hide Mk, Fold, Stored;
      FoldMk(compute, o, far, s, false, near);
      FoldMk(compute, o, far, s, true, near);
      FoldMk(compute, o, Mk(o, far, s, false, near), p, pr, t);
      FoldMk(compute, o, Mk(o, far, s, true, near), p, false, t);
    }

    /** Case 3: rotate at the sibling, which leaves the links and colours case 4 overwrites out of date. */
    method EraseInner(o: Side, parent: RbNode, sibling: RbNode, y: RbNode,
        ghost far: Tree, ghost b: Tree, ghost e: Tree, ghost t: Tree, ghost c: Ctx)
      requires At(c, Mk(o, Mk(o, far, sibling, false, Mk(o, b, y, true, e)), parent, parent.red, t)) && !Red(b)
      modifies parent`left, parent`right, sibling`left, sibling`right, sibling`aug, y`left, y`right, y`aug
      modifies Own(Ref(b))`parent, Own(Ref(b))`red, sibling`parent, sibling`red
      ensures Ready(o, parent, y, sibling, parent, Mk(o, far, sibling, false, b), e, t, c)
      ensures parent.parent == CRef(c, null) && parent.red == old(parent.red)
    {
      hide Apart, CApart, Linked, CLinked, TopRef, Nodes, CNodes, Mk, Fold, Stored, CStored, Lawful, Ref, Strewn,
        Brought, RbNode.Kid, Ready, Red;
      assert allocated(Nodes(far)) && allocated(Nodes(b)) && allocated(Nodes(e)) && allocated(Nodes(t))
        && allocated(CNodes(c));
      InnerParts(o, parent, parent.red, sibling, false, y, far, b, e, t, c);
      InnerApart(o, parent, parent.red, sibling, false, y, far, b, e, t, c);
      InnerFold(o, parent, parent.red, sibling, false, y, far, b, e, t, c);
      RefInside(b);
      InnerLinks(o, sibling, y, parent, far, b, e, t, c);
      InnerHook(o, sibling, y, parent, far, b, e, t, c);
      InnerFinish(o, sibling, y, false, parent, far, b, e, t, c);
    }

    /** The parent's child pointer on side `o`. */
    method InnerHook(o: Side, p: RbNode, x: RbNode, g: RbNode,
        ghost a: Tree, ghost b: Tree, ghost e: Tree, ghost u: Tree, ghost c: Ctx)
      requires Strewn(Mk(o, a, p, true, b), x, e, g, u, c) && Brought(o, p, x, g, a, b, e, u, c)
      modifies g`left, g`right
      ensures Brought(o, p, x, g, a, b, e, u, c) && g.Kid(o.Other()) == old(g.Kid(o.Other()))
    {
      hide Apart, CApart, Linked, CLinked, Mk, Ref, Nodes, CNodes;
      ApartMk(o, a, p, true, b);
      if o == Left {
        g.left := x;
      } else {
        g.right := x;
      }
    }

    lemma EraseOuterOrder(c: Ctx, t: Tree, s: RbNode, near: Tree, far: Tree)
      requires Short(c, t) && c.sib == Mk(c.d.Other(), far, s, false, near) && Red(far)
      ensures var o := c.d.Other(); var t' := Mk(o, Painted(far, false), s, c.red, Mk(o, near, c.n, false, t));
        RedBlack(Plug(c.up, t')) && InOrder(Plug(c.up, t')) == InOrder(Plug(c, t))
    {
      hide Mk, InOrder, RedBlack, Balanced, CBalanced, BlackHeight;
      var d, o, p, far' := c.d, c.d.Other(), c.n, Painted(far, false);
      OuterRepairs(d, p, c.red, s, near, far, far', t, c.up);
      PaintedSame(far, false);
      MkFlip(d, t, p, c.red, c.sib);
      RotateInOrder(o, far, s, near, p, t, false, c.red, c.red, false);
      MkInOrder(o, far, far', s, c.red, c.red, Mk(o, near, p, false, t));
      PlugUp(c, t);
      SameOrder(c.up, Mk(o, Mk(o, far, s, false, near), p, c.red, t), Mk(o, far', s, c.red, Mk(o, near, p, false, t)));
    }

    lemma EraseInnerOrder(c: Ctx, t: Tree, s: RbNode, y: RbNode, b: Tree, e: Tree, far: Tree)
      requires Short(c, t) && c.sib == Mk(c.d.Other(), far, s, false, Mk(c.d.Other(), b, y, true, e)) && !Red(far)
      ensures var o := c.d.Other(); var t' := Mk(o, Mk(o, far, s, false, b), y, c.red, Mk(o, e, c.n, false, t));
        RedBlack(Plug(c.up, t')) && InOrder(Plug(c.up, t')) == InOrder(Plug(c, t)) && !Red(b)
    {
      hide Mk, InOrder, RedBlack, Balanced, CBalanced, BlackHeight;
      var d, o, p := c.d, c.d.Other(), c.n;
      InnerRepairs(d, p, c.red, s, y, b, e, far, t, c.up);
      MkFlip(d, t, p, c.red, c.sib);
      InnerInOrder(o, far, s, b, y, e, p, t, false, true, c.red, false, c.red, false);
      PlugUp(c, t);
      SameOrder(c.up, Mk(o, c.sib, p, c.red, t), Mk(o, Mk(o, far, s, false, b), y, c.red, Mk(o, e, p, false, t)));
    }

    lemma PlugUp(c: Ctx, t: Tree)
      requires c.Up?
      ensures Plug(c, t) == Plug(c.up, Mk(c.d, t, c.n, c.red, c.sib))
    {
    }

    lemma FarReady(d: Side, was: RbNode, now: RbNode, far: RbNode, a: Tree, b: Tree, u: Tree, c: Ctx)
      requires Ready(d, was, now, null, now, a, b, u, c) && far == Ref(a)
      ensures Ready(d, was, now, far, now, a, b, u, c)
    {
    }

    /** Case 4 alone: the sibling's far child is red. */
    method EraseOuter(d: Side, parent: RbNode, sibling: RbNode, far1: RbNode, ghost near: Tree, ghost far: Tree,
        ghost c: Ctx, ghost t: Tree)
      requires At(c, t) && Short(c, t) && c.Up? && c.n == parent && c.d == d
        && c.sib == Mk(d.Other(), far, sibling, false, near)
      requires far1 == Ref(far) && Red(far)
      modifies this`rbNode, {parent, sibling}, Nodes(near), Nodes(far), CNodes(c.up)
      ensures var o := d.Other(); var t' := Mk(o, Painted(far, false), sibling, c.red, Mk(o, near, parent, false, t));
        At(c.up, t') && RedBlack(Plug(c.up, t')) && InOrder(Plug(c.up, t')) == InOrder(Plug(c, t))
    {
      hide At, CLinked, CStored, CApart, Linked, Stored, Apart, Fold, TopRef, RbNode.Kid, Mk, Nodes, CNodes, Ready,
        Placed, Red,
        InOrder, RedBlack, Balanced, CBalanced, BlackHeight, Painted, Short, Ref;
      SiblingReady(d, parent, c.red, sibling, false, near, far, t, c.up);
      FarReady(d.Other(), parent, sibling, far1, far, near, t, c.up);
      EraseOuterOrder(c, t, sibling, near, far);
      RefInside(near);
      RefInside(far);
      CRefInside(c.up);
      Rotate(d.Other(), parent, sibling, false, far1, true, sibling, far, near, t, c.up);
    }

    /** Cases 3 and 4: only the sibling's near child `y` is red. */
    method EraseInnerOuter(d: Side, parent: RbNode, sibling: RbNode, y: RbNode, ghost b: Tree, ghost e: Tree,
        ghost far: Tree, ghost c: Ctx, ghost t: Tree)
      requires At(c, t) && Short(c, t) && c.Up? && c.n == parent && c.d == d
      requires c.sib == Mk(d.Other(), far, sibling, false, Mk(d.Other(), b, y, true, e)) && !Red(far)
      modifies this`rbNode, {parent, sibling, y}, Nodes(b), Nodes(e), Nodes(far), CNodes(c.up)
      ensures var o := d.Other(); var t' := Mk(o, Mk(o, far, sibling, false, b), y, c.red, Mk(o, e, parent, false, t));
        At(c.up, t') && RedBlack(Plug(c.up, t')) && InOrder(Plug(c.up, t')) == InOrder(Plug(c, t))
    {
      hide At, CLinked, CStored, CApart, Linked, Stored, Apart, Fold, TopRef, RbNode.Kid, Mk, Nodes, CNodes, Ready,
        Placed, Red,
        InOrder, RedBlack, Balanced, CBalanced, BlackHeight, Short, Ref;
      ghost var o := d.Other();
      ghost var m := Mk(o, far, sibling, false, b);
      SiblingReady(d, parent, c.red, sibling, false, Mk(o, b, y, true, e), far, t, c.up);
      EraseInnerOrder(c, t, sibling, y, b, e, far);
      RefInside(b);
      RefInside(e);
      CRefInside(c.up);
      RefMk(o, far, sibling, false, b);
      EraseInner(d.Other(), parent, sibling, y, far, b, e, t, c.up);
      Rotate(d.Other(), parent, y, false, sibling, true, parent, m, e, t, c.up);
      assert Blackened(sibling, m) == m by {
        PaintedMk(o, far, sibling, b);
      }
    }

    lemma PaintedMk(d: Side, a: Tree, n: RbNode, b: Tree)
      ensures Painted(Mk(d, a, n, false, b), false) == Mk(d, a, n, false, b)
    {
    }

    /** Where the short side's sibling is, and that it exists. */
    lemma LookSibling(c: Ctx, t: Tree)
      requires At(c, t) && Short(c, t)
      ensures c.d == (if Ref(t) != c.n.right then Left else Right) && c.sib.Node?
      ensures c.n.Kid(c.d.Other()) == c.sib.n && c.sib.n.red == c.sib.red && c.n.red == c.red
      ensures c.sib.n.Kid(c.d.Other()) == Ref(FarOf(c)) && c.sib.n.Kid(c.d) == Ref(NearOf(c))
      ensures Red(FarOf(c)) == (FarOf(c).Node? && FarOf(c).n.red)
        && Red(NearOf(c)) == (NearOf(c).Node? && NearOf(c).n.red)
      ensures c.sib == Mk(c.d.Other(), FarOf(c), c.sib.n, c.sib.red, NearOf(c))
      ensures c.n in CNodes(c) && c.sib.n in CNodes(c) && Nodes(FarOf(c)) <= CNodes(c)
        && Nodes(NearOf(c)) <= CNodes(c) && CNodes(c.up) <= CNodes(c)
      ensures CNodes(c) == {c.n, c.sib.n} + Nodes(FarOf(c)) + Nodes(NearOf(c)) + CNodes(c.up)
    {
      hide CStored, CApart, Stored, Apart, Fold, TopRef, Lawful;
      var o, far, near := c.d.Other(), FarOf(c), NearOf(c);
      assert Linked(c.sib, c.n);
      RefInside(c.sib);
      LinkedMk(o, far, c.sib.n, c.sib.red, near, c.n);
    }

    /** The rest of an iteration, the sibling being black; `again` says the fix-up goes on at the parent. */
    method EraseBlackSibling(d: Side, parent: RbNode, sibling: RbNode, ghost c0: Ctx, ghost t0: Tree)
        returns (again: bool, ghost c: Ctx, ghost t: Tree)
      requires At(c0, t0) && Short(c0, t0) && c0.Up? && c0.n == parent && c0.d == d && c0.sib.Node?
        && c0.sib.n == sibling && !c0.sib.red
      modifies this`rbNode, CNodes(c0)
      ensures At(c, t) && InOrder(Plug(c, t)) == InOrder(Plug(c0, t0)) && c == c0.up
      ensures if again then Short(c, t) && !c0.red && t.Node? && t.n == parent else RedBlack(Plug(c, t))
    {
      hide At, CLinked, CStored, CApart, Linked, Stored, Apart, Fold, TopRef, RbNode.Kid, Mk, Nodes, CNodes, Ready,
        Placed,
        InOrder, RedBlack, Balanced, CBalanced, BlackHeight, Painted, Short, Plug;
      LookSibling(c0, t0);
      ghost var o, far, near := d.Other(), FarOf(c0), NearOf(c0);
      c := c0.up;
      RefInside(near);
      var tmp1 := sibling.Kid(d.Other());
      if tmp1 == null || !tmp1.red {
        var tmp2 := sibling.Kid(d);
        if tmp2 == null || !tmp2.red {
          t := Mk(o, Mk(o, far, sibling, true, near), parent, false, t0);
          FlipStep(c0, t0, far, near);
          again := !parent.red;
          EraseFlip(parent, sibling, o, near, far, t0, c);
          again := again && parent.parent != null;
        } else {
          ghost var b, e := if o == Left then near.l else near.r, if o == Left then near.r else near.l;
          NearParts(o, near, b, e);
          t := Mk(o, Mk(o, far, sibling, false, b), tmp2, c0.red, Mk(o, e, parent, false, t0));
          EraseInnerOuter(d, parent, sibling, tmp2, b, e, far, c0, t0);
          again := false;
        }
      } else {
        t := Mk(o, Painted(far, false), sibling, c0.red, Mk(o, near, parent, false, t0));
        EraseOuter(d, parent, sibling, tmp1, near, far, c0, t0);
        again := false;
      }
    }

    lemma NearParts(o: Side, near: Tree, b: Tree, e: Tree)
      requires near.Node? && (if o == Left then b == near.l && e == near.r else b == near.r && e == near.l)
      ensures near == Mk(o, b, near.n, near.red, e) && Nodes(b) <= Nodes(near) && Nodes(e) <= Nodes(near)
    {
    }

    lemma FlipStep(c: Ctx, t: Tree, far: Tree, near: Tree)
      requires At(c, t) && Short(c, t) && c.sib.Node? && !c.sib.red && far == FarOf(c) && near == NearOf(c)
        && !Red(far) && !Red(near)
      requires c.sib == Mk(c.d.Other(), far, c.sib.n, false, near)
      ensures At(c.up, Mk(c.d.Other(), Mk(c.d.Other(), far, c.sib.n, false, near), c.n, c.red, t))
      ensures var t' := Mk(c.d.Other(), Mk(c.d.Other(), far, c.sib.n, true, near), c.n, false, t);
        (if c.red || c.up.Top? then RedBlack(Plug(c.up, t')) else Short(c.up, t'))
        && InOrder(Plug(c.up, t')) == InOrder(Plug(c, t)) && Ref(t') == c.n
    {
      hide At, CLinked, CStored, CApart, Linked, Stored, Apart, Fold, TopRef, RbNode.Kid, Mk, InOrder, Plug, Ref,
        Nodes, CNodes;
      var d, o, p, s := c.d, c.d.Other(), c.n, c.sib.n;
      AtUp(c, t);
      MkFlip(d, t, p, c.red, c.sib);
      FlipShort(d, p, c.red, s, near, far, t, c.up);
      MkFlip(d, t, p, false, Mk(o, far, s, true, near));
      PlugUp(c, t);
      MkInOrder(o, far, far, s, false, true, near);
      MkInOrder(o, Mk(o, far, s, false, near), Mk(o, far, s, true, near), p, c.red, false, t);
      SameOrder(c.up, Mk(o, Mk(o, far, s, false, near), p, c.red, t), Mk(o, Mk(o, far, s, true, near), p, false, t));
      RefMk(o, Mk(o, far, s, true, near), p, false, t);
    }

    /** `__rb_erase_color`: from one black node short on one side back to a red-black tree. */
    method EraseColor(parent0: RbNode, ghost c0: Ctx) returns (ghost c: Ctx, ghost t: Tree)
      requires At(c0, Leaf) && Short(c0, Leaf) && c0.Up? && c0.n == parent0
      modifies this`rbNode, CNodes(c0)
      ensures At(c, t) && RedBlack(Plug(c, t)) && InOrder(Plug(c, t)) == InOrder(Plug(c0, Leaf))
    {
      hide At, CLinked, CStored, CApart, Linked, Stored, Apart, Fold, TopRef, RbNode.Kid, Mk, Placed,
        InOrder, RedBlack, Balanced, CBalanced, BlackHeight, Painted, Short, Plug, CNodes, Nodes;
      var node: RbNode?, parent := null, parent0;
      c, t := c0, Leaf;
      ghost var order := InOrder(Plug(c0, Leaf));
      NodesLeaf(c);
      while true
        invariant At(c, t) && Short(c, t) && c.Up? && Ref(t) == node && c.n == parent
        invariant InOrder(Plug(c, t)) == order && Nodes(t) + CNodes(c) == CNodes(c0)
        decreases c
      {
        ghost var c1, t1 := c, t;
        LookSibling(c, t);
        var d := if node != parent.right then Left else Right;
        var sibling := parent.Kid(d.Other());
        if sibling.red {
          ghost var near, far := NearOf(c), FarOf(c);
          SwapSibling(c, t);
          var tmp1 := sibling.Kid(d);
          EraseRedSibling(d, parent, sibling, near, far, t, c.up);
          c := Up(d, parent, true, near, Up(d, sibling, false, far, c.up));
          sibling := tmp1;
        }
        var again;
        WholeNodes(c, t);
        again, c, t := EraseBlackSibling(d, parent, sibling, c, t);
        WholeNodes(c, t);
        if !again {
          break;
        }
        node := parent;
        IsPlaced(c, t);
        AtFields(c, t);
        parent := parent.parent;
        ShortUp(c, t);
      }
    }

    lemma NodesLeaf(c: Ctx)
      ensures Nodes(Leaf) + CNodes(c) == CNodes(c)
    {
    }

    lemma ShortUp(c: Ctx, t: Tree)
      requires Short(c, t)
      ensures c.Up?
    {
    }

    /** All the nodes of the tree, read off its order. */
    lemma WholeNodes(c: Ctx, t: Tree)
      ensures Nodes(t) + CNodes(c) == (set x | x in InOrder(Plug(c, t)))
    {
      PlugNodes(c, t);
      forall x: RbNode {
        NodesInOrder(Plug(c, t), x);
      }
    }

    lemma SwapSibling(c: Ctx, t: Tree)
      requires At(c, t) && Short(c, t) && c.sib.Node? && c.sib.red
      ensures var near, far := NearOf(c),
        FarOf(c); var c' := Up(c.d, c.n, true, near, Up(c.d, c.sib.n, false, far, c.up));
        !c.red && !Red(near) && near.Node? && c.sib.n.Kid(c.d) == near.n && near.n.red == near.red
        && At(Up(c.d, c.n, false, Mk(c.d.Other(), far, c.sib.n, true, near), c.up), t)
        && Short(c', t) && InOrder(Plug(c', t)) == InOrder(Plug(c, t)) && CNodes(c') == CNodes(c)
    {
      hide At, CLinked, CStored, CApart, Linked, Stored, Apart, Fold, TopRef, RbNode.Kid, Mk, InOrder, Plug;
      var d, o, p, s, near, far := c.d, c.d.Other(), c.n, c.sib.n, NearOf(c), FarOf(c);
      LookSibling(c, t);
      RedSiblingShort(d, p, s, near, far, t, c.up, c.red);
      var k := Up(d, s, false, far, c.up);
      PlugUp(c, t);
      PlugUp(Up(d, p, true, near, k), t);
      PlugUp(k, Mk(d, t, p, true, near));
      MkFlip(d, t, p, false, c.sib);
      MkFlip(d, t, p, true, near);
      MkFlip(d, Mk(d, t, p, true, near), s, false, far);
      RotateInOrder(o, far, s, near, p, t, true, false, false, true);
      SameOrder(c.up, Mk(o, c.sib, p, false, t), Mk(o, far, s, false, Mk(o, near, p, true, t)));
    }

    // ---- augmented removal ----

    /** The summaries from the context's second node up are right for what its innermost node stores now. */
    ghost predicate CLoose(c: Ctx)
      reads CNodes(c)`aug
    {
      c.Up? ==> Stored(compute, c.sib) && CStored(compute, c.up, Some(c.n.aug))
    }

    /** `rbname_propagate`: recompute upwards until a summary does not change or `stop` is reached. */
    method Propagate(rb0: RbNode?, stop: RbNode?, ghost c: Ctx, ghost t: Tree)
      requires CLinked(c, Ref(t), stop) && Separate(c, t) && (stop == null || stop !in CNodes(c))
      requires Stored(compute, t) && CLoose(c) && rb0 == CRef(c, stop)
      modifies CNodes(c)`aug
      ensures Stored(compute, Plug(c, t))
    {
      hide CLinked, CStored, CApart, Stored, Apart, Fold, Mk, Ref, Separate;
      var rb := rb0;
      ghost var k, t' := c, t;
      while rb != stop
        invariant CLinked(k, Ref(t'), stop) && Separate(k, t') && rb == CRef(k, stop)
        invariant Stored(compute, t') && CLoose(k) && Plug(k, t') == Plug(c, t) && CNodes(k) <= CNodes(c)
        decreases k
      {
        ghost var m := Mk(k.d, t', k.n, k.red, k.sib);
        StepParts(k, t', stop);
        RecomputeFolds(rb, if k.d == Left then t' else k.sib, if k.d == Left then k.sib else t');
        var augmented := Recompute(rb);
        FoldMk(compute, k.d, t', k.n, k.red, k.sib);
        if rb.aug == augmented {
          Tight(k, t');
          PlugStored(compute, k, t');
          break;
        }
        ghost var was := Some(rb.aug);
        rb.aug := augmented;
        FoldMk(compute, k.d, t', k.n, k.red, k.sib);
        rb := rb.parent;
        LooseUp(k.up, was);
        t', k := m, k.up;
      }
    }

    lemma StepParts(c: Ctx, t: Tree, above: RbNode?)
      requires c.Up? && CLinked(c, Ref(t), above) && Separate(c, t)
      ensures c.n.left == Ref(if c.d == Left then t else c.sib) && c.n.right == Ref(if c.d == Left then c.sib else t)
      ensures c.n.parent == CRef(c.up, above) && CLinked(c.up, Ref(Mk(c.d, t, c.n, c.red, c.sib)), above)
      ensures Separate(c.up, Mk(c.d, t, c.n, c.red, c.sib))
      ensures c.n !in Nodes(t) && c.n !in Nodes(c.sib) && c.n !in CNodes(c.up)
      ensures Plug(c, t) == Plug(c.up, Mk(c.d, t, c.n, c.red, c.sib)) && CNodes(c.up) <= CNodes(c) && c.n in CNodes(c)
    {
      hide Apart, Mk;
      ApartMk(c.d, t, c.n, c.red, c.sib);
      RefMk(c.d, t, c.n, c.red, c.sib);
    }

    lemma LooseUp(c: Ctx, s: Option<Sum>)
      requires CStored(compute, c, s)
      ensures CLoose(c)
    {
    }

    lemma Tight(c: Ctx, t: Tree)
      requires CLoose(c) && c.Up? && Some(c.n.aug) == Fold(compute, Mk(c.d, t, c.n, c.red, c.sib))
      ensures CStored(compute, c, Fold(compute, t))
    {
      FoldMk(compute, c.d, t, c.n, c.red, c.sib);
    }

    /** Case 1: the node has at most one child, which takes its place and its colour. */
    method UnlinkLow(node: RbNode, child: RbNode?, ghost d: Side, ghost red: bool, ghost r: Tree, ghost c: Ctx)
        returns (tmp: RbNode?, rebalance: RbNode?)
      requires At(c, Mk(d, Leaf, node, red, r)) && child == Ref(r)
      modifies this`rbNode, CNodes(c)`left, CNodes(c)`right, Own(child)`parent, Own(child)`red
      ensures Placed(c, Painted(r, red)) && Stored(compute, Painted(r, red)) && CLoose(c) && tmp == CRef(c, null)
      ensures rebalance == if child == null && !red then tmp else null
    {
      hide CStored, Stored, Fold, Mk, CLinked, Linked, Apart, CApart, TopRef, RbNode.Kid, Nodes, CNodes, Ref, Painted;
      LowParts(d, node, red, r, c);
      assert allocated(Nodes(r)) && allocated(CNodes(c));
      RefInside(r);
      CRefInside(c);
      PaintedSame(r, red);
      PaintedFold(compute, r, red);
      var parent := node.parent;
      ChangeChild(node, child, parent, c);
      if child != null {
        HandPlace(child, node, r);
        rebalance := null;
      } else {
        PaintedLeaf(r, red, parent);
        rebalance := if !node.red then parent else null;
      }
      tmp := parent;
    }

    /** The only child takes over the parent and the colour of the removed node. */
    method HandPlace(child: RbNode, node: RbNode, ghost r: Tree)
      requires Linked(r, node) && Apart(r) && child == Ref(r) && node != child
      modifies child`parent, child`red
      ensures Linked(Painted(r, node.red), node.parent)
    {
      child.parent, child.red := node.parent, node.red;
    }

    lemma PaintedLeaf(r: Tree, red: bool, p: RbNode?)
      requires Ref(r) == null
      ensures Linked(Painted(r, red), p)
    {
    }

    lemma LowParts(d: Side, node: RbNode, red: bool, r: Tree, c: Ctx)
      requires At(c, Mk(d, Leaf, node, red, r))
      ensures node.parent == CRef(c, null) && node.red == red && node !in Nodes(r) && node !in CNodes(c)
        && Separate(c, r)
      ensures Linked(r, node) && CLinked(c, node, null) && rbNode == TopRef(c, node)
      ensures Stored(compute, r) && CLoose(c) && CStored(compute, c, Some(node.aug))
    {
      hide CStored, Stored, Fold, Mk, CLinked, Linked, Apart, CApart, TopRef;
      ApartMk(d, Leaf, node, red, r);
      LinkedMk(d, Leaf, node, red, r, CRef(c, null));
      RefMk(d, Leaf, node, red, r);
      FoldMk(compute, d, Leaf, node, red, r);
      LooseUp(c, Some(node.aug));
    }

    /** Case 3: the successor is cut from under its parent and takes the right subtree, rooted at `y`. */
    method CutSuccessor(y: RbNode, parent: RbNode, s: RbNode, child2: RbNode?,
        ghost k: Ctx, ghost yr: bool, ghost ysib: Tree, ghost n: RbNode)
      requires var m := Join(k, Up(Left, y, yr, ysib, Top));
        CLinked(m, s, n) && CApart(m) && s !in CNodes(m) && Leftmost(m) && parent == CRef(m, n)
      modifies parent`left, s`right, y`parent
      ensures CLinked(Join(k, Up(Left, y, yr, ysib, Top)), child2, s) && s.right == y
    {
      hide Apart, CApart, Linked, Nodes, CNodes, TopRef, Join;
      ghost var last := Up(Left, y, yr, ysib, Top);
      ghost var m := Join(k, last);
      JoinFacts(k, last, s);
      CApartUp(Left, y, yr, ysib, Top);
      CutParts(k, last, s, n);
      CApartUp(m.d, m.n, m.red, m.sib, m.up);
      parent.left := child2;
      assert CLinked(m, child2, n);
      s.right := y;
      CLinkedJoin(k, last, child2, n);
      JoinFacts(k, last, child2);
      y.parent := s;
      CLinkedJoin(k, last, child2, s);
    }

    lemma CutParts(k: Ctx, last: Ctx, s: RbNode, n: RbNode)
      requires last.Up?
      ensures Join(k, last).Up?
    {
    }

    /** The left subtree of the removed node moves under the successor. */
    method SeatLeft(s: RbNode, tmp: RbNode, n: RbNode, ghost l: Tree)
      requires Linked(l, n) && Apart(l) && tmp == Ref(l) && s !in Nodes(l)
      modifies s`left, tmp`parent
      ensures Linked(l, s) && s.left == Ref(l)
    {
      s.left := tmp;
      tmp.parent := s;
    }

    /** The colour and parent of the successor and of its former child; cases 2 and 3. */
    method SeatColours(n: RbNode, s: RbNode, parent: RbNode, child2: RbNode?, ghost m: Ctx,
        ghost e: Tree) returns (rebalance: RbNode?)
      requires Linked(e, s) && Apart(e) && child2 == Ref(e) && CLinked(m, child2, s) && s !in Nodes(e)
        && s !in CNodes(m)
      requires CNodes(m) !! Nodes(e) && n != s && n !in Nodes(e) && parent == CRef(m, s)
      modifies s`parent, s`red, Own(child2)`parent, Own(child2)`red
      ensures s.parent == n.parent && s.red == n.red
      ensures Linked(Painted(e, false), CRef(m, s)) && CLinked(m, child2, s)
      ensures rebalance == if child2 == null && !old(s.red) then parent else null
    {
      hide Apart, CApart, Linked, CLinked, Nodes, CNodes, Painted;
      assert allocated(Nodes(e)) && allocated(CNodes(m));
      RefInside(e);
      if child2 != null {
        s.parent, s.red := n.parent, n.red;
        SetParentColor(child2, parent, false, e, s);
        rebalance := null;
      } else {
        var red := s.red;
        s.parent, s.red := n.parent, n.red;
        PaintedLeaf(e, false, parent);
        rebalance := if !red then parent else null;
      }
    }

    /** The end of cases 2 and 3: the successor takes over the left subtree, the place and the colour of the node. */
    method SeatSuccessor(n: RbNode, s: RbNode, parent: RbNode, child2: RbNode?, ghost m: Ctx, ghost e: Tree,
        ghost l: Tree, ghost c: Ctx)
        returns (rebalance: RbNode?)
      requires Parted(l, n, m, s, e, c) && Linked(e, s) && CLinked(m, Ref(e), s) && Linked(l, n) && CLinked(c, n, null)
      requires child2 == Ref(e) && parent == CRef(m, s) && s.right == TopRef(m, Ref(e)) && l.Node? && n.left == Ref(l)
      requires n.parent == CRef(c, null) && rbNode == TopRef(c, n)
      modifies this`rbNode, s`left, s`parent, s`red, Own(Ref(l))`parent, CNodes(c)`left, CNodes(c)`right
      modifies Own(child2)`parent, Own(child2)`red
      ensures Placed(Up(Right, s, n.red, l, c), Plug(m, Painted(e, false)))
      ensures rebalance == if child2 == null && !old(s.red) then parent else null
    {
      hide Apart, CApart, Linked, CLinked, Nodes, CNodes, Painted, TopRef, Placed, Plug;
      assert allocated(Nodes(l)) && allocated(CNodes(c)) && allocated(CNodes(m)) && allocated(Nodes(e));
      RefInside(l);
      RefInside(e);
      CRefInside(c);
      SeatLeft(s, n.left, n, l);
      var tmp := n.parent;
      ChangeChild(n, s, tmp, c);
      rebalance := SeatColours(n, s, parent, child2, m, e);
      SeatPlaced(n, s, m, e, l, c);
    }

    lemma SeatPlaced(n: RbNode, s: RbNode, m: Ctx, e: Tree, l: Tree, c: Ctx)
      requires Parted(l, n, m, s, e, c) && Linked(Painted(e, false), CRef(m, s)) && CLinked(m, Ref(e), s)
      requires Linked(l, s) && s.left == Ref(l) && s.right == TopRef(m, Ref(e)) && s.parent == CRef(c, null)
      requires CLinked(c, s, null) && rbNode == TopRef(c, s)
      ensures Placed(Up(Right, s, s.red, l, c), Plug(m, Painted(e, false)))
    {
      hide Apart, CApart, Nodes, CNodes, Painted, Plug, Linked;
      var e' := Painted(e, false);
      PaintedSame(e, false);
      PartedIff(l, n, s.red, m, s, s.red, e', c);
      PlugLinked(m, e', s);
      PlugRef(m, e');
    }

    /** The leftmost node under `y`, whose left subtree is `rl`. */
    method FindSuccessor(y: RbNode, ghost rl: Tree) returns (parent: RbNode, successor: RbNode, ghost k: Ctx,
        ghost cur: Tree)
      requires rl.Node? && y.left == rl.n && Linked(rl, y)
      ensures rl == Plug(k, cur) && cur.Node? && cur.l.Leaf? && cur.n == successor && parent == CRef(k, y)
        && Leftmost(k)
    {
      hide Linked;
      parent, successor := y, y.left;
      k, cur := Top, rl;
      LinkedNode(cur, y);
      var tmp := successor.left;
      while tmp != null
        invariant rl == Plug(k, cur) && cur.Node? && cur.n == successor && parent == CRef(k, y) && Leftmost(k)
        invariant Linked(cur, parent) && tmp == Ref(cur.l)
        decreases cur
      {
        LinkedNode(cur, parent);
        LinkedNode(cur.l, successor);
        parent := successor;
        successor := tmp;
        tmp := tmp.left;
        k, cur := Up(Left, cur.n, cur.red, cur.r, k), cur.l;
      }
    }

    lemma LinkedNode(t: Tree, p: RbNode?)
      requires Linked(t, p) && t.Node?
      ensures t.n.left == Ref(t.l) && t.n.right == Ref(t.r) && t.n.parent == p && t.n.red == t.red && Linked(t.l, t.n)
        && Linked(t.r, t.n)
    {
    }

    /** What cases 2 and 3 have in common before the successor is seated. */
    ghost predicate Loosened(n: RbNode, s: RbNode, parent: RbNode, m: Ctx, e: Tree)
      reads n`aug, s, Nodes(e), CNodes(m), Nodes(Plug(m, e))
    {
      && Linked(e, s) && CLinked(m, Ref(e), s) && parent == CRef(m, s) && s.right == TopRef(m, Ref(e))
      && s.aug == n.aug && Stored(compute, Plug(m, e))
    }

    /** Case 3 up to the first propagation. */
    method LoosenDeep(n: RbNode, y: RbNode, ghost l: Tree, ghost r: Tree, ghost c: Ctx)
        returns (parent: RbNode, s: RbNode, child2: RbNode?, ghost m: Ctx, ghost sr: bool, ghost e: Tree)
      requires Separate(c, Node(l, n, n.red, r)) && Linked(r, n) && Stored(compute, r) && r.Node? && r.n == y
        && r.l.Node?
      modifies Nodes(r)`left, Nodes(r)`right, Nodes(r)`parent, Nodes(r)`aug
      ensures r == Plug(m, Node(Leaf, s, sr, e)) && Leftmost(m) && child2 == Ref(e) && s.red == sr
        && Parted(l, n, m, s, e, c)
      ensures Loosened(n, s, parent, m, e)
    {
      hide Linked, CLinked, Stored, CStored, Separate, Plug, Nodes, CNodes, Fold, TopRef;
      ghost var rl, yr, ysib, k, cur := r.l, r.red, r.r, Top, r;
      LinkedNode(r, n);
      assert allocated(Nodes(r));
      parent, s, k, cur := FindSuccessor(y, rl);
      ghost var last := Up(Left, y, yr, ysib, Top);
      m, sr, e := Join(k, last), cur.red, cur.r;
      DeepShape(n, l, r, k, cur, c);
      DeepParts(n, r, m, cur);
      PartedSeparate(l, n, m, s, e, c);
      child2 := s.right;
      assert allocated(Nodes(e)) && allocated(Nodes(l)) && allocated(CNodes(m));
      CutSuccessor(y, parent, s, child2, k, yr, ysib, n);
      s.aug := n.aug;
      Propagate(parent, s, m, e);
    }

    lemma DeepShape(n: RbNode, l: Tree, r: Tree, k: Ctx, cur: Tree, c: Ctx)
      requires Separate(c, Node(l, n, n.red, r)) && r.Node? && r.l == Plug(k, cur) && cur.Node? && cur.l.Leaf?
        && Leftmost(k)
      ensures var m := Join(k, Up(Left, r.n, r.red, r.r, Top)); var s := cur.n;
        && r == Plug(m, cur) && Leftmost(m) && CRef(k, r.n) == CRef(m, n) == CRef(m, s)
        && Parted(l, n, m, s, cur.r, c) && Separate(m, cur.r) && TopRef(m, Ref(cur.r)) == r.n
        && s in Nodes(r) && CNodes(m) <= Nodes(r) && r.n in CNodes(m) && CRef(k, r.n) in CNodes(m)
    {
      hide Separate, Nodes, CNodes, CApart, Apart, Plug, Join, TopRef, Parted;
      var last := Up(Left, r.n, r.red, r.r, Top);
      var m := Join(k, last);
      PlugJoin(k, last, cur);
      PlugLast(r, k, cur);
      JoinFacts(k, last, Ref(cur.r));
      PartedIff(l, n, n.red, m, cur.n, cur.red, cur.r, c);
      PartedSeparate(l, n, m, cur.n, cur.r, c);
      PlugNodes(m, cur);
      ApartMk(Left, Leaf, cur.n, cur.red, cur.r);
      CApartUp(Left, r.n, r.red, r.r, Top);
      CRefIn(k, r.n);
      TopRefTop(last, Ref(cur.r));
    }

    lemma PlugLast(r: Tree, k: Ctx, cur: Tree)
      requires r.Node? && r.l == Plug(k, cur)
      ensures Plug(Up(Left, r.n, r.red, r.r, Top), Plug(k, cur)) == r
      ensures Leftmost(Up(Left, r.n, r.red, r.r, Top))
    {
    }

    lemma TopRefTop(last: Ctx, h: RbNode?)
      requires last.Up? && last.up.Top?
      ensures forall x :: TopRef(last, x) == last.n
    {
    }

    lemma PartedSeparate(l: Tree, n: RbNode, m: Ctx, s: RbNode, e: Tree, c: Ctx)
      requires Parted(l, n, m, s, e, c)
      ensures Separate(m, e) && CApart(m) && CNodes(m) !! Nodes(e)
      ensures s !in CNodes(m) && s !in Nodes(e) && n !in CNodes(m) && n !in Nodes(e)
    {
    }

    lemma DeepParts(n: RbNode, r: Tree, m: Ctx, cur: Tree)
      requires Linked(r, n) && Stored(compute, r) && r == Plug(m, cur) && cur.Node? && cur.l.Leaf?
      ensures CLinked(m, cur.n, n) && cur.n.right == Ref(cur.r) && cur.n.red == cur.red && Linked(cur.r, cur.n)
      ensures Stored(compute, cur.r) && CLoose(m)
    {
      hide CLinked, Stored, CStored, Fold, CLoose, Linked;
      PlugLinked(m, cur, n);
      LinkedNode(cur, CRef(m, n));
      PlugStored(compute, m, cur);
      FoldMk(compute, Left, Leaf, cur.n, cur.red, cur.r);
      LooseUp(m, Fold(compute, cur));
    }

    lemma CRefIn(k: Ctx, y: RbNode)
      ensures CRef(k, y) in CNodes(k) + {y}
    {
    }

    /** Case 2 up to `augment->copy`: the successor is the right child itself. */
    method LoosenNext(n: RbNode, s: RbNode, ghost l: Tree, ghost r: Tree, ghost c: Ctx) returns (child2: RbNode?)
      requires Separate(c, Node(l, n, n.red, r)) && Linked(r, n) && Stored(compute, r) && r.Node? && r.n == s
        && r.l.Leaf?
      modifies s`aug
      ensures child2 == Ref(r.r) && s.red == r.red && Parted(l, n, Top, s, r.r, c) && Loosened(n, s, s, Top, r.r)
    {
      hide Linked, Stored, Separate, Apart, Nodes, Parted;
      LinkedNode(r, n);
      PartedIff(l, n, n.red, Top, s, r.red, r.r, c);
      PartedSeparate(l, n, Top, s, r.r, c);
      FoldMk(compute, Left, Leaf, s, r.red, r.r);
      child2 := s.right;
      s.aug := n.aug;
    }

    /** Cases 2 and 3: the in-order successor replaces the node. */
    method UnlinkHigh(node: RbNode, ghost l: Tree, ghost red: bool, ghost r: Tree, ghost c: Ctx)
        returns (tmp: RbNode, rebalance: RbNode?, ghost m: Ctx, ghost sr: bool, ghost e: Tree)
      requires At(c, Node(l, node, red, r)) && l.Node? && r.Node?
      modifies this`rbNode, Nodes(l), Nodes(r), CNodes(c)`left, CNodes(c)`right
      ensures r == Plug(m, Node(Leaf, tmp, sr, e)) && Leftmost(m)
      ensures Placed(Up(Right, tmp, red, l, c), Plug(m, Painted(e, false)))
        && Stored(compute, Plug(m, Painted(e, false)))
      ensures CLoose(Up(Right, tmp, red, l, c)) && rebalance == if e.Leaf? && !sr then CRef(m, tmp) else null
    {
      hide Linked, CLinked, Stored, CStored, Separate, Plug, Nodes, CNodes, Fold, TopRef, Apart, CApart, Placed,
        Lawful, Loosened, Parted,
        Painted, CLoose, At;
      HighParts(Node(l, node, red, r), c);
      HighSums(node, l, red, r, c);
      HighApart(node, l, red, r, c);
      assert allocated(Nodes(l)) && allocated(Nodes(r)) && allocated(CNodes(c));
      RefInside(l);
      RefInside(r);
      var child, parent, child2 := node.right, node.right, null;
      if child.left == null {
        tmp, m, sr, e := child, Top, r.red, r.r;
        PlugTop(Node(Leaf, r.n, r.red, r.r));
        child2 := LoosenNext(node, child, l, r, c);
      } else {
        parent, tmp, child2, m, sr, e := LoosenDeep(node, child, l, r, c);
      }
      LoosenedParts(node, tmp, parent, m, e);
      PartedInside(l, node, m, tmp, sr, e, r, c);
      assert allocated(Nodes(Plug(m, e)));
      rebalance := SeatSuccessor(node, tmp, parent, child2, m, e, l, c);
      HighLoose(tmp, node, red, l, m, e, c);
    }

    lemma HighLoose(s: RbNode, n: RbNode, red: bool, l: Tree, m: Ctx, e: Tree, c: Ctx)
      requires Stored(compute, l) && CStored(compute, c, Some(s.aug)) && Stored(compute, Plug(m, e))
      ensures CLoose(Up(Right, s, red, l, c)) && Stored(compute, Plug(m, Painted(e, false)))
    {
      PlugStored(compute, m, e);
      PlugStored(compute, m, Painted(e, false));
      PaintedFold(compute, e, false);
    }

    lemma LoosenedParts(n: RbNode, s: RbNode, parent: RbNode, m: Ctx, e: Tree)
      requires Loosened(n, s, parent, m, e)
      ensures Linked(e, s) && CLinked(m, Ref(e), s) && parent == CRef(m, s) && s.right == TopRef(m, Ref(e))
      ensures s.aug == n.aug && Stored(compute, Plug(m, e))
    {
    }

    lemma PartedInside(l: Tree, n: RbNode, m: Ctx, s: RbNode, sr: bool, e: Tree, r: Tree, c: Ctx)
      requires Parted(l, n, m, s, e, c) && r == Plug(m, Node(Leaf, s, sr, e))
      ensures s in Nodes(r) && Nodes(e) <= Nodes(r) && Nodes(Plug(m, e)) <= Nodes(r)
        && (Ref(e) != null ==> Ref(e) in Nodes(r))
      ensures s !in Nodes(Plug(m, e)) && s !in Nodes(l) && s !in CNodes(c)
    {
      hide Apart, CApart, Nodes, CNodes, Plug;
      PlugNodes(m, Node(Leaf, s, sr, e));
      PlugNodes(m, e);
      ApartMk(Left, Leaf, s, sr, e);
      RefInside(e);
    }

    lemma HighParts(t: Tree, c: Ctx)
      requires At(c, t) && t.Node? && t.l.Node? && t.r.Node?
      ensures t.n.red == t.red && t.n.left == t.l.n && t.n.right == t.r.n && t.n.parent == CRef(c, null)
      ensures Linked(t.l, t.n) && Linked(t.r, t.n) && CLinked(c, t.n, null) && rbNode == TopRef(c, t.n)
      ensures t.r.n.left == null <==> t.r.l.Leaf?
    {
      hide CStored, CLinked, Fold, TopRef, Linked, Separate, Stored, Lawful, Nodes, CNodes;
      LinkedNode(t, CRef(c, null));
      LinkedNode(t.r, t.n);
    }

    lemma HighSums(n: RbNode, l: Tree, red: bool, r: Tree, c: Ctx)
      requires At(c, Node(l, n, red, r))
      ensures Stored(compute, l) && Stored(compute, r) && CStored(compute, c, Some(n.aug))
        && Separate(c, Node(l, n, red, r))
    {
      hide CStored, CLinked, Fold, TopRef, Linked, Separate, Stored, Lawful, Nodes, CNodes;
      FoldMk(compute, Left, l, n, red, r);
    }

    lemma HighApart(n: RbNode, l: Tree, red: bool, r: Tree, c: Ctx)
      requires Separate(c, Node(l, n, red, r))
      ensures n !in Nodes(l) && n !in Nodes(r) && n !in CNodes(c) && Nodes(l) !! Nodes(r) && Nodes(l) !! CNodes(c)
        && Nodes(r) !! CNodes(c)
    {
      hide Apart, CApart, Nodes, CNodes;
      ApartMk(Left, l, n, red, r);
    }

    lemma EraseView(c: Ctx, t: Tree)
      requires At(c, t) && t.Node?
      ensures Lawful(compute) && t.n.left == Ref(t.l) && t.n.right == Ref(t.r)
      ensures t.l.Leaf? ==> InOrder(t.l) + InOrder(t.r) == InOrder(t.r)
      ensures t.r.Leaf? ==> InOrder(t.l) + InOrder(t.r) == InOrder(t.l)
      ensures t.l.Leaf? ==> t == Mk(Left, Leaf, t.n, t.red, t.r)
      ensures t.r.Leaf? ==> t == Mk(Right, Leaf, t.n, t.red, t.l)
      ensures Nodes(t) == Nodes(t.l) + {t.n} + Nodes(t.r)
      ensures (Ref(t.l) == null <==> t.l.Leaf?) && (Ref(t.r) == null <==> t.r.Leaf?)
      ensures (t.l.Node? ==> Ref(t.l) in Nodes(t)) && (t.r.Node? ==> Ref(t.r) in Nodes(t))
    {
      RefInside(t.l);
      RefInside(t.r);
    }

    lemma LowResult(d: Side, n: RbNode, red: bool, r: Tree, c: Ctx)
      requires RedBlack(Plug(c, Mk(d, Leaf, n, red, r)))
      ensures var t := Painted(r, red);
        && (if r.Leaf? && !red && c.Up? then Short(c, t) && t == Leaf else RedBlack(Plug(c, t)))
        && InOrder(Plug(c, t)) == Before(c) + (InOrder(r) + After(c))
    {
      hide RedBlack, Short, Mk, InOrder, Plug;
      OnlyChild(d, n, red, r, c);
      PlugInOrder(c, Painted(r, red));
      PaintedSame(r, red);
    }

    lemma HighResult(n: RbNode, l: Tree, red: bool, r: Tree, m: Ctx, s: RbNode, sr: bool, e: Tree, c: Ctx)
      requires RedBlack(Plug(c, Node(l, n, red, r))) && r == Plug(m, Node(Leaf, s, sr, e)) && Leftmost(m)
      ensures var k := Join(m, Up(Right, s, red, l, c)); var t := Painted(e, false);
        && (if e.Leaf? && !sr then Short(k, t) && t == Leaf else RedBlack(Plug(k, t)))
        && InOrder(Plug(k, t)) == Before(c) + ((InOrder(l) + InOrder(r)) + After(c))
        && k.Up? && k.n == CRef(m, s) && CNodes(k) <= Nodes(Node(l, n, red, r)) + CNodes(c)
    {
      hide RedBlack, Short, Plug, InOrder, Before, After, Nodes, CNodes;
      var u, u', t := Up(Right, n, red, l, c), Up(Right, s, red, l, c), Painted(e, false);
      var cur := Node(Leaf, s, sr, e);
      PlugJoin(m, u, cur);
      PlugUp(u, r);
      SuccessorMoves(m, s, sr, e, n, red, l, c);
      PlugJoin(m, u', t);
      PlugUp(u', Plug(m, t));
      PlugInOrder(c, Node(l, s, red, Plug(m, t)));
      PlugInOrder(m, t);
      PlugInOrder(m, cur);
      LeftmostFirst(m);
      PaintedSame(e, false);
      HighOrder(l, red, Plug(m, t), r, s, sr, e, After(m));
      JoinFacts(m, u', null);
      CApartUp(Right, s, red, l, c);
      PlugNodes(m, cur);
      ApartMk(Left, Leaf, s, sr, e);
      ApartMk(Left, l, n, red, r);
    }

    lemma HighOrder(l: Tree, red: bool, r': Tree, r: Tree, s: RbNode, sr: bool, e: Tree, after: seq<RbNode>)
      requires InOrder(r') == [] + (InOrder(e) + after) && InOrder(r) == [] + (InOrder(Node(Leaf, s, sr, e)) + after)
      ensures InOrder(Node(l, s, red, r')) == InOrder(l) + InOrder(r)
    {
      var i := InOrder(e);
      LoneOrder(s, sr, e);
      Assoc([s], i, after);
      NoneBefore(i + after);
      NoneBefore(([s] + i) + after);
    }

    lemma LoneOrder(s: RbNode, sr: bool, e: Tree)
      ensures InOrder(Node(Leaf, s, sr, e)) == [s] + InOrder(e)
    {
      NoneBefore([s] + InOrder(e));
    }

    lemma NoneBefore(s: seq<RbNode>)
      ensures [] + s == s
    {
    }

    lemma SettleParts(c: Ctx, m: Ctx, t: Tree)
      requires Placed(c, Plug(m, t))
      ensures CLinked(c, Ref(Plug(m, t)), null) && Separate(c, Plug(m, t)) && CNodes(c) <= CNodes(Join(m, c))
    {
      JoinFacts(m, c, null);
    }

    /** A tree whose links and summaries are right is seen from any place in it. */
    lemma Settle(c: Ctx, m: Ctx, t: Tree)
      requires Lawful(compute) && Placed(c, Plug(m, t)) && Stored(compute, Plug(c, Plug(m, t)))
      ensures At(Join(m, c), t)
    {
      hide Apart, Linked, CLinked, Stored, CStored, Separate, TopRef, Fold, Plug, Nodes, CNodes, Join, Lawful;
      var k, r := Join(m, c), Plug(m, t);
      PlugJoin(m, c, t);
      PlugSeparate(c, r);
      PlugSeparate(k, t);
      PlugLinked(c, r, null);
      PlugLinked(k, t, null);
      PlugRef(c, r);
      PlugRef(k, t);
      PlugStored(compute, k, t);
    }

    /** `rb_erase_augmented`: takes `node` out of the order and restores every rule. */
    method EraseAt(node: RbNode, ghost t0: Tree, ghost c0: Ctx) returns (ghost c: Ctx, ghost t: Tree)
      requires At(c0, t0) && RedBlack(Plug(c0, t0)) && t0.Node? && t0.n == node
      modifies this`rbNode, Nodes(t0), CNodes(c0)
      ensures At(c, t) && RedBlack(Plug(c, t))
      ensures InOrder(Plug(c, t)) == Before(c0) + ((InOrder(t0.l) + InOrder(t0.r)) + After(c0))
    {
      hide At, Linked, CLinked, Stored, CStored, Separate, Plug, Nodes, CNodes, Fold, TopRef, Apart, CApart, Placed,
        CLoose, InOrder,
        RedBlack, Mk, Short, Ref;
      ghost var l, red, r := t0.l, t0.red, t0.r;
      EraseView(c0, t0);
      var child, tmp := node.right, node.left;
      var rebalance: RbNode?;
      var up: RbNode?;
      ghost var k, m;
      if tmp == null {
        up, rebalance := UnlinkLow(node, child, Left, red, r, c0);
        k, m, t := c0, Top, Painted(r, red);
        LowResult(Left, node, red, r, c0);
        PlugTop(t);
      } else if child == null {
        up, rebalance := UnlinkLow(node, tmp, Right, red, l, c0);
        k, m, t := c0, Top, Painted(l, red);
        LowResult(Right, node, red, l, c0);
        PlugTop(t);
      } else {
        ghost var sr, e;
        up, rebalance, m, sr, e := UnlinkHigh(node, l, red, r, c0);
        k, t := Up(Right, up, red, l, c0), Painted(e, false);
        HighResult(node, l, red, r, m, up, sr, e, c0);
      }
      SettleParts(k, m, t);
      assert allocated(Nodes(Plug(m, t))) && allocated(CNodes(k));
      Propagate(up, null, k, Plug(m, t));
      Settle(k, m, t);
      c := Join(m, k);
      if rebalance != null {
        c, t := EraseColor(rebalance, c);
      }
    }

    // ---- the whole tree ----

    /** The same tree seen from another place. */
    lemma Refocus(c: Ctx, t: Tree, c': Ctx, t': Tree)
      requires At(c, t) && Plug(c, t) == Plug(c', t')
      ensures At(c', t')
    {
      hide Apart, Linked, CLinked, Stored, CStored, Separate, TopRef, Fold, Plug, Nodes, CNodes, Lawful;
      PlugSeparate(c, t);
      PlugSeparate(c', t');
      PlugLinked(c, t, null);
      PlugLinked(c', t', null);
      PlugRef(c, t);
      PlugRef(c', t');
      PlugStored(compute, c, t);
      PlugStored(compute, c', t');
    }

    /** `rb_erase` and `rb_erase_augmented` */
    method Erase(node: RbNode)
      requires Valid() && node in Nodes(tree)
      modifies this, Nodes(tree)
      ensures Valid() && InOrder(tree) == Without(old(InOrder(tree)), node)
    {
      hide At, Plug, InOrder, RedBlack, Nodes, CNodes;
      ghost var c, t := Zoom(Top, tree, node);
      PlugTop(tree);
      Refocus(Top, tree, c, t);
      PlugNodes(c, t);
      PlugInOrder(c, t);
      NodeOrder(t);
      AtApart(Top, tree);
      TakenOut(tree, Before(c) + InOrder(t.l), node, InOrder(t.r) + After(c));
      Assoc(InOrder(t.l), [node] + InOrder(t.r), After(c));
      Assoc([node], InOrder(t.r), After(c));
      Assoc(Before(c), InOrder(t.l), [node] + (InOrder(t.r) + After(c)));
      Assoc(Before(c), InOrder(t.l), InOrder(t.r) + After(c));
      Assoc(InOrder(t.l), InOrder(t.r), After(c));
      c, t := EraseAt(node, t, c);
      tree := Plug(c, t);
      PlugTop(tree);
      Refocus(c, t, Top, tree);
    }

    lemma AtApart(c: Ctx, t: Tree)
      requires At(c, t)
      ensures Apart(t)
    {
    }

    /** `rb_link_node`; the link it writes is `parent`'s child on side `d`, or the root. */
    method LinkNode(node: RbNode, parent: RbNode?, d: Side, ghost c: Ctx)
      requires Placed(c, Leaf) && parent == CRef(c, null) && (c.Up? ==> d == c.d) && node !in CNodes(c)
      modifies this`rbNode, node`left, node`right, node`parent, node`red, Own(parent)`left, Own(parent)`right
      ensures Placed(c, Node(Leaf, node, true, Leaf))
    {
      hide Apart, CApart, Nodes, CNodes, Linked;
      LeafApart();
      LinkParts(c);
      assert allocated(CNodes(c));
      node.parent, node.red := parent, true;
      node.left, node.right := null, null;
      assert CLinked(c, null, null);
      if parent == null {
        rbNode := node;
      } else if d == Left {
        parent.left := node;
      } else {
        parent.right := node;
      }
      LoneNode(node, parent);
    }

    lemma LinkParts(c: Ctx)
      requires CApart(c)
      ensures c.Up? ==> c.n !in Nodes(c.sib) && c.n !in CNodes(c.up) && c.n in CNodes(c)
      ensures c.Up? ==> Nodes(c.sib) <= CNodes(c) && CNodes(c.up) <= CNodes(c)
    {
    }

    lemma LoneNode(x: RbNode, p: RbNode?)
      requires x.parent == p && x.red && x.left == null && x.right == null
      ensures Linked(Node(Leaf, x, true, Leaf), p)
      ensures Apart(Node(Leaf, x, true, Leaf)) && Nodes(Node(Leaf, x, true, Leaf)) == {x}
    {
    }

    /** The descent's invariant: the ancestors already count the value that comes into the hole. */
    ghost predicate Descended(c: Ctx, t: Tree, absorb: (Sum, Val) -> Sum, v: Val)
      reads this`rbNode
      reads Nodes(t)`left, Nodes(t)`right, Nodes(t)`parent, Nodes(t)`red, Nodes(t)`aug
      reads CNodes(c)`left, CNodes(c)`right, CNodes(c)`parent, CNodes(c)`red, CNodes(c)`aug
    {
      Placed(c, t) && Stored(compute, t) && CStored(compute, c, Plus(compute, absorb, Fold(compute, t), v))
    }

    /** One step down: the node absorbs the value. */
    method Absorb(x: RbNode, d: Side, absorb: (Sum, Val) -> Sum, v: Val, ghost c: Ctx,
        ghost t: Tree) returns (ghost c': Ctx, ghost t': Tree)
      requires Lawful(compute) && Absorbs(compute, absorb) && Descended(c, t, absorb, v) && t.Node? && t.n == x
      modifies x`aug
      ensures c' == Up(d, x, t.red, if d == Left then t.r else t.l, c) && t' == (if d == Left then t.l else t.r)
      ensures Descended(c', t', absorb, v) && Plug(c', t') == Plug(c, t)
        && Nodes(t') + CNodes(c') == Nodes(t) + CNodes(c)
    {
      hide Apart, CApart, CLinked, TopRef, Lawful, Absorbs;
      c', t' := Up(d, x, t.red, if d == Left then t.r else t.l, c), if d == Left then t.l else t.r;
      AbsorbLaw(x.val, v, absorb, Fold(compute, t.l), Fold(compute, t.r));
      AbsorbPlaced(d, c, t);
      if absorb(x.aug, v) != x.aug {
        x.aug := absorb(x.aug, v);
      }
    }

    lemma AbsorbLaw(x: Val, v: Val, absorb: (Sum, Val) -> Sum, a: Option<Sum>, b: Option<Sum>)
      requires Absorbs(compute, absorb)
      ensures absorb(compute(x, a, b), v) == compute(x, Plus(compute, absorb, a, v), b)
      ensures absorb(compute(x, a, b), v) == compute(x, a, Plus(compute, absorb, b, v))
    {
    }

    lemma AbsorbPlaced(d: Side, c: Ctx, t: Tree)
      requires Placed(c, t) && t.Node?
      ensures var c', t' := Up(d, t.n, t.red, if d == Left then t.r else t.l, c), if d == Left then t.l else t.r;
        Placed(c', t') && Plug(c', t') == Plug(c, t) && Nodes(t') + CNodes(c') == Nodes(t) + CNodes(c)
      ensures t.n !in Nodes(t.l) && t.n !in Nodes(t.r) && t.n !in CNodes(c)
    {
      hide Apart, Linked, CApart;
      ApartMk(Left, t.l, t.n, t.red, t.r);
      LinkedNode(t, CRef(c, null));
      CApartUp(d, t.n, t.red, if d == Left then t.r else t.l, c);
    }

    /** `rb_link_node` and then `rb_insert_color` or `rb_insert_augmented`, at an empty place of a red-black tree. */
    method LinkAndColor(node: RbNode, parent: RbNode?, d: Side, ghost c: Ctx)
      requires Lawful(compute) && Placed(c, Leaf) && RedBlack(Plug(c, Leaf))
      requires parent == CRef(c, null) && (c.Up? ==> d == c.d) && node !in CNodes(c)
      requires node.aug == compute(node.val, None, None) && CStored(compute, c, Some(node.aug))
      modifies this, node, CNodes(c)
      ensures Valid() && InOrder(tree) == Before(c) + ([node] + After(c))
    {
      hide At, Placed, CStored, Plug, InOrder, Before, After, RedBlack, CNodes, Lawful;
      ghost var t := Node(Leaf, node, true, Leaf);
      CRefInside(c);
      assert allocated(CNodes(c));
      LinkNode(node, parent, d, c);
      LoneFacts(c, node);
      ghost var c', t' := InsertColor(node, c, t);
      tree := Plug(c', t');
      PlugTop(tree);
      Refocus(c', t', Top, tree);
    }

    lemma LoneFacts(c: Ctx, x: RbNode)
      requires RedBlack(Plug(c, Leaf)) && Lawful(compute)
      requires Placed(c, Node(Leaf, x, true, Leaf)) && x.aug == compute(x.val, None, None)
        && CStored(compute, c, Some(x.aug))
      ensures var t := Node(Leaf, x, true, Leaf);
        At(c, t) && Growing(c, t) && Nodes(t) == {x} && InOrder(Plug(c, t)) == Before(c) + ([x] + After(c))
    {
      hide Placed, CStored, RedBlack, Lawful, Before, After;
      UnplugBalanced(c, Leaf);
      PlugInOrder(c, Node(Leaf, x, true, Leaf));
      FoldMk(compute, Left, Leaf, x, true, Leaf);
      assert Fold(compute, Leaf) == None && Stored(compute, Leaf);
      assert InOrder(Node(Leaf, x, true, Leaf)) == [x];
    }

    /** rbtree_test.c's `insert_augmented`, and `insert` where there is no summary to keep. */
    method Insert(node: RbNode, less: (Val, Val) -> bool, absorb: (Sum, Val) -> Sum)
      requires Valid() && node !in Nodes(tree) && Absorbs(compute, absorb)
      requires Ordering(less) && Sorted(less, InOrder(tree))
      modifies this, node, Nodes(tree)
      ensures Valid() && InOrder(tree) == InsertSorted(less, old(InOrder(tree)), node)
    {
      hide At, Placed, Stored, CStored, Plug, InOrder, RedBlack, CNodes, Nodes, Lawful, Absorbs, Ordering, Before,
        After, Descended,
        Sorted, NoneAbove, AllAbove;
      var key, parent: RbNode?, link, d := node.val, null, rbNode, Left;
      ghost var c, t := Top, tree;
      ghost var order := InOrder(tree);
      EmptyStart(absorb, key);
      NothingAround(less, key);
      while link != null
        invariant Lawful(compute) && Descended(c, t, absorb, key) && Plug(c, t) == tree
          && Nodes(t) + CNodes(c) == Nodes(tree)
        invariant link == Ref(t) && parent == CRef(c, null) && (c.Up? ==> d == c.d) && tree == old(tree)
        invariant NoneAbove(less, key, Before(c)) && AllAbove(less, key, After(c)) && Sorted(less, InOrder(t))
        decreases t
      {
        DescentView(less, key, c, t, absorb);
        parent := link;
        d := if less(key, parent.val) then Left else Right;
        c, t := Absorb(parent, d, absorb, key, c, t);
        link := parent.Kid(d);
        DescentKid(c, t, absorb, key);
      }
      node.aug := compute(node.val, None, None);
      DescentEnd(less, absorb, c, t, node);
      LinkAndColor(node, parent, d, c);
    }

    /** rbtree_test.c's `insert`: no summary is kept, so none is written on the way down. */
    method InsertPlain(node: RbNode, less: (Val, Val) -> bool)
      requires Valid() && node !in Nodes(tree) && Plain(compute)
      requires Ordering(less) && Sorted(less, InOrder(tree))
      modifies this, node, Nodes(tree)
      ensures Valid() && InOrder(tree) == InsertSorted(less, old(InOrder(tree)), node)
    {
      hide Valid, InOrder, Nodes, Plain, Absorbs, Ordering, Sorted, InsertSorted;
      var keep := (s: Sum, v: Val) => s;
      PlainIsLawful(compute, keep);
      Insert(node, less, keep);
    }

    lemma EmptyStart(absorb: (Sum, Val) -> Sum, v: Val)
      requires Valid()
      ensures Lawful(compute) && Descended(Top, tree, absorb, v) && Plug(Top, tree) == tree
        && Nodes(tree) + CNodes(Top) == Nodes(tree)
      ensures rbNode == Ref(tree) && Before(Top) == [] && After(Top) == [] && RedBlack(tree)
    {
    }

    lemma NothingAround(less: (Val, Val) -> bool, v: Val)
      ensures NoneAbove(less, v, []) && AllAbove(less, v, [])
    {
    }

    /** Both directions of a step down keep the order around the hole. */
    lemma DescentView(less: (Val, Val) -> bool, v: Val, c: Ctx, t: Tree, absorb: (Sum, Val) -> Sum)
      requires Ordering(less) && t.Node? && NoneAbove(less, v, Before(c)) && AllAbove(less, v, After(c))
        && Sorted(less, InOrder(t))
      ensures t.n in Nodes(t)
      ensures less(v, t.n.val) ==>
                var c' := Up(Left, t.n, t.red, t.r, c);
                NoneAbove(less, v, Before(c')) && AllAbove(less, v, After(c')) && Sorted(less, InOrder(t.l))
      ensures !less(v, t.n.val) ==>
                var c' := Up(Right, t.n, t.red, t.l, c);
                NoneAbove(less, v, Before(c')) && AllAbove(less, v, After(c')) && Sorted(less, InOrder(t.r))
    {
      hide Ordering, Sorted, NoneAbove, AllAbove;
      NodeOrder(t);
      if less(v, t.n.val) {
        GoLeft(less, v, InOrder(t.l), t.n, InOrder(t.r), After(c));
      } else {
        GoRight(less, v, InOrder(t.l), t.n, InOrder(t.r), Before(c));
      }
    }

    lemma DescentKid(c: Ctx, t: Tree, absorb: (Sum, Val) -> Sum, v: Val)
      requires Descended(c, t, absorb, v) && c.Up?
      ensures c.n.Kid(c.d) == Ref(t)
    {
    }

    lemma DescentEnd(less: (Val, Val) -> bool, absorb: (Sum, Val) -> Sum, c: Ctx, t: Tree, x: RbNode)
      requires Descended(c, t, absorb, x.val) && Ref(t) == null && x !in Nodes(t) + CNodes(c)
      requires NoneAbove(less, x.val, Before(c)) && AllAbove(less, x.val, After(c))
      ensures t == Leaf && Placed(c, Leaf) && CStored(compute, c, Some(compute(x.val, None, None))) && Nodes(t) == {}
      ensures Before(c) + ([x] + After(c)) == InsertSorted(less, InOrder(Plug(c, t)), x)
    {
      PlugInOrder(c, t);
      assert InOrder(t) + After(c) == After(c);
      InsertSortedAt(less, Before(c), After(c), x);
    }

    // ---- iteration ----

    /** Down side `d` to the end of the subtree at `x`: the loops of `rb_first`, `rb_last`, `rb_next` and `rb_prev`. */
    method Extreme(x: RbNode, d: Side, ghost t: Tree, ghost p: RbNode?) returns (n: RbNode)
      requires t.Node? && t.n == x && Linked(t, p)
      ensures |InOrder(t)| > 0 && n == if d == Left then InOrder(t)[0] else InOrder(t)[|InOrder(t)| - 1]
    {
      hide Linked, InOrder;
      n := x;
      ghost var cur, q := t, p;
      NodeOrder(t);
      LinkedNode(t, p);
      while n.Kid(d) != null
        invariant cur.Node? && cur.n == n && Linked(cur, q) && n.Kid(d) == Ref(if d == Left then cur.l else cur.r)
        invariant |InOrder(cur)| > 0 && |InOrder(t)| > 0
        invariant d == Left ==> InOrder(cur)[0] == InOrder(t)[0]
        invariant d == Right ==> InOrder(cur)[|InOrder(cur)| - 1] == InOrder(t)[|InOrder(t)| - 1]
        decreases cur
      {
        LinkedNode(cur, q);
        NodeOrder(cur);
        q := n;
        n := n.Kid(d);
        cur := if d == Left then cur.l else cur.r;
        NodeOrder(cur);
        LinkedNode(cur, q);
      }
      NodeOrder(cur);
      NoneInLeaf(if d == Left then cur.l else cur.r);
    }

    lemma NoneInLeaf(t: Tree)
      ensures Ref(t) == null ==> InOrder(t) == []
    {
    }

    /** What iteration needs of a valid tree. */
    lemma ValidPlaced()
      requires Valid()
      ensures Placed(Top, tree)
    {
    }

    /** `rb_first` (side `Left`) and `rb_last` (side `Right`) */
    method End(d: Side) returns (n: RbNode?)
      requires Placed(Top, tree)
      ensures InOrder(tree) == [] ==> n == null
      ensures InOrder(tree) != [] ==> n == if d == Left then InOrder(tree)[0] else InOrder(tree)[|InOrder(tree)| - 1]
    {
      hide InOrder, Linked, CLinked, Apart, CApart;
      n := rbNode;
      NoneInLeaf(tree);
      if n == null {
        return;
      }
      n := Extreme(n, d, tree, null);
    }

    /** `rb_next` (side `Right`) and `rb_prev` (side `Left`) */
    method Neighbour(node: RbNode, d: Side, ghost i: nat) returns (n: RbNode?)
      requires Placed(Top, tree) && i < |InOrder(tree)| && InOrder(tree)[i] == node
      ensures d == Right ==> n == if i + 1 < |InOrder(tree)| then InOrder(tree)[i + 1] else null
      ensures d == Left ==> n == if i > 0 then InOrder(tree)[i - 1] else null
    {
      hide InOrder, Placed, Plug, Before, After, Linked, RbNode.Kid;
      ghost var c, t := Seek(node, i);
      if node.parent == node {
        return null;
      }
      if node.Kid(d) != null {
        ghost var sub := if d == Left then t.l else t.r;
        n := Extreme(node.Kid(d), d.Other(), sub, node);
        return;
      }
      var x, parent := node, node.parent;
      NoneInLeaf(if d == Left then t.l else t.r);
      NodeOrder(t);
      while parent != null && x == parent.Kid(d)
        invariant Placed(c, t) && t.Node? && t.n == x && parent == CRef(c, null)
        invariant InOrder(tree) == Before(c) + (InOrder(t) + After(c)) && |InOrder(t)| > 0
        invariant if d == Left then |Before(c)| == i else |Before(c)| + |InOrder(t)| == i + 1
        decreases c
      {
        ClimbStep(d, c, t);
        t, c := Mk(c.d, t, c.n, c.red, c.sib), c.up;
        AtFields(c, t);
        x := parent;
        parent := x.parent;
      }
      ClimbEnd(d, c, t);
      n := parent;
    }

    /** The place of the `i`-th node and what its fields say. */
    lemma {:induction false} Seek(node: RbNode, i: nat) returns (c: Ctx, t: Tree)
      requires Placed(Top, tree) && i < |InOrder(tree)| && InOrder(tree)[i] == node
      ensures Placed(c, t) && t.Node? && t.n == node && node.parent == CRef(c, null) && node.parent != node
      ensures InOrder(tree) == Before(c) + (InOrder(t) + After(c))
        && InOrder(t) == InOrder(t.l) + ([node] + InOrder(t.r))
      ensures Plug(c, t) == tree
      ensures |Before(c)| + |InOrder(t.l)| == i
      ensures node.Kid(Left) == Ref(t.l) && node.Kid(Right) == Ref(t.r) && Linked(t.l, node) && Linked(t.r, node)
    {
      hide InOrder, Before, After, Plug, CLinked, Linked, CApart, Apart, Nodes, CNodes;
      NodesInOrder(tree, node);
      c, t := Zoom(Top, tree, node);
      PlugTop(tree);
      PlacedFrom(Top, tree, c, t);
      PlugInOrder(c, t);
      NodeOrder(t);
      NoNodeTwice(tree);
      LinkedNode(t, CRef(c, null));
      ApartMk(Left, t.l, t.n, t.red, t.r);
      CRefInside(c);
      var k := |Before(c)| + |InOrder(t.l)|;
      assert InOrder(tree)[k] == node;
    }

    lemma ClimbStep(d: Side, c: Ctx, t: Tree)
      requires Placed(c, t) && c.Up? && t.Node? && c.n.Kid(d) == t.n
      ensures c.d == d && Placed(c.up, Mk(c.d, t, c.n, c.red, c.sib))
      ensures Ref(Mk(c.d, t, c.n, c.red, c.sib)) == c.n
      ensures var t' := Mk(c.d, t, c.n, c.red, c.sib);
        Before(c.up) + (InOrder(t') + After(c.up)) == Before(c) + (InOrder(t) + After(c))
        && |InOrder(t')| == |InOrder(c.sib)| + 1 + |InOrder(t)|
        && |Before(c)| == |Before(c.up)| + (if d == Left then 0 else |InOrder(c.sib)| + 1)
    {
      hide Placed, InOrder, Plug;
      Look(c, t);
      SideIs(c, t, d);
      PlugUp(c, t);
      PlacedUp(c, t);
      var t' := Mk(c.d, t, c.n, c.red, c.sib);
      PlugInOrder(c, t);
      PlugInOrder(c.up, t');
      NodeOrder(t');
    }

    lemma PlacedUp(c: Ctx, t: Tree)
      requires c.Up?
      ensures Placed(c, t) <==> Placed(c.up, Mk(c.d, t, c.n, c.red, c.sib))
    {
      hide Placed, Plug;
      var m := Mk(c.d, t, c.n, c.red, c.sib);
      PlugUp(c, t);
      if Placed(c, t) {
        PlacedFrom(c, t, c.up, m);
      }
      if Placed(c.up, m) {
        PlacedFrom(c.up, m, c, t);
      }
    }

    lemma SideIs(c: Ctx, t: Tree, d: Side)
      requires c.Up? && t.Node? && c.n.Kid(d) == t.n && c.n.Kid(c.d.Other()) == Ref(c.sib) && Ref(t) != Ref(c.sib)
      ensures c.d == d
    {
    }

    lemma ClimbEnd(d: Side, c: Ctx, t: Tree)
      requires Placed(c, t) && t.Node? && (c.Up? ==> c.n.Kid(d) != t.n)
      ensures c.Top? ==> Before(c) == [] && After(c) == []
      ensures c.Up? && d == Right ==> After(c) != [] && After(c)[0] == c.n
      ensures c.Up? && d == Left ==> Before(c) != [] && Before(c)[|Before(c)| - 1] == c.n
    {
      if c.Up? {
        Look(c, t);
      }
    }

    method AdoptBoth(victim: RbNode, now: RbNode, ghost l: Tree, ghost r: Tree)
      requires victim.left == Ref(l) && victim.right == Ref(r) && Linked(l, victim) && Linked(r, victim)
      requires Apart(l) && Apart(r) && Nodes(l) !! Nodes(r) && victim !in Nodes(l) && victim !in Nodes(r)
      modifies Own(Ref(l))`parent, Own(Ref(r))`parent
      ensures Linked(l, now) && Linked(r, now)
    {
      hide Apart, Linked, Nodes;
      assert allocated(Nodes(l)) && allocated(Nodes(r));
      RefInside(l);
      RefInside(r);
      SetParent(victim.left, now, l, victim);
      SetParent(victim.right, now, r, victim);
    }

    /** `rb_replace_node` on the links alone. */
    method Substitute(victim: RbNode, now: RbNode, ghost l: Tree, ghost red: bool, ghost r: Tree, ghost c: Ctx)
      requires Placed(c, Node(l, victim, red, r)) && now != victim && now !in Nodes(l) && now !in Nodes(r)
        && now !in CNodes(c)
      modifies this`rbNode, CNodes(c)`left, CNodes(c)`right, Own(Ref(l))`parent, Own(Ref(r))`parent
      modifies now`left, now`right, now`parent, now`red
      ensures Placed(c, Node(l, now, red, r))
    {
      hide Apart, CApart, Linked, CLinked, Nodes, CNodes, TopRef, Placed, Separate, Ref;
      PlacedParts(victim, l, red, r, c);
      RefInside(l);
      RefInside(r);
      CRefInside(c);
      Surround(victim, now, l, r, c);
      assert allocated(Nodes(l)) && allocated(Nodes(r)) && allocated(CNodes(c));
      now.parent, now.red := victim.parent, victim.red;
      now.left, now.right := victim.left, victim.right;
      PlacedAgain(victim, now, l, red, r, c);
    }

    /** The surrounding nodes point to the replacement. */
    method Surround(victim: RbNode, now: RbNode, ghost l: Tree, ghost r: Tree, ghost c: Ctx)
      requires victim.left == Ref(l) && victim.right == Ref(r) && Linked(l, victim) && Linked(r, victim)
      requires Apart(l) && Apart(r) && CApart(c) && Nodes(l) !! Nodes(r) && Nodes(l) !! CNodes(c)
        && Nodes(r) !! CNodes(c)
      requires victim !in Nodes(l) && victim !in Nodes(r) && victim !in CNodes(c) && victim.parent == CRef(c, null)
      requires CLinked(c, victim, null) && rbNode == TopRef(c, victim)
      modifies this`rbNode, CNodes(c)`left, CNodes(c)`right, Own(Ref(l))`parent, Own(Ref(r))`parent
      ensures Linked(l, now) && Linked(r, now) && CLinked(c, now, null) && rbNode == TopRef(c, now)
      ensures unchanged(victim)
    {
      hide Apart, CApart, Linked, CLinked, Nodes, CNodes, TopRef, Ref;
      assert allocated(Nodes(l)) && allocated(Nodes(r)) && allocated(CNodes(c));
      RefInside(l);
      RefInside(r);
      CRefInside(c);
      var parent := victim.parent;
      ChangeChild(victim, now, parent, c);
      AdoptBoth(victim, now, l, r);
    }

    lemma PlacedParts(n: RbNode, l: Tree, red: bool, r: Tree, c: Ctx)
      requires Placed(c, Node(l, n, red, r))
      ensures n.left == Ref(l) && n.right == Ref(r) && n.parent == CRef(c, null) && n.red == red && Linked(l, n)
        && Linked(r, n)
      ensures CLinked(c, n, null) && rbNode == TopRef(c, n) && Separate(c, Node(l, n, red, r))
      ensures Apart(l) && Apart(r) && CApart(c) && Nodes(l) !! Nodes(r) && Nodes(l) !! CNodes(c)
        && Nodes(r) !! CNodes(c)
      ensures n !in Nodes(l) && n !in Nodes(r) && n !in CNodes(c)
    {
      hide Apart, CApart, Linked, CLinked, Nodes, CNodes, TopRef;
      LinkedNode(Node(l, n, red, r), CRef(c, null));
      ApartMk(Left, l, n, red, r);
    }

    lemma PlacedAgain(v: RbNode, n: RbNode, l: Tree, red: bool, r: Tree, c: Ctx)
      requires Separate(c, Node(l, v, red, r)) && n !in Nodes(l) && n !in Nodes(r) && n !in CNodes(c)
      requires n.left == Ref(l) && n.right == Ref(r) && n.parent == CRef(c, null) && n.red == red && Linked(l, n)
        && Linked(r, n)
      requires CLinked(c, n, null) && rbNode == TopRef(c, n)
      ensures Placed(c, Node(l, n, red, r))
    {
      hide Apart, CApart, CLinked, Nodes, CNodes, TopRef;
      ApartMk(Left, l, v, red, r);
      ApartMk(Left, l, n, red, r);
    }

    /** `rb_replace_node`: same shape and colours, `now` for `victim` in the order. */
    method Replace(victim: RbNode, now: RbNode, ghost i: nat)
      requires Valid() && i < |InOrder(tree)| && InOrder(tree)[i] == victim && now !in Nodes(tree)
      modifies this, Nodes(tree), now`left, now`right, now`parent, now`red
      ensures Placed(Top, tree) && RedBlack(tree) && InOrder(tree) == old(InOrder(tree))[i := now]
      ensures now.aug == victim.aug == Recompute(now) ==> Valid()
    {
      hide At, Placed, Plug, InOrder, Before, After, RedBlack, Nodes, CNodes, Stored, CStored, Fold, RbNode.Kid;
      ValidPlaced();
      PlugTop(tree);
      ghost var c, t := Seek(victim, i);
      ghost var l, red, r := t.l, t.red, t.r;
      ghost var t' := Node(l, now, red, r);
      ghost var order := InOrder(tree);
      Refocus(Top, tree, c, t);
      ReplaceFacts(c, t);
      ReplaceShape(c, t, now, i);
      RefInside(l);
      RefInside(r);
      assert allocated(Nodes(t)) && allocated(CNodes(c)) && allocated(Nodes(l)) && allocated(Nodes(r));
      Substitute(victim, now, l, red, r, c);
      tree := Plug(c, t');
      PlugTop(tree);
      PlacedFrom(c, t', Top, tree);
      if now.aug == victim.aug == Recompute(now) {
        ReplaceFold(victim, now, l, red, r, c);
        Refocus(c, t', Top, tree);
      }
    }

    lemma ReplaceFacts(c: Ctx, t: Tree)
      requires At(c, t) && t.Node?
      ensures Lawful(compute) && Placed(c, t) && Stored(compute, t.l) && Stored(compute, t.r)
        && CStored(compute, c, Some(t.n.aug))
      ensures Nodes(Plug(c, t)) == Nodes(t) + CNodes(c) && Nodes(t) == Nodes(t.l) + {t.n} + Nodes(t.r)
      ensures Some(t.n.aug) == Fold(compute, t)
    {
      hide Placed, CStored, Fold, Lawful;
      PlugNodes(c, t);
      FoldMk(compute, Left, t.l, t.n, t.red, t.r);
    }

    lemma ReplaceShape(c: Ctx, t: Tree, now: RbNode, i: nat)
      requires t.Node? && RedBlack(Plug(c, t)) && |Before(c)| + |InOrder(t.l)| == i
      ensures var t' := Node(t.l, now, t.red, t.r);
        RedBlack(Plug(c, t')) && i < |InOrder(Plug(c, t))| && InOrder(Plug(c, t')) == InOrder(Plug(c, t))[i := now]
    {
      hide Plug, RedBlack, InOrder, Before, After;
      var t' := Node(t.l, now, t.red, t.r);
      UnplugBalanced(c, t);
      PlugBalanced(c, t');
      PlugInOrder(c, t);
      PlugInOrder(c, t');
      NodeOrder(t);
      NodeOrder(t');
    }

    lemma PlacedFrom(c: Ctx, t: Tree, c': Ctx, t': Tree)
      requires Placed(c, t) && Plug(c, t) == Plug(c', t')
      ensures Placed(c', t')
    {
      hide Apart, Linked, CLinked, Separate, TopRef, Plug, Nodes, CNodes;
      PlugSeparate(c, t);
      PlugSeparate(c', t');
      PlugLinked(c, t, null);
      PlugLinked(c', t', null);
      PlugRef(c, t);
      PlugRef(c', t');
    }

    lemma ReplaceFold(v: RbNode, n: RbNode, l: Tree, red: bool, r: Tree, c: Ctx)
      requires Lawful(compute) && Placed(c, Node(l, n, red, r)) && n.aug == v.aug == Recompute(n)
      requires Stored(compute, l) && Stored(compute, r) && CStored(compute, c, Some(v.aug))
      ensures At(c, Node(l, n, red, r))
    {
      hide Stored, CStored, Fold, Lawful, CLinked, Separate, TopRef;
      LinkedNode(Node(l, n, red, r), CRef(c, null));
      RecomputeFolds(n, l, r);
      FoldMk(compute, Left, l, n, red, r);
    }
  }
}
