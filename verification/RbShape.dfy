/** The values a red-black tree is described by: nodes, trees of nodes, and contexts around a subtree. */
module RbShape {
  import opened Basics

  /** What the structure around an `rb_node` holds, and what an augmented tree keeps for a subtree. */
  type Val(==, !new)
  type Sum(==, !new)

  /** The user's `rbcompute`: a node's summary from its own value and its children's summaries. */
  type Compute = (Val, Option<Sum>, Option<Sum>) -> Sum

  datatype Side = Left | Right {
    function Other(): Side { if this == Left then Right else Left }
  }

  /** `struct rb_node`, with the colour bit beside the parent pointer and the augmented field inside. */
  class RbNode {
    const val: Val
    var parent: RbNode?
    var red: bool
    var left: RbNode?
    var right: RbNode?
    var aug: Sum

    constructor (v: Val, s: Sum)
      ensures val == v && aug == s
    {
      val, aug := v, s;
      parent, red, left, right := null, true, null, null;
    }

    function Kid(d: Side): RbNode?
      reads this`left, this`right
    {
      if d == Left then left else right
    }
  }

  datatype Tree = Leaf | Node(l: Tree, n: RbNode, red: bool, r: Tree)

  /** A tree with a hole: `Up(d, n, red, sib, up)` says the hole is `n`'s child on side `d`. */
  datatype Ctx = Top | Up(d: Side, n: RbNode, red: bool, sib: Tree, up: Ctx)

  function Mk(d: Side, near: Tree, n: RbNode, red: bool, far: Tree): Tree {
    if d == Left then Node(near, n, red, far) else Node(far, n, red, near)
  }

  function Plug(c: Ctx, t: Tree): Tree
    decreases c
  {
    match c
    case Top => t
    case Up(d, n, red, sib, up) => Plug(up, Mk(d, t, n, red, sib))
  }

  /** The children of a sibling, seen from the hole: its near one and its far one. */
  function NearOf(c: Ctx): Tree
    requires c.Up?
  {
    if c.sib.Leaf? then Leaf else if c.d == Left then c.sib.l else c.sib.r
  }

  function FarOf(c: Ctx): Tree
    requires c.Up?
  {
    if c.sib.Leaf? then Leaf else if c.d == Left then c.sib.r else c.sib.l
  }

  function Ref(t: Tree): RbNode? {
    if t.Leaf? then null else t.n
  }

  function CRef(c: Ctx, above: RbNode?): RbNode? {
    if c.Top? then above else c.n
  }

  /** The node the outermost pointer of the context must hold. */
  function TopRef(c: Ctx, hole: RbNode?): RbNode?
    decreases c
  {
    match c
    case Top => hole
    case Up(_, n, _, _, up) => TopRef(up, n)
  }

  ghost function Nodes(t: Tree): set<RbNode> {
    match t
    case Leaf => {}
    case Node(l, n, _, r) => Nodes(l) + {n} + Nodes(r)
  }

  ghost function CNodes(c: Ctx): set<RbNode>
    decreases c
  {
    match c
    case Top => {}
    case Up(_, n, _, sib, up) => Nodes(sib) + {n} + CNodes(up)
  }

  /** The context `k` below the context `c`. */
  function Join(k: Ctx, c: Ctx): Ctx
    decreases k
  {
    match k
    case Top => c
    case Up(d, n, red, sib, up) => Up(d, n, red, sib, Join(up, c))
  }

  lemma {:induction false} PlugJoin(k: Ctx, c: Ctx, t: Tree)
    ensures Plug(Join(k, c), t) == Plug(c, Plug(k, t))
    decreases k
  {
    match k
    case Top =>
    case Up(d, n, red, sib, up) => PlugJoin(up, c, Mk(d, t, n, red, sib));
  }

  /** The hole is reached by going left only. */
  predicate Leftmost(k: Ctx)
    decreases k
  {
    match k
    case Top => true
    case Up(d, _, _, _, up) => d == Left && Leftmost(up)
  }

  // ---- the order of the nodes ----

  function InOrder(t: Tree): seq<RbNode> {
    match t
    case Leaf => []
    case Node(l, n, _, r) => InOrder(l) + ([n] + InOrder(r))
  }

  function Before(c: Ctx): seq<RbNode>
    decreases c
  {
    match c
    case Top => []
    case Up(d, n, _, sib, up) =>
      if d == Left then Before(up) else Before(up) + (InOrder(sib) + [n])
  }

  function After(c: Ctx): seq<RbNode>
    decreases c
  {
    match c
    case Top => []
    case Up(d, n, _, sib, up) =>
      if d == Left then [n] + (InOrder(sib) + After(up)) else After(up)
  }

  /** The in-order sequence of a filled context is the hole's sequence between two fixed parts. */
  lemma {:induction false} PlugInOrder(c: Ctx, t: Tree)
    ensures InOrder(Plug(c, t)) == Before(c) + (InOrder(t) + After(c))
    decreases c
  {
    match c
    case Top => assert InOrder(t) + [] == InOrder(t);
    case Up(d, n, red, sib, up) =>
      PlugInOrder(up, Mk(d, t, n, red, sib));
      var i, s := InOrder(t), InOrder(sib);
      if d == Left {
        Assoc(i, [n] + s, After(up));
        Assoc([n], s, After(up));
      } else {
        Assoc(s, [n] + i, After(up));
        Assoc([n], i, After(up));
        Assoc(Before(up), s + [n], i + After(up));
        Assoc(s, [n], i + After(up));
      }
  }

  /** A rotation does not move any node in the order. */
  lemma RotateInOrder(d: Side, a: Tree, p: RbNode, b: Tree, g: RbNode, u: Tree, c1: bool, c2: bool, c3: bool, c4: bool)
    ensures InOrder(Mk(d, Mk(d, a, p, c1, b), g, c2, u)) == InOrder(Mk(d, a, p, c3, Mk(d, b, g, c4, u)))
  {
    var i, j, k := InOrder(a), InOrder(b), InOrder(u);
    if d == Left {
      Assoc(i, [p] + j, [g] + k);
      Assoc([p], j, [g] + k);
    } else {
      Assoc(k, [g] + j, [p] + i);
      Assoc([g], j, [p] + i);
    }
  }

  lemma {:induction false} NodesInOrder(t: Tree, x: RbNode)
    ensures x in Nodes(t) <==> x in InOrder(t)
  {
    match t
    case Leaf =>
    case Node(l, n, _, r) =>
      NodesInOrder(l, x);
      NodesInOrder(r, x);
  }

  lemma {:induction false} PlugNodes(c: Ctx, t: Tree)
    ensures Nodes(Plug(c, t)) == CNodes(c) + Nodes(t)
    decreases c
  {
    match c
    case Top =>
    case Up(d, n, red, sib, up) => PlugNodes(up, Mk(d, t, n, red, sib));
  }

  lemma {:induction false} PlugRef(c: Ctx, t: Tree)
    ensures Ref(Plug(c, t)) == TopRef(c, Ref(t))
    decreases c
  {
    match c
    case Top =>
    case Up(d, n, red, sib, up) => PlugRef(up, Mk(d, t, n, red, sib));
  }

  /** Each node sits at one place of the tree. */
  ghost predicate Apart(t: Tree) {
    match t
    case Leaf => true
    case Node(l, n, _, r) => n !in Nodes(l) && n !in Nodes(r) && Nodes(l) !! Nodes(r) && Apart(l) && Apart(r)
  }

  lemma NodeOrder(t: Tree)
    requires t.Node?
    ensures InOrder(t) == InOrder(t.l) + ([t.n] + InOrder(t.r))
  {
  }

  /** The order lists every node once. */
  lemma {:induction false} NoNodeTwice(t: Tree)
    requires Apart(t)
    ensures NoRepeats(InOrder(t))
  {
    if t.Leaf? {
    } else {
      NoNodeTwice(t.l);
      NoNodeTwice(t.r);
      NodesInOrder(t.l, t.n);
      NodesInOrder(t.r, t.n);
      forall y | y in InOrder(t.l) ensures y !in InOrder(t.r) {
        NodesInOrder(t.l, y);
        NodesInOrder(t.r, y);
      }
      JoinNoRepeats(InOrder(t.l), t.n, InOrder(t.r));
    }
  }

  lemma JoinNoRepeats(a: seq<RbNode>, x: RbNode, b: seq<RbNode>)
    requires NoRepeats(a) && NoRepeats(b) && x !in a && x !in b && forall y :: y in a ==> y !in b
    ensures NoRepeats(a + ([x] + b))
  {
    var s := a + ([x] + b);
    forall i, j | 0 <= i < j < |s| ensures s[i] != s[j] {
      assert i < |a| ==> s[i] in a;
      assert j > |a| ==> s[j] in b;
    }
  }

  /** The sequence with the first `x` taken out. */
  function Without(s: seq<RbNode>, x: RbNode): seq<RbNode> {
    if s == [] then [] else if s[0] == x then s[1..] else [s[0]] + Without(s[1..], x)
  }

  lemma {:induction false} WithoutFirst(a: seq<RbNode>, x: RbNode, b: seq<RbNode>)
    requires x !in a
    ensures Without(a + ([x] + b), x) == a + b
  {
    if a == [] {
      assert a + ([x] + b) == [x] + b && ([x] + b)[1..] == b == a + b;
    } else {
      WithoutFirst(a[1..], x, b);
      assert (a + ([x] + b))[1..] == a[1..] + ([x] + b);
      assert [a[0]] + (a[1..] + b) == a + b;
    }
  }

  lemma TakenOut(t: Tree, a: seq<RbNode>, x: RbNode, b: seq<RbNode>)
    requires Apart(t) && InOrder(t) == a + ([x] + b)
    ensures Without(InOrder(t), x) == a + b
  {
    NoNodeTwice(t);
    var s := InOrder(t);
    assert s[|a|] == x;
    assert forall i :: 0 <= i < |a| ==> s[i] == a[i];
    WithoutFirst(a, x, b);
  }

  /** A context around every node of a tree. */
  lemma {:induction false} Zoom(c: Ctx, t: Tree, x: RbNode) returns (c': Ctx, t': Tree)
    requires x in Nodes(t)
    ensures Plug(c', t') == Plug(c, t) && t'.Node? && t'.n == x
    decreases t
  {
    if t.n == x {
      c', t' := c, t;
    } else if x in Nodes(t.l) {
      c', t' := Zoom(Up(Left, t.n, t.red, t.r, c), t.l, x);
    } else {
      c', t' := Zoom(Up(Right, t.n, t.red, t.l, c), t.r, x);
    }
  }

  // ---- colours ----

  predicate Red(t: Tree) {
    t.Node? && t.red
  }

  function BlackHeight(t: Tree): nat {
    match t
    case Leaf => 0
    case Node(l, _, red, _) => BlackHeight(l) + if red then 0 else 1
  }

  /** Equal black counts on all paths, and no red node with a red child. */
  predicate Balanced(t: Tree) {
    match t
    case Leaf => true
    case Node(l, _, red, r) =>
      && Balanced(l) && Balanced(r) && BlackHeight(l) == BlackHeight(r)
      && (red ==> !Red(l) && !Red(r))
  }

  /** The red-black rules of rbtree.c: a black root over a balanced tree. */
  predicate RedBlack(t: Tree) {
    Balanced(t) && !Red(t)
  }

  /** The context of a red-black tree whose hole expects `h` black nodes on every path. */
  predicate CBalanced(c: Ctx, h: nat)
    decreases c
  {
    match c
    case Top => true
    case Up(_, _, red, sib, up) =>
      && Balanced(sib) && BlackHeight(sib) == h
      && (red ==> !Red(sib) && up.Up? && !up.red)
      && CBalanced(up, if red then h else h + 1)
  }

  /** Whether the hole may take a red node. */
  predicate TakesRed(c: Ctx) {
    c.Up? && !c.red
  }

  lemma PlugTop(t: Tree)
    ensures Plug(Top, t) == t
  {
  }

  lemma IsRedBlack(t: Tree)
    ensures RedBlack(t) <==> Balanced(t) && !Red(t)
  {
  }

  lemma {:induction false} PlugBalanced(c: Ctx, t: Tree)
    requires Balanced(t) && CBalanced(c, BlackHeight(t)) && (Red(t) ==> TakesRed(c))
    ensures RedBlack(Plug(c, t))
    decreases c
  {
    match c
    case Top =>
    case Up(d, n, red, sib, up) => PlugBalanced(up, Mk(d, t, n, red, sib));
  }

  lemma {:induction false} UnplugBalanced(c: Ctx, t: Tree)
    requires RedBlack(Plug(c, t))
    ensures Balanced(t) && CBalanced(c, BlackHeight(t)) && (Red(t) ==> TakesRed(c))
    decreases c
  {
    match c
    case Top =>
    case Up(d, n, red, sib, up) => UnplugBalanced(up, Mk(d, t, n, red, sib));
  }

  /** Insertion's loop invariant: the only rule broken is a red node under a red parent or at the root. */
  predicate Growing(c: Ctx, t: Tree) {
    Red(t) && Balanced(t) && CBalanced(c, BlackHeight(t))
  }

  lemma BalancedMk(d: Side, a: Tree, n: RbNode, red: bool, b: Tree)
    ensures Balanced(Mk(d, a, n, red, b)) <==>
            (Balanced(a) && Balanced(b) && BlackHeight(a) == BlackHeight(b) && (red ==> !Red(a) && !Red(b)))
    ensures Balanced(Mk(d, a, n, red, b)) ==> BlackHeight(Mk(d, a, n, red, b)) == BlackHeight(a) + if red then 0 else 1
    ensures Red(Mk(d, a, n, red, b)) == red
  {
  }

  lemma FlipGrowing(d: Side, p: RbNode, e: Side, g: RbNode, t: Tree, s: Tree, u: Tree, c: Ctx)
    requires Growing(Up(d, p, true, s, Up(e, g, false, u, c)), t) && Red(u)
    ensures Growing(c, Mk(e, Mk(d, t, p, false, s), g, true, Node(u.l, u.n, false, u.r)))
  {
    assert CBalanced(Up(e, g, false, u, c), BlackHeight(t));
    BalancedMk(d, t, p, false, s);
    BalancedMk(e, Mk(d, t, p, false, s), g, true, Node(u.l, u.n, false, u.r));
  }

  lemma OuterBalanced(e: Side, p: RbNode, g: RbNode, t: Tree, s: Tree, u: Tree, c: Ctx)
    requires Growing(Up(e, p, true, s, Up(e, g, false, u, c)), t) && !Red(u)
    ensures RedBlack(Plug(c, Mk(e, t, p, false, Mk(e, s, g, true, u))))
  {
    assert CBalanced(Up(e, g, false, u, c), BlackHeight(t));
    BalancedMk(e, s, g, true, u);
    BalancedMk(e, t, p, false, Mk(e, s, g, true, u));
    PlugBalanced(c, Mk(e, t, p, false, Mk(e, s, g, true, u)));
  }

  lemma InnerBalanced(e: Side, p: RbNode, g: RbNode, x: RbNode, b: Tree, f: Tree, s: Tree, u: Tree, c: Ctx)
    requires Growing(Up(e.Other(), p, true, s, Up(e, g, false, u, c)), Mk(e, b, x, true, f)) && !Red(u)
    ensures !Red(b) && !Red(f) && RedBlack(Plug(c, Mk(e, Mk(e, s, p, true, b), x, false, Mk(e, f, g, true, u))))
  {
    assert CBalanced(Up(e, g, false, u, c), BlackHeight(Mk(e, b, x, true, f)));
    BalancedMk(e, b, x, true, f);
    BalancedMk(e, s, p, true, b);
    BalancedMk(e, f, g, true, u);
    BalancedMk(e, Mk(e, s, p, true, b), x, false, Mk(e, f, g, true, u));
    PlugBalanced(c, Mk(e, Mk(e, s, p, true, b), x, false, Mk(e, f, g, true, u)));
  }

  /** Removal's loop invariant: the paths through the hole are one black node short. */
  predicate Short(c: Ctx, t: Tree) {
    Balanced(t) && !Red(t) && c.Up? && CBalanced(c, BlackHeight(t) + 1)
  }

  lemma RedSiblingShort(d: Side, p: RbNode, s: RbNode, near: Tree, far: Tree, t: Tree, c: Ctx, pr: bool)
    requires Short(Up(d, p, pr, Mk(d.Other(), far, s, true, near), c), t)
    ensures !pr && near.Node? && !near.red && Short(Up(d, p, true, near, Up(d, s, false, far, c)), t)
  {
    BalancedMk(d.Other(), far, s, true, near);
    assert CBalanced(Up(d, s, false, far, c), BlackHeight(t) + 1);
  }

  lemma FlipShort(d: Side, p: RbNode, pr: bool, s: RbNode, near: Tree, far: Tree, t: Tree, c: Ctx)
    requires Short(Up(d, p, pr, Mk(d.Other(), far, s, false, near), c), t) && !Red(near) && !Red(far)
    ensures var t' := Mk(d, t, p, false, Mk(d.Other(), far, s, true, near));
      if pr || c.Top? then RedBlack(Plug(c, t')) else Short(c, t')
  {
    var t' := Mk(d, t, p, false, Mk(d.Other(), far, s, true, near));
    BalancedMk(d.Other(), far, s, false, near);
    BalancedMk(d.Other(), far, s, true, near);
    BalancedMk(d, t, p, false, Mk(d.Other(), far, s, true, near));
    if pr || c.Top? {
      PlugBalanced(c, t');
    }
  }

  lemma OuterRepairs(d: Side, p: RbNode, pr: bool, s: RbNode, near: Tree, far: Tree, far': Tree, t: Tree, c: Ctx)
    requires Short(Up(d, p, pr, Mk(d.Other(), far, s, false, near), c), t) && Red(far)
    requires far' == Node(far.l, far.n, false, far.r)
    ensures RedBlack(Plug(c, Mk(d.Other(), far', s, pr, Mk(d.Other(), near, p, false, t))))
  {
    var o := d.Other();
    BalancedMk(o, far, s, false, near);
    BalancedMk(o, near, p, false, t);
    BalancedMk(o, far', s, pr, Mk(o, near, p, false, t));
    PlugBalanced(c, Mk(o, far', s, pr, Mk(o, near, p, false, t)));
  }

  lemma InnerRepairs(d: Side, p: RbNode, pr: bool, s: RbNode, y: RbNode, b: Tree, e: Tree, far: Tree, t: Tree, c: Ctx)
    requires Short(Up(d, p, pr, Mk(d.Other(), far, s, false, Mk(d.Other(), b, y, true, e)), c), t) && !Red(far)
    ensures !Red(b) && RedBlack(Plug(c,
      Mk(d.Other(), Mk(d.Other(), far, s, false, b), y, pr, Mk(d.Other(), e, p, false, t))))
  {
    var o := d.Other();
    var near := Mk(o, b, y, true, e);
    BalancedMk(o, b, y, true, e);
    BalancedMk(o, far, s, false, near);
    BalancedMk(o, far, s, false, b);
    BalancedMk(o, e, p, false, t);
    BalancedMk(o, Mk(o, far, s, false, b), y, pr, Mk(o, e, p, false, t));
    PlugBalanced(c, Mk(o, Mk(o, far, s, false, b), y, pr, Mk(o, e, p, false, t)));
  }

  lemma {:induction false} LeftmostFirst(k: Ctx)
    requires Leftmost(k)
    ensures Before(k) == []
    decreases k
  {
    if k.Top? {
    } else {
      LeftmostFirst(k.up);
    }
  }

  /** Colours and black counts do not depend on which node sits where. */
  lemma {:induction false} Renamed(k: Ctx, d: Side, n: RbNode, m: RbNode, red: bool, sib: Tree, c: Ctx, h: nat)
    requires CBalanced(Join(k, Up(d, n, red, sib, c)), h)
    ensures CBalanced(Join(k, Up(d, m, red, sib, c)), h)
    ensures TakesRed(Join(k, Up(d, n, red, sib, c))) == TakesRed(Join(k, Up(d, m, red, sib, c)))
    decreases k
  {
    if k.Top? {
    } else {
      Renamed(k.up, d, n, m, red, sib, c, if k.red then h else h + 1);
    }
  }

  /** A node without a left (or right) child: its only child, if any, is red and alone. */
  lemma OnlyChild(d: Side, n: RbNode, red: bool, r: Tree, c: Ctx)
    requires RedBlack(Plug(c, Mk(d, Leaf, n, red, r)))
    ensures r.Node? ==> !red && RedBlack(Plug(c, Node(r.l, r.n, false, r.r)))
    ensures r.Leaf? && (red || c.Top?) ==> RedBlack(Plug(c, Leaf))
    ensures r.Leaf? && !red && c.Up? ==> Short(c, Leaf)
  {
    UnplugBalanced(c, Mk(d, Leaf, n, red, r));
    BalancedMk(d, Leaf, n, red, r);
    if r.Node? {
      var r' := Node(r.l, r.n, false, r.r);
      assert BlackHeight(r) == 0;
      PlugBalanced(c, r');
    } else if red || c.Top? {
      PlugBalanced(c, Leaf);
    }
  }

  /** The same when `m`, which has no left child, moves into the place of `n` above it. */
  lemma SuccessorMoves(k: Ctx, m: RbNode, mr: bool, r: Tree, n: RbNode, red: bool, l: Tree, c: Ctx)
    requires RedBlack(Plug(Join(k, Up(Right, n, red, l, c)), Node(Leaf, m, mr, r)))
    ensures var c' := Join(k, Up(Right, m, red, l, c));
      && (r.Node? ==> !mr && RedBlack(Plug(c', Node(r.l, r.n, false, r.r))))
      && (r.Leaf? && mr ==> RedBlack(Plug(c', Leaf)))
      && (r.Leaf? && !mr ==> Short(c', Leaf))
  {
    var c0, c' := Join(k, Up(Right, n, red, l, c)), Join(k, Up(Right, m, red, l, c));
    UnplugBalanced(c0, Node(Leaf, m, mr, r));
    var h := BlackHeight(Node(Leaf, m, mr, r));
    Renamed(k, Right, n, m, red, l, c, h);
    if r.Node? {
      assert BlackHeight(r) == 0;
      PlugBalanced(c', Node(r.l, r.n, false, r.r));
    } else if mr {
      PlugBalanced(c', Leaf);
    }
  }

  /** Same order inside, same order outside. */
  lemma SameOrder(c: Ctx, t: Tree, t': Tree)
    requires InOrder(t) == InOrder(t')
    ensures InOrder(Plug(c, t)) == InOrder(Plug(c, t'))
  {
    PlugInOrder(c, t);
    PlugInOrder(c, t');
  }

  lemma InnerInOrder(d: Side, a: Tree, p: RbNode, b: Tree, x: RbNode, e: Tree, g: RbNode, u: Tree,
      pr: bool, xr: bool, gr: bool, pr': bool, xr': bool, gr': bool)
    ensures InOrder(Mk(d, Mk(d, a, p, pr, Mk(d, b, x, xr, e)), g, gr, u))
         == InOrder(Mk(d, Mk(d, a, p, pr', b), x, xr', Mk(d, e, g, gr', u)))
  {
    hide Mk, InOrder;
    var t, t' := Mk(d, a, p, pr, Mk(d, b, x, xr, e)), Mk(d, Mk(d, a, p, pr', b), x, xr, e);
    RotateInOrder(d, a, p, b, x, e, pr', xr, pr, xr);
    MkInOrder(d, t, t', g, gr, gr, u);
    RotateInOrder(d, Mk(d, a, p, pr', b), x, e, g, u, xr, gr, xr', gr');
  }

  lemma MkInOrder(d: Side, a: Tree, a': Tree, n: RbNode, c1: bool, c2: bool, b: Tree)
    requires InOrder(a) == InOrder(a')
    ensures InOrder(Mk(d, a, n, c1, b)) == InOrder(Mk(d, a', n, c2, b))
  {
  }

  // ---- height ----

  function Height(t: Tree): nat {
    match t
    case Leaf => 0
    case Node(l, _, _, r) => 1 + if Height(l) < Height(r) then Height(r) else Height(l)
  }

  lemma {:induction false} BlackHeightBounds(t: Tree)
    requires Balanced(t)
    ensures Pow2(BlackHeight(t)) <= |InOrder(t)| + 1
    ensures Height(t) <= 2 * BlackHeight(t) + if Red(t) then 1 else 0
  {
    match t
    case Leaf =>
    case Node(l, _, _, r) =>
      BlackHeightBounds(l);
      BlackHeightBounds(r);
  }

  lemma {:induction false} Pow2Doubles(k: nat)
    ensures Pow2(2 * k) == Pow2(k) * Pow2(k)
  {
    if k == 0 {
    } else {
      Pow2Doubles(k - 1);
      assert Pow2(2 * k) == 2 * (2 * Pow2(2 * (k - 1)));
    }
  }

  lemma {:induction false} Pow2Grows(a: nat, b: nat)
    requires a <= b
    ensures Pow2(a) <= Pow2(b)
  {
    if a == b {
    } else {
      Pow2Grows(a, b - 1);
    }
  }

  lemma SquareGrows(a: nat, b: nat)
    requires a <= b
    ensures a * a <= b * b
  {
    assert a * a <= a * b <= b * b;
  }

  /** At most 2 * log2(n + 1) nodes from the root to a leaf. */
  lemma HeightBound(t: Tree)
    requires RedBlack(t)
    ensures Pow2(Height(t)) <= (|InOrder(t)| + 1) * (|InOrder(t)| + 1)
  {
    var b, m := BlackHeight(t), |InOrder(t)| + 1;
    BlackHeightBounds(t);
    Pow2Grows(Height(t), 2 * b);
    Pow2Doubles(b);
    SquareGrows(Pow2(b), m);
  }

  // ---- summaries ----

  /** The law an augmented tree needs: a rotation does not change the summary of the whole. */
  ghost predicate Lawful(f: Compute) {
    forall x, y, a, b, c :: f(y, Some(f(x, a, b)), c) == f(x, a, Some(f(y, b, c)))
  }

  /** The summary of a subtree once one more value is put below it. */
  function Plus(f: Compute, absorb: (Sum, Val) -> Sum, s: Option<Sum>, v: Val): Option<Sum> {
    match s
    case None => Some(f(v, None, None))
    case Some(x) => Some(absorb(x, v))
  }

  /** What lets an insertion update its ancestors on the way down: `absorb` adds a value on either side. */
  ghost predicate Absorbs(f: Compute, absorb: (Sum, Val) -> Sum) {
    forall x, v, a, b ::
      absorb(f(x, a, b), v) == f(x, Plus(f, absorb, a, v), b) && absorb(f(x, a, b), v) == f(x, a, Plus(f, absorb, b, v))
  }

  /** No summary is kept: `dummy_callbacks`. */
  ghost predicate Plain(f: Compute) {
    forall v, a, b, v', a', b' :: f(v, a, b) == f(v', a', b')
  }

  lemma PlainIsLawful(f: Compute, keep: (Sum, Val) -> Sum)
    requires Plain(f) && forall s, v :: keep(s, v) == s
    ensures Lawful(f) && Absorbs(f, keep)
  {
  }

  /** A node's summary, given the side its children's summaries are on. */
  function Apply(f: Compute, d: Side, v: Val, near: Option<Sum>, far: Option<Sum>): Sum {
    if d == Left then f(v, near, far) else f(v, far, near)
  }

  function Fold(f: Compute, t: Tree): Option<Sum> {
    match t
    case Leaf => None
    case Node(l, n, _, r) => Some(f(n.val, Fold(f, l), Fold(f, r)))
  }

  /** The summary of a sequence of nodes. */
  function Total(f: Compute, s: seq<RbNode>): Option<Sum> {
    if s == [] then None else Some(f(s[0].val, None, Total(f, s[1..])))
  }

  lemma {:induction false} TotalSplit(f: Compute, s: seq<RbNode>, x: RbNode, r: seq<RbNode>)
    requires Lawful(f)
    ensures Total(f, s + ([x] + r)) == Some(f(x.val, Total(f, s), Total(f, r)))
  {
    if s == [] {
      assert s + ([x] + r) == [x] + r && ([x] + r)[1..] == r;
    } else {
      TotalSplit(f, s[1..], x, r);
      assert (s + ([x] + r))[1..] == s[1..] + ([x] + r);
      assert f(x.val, Some(f(s[0].val, None, Total(f, s[1..]))), Total(f, r))
          == f(s[0].val, None, Some(f(x.val, Total(f, s[1..]), Total(f, r))));
    }
  }

  /** Under the law a subtree's summary depends only on its in-order sequence, not on its shape. */
  lemma {:induction false} FoldIsTotal(f: Compute, t: Tree)
    requires Lawful(f)
    ensures Fold(f, t) == Total(f, InOrder(t))
  {
    match t
    case Leaf =>
    case Node(l, n, _, r) =>
      FoldIsTotal(f, l);
      FoldIsTotal(f, r);
      TotalSplit(f, InOrder(l), n, InOrder(r));
  }

  // ---- orders ----

  /** A strict weak order, as `key < parent->key` is. */
  ghost predicate Ordering(less: (Val, Val) -> bool) {
    && (forall a, b :: less(a, b) ==> !less(b, a))
    && (forall a, b, c :: less(a, c) ==> less(a, b) || less(b, c))
  }

  predicate Sorted(less: (Val, Val) -> bool, s: seq<RbNode>) {
    forall i, j :: 0 <= i < j < |s| ==> !less(s[j].val, s[i].val)
  }

  predicate NoneAbove(less: (Val, Val) -> bool, v: Val, s: seq<RbNode>) {
    forall i :: 0 <= i < |s| ==> !less(v, s[i].val)
  }

  predicate AllAbove(less: (Val, Val) -> bool, v: Val, s: seq<RbNode>) {
    forall i :: 0 <= i < |s| ==> less(v, s[i].val)
  }

  /** `x` put behind every node that is not greater. */
  function InsertSorted(less: (Val, Val) -> bool, s: seq<RbNode>, x: RbNode): seq<RbNode> {
    if s == [] || less(x.val, s[0].val) then [x] + s else [s[0]] + InsertSorted(less, s[1..], x)
  }

  lemma {:induction false} InsertSortedAt(less: (Val, Val) -> bool, a: seq<RbNode>, b: seq<RbNode>, x: RbNode)
    requires NoneAbove(less, x.val, a) && AllAbove(less, x.val, b)
    ensures InsertSorted(less, a + b, x) == a + ([x] + b)
  {
    if a == [] {
      assert a + b == b && a + ([x] + b) == [x] + b;
    } else {
      InsertSortedAt(less, a[1..], b, x);
      assert (a + b)[1..] == a[1..] + b;
      assert a + ([x] + b) == [a[0]] + (a[1..] + ([x] + b));
    }
  }

  lemma SortedCons(less: (Val, Val) -> bool, x: RbNode, t: seq<RbNode>)
    requires Sorted(less, t) && forall y :: y in t ==> !less(y.val, x.val)
    ensures Sorted(less, [x] + t)
  {
    var s := [x] + t;
    forall i, j | 0 <= i < j < |s| ensures !less(s[j].val, s[i].val) {
      assert s[j] == t[j - 1] && t[j - 1] in t;
      assert i > 0 ==> s[i] == t[i - 1];
    }
  }

  lemma {:induction false} InsertMembers(less: (Val, Val) -> bool, s: seq<RbNode>, x: RbNode)
    ensures multiset(InsertSorted(less, s, x)) == multiset(s) + multiset{x}
  {
    if s == [] || less(x.val, s[0].val) {
    } else {
      InsertMembers(less, s[1..], x);
      assert s == [s[0]] + s[1..];
    }
  }

  lemma SortedHead(less: (Val, Val) -> bool, s: seq<RbNode>)
    requires Sorted(less, s) && s != []
    ensures Sorted(less, s[1..]) && forall y :: y in s[1..] ==> !less(y.val, s[0].val)
  {
  }

  lemma AllBehind(less: (Val, Val) -> bool, s: seq<RbNode>, x: RbNode)
    requires Ordering(less) && s != [] && less(x.val, s[0].val)
    requires forall y :: y in s[1..] ==> !less(y.val, s[0].val)
    ensures forall y :: y in s ==> !less(y.val, x.val)
  {
    forall y | y in s ensures !less(y.val, x.val) {
      if y in s[1..] {
        var a, b, c := y.val, s[0].val, x.val;
        assert less(a, c) ==> less(a, b) || less(b, c);
        assert less(c, b) ==> less(c, a) || less(a, b);
      }
      assert s == [s[0]] + s[1..];
    }
  }

  lemma InsertMember(less: (Val, Val) -> bool, s: seq<RbNode>, x: RbNode, y: RbNode)
    ensures y in InsertSorted(less, s, x) <==> y == x || y in s
  {
    InsertMembers(less, s, x);
    assert y in InsertSorted(less, s, x) <==> y in multiset(InsertSorted(less, s, x));
  }

  /** Insertion keeps a sorted sequence sorted. */
  lemma {:induction false} InsertSortedSorted(less: (Val, Val) -> bool, s: seq<RbNode>, x: RbNode)
    requires Ordering(less) && Sorted(less, s)
    ensures Sorted(less, InsertSorted(less, s, x)) && multiset(InsertSorted(less, s, x)) == multiset(s) + multiset{x}
  {
    hide Sorted, Ordering;
    InsertMembers(less, s, x);
    if s == [] {
      OneSorted(less, x);
    } else {
      SortedHead(less, s);
      if less(x.val, s[0].val) {
        AllBehind(less, s, x);
        SortedCons(less, x, s);
      } else {
        InsertSortedSorted(less, s[1..], x);
        var t := InsertSorted(less, s[1..], x);
        forall y | y in t ensures !less(y.val, s[0].val) {
          InsertMember(less, s[1..], x, y);
        }
        SortedCons(less, s[0], t);
      }
    }
  }

  lemma OneSorted(less: (Val, Val) -> bool, x: RbNode)
    ensures Sorted(less, [x] + [])
  {
  }

  lemma SortedSplit(less: (Val, Val) -> bool, a: seq<RbNode>, n: RbNode, b: seq<RbNode>)
    requires Sorted(less, a + ([n] + b))
    ensures Sorted(less, a) && Sorted(less, b)
    ensures forall i :: 0 <= i < |a| ==> !less(n.val, a[i].val)
    ensures forall i :: 0 <= i < |b| ==> !less(b[i].val, n.val)
  {
    var s := a + ([n] + b);
    assert forall i :: 0 <= i < |a| ==> a[i] == s[i];
    assert n == s[|a|];
    assert forall i :: 0 <= i < |b| ==> b[i] == s[|a| + 1 + i];
  }

  /** Going left of a greater node: it and all after it are greater. */
  lemma GoLeft(less: (Val, Val) -> bool, v: Val, a: seq<RbNode>, n: RbNode, b: seq<RbNode>, after: seq<RbNode>)
    requires Ordering(less) && Sorted(less, a + ([n] + b)) && AllAbove(less, v, after) && less(v, n.val)
    ensures Sorted(less, a) && AllAbove(less, v, [n] + (b + after))
  {
    SortedSplit(less, a, n, b);
    forall i | 0 <= i < |b| ensures less(v, b[i].val) {
      var u, w := b[i].val, n.val;
      assert less(v, w) ==> less(v, u) || less(u, w);
    }
  }

  /** Going right of a node that is not greater: it and all before it are not greater. */
  lemma GoRight(less: (Val, Val) -> bool, v: Val, a: seq<RbNode>, n: RbNode, b: seq<RbNode>, before: seq<RbNode>)
    requires Ordering(less) && Sorted(less, a + ([n] + b)) && NoneAbove(less, v, before) && !less(v, n.val)
    ensures Sorted(less, b) && NoneAbove(less, v, before + (a + [n]))
  {
    SortedSplit(less, a, n, b);
    forall i | 0 <= i < |a| ensures !less(v, a[i].val) {
      var u, w := a[i].val, n.val;
      assert less(v, u) ==> less(v, w) || less(w, u);
    }
  }
}
