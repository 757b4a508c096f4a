/** rblist.cpp: an ordered set of entries on top of the red-black tree. */
module RbList {
  import opened Basics
  import opened RbShape
  import opened RbHeap
  import opened RbTree

  /** `node_cmp` as an abstract total order; entries that compare equal are the same element. */
  ghost predicate TotalOrder(cmp: (Val, Val) -> int) {
    && (forall a, b :: cmp(a, b) < 0 <==> cmp(b, a) > 0)
    && (forall a, b, c :: cmp(a, b) <= 0 && cmp(b, c) <= 0 ==> cmp(a, c) <= 0)
  }

  predicate Strict(cmp: (Val, Val) -> int, s: seq<RbNode>) {
    forall i, j :: 0 <= i < j < |s| ==> cmp(s[i].val, s[j].val) < 0
  }

  predicate AllBefore(cmp: (Val, Val) -> int, s: seq<RbNode>, v: Val) {
    forall i :: 0 <= i < |s| ==> cmp(s[i].val, v) < 0
  }

  predicate AllAfter(cmp: (Val, Val) -> int, s: seq<RbNode>, v: Val) {
    forall i :: 0 <= i < |s| ==> cmp(s[i].val, v) > 0
  }

  /** No entry equal to `v` is stored. */
  predicate Missing(cmp: (Val, Val) -> int, s: seq<RbNode>, v: Val) {
    forall i :: 0 <= i < |s| ==> cmp(s[i].val, v) != 0
  }

  function Less(cmp: (Val, Val) -> int): (Val, Val) -> bool {
    (a, b) => cmp(a, b) < 0
  }

  lemma Compare(cmp: (Val, Val) -> int, a: Val, b: Val, c: Val)
    requires TotalOrder(cmp)
    ensures cmp(a, b) < 0 && cmp(b, c) <= 0 ==> cmp(a, c) < 0
    ensures cmp(a, b) <= 0 && cmp(b, c) < 0 ==> cmp(a, c) < 0
  {
    assert cmp(c, a) <= 0 && cmp(a, b) <= 0 ==> cmp(c, b) <= 0;
    assert cmp(b, c) <= 0 && cmp(c, a) <= 0 ==> cmp(b, a) <= 0;
  }

  /** The descent splits a strictly ordered sequence around the entry. */
  lemma StrictSplit(cmp: (Val, Val) -> int, a: seq<RbNode>, n: RbNode, b: seq<RbNode>, before: seq<RbNode>,
      after: seq<RbNode>, v: Val)
    requires TotalOrder(cmp) && Strict(cmp, a + ([n] + b)) && AllBefore(cmp, before, v) && AllAfter(cmp, after, v)
    ensures Strict(cmp, a) && Strict(cmp, b)
    ensures cmp(n.val, v) > 0 ==> AllAfter(cmp, [n] + (b + after), v)
    ensures cmp(n.val, v) < 0 ==> AllBefore(cmp, before + (a + [n]), v)
  {
    var s := a + ([n] + b);
    assert forall i :: 0 <= i < |a| ==> a[i] == s[i];
    assert forall i :: 0 <= i < |b| ==> b[i] == s[|a| + 1 + i];
    assert n == s[|a|];
    forall i | 0 <= i < |b| ensures cmp(n.val, v) > 0 ==> cmp(b[i].val, v) > 0 {
      Compare(cmp, v, n.val, b[i].val);
    }
    forall i | 0 <= i < |a| ensures cmp(n.val, v) < 0 ==> cmp(a[i].val, v) < 0 {
      Compare(cmp, a[i].val, n.val, v);
    }
  }

  /** At an empty place the entry is missing, and belongs there. */
  lemma StrictPlace(cmp: (Val, Val) -> int, a: seq<RbNode>, b: seq<RbNode>, x: RbNode)
    requires TotalOrder(cmp) && Strict(cmp, a + b) && AllBefore(cmp, a, x.val) && AllAfter(cmp, b, x.val)
    ensures Strict(cmp, a + ([x] + b)) && InsertSorted(Less(cmp), a + b, x) == a + ([x] + b)
  {
    var t := a + ([x] + b);
    forall i, j | 0 <= i < j < |t| ensures cmp(t[i].val, t[j].val) < 0 {
      if i < |a| && j > |a| {
        assert t[i] == (a + b)[i] && t[j] == (a + b)[j - 1];
      } else if i < |a| {
        assert t[i] == a[i] && (j < |a| ==> t[j] == a[j] && a[i] == (a + b)[i] && a[j] == (a + b)[j]);
      } else {
        assert t[j] == b[j - 1 - |a|] == (a + b)[j - 1];
        assert i > |a| ==> t[i] == b[i - 1 - |a|] == (a + b)[i - 1];
      }
    }
    InsertSortedAt(Less(cmp), a, b, x);
  }

  lemma MissingAround(cmp: (Val, Val) -> int, a: seq<RbNode>, b: seq<RbNode>, v: Val)
    requires AllBefore(cmp, a, v) && AllAfter(cmp, b, v)
    ensures Missing(cmp, a + b, v)
  {
  }

  lemma {:induction false} StrictWithout(cmp: (Val, Val) -> int, s: seq<RbNode>, x: RbNode)
    requires Strict(cmp, s)
    ensures Strict(cmp, Without(s, x)) && forall y :: y in Without(s, x) ==> y in s
    ensures |Without(s, x)| == if x in s then |s| - 1 else |s|
  {
    if s == [] || s[0] == x {
    } else {
      var t := Without(s[1..], x);
      StrictWithout(cmp, s[1..], x);
      forall j | 0 <= j < |t| ensures cmp(s[0].val, t[j].val) < 0 {
        assert t[j] in s[1..];
      }
    }
  }

  method OneEntry(cmp: (Val, Val) -> int, f: Compute, entry: Val) returns (list: RblistHead)
    requires TotalOrder(cmp) && Plain(f)
    ensures fresh(list) && fresh(list.entries) && fresh(Nodes(list.entries.tree)) && list.Valid()
    ensures |list.Order()| == 1 && list.deleted == []
  {
    hide TotalOrder, Plain, RbRoot.Valid, Missing, InOrder;
    list := new RblistHead(cmp, f);
    NothingMissing(cmp, entry);
    var r, added := list.AddNode(entry, false);
    assert list.Order() == [added];
    forall y ensures y in Nodes(list.entries.tree) <==> y == added {
      NodesInOrder(list.entries.tree, y);
    }
  }

  /** The failing input: one entry added and removed again leaves an empty set that is not reported as empty. */
  method AddAndRemove(cmp: (Val, Val) -> int, f: Compute, entry: Val) returns (list: RblistHead, empty: bool)
    requires TotalOrder(cmp) && Plain(f)
    ensures list.Valid() && list.Order() == [] && list.nrEntries == 1 && !empty
  {
    hide TotalOrder, Plain, RbRoot.Valid, InOrder, Nodes;
    list := OneEntry(cmp, f, entry);
    assert allocated(Nodes(list.entries.tree));
    var x := list.Entry(0);
    list.RemoveNode(x);
    empty := list.Empty();
  }

  lemma NothingMissing(cmp: (Val, Val) -> int, v: Val)
    ensures Missing(cmp, [], v)
  {
  }

  /** 0, -EEXIST and -ENOMEM */
  datatype AddResult = Added | Exists | NoMemory

  class RblistHead {
    const entries: RbRoot
    const cmp: (Val, Val) -> int
    var nrEntries: nat
    /** The nodes handed to `node_delete`, in turn. */
    ghost var deleted: seq<RbNode>

    /** `rblist__init` */
    constructor (cmp: (Val, Val) -> int, f: Compute)
      requires TotalOrder(cmp) && Plain(f)
      ensures Valid() && this.cmp == cmp && Order() == [] && nrEntries == 0 && deleted == []
      ensures fresh(entries) && entries.tree == Leaf
    {
      PlainIsLawful(f, (s, v) => s);
      this.cmp := cmp;
      entries := new RbRoot(f);
      nrEntries, deleted := 0, [];
    }

    ghost predicate Valid()
      reads this, entries, Nodes(entries.tree)
    {
      && entries.Valid() && TotalOrder(cmp) && Plain(entries.compute) && Strict(cmp, Order())
      && nrEntries == (|Order()| + |deleted|) % 0x1_0000_0000
    }

    /** The entries in increasing order. */
    ghost function Order(): seq<RbNode>
      reads entries
    {
      InOrder(entries.tree)
    }

    /** The count is right exactly while the number of removals so far is a multiple of 2^32. */
    lemma CountIsSize()
      requires Valid()
      ensures nrEntries == |Order()| % 0x1_0000_0000 <==> |deleted| % 0x1_0000_0000 == 0
    {
    }

    /** `rblist__nr_entries`: what was ever added and not refused, in 32 bits. */
    function NrEntries(): (r: nat)
      requires Valid()
      reads this, entries, Nodes(entries.tree)
      ensures r == (|Order()| + |deleted|) % 0x1_0000_0000
    {
      nrEntries
    }

    /** `rblist__empty` */
    function Empty(): (r: bool)
      requires Valid()
      reads this, entries, Nodes(entries.tree)
      ensures r ==> |Order()| + |deleted| == 0 || |Order()| + |deleted| >= 0x1_0000_0000
      ensures |deleted| == 0 && |Order()| < 0x1_0000_0000 ==> (r <==> Order() == [])
    {
      nrEntries == 0
    }

    /** `rblist__find` */
    method Find(entry: Val) returns (found: RbNode?)
      requires Valid()
      ensures found == null <==> Missing(cmp, Order(), entry)
      ensures found != null ==> found in Order() && cmp(found.val, entry) == 0
    {
      hide InOrder, Nodes, CNodes, Plug, RedBlack, Before, After, Strict, AllBefore, AllAfter, TotalOrder, RbRoot.At,
        RbNode.Kid;
      var p := entries.rbNode;
      ghost var c, t := Top, entries.tree;
      SearchStart(entry);
      while p != null
        invariant Searching(c, t, entry) && p == Ref(t)
        decreases t
      {
        SearchView(c, t, entry);
        var rc := cmp(p.val, entry);
        if rc > 0 {
          c, t := Up(Left, t.n, t.red, t.r, c), t.l;
          p := p.left;
        } else if rc < 0 {
          c, t := Up(Right, t.n, t.red, t.l, c), t.r;
          p := p.right;
        } else {
          Hit(c, t, entry);
          return p;
        }
      }
      SearchEnd(c, t, entry);
      return null;
    }

    /** `rblist__add_node`; `outOfMemory` says whether `node_new` fails. */
    method AddNode(entry: Val, outOfMemory: bool) returns (r: AddResult, ghost x: RbNode?)
      requires Valid()
      modifies this`nrEntries, entries, Nodes(entries.tree)
      ensures Valid()
      ensures r == Exists <==> !Missing(cmp, old(Order()), entry)
      ensures r == NoMemory <==> Missing(cmp, old(Order()), entry) && outOfMemory
      ensures r != Added ==> Order() == old(Order()) && nrEntries == old(nrEntries)
      ensures r == Added ==>
          x != null && fresh(x) && x.val == entry
          && Order() == InsertSorted(Less(cmp), old(Order()), x)
      ensures r == Added ==> nrEntries == (old(nrEntries) + 1) % 0x1_0000_0000
    {
      hide InOrder, Nodes, CNodes, Plug, RedBlack, Before, After, Strict, AllBefore, AllAfter, TotalOrder, RbRoot.At,
        RbNode.Kid, Lawful, Plain;
      x := null;
      var p, parent: RbNode?, d := entries.rbNode, null, Left;
      ghost var c, t := Top, entries.tree;
      SearchStart(entry);
      while p != null
        invariant Searching(c, t, entry) && p == Ref(t) && parent == CRef(c, null) && (c.Up? ==> d == c.d)
        decreases t
        modifies {}
      {
        SearchView(c, t, entry);
        parent := p;
        var rc := cmp(parent.val, entry);
        if rc > 0 {
          c, t, d := Up(Left, t.n, t.red, t.r, c), t.l, Left;
          p := p.left;
        } else if rc < 0 {
          c, t, d := Up(Right, t.n, t.red, t.l, c), t.r, Right;
          p := p.right;
        } else {
          Hit(c, t, entry);
          return Exists, null;
        }
      }
      SearchEnd(c, t, entry);
      if outOfMemory {
        return NoMemory, null;
      }
      x := AddHere(entry, parent, d, c, t);
      r := Added;
    }

    /** The entry is made and linked at the empty place that the descent has come to. */
    method AddHere(entry: Val, parent: RbNode?, d: Side, ghost c: Ctx, ghost t: Tree) returns (x: RbNode)
      requires Searching(c, t, entry) && t == Leaf && parent == CRef(c, null) && (c.Up? ==> d == c.d)
      modifies this`nrEntries, entries, Nodes(entries.tree)
      ensures Valid() && fresh(x) && x.val == entry && Order() == InsertSorted(Less(cmp), old(Order()), x)
      ensures nrEntries == (old(nrEntries) + 1) % 0x1_0000_0000
    {
      hide InOrder, Nodes, CNodes, Plug, RedBlack, Before, After, Strict, AllBefore, AllAfter, TotalOrder, RbRoot.At,
        RbNode.Kid, Lawful, Plain;
      assert allocated(CNodes(c)) && allocated(Nodes(entries.tree)) && allocated(Nodes(t));
      x := new RbNode(entry, entries.compute(entry, None, None));
      AddPlace(c, t, x);
      entries.LinkAndColor(x, parent, d, c);
      nrEntries := (nrEntries + 1) % 0x1_0000_0000;
    }

    /** `rblist__entry` */
    method Entry(idx0: nat) returns (r: RbNode?)
      requires Valid()
      ensures r == if idx0 < |Order()| then Order()[idx0] else null
    {
      hide RbRoot.At, RedBlack, InOrder, Strict, TotalOrder, Plain;
      var idx: nat := idx0;
      ghost var i := 0;
      assert allocated(Nodes(entries.tree));
      entries.ValidPlaced();
      var node := entries.End(Left);
      while node != null
        invariant Valid() && Order() == old(Order())
        invariant i + idx == idx0 && i <= |Order()| && (node == null <==> i == |Order()|)
          && (node != null ==> node == Order()[i])
        decreases |Order()| - i
      {
        if idx == 0 {
          return node;
        }
        idx := idx - 1;
        assert allocated(Nodes(entries.tree));
        entries.ValidPlaced();
        node := entries.Neighbour(node, Right, i);
        i := i + 1;
      }
      return null;
    }

    /** `rblist__remove_node`: the count is left as it was. */
    method RemoveNode(node: RbNode)
      requires Valid() && node in Order()
      modifies this`deleted, entries, Nodes(entries.tree)
      ensures Valid() && Order() == Without(old(Order()), node) && deleted == old(deleted) + [node]
      ensures Nodes(entries.tree) <= old(Nodes(entries.tree))
    {
      hide RbRoot.At, RedBlack, InOrder, Strict, TotalOrder, Plain, Nodes;
      NodesInOrder(entries.tree, node);
      StrictWithout(cmp, Order(), node);
      ghost var before := entries.tree;
      entries.Erase(node);
      deleted := deleted + [node];
      forall x | x in Nodes(entries.tree) ensures x in Nodes(before) {
        NodesInOrder(entries.tree, x);
        NodesInOrder(before, x);
      }
    }

    /** `rblist__delete`: every node is handed over once, in order, although each is erased while the walk goes on. */
    method Delete()
      requires Valid()
      modifies this`deleted, entries, Nodes(entries.tree)
      ensures Valid() && Order() == [] && deleted == old(deleted) + old(Order())
    {
      hide RbRoot.At, RedBlack, InOrder, Strict, TotalOrder, Plain, Nodes;
      assert allocated(Nodes(entries.tree));
      entries.ValidPlaced();
      var next := entries.End(Left);
      while next != null
        invariant Valid() && Nodes(entries.tree) <= old(Nodes(entries.tree))
        invariant deleted + Order() == old(deleted) + old(Order())
        invariant next == if |Order()| > 0 then Order()[0] else null
        decreases |Order()|
      {
        var pos := next;
        ghost var order := Order();
        assert allocated(Nodes(entries.tree));
        entries.ValidPlaced();
        next := entries.Neighbour(pos, Right, 0);
        RemoveNode(pos);
        assert order == [pos] + order[1..];
      }
    }

    /** The search's invariant: everything left of the hole is smaller, everything right of it greater. */
    ghost predicate Searching(c: Ctx, t: Tree, v: Val)
      reads this, entries, Nodes(entries.tree), Nodes(t), CNodes(c)
    {
      && Valid() && entries.At(c, t) && Plug(c, t) == entries.tree
      && AllBefore(cmp, Before(c), v) && AllAfter(cmp, After(c), v) && Strict(cmp, InOrder(t))
    }

    lemma SearchStart(v: Val)
      requires Valid()
      ensures Searching(Top, entries.tree, v) && entries.rbNode == Ref(entries.tree)
    {
      hide InOrder, RedBlack;
    }

    lemma SearchView(c: Ctx, t: Tree, v: Val)
      requires Searching(c, t, v) && Ref(t) != null
      ensures t.Node? && t.n.left == Ref(t.l) && t.n.right == Ref(t.r)
      ensures cmp(t.n.val, v) > 0 ==> Searching(Up(Left, t.n, t.red, t.r, c), t.l, v)
      ensures cmp(t.n.val, v) < 0 ==> Searching(Up(Right, t.n, t.red, t.l, c), t.r, v)
    {
      hide RedBlack, RbRoot.At, RbNode.Kid, InOrder, Strict, AllBefore, AllAfter, TotalOrder;
      NodeOrder(t);
      StrictSplit(cmp, InOrder(t.l), t.n, InOrder(t.r), Before(c), After(c), v);
      entries.AtUp(Up(Left, t.n, t.red, t.r, c), t.l);
      entries.AtUp(Up(Right, t.n, t.red, t.l, c), t.r);
      entries.EraseView(c, t);
    }

    lemma Hit(c: Ctx, t: Tree, v: Val)
      requires Searching(c, t, v) && t.Node? && cmp(t.n.val, v) == 0
      ensures t.n in Order() && !Missing(cmp, Order(), v)
    {
      PlugInOrder(c, t);
      NodeOrder(t);
      var k := |Before(c)| + |InOrder(t.l)|;
      assert Order()[k] == t.n;
    }

    lemma SearchEnd(c: Ctx, t: Tree, v: Val)
      requires Searching(c, t, v) && Ref(t) == null
      ensures t == Leaf && Missing(cmp, Order(), v) && Order() == Before(c) + After(c)
    {
      PlugInOrder(c, t);
      assert InOrder(t) + After(c) == After(c);
      MissingAround(cmp, Before(c), After(c), v);
    }

    lemma AddPlace(c: Ctx, t: Tree, x: RbNode)
      requires Searching(c, t, x.val) && t == Leaf
      requires x.aug == entries.compute(x.val, None, None)
      ensures Lawful(entries.compute) && entries.Placed(c, Leaf) && RedBlack(Plug(c, Leaf))
        && CStored(entries.compute, c, Some(x.aug))
      ensures Nodes(entries.tree) == CNodes(c)
      ensures Strict(cmp, Before(c) + ([x] + After(c)))
      ensures Before(c) + ([x] + After(c)) == InsertSorted(Less(cmp), Order(), x)
      ensures |Before(c) + ([x] + After(c))| == |Order()| + 1
    {
      hide RedBlack, Lawful, Strict, AllBefore, AllAfter, TotalOrder;
      PlugInOrder(c, t);
      assert InOrder(t) + After(c) == After(c);
      StrictPlace(cmp, Before(c), After(c), x);
      PlugNodes(c, t);
      PlainStored(entries.compute, c, Fold(entries.compute, t), Some(x.aug));
    }
  }

  lemma PlainStored(f: Compute, c: Ctx, s: Option<Sum>, s': Option<Sum>)
    requires Plain(f) && CStored(f, c, s)
    ensures CStored(f, c, s')
  {
    if c.Up? {
      assert Apply(f, c.d, c.n.val, s, Fold(f, c.sib)) == Apply(f, c.d, c.n.val, s', Fold(f, c.sib));
    }
  }
}
