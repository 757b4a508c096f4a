/**
 The loops of btree.c that work on the arrays of one or two nodes.  A node is
 described by its used pairs `es`; all slots behind them are cleared.
 */
module BTreeNode {
  import opened BTreeLevels
  import opened BTreeEdits

  /** The array holds the pairs es and is cleared behind them. */
  ghost predicate Holds(a: array<Pair>, es: seq<Pair>)
    reads a
  {
    && |es| <= a.Length
    && (forall i :: 0 <= i < |es| ==> a[i] == es[i])
    && (forall i :: |es| <= i < a.Length ==> a[i] == EMPTY)
  }

  lemma HoldsLen(a: array<Pair>, es: seq<Pair>)
    requires Holds(a, es)
    ensures |es| <= a.Length
  {
  }

  lemma HoldsAt(a: array<Pair>, es: seq<Pair>, i: nat)
    requires Holds(a, es) && i < a.Length
    ensures a[i] == if i < |es| then es[i] else EMPTY
  {
  }

  method SetKey(a: array<Pair>, i: nat, key: nat, ghost es: seq<Pair>)
    requires Holds(a, es) && i < |es|
    modifies a
    ensures Holds(a, es[i := Pair(key, es[i].val)])
  {
    a[i] := a[i].(key := key);
  }

  method SetVal(a: array<Pair>, i: nat, val: Slot, ghost es: seq<Pair>)
    requires Holds(a, es) && i < |es|
    modifies a
    ensures Holds(a, es[i := Pair(es[i].key, val)])
  {
    a[i] := a[i].(val := val);
  }

  /** keycmp over all slots: stops at the first key not above `key`, used or not. */
  method GetPos(a: array<Pair>, key: nat, ghost es: seq<Pair>) returns (i: nat)
    requires Holds(a, es)
    ensures i == FirstLe(es, key)
  {
    i := 0;
    while i < a.Length && a[i].key > key
      invariant i <= a.Length
      invariant forall k :: 0 <= k < i ==> a[k].key > key
    {
      i := i + 1;
    }
    assert i > |es| ==> a[|es|].key > key;
    FirstLeIs(es, key, i);
  }

  method GetFill(a: array<Pair>, start: nat, ghost es: seq<Pair>) returns (i: nat)
    requires Holds(a, es) && Full(es) && start <= |es|
    ensures i == |es|
  {
    i := start;
    while i < a.Length && a[i].val != Nul
      invariant start <= i <= |es|
    {
      i := i + 1;
    }
  }

  /** Shift the pairs from pos on by one slot and store the new pair. */
  method ShiftInsert(a: array<Pair>, pos: nat, fill: nat, key: nat, val: Slot, ghost es: seq<Pair>)
    requires Holds(a, es) && |es| == fill < a.Length && pos <= fill
    modifies a
    ensures Holds(a, InsAt(es, pos, Pair(key, val)))
  {
    hide InsAt;
    var i := fill;
    while i > pos
      invariant pos <= i <= fill
      invariant forall k :: 0 <= k < i ==> a[k] == es[k]
      invariant forall k :: i < k <= fill ==> a[k] == es[k-1]
      invariant forall k :: fill < k < a.Length ==> a[k] == EMPTY
    {
      a[i] := a[i-1];
      i := i - 1;
    }
    a[pos] := Pair(key, val);
    forall k | 0 <= k <= |es| ensures a[k] == InsAt(es, pos, Pair(key, val))[k] {
      InsAtIdx(es, pos, Pair(key, val), k);
    }
  }

  /** Shift the pairs behind pos down by one slot and clear the last one. */
  method ShiftRemove(a: array<Pair>, pos: nat, fill: nat, ghost es: seq<Pair>)
    requires Holds(a, es) && |es| == fill && pos <= fill && fill > 0
    modifies a
    ensures Holds(a, RemAt(es, if pos < fill then pos else fill - 1))
  {
    hide RemAt;
    var i := pos;
    while i < fill - 1
      invariant pos <= i
      invariant i <= fill - 1 || i == pos == fill
      invariant forall k :: 0 <= k < pos ==> a[k] == es[k]
      invariant forall k :: pos <= k < i ==> a[k] == es[k+1]
      invariant forall k :: i <= k < fill ==> a[k] == es[k]
      invariant forall k :: fill <= k < a.Length ==> a[k] == EMPTY
    {
      a[i] := a[i+1];
      i := i + 1;
    }
    a[fill-1] := EMPTY;
    ghost var p := if pos < fill then pos else fill - 1;
    forall k | 0 <= k < |es| - 1 ensures a[k] == RemAt(es, p)[k] {
      RemAtIdx(es, p, k);
    }
  }

  /** The loop over i < fill / 2: the lower halves move, their old slots are cleared. */
  method MovePairs(a: array<Pair>, b: array<Pair>, h: nat, ghost es: seq<Pair>, ghost tail: seq<Pair>)
    requires a != b && a.Length == b.Length == |es| && 2 * h <= |es| <= 2 * h + 1 && tail == es[h..]
    requires Holds(a, es) && Holds(b, [])
    modifies a, b
    ensures Holds(b, es[..h])
    ensures forall k :: 0 <= k < h ==> a[k] == tail[k]
    ensures forall k :: h <= k < 2 * h ==> a[k] == EMPTY
    ensures forall k :: 2 * h <= k < |es| ==> a[k] == es[k]
  {
    var i := 0;
    while i < h
      invariant 0 <= i <= h
      invariant forall k :: 0 <= k < i ==> b[k] == es[k]
      invariant forall k :: 0 <= k < i ==> a[k] == tail[k]
      invariant forall k :: i <= k < h ==> a[k] == es[k]
      invariant forall k :: i <= k < b.Length ==> b[k] == EMPTY
      invariant forall k :: h <= k < h + i ==> a[k] == EMPTY
      invariant forall k :: h + i <= k < |es| ==> a[k] == es[k]
    {
      assert tail[i] == es[i+h];
      b[i] := a[i];
      a[i] := a[i+h];
      a[i+h] := EMPTY;
      i := i + 1;
    }
  }

  /** Move the first half of a full node to a new one and the rest to the front. */
  method MoveHalf(a: array<Pair>, b: array<Pair>, fill: nat, ghost es: seq<Pair>)
    requires a != b && Holds(a, es) && |es| == fill == a.Length == b.Length && fill >= 2
    requires Holds(b, [])
    modifies a, b
    ensures Holds(b, es[..fill/2]) && Holds(a, es[fill/2..])
  {
    var h := fill / 2;
    ghost var tail := es[h..];
    MovePairs(a, b, h, es, tail);
    MoveOdd(a, fill, h, es, tail);
  }

  /** The pair that an odd count leaves behind. */
  method MoveOdd(a: array<Pair>, fill: nat, h: nat, ghost es: seq<Pair>, ghost tail: seq<Pair>)
    requires a.Length == |es| == fill >= 2 && h == fill / 2 && tail == es[h..]
    requires forall k :: 0 <= k < h ==> a[k] == tail[k]
    requires forall k :: h <= k < 2 * h ==> a[k] == EMPTY
    requires forall k :: 2 * h <= k < fill ==> a[k] == es[k]
    modifies a
    ensures Holds(a, tail)
  {
    assert fill == 2 * h + fill % 2 && |tail| == fill - h;
    if fill % 2 == 1 {
      assert a[fill-1] == tail[h];
      a[h] := a[fill-1];
      a[fill-1] := EMPTY;
    }
  }

  /** Append all pairs of the right node to the left one. */
  method MoveLeft(left: array<Pair>, lfill: nat, right: array<Pair>, rfill: nat,
                  ghost ls: seq<Pair>, ghost rs: seq<Pair>)
    requires left != right && Holds(left, ls) && Holds(right, rs)
    requires lfill == |ls| && rfill == |rs| && lfill + rfill <= left.Length
    modifies left
    ensures Holds(left, ls + rs) && Holds(right, rs)
  {
    var i := 0;
    while i < rfill
      invariant 0 <= i <= rfill
      invariant forall k :: 0 <= k < lfill ==> left[k] == ls[k]
      invariant forall k :: 0 <= k < i ==> left[lfill + k] == rs[k]
      invariant forall k :: lfill + i <= k < left.Length ==> left[k] == EMPTY
    {
      left[lfill+i] := right[i];
      i := i + 1;
    }
    forall k | lfill <= k < lfill + rfill ensures left[k] == (ls + rs)[k] {
      assert left[lfill + (k - lfill)] == rs[k-lfill];
    }
  }

  /** Slot of the first pair whose key equals `key`, cleared slots included. */
  method FindEqual(a: array<Pair>, key: nat, ghost es: seq<Pair>) returns (i: nat)
    requires Holds(a, es) && Desc(es)
    ensures i <= a.Length && (i < a.Length ==> a[i].key == key)
    ensures var p := FirstLe(es, key);
      if p < |es| && es[p].key == key then i == p
      else if key == 0 && |es| < a.Length then i == |es|
      else i == a.Length
  {
    i := 0;
    while i < a.Length && a[i].key != key
      invariant i <= a.Length
      invariant forall k :: 0 <= k < i ==> a[k].key != key
    {
      i := i + 1;
    }
    FirstEqual(a, key, es, i);
  }

  lemma FirstEqual(a: array<Pair>, key: nat, es: seq<Pair>, i: nat)
    requires Holds(a, es) && Desc(es) && i <= a.Length
    requires forall k :: 0 <= k < i ==> a[k].key != key
    requires i < a.Length ==> a[i].key == key
    ensures var p := FirstLe(es, key);
      if p < |es| && es[p].key == key then i == p
      else if key == 0 && |es| < a.Length then i == |es|
      else i == a.Length
  {
    var p := FirstLe(es, key);
    if p < |es| && es[p].key == key {
      assert a[p].key == key;
    } else {
      if i < |es| {
        FirstLeIs(es, key, i);
      }
      assert |es| < a.Length ==> a[|es|].key == 0;
    }
  }
}
