/**
 * klist.c: a list whose nodes are reference counted, so that iterators survive deletions. Every
 * section the source runs under its locks is one atomic step here; a run is any interleaving of them.
 */
module Klist {
  import opened Basics

  /** The count and the dead mark of an attached node; nodes, iterators and waiters are named by numbers. */
  datatype Knode = Knode(refs: nat, dead: bool)

  /** A caller of `klist_remove`; `since` counts the releases of its node before it began to wait. */
  datatype Waiter = Waiter(node: nat, since: nat, woken: bool)

  datatype State = State(
    list: seq<nat>, info: map<nat, Knode>, iters: map<nat, Option<nat>>,
    waiters: map<nat, Waiter>, queue: seq<nat>, gets: multiset<nat>, released: multiset<nat>)

  datatype Step =
    | AddHead(n: nat) | AddTail(n: nat) | AddAfter(n: nat, pos: nat) | AddBefore(n: nat, pos: nat)
    | Wait(w: nat, n: nat) | Kill(n: nat)
    | IterInit(i: nat) | IterInitNode(i: nat, n: nat) | Next(i: nat) | IterExit(i: nat)

  // ---- sequences ----

  function Index(s: seq<nat>, x: nat): (k: nat)
    requires x in s
    ensures k < |s| && s[k] == x
  {
    if s[0] == x then 0 else 1 + Index(s[1..], x)
  }

  lemma {:induction false} IndexIs(s: seq<nat>, k: nat)
    requires NoRepeats(s) && k < |s|
    ensures Index(s, s[k]) == k
  {
  }

  function InsertAt(s: seq<nat>, k: nat, x: nat): seq<nat>
    requires k <= |s|
  {
    s[..k] + ([x] + s[k..])
  }

  function Without(s: seq<nat>, x: nat): seq<nat> {
    if x in s then s[..Index(s, x)] + s[Index(s, x) + 1..] else s
  }

  /** The elements of `s` that lie in `keep`, in order. */
  function Filter(s: seq<nat>, keep: set<nat>): seq<nat> {
    if s == [] then [] else (if s[0] in keep then [s[0]] else []) + Filter(s[1..], keep)
  }

  lemma {:induction false} FilterJoin(a: seq<nat>, b: seq<nat>, keep: set<nat>)
    ensures Filter(a + b, keep) == Filter(a, keep) + Filter(b, keep)
  {
    if a == [] {
      assert a + b == b;
    } else {
      var t := a[1..];
      FilterJoin(t, b, keep);
      JoinHead(a, b);
      Assoc(if a[0] in keep then [a[0]] else [], Filter(t, keep), Filter(b, keep));
    }
  }

  lemma JoinHead(a: seq<nat>, b: seq<nat>)
    requires a != []
    ensures (a + b)[1..] == a[1..] + b && (a + b)[0] == a[0]
  {
  }

  lemma FilterOne(x: nat, keep: set<nat>)
    ensures Filter([x], keep) == if x in keep then [x] else []
  {
  }

  lemma {:induction false} FilterNone(s: seq<nat>, keep: set<nat>)
    requires forall x :: x in s ==> x !in keep
    ensures Filter(s, keep) == []
  {
    if s == [] {
    } else {
      FilterNone(s[1..], keep);
    }
  }

  /**
   * The nodes strictly before position `k` that are kept do not change when an element outside `keep` is put in or
   * taken out.
   */
  lemma FilterInsert(s: seq<nat>, k: nat, x: nat, keep: set<nat>)
    requires k <= |s| && x !in keep
    ensures Filter(InsertAt(s, k, x), keep) == Filter(s, keep)
  {
    hide Filter;
    FilterJoin(s[..k], [x] + s[k..], keep);
    FilterJoin([x], s[k..], keep);
    FilterOne(x, keep);
    FilterJoin(s[..k], s[k..], keep);
    assert s == s[..k] + s[k..];
  }

  lemma FilterRemove(s: seq<nat>, k: nat, keep: set<nat>)
    requires k < |s| && s[k] !in keep
    ensures Filter(s[..k] + s[k + 1..], keep) == Filter(s, keep)
  {
    hide Filter;
    FilterJoin(s[..k], [s[k]] + s[k + 1..], keep);
    FilterJoin([s[k]], s[k + 1..], keep);
    FilterOne(s[k], keep);
    FilterJoin(s[..k], s[k + 1..], keep);
    assert s == s[..k] + ([s[k]] + s[k + 1..]);
  }

  // ---- the steps ----

  /** The iterators parked on `n`. */
  function Parked(iters: map<nat, Option<nat>>, n: nat): set<nat> {
    set i | i in iters && iters[i] == Some(n)
  }

  function Wake(waiters: map<nat, Waiter>, n: nat): map<nat, Waiter> {
    map w | w in waiters :: if waiters[w].node == n then waiters[w].(woken := true) else waiters[w]
  }

  function Asleep(queue: seq<nat>, waiters: map<nat, Waiter>, n: nat): seq<nat>
    requires forall w :: w in queue ==> w in waiters
  {
    if queue == [] then []
    else (if waiters[queue[0]].node == n then [] else [queue[0]]) + Asleep(queue[1..], waiters, n)
  }

  /** `klist_release`: the node leaves the list and everyone waiting for that is woken. */
  function Release(s: State, n: nat): State
    requires forall w :: w in s.queue ==> w in s.waiters
  {
    s.(list := Without(s.list, n), info := s.info - {n}, waiters := Wake(s.waiters, n),
       queue := Asleep(s.queue, s.waiters, n), released := s.released + multiset{n})
  }

  /** `klist_dec_and_del` */
  function Put(s: State, n: nat): State
    requires n in s.info && s.info[n].refs > 0 && forall w :: w in s.queue ==> w in s.waiters
  {
    if s.info[n].refs == 1 then Release(s, n)
    else s.(info := s.info[n := s.info[n].(refs := s.info[n].refs - 1)])
  }

  /** `kref_get` */
  function Get(s: State, n: nat): State {
    if n in s.info then s.(info := s.info[n := s.info[n].(refs := s.info[n].refs + 1)]) else s
  }

  function Added(s: State, n: nat, k: nat): State
    requires k <= |s.list|
  {
    s.(list := InsertAt(s.list, k, n), info := s.info[n := Knode(1, false)], gets := s.gets + multiset{n})
  }

  /** The first node of `s` that is not dead. */
  function FirstLive(info: map<nat, Knode>, s: seq<nat>): Option<nat>
    requires forall x :: x in s ==> x in info
  {
    if s == [] then None else if info[s[0]].dead then FirstLive(info, s[1..]) else Some(s[0])
  }

  /** The nodes an iterator has still ahead of it. */
  function Ahead(s: State, i: nat): seq<nat>
    requires i in s.iters && (s.iters[i].Some? ==> s.iters[i].value in s.list)
  {
    if s.iters[i].None? then s.list else s.list[Index(s.list, s.iters[i].value) + 1..]
  }

  /** What `klist_next` returns. */
  function Found(s: State, i: nat): Option<nat>
    requires Inv(s) && i in s.iters
  {
    FirstLive(s.info, Ahead(s, i))
  }

  function Parks(s: State, i: nat, c: Option<nat>): State {
    s.(iters := s.iters[i := c])
  }

  /**
   * The callers' side of the contract: an unattached node is added, a node is deleted once, a listed node is held
   * on to.
   */
  predicate Enabled(s: State, step: Step) {
    match step
    case AddHead(n) => n !in s.info
    case AddTail(n) => n !in s.info
    case AddAfter(n, pos) => n !in s.info && pos in s.info
    case AddBefore(n, pos) => n !in s.info && pos in s.info
    case Wait(w, n) => w !in s.waiters && n in s.info && !s.info[n].dead
    case Kill(n) => n in s.info && !s.info[n].dead
    case IterInit(i) => i !in s.iters
    case IterInitNode(i, n) => i !in s.iters && n in s.info
    case Next(i) => i in s.iters
    case IterExit(i) => i in s.iters
  }

  function Apply(s: State, step: Step): State
    requires Inv(s) && Enabled(s, step)
  {
    match step
    case AddHead(n) => Added(s, n, 0)
    case AddTail(n) => Added(s, n, |s.list|)
    case AddAfter(n, pos) => Added(s, n, Index(s.list, pos) + 1)
    case AddBefore(n, pos) => Added(s, n, Index(s.list, pos))
    case Wait(w, n) => s.(waiters := s.waiters[w := Waiter(n, s.released[n], false)], queue := [w] + s.queue)
    case Kill(n) => Put(s.(info := s.info[n := s.info[n].(dead := true)]), n)
    case IterInit(i) => Parks(s, i, None)
    case IterInitNode(i, n) => Parks(Get(s, n), i, Some(n))
    case Next(i) =>
      var next := Found(s, i);
      Parks(if next.Some? then Get(LetGo(s, i), next.value) else LetGo(s, i), i, next)
    case IterExit(i) => LetGo(s, i).(iters := s.iters - {i})
  }

  /** The node iterator `i` is parked on loses one reference. */
  function LetGo(s: State, i: nat): State
    requires Inv(s) && i in s.iters
  {
    if s.iters[i].Some? then Put(s, s.iters[i].value) else s
  }

  // ---- what every step keeps ----

  /**
   * A node is listed exactly while it is attached and counted; its count is one for a node not yet
   * killed plus one for each iterator parked on it; a waiter has been woken exactly if its node has
   * left the list since; and each `get` is matched by a `put` when the node leaves.
   */
  ghost predicate Inv(s: State) {
    Held(s, None)
  }

  /** The invariant while one more reference, to `extra`, is still in the hands of the running step. */
  ghost predicate Held(s: State, extra: Option<nat>) {
    && NoRepeats(s.list) && NoRepeats(s.queue)
    && (forall n :: n in s.info <==> n in s.list)
    && (forall n :: n in s.info ==> Counted(s, n, extra))
    && (forall i :: i in s.iters && s.iters[i].Some? ==> s.iters[i].value in s.info)
    && (forall w :: w in s.queue ==> w in s.waiters)
    && (forall w :: w in s.waiters ==> WaitsRight(s, w))
    && (forall n :: s.gets[n] == s.released[n] + if n in s.info then 1 else 0)
  }

  predicate Counted(s: State, n: nat, extra: Option<nat>)
    requires n in s.info
  {
    && s.info[n].refs > 0
    && s.info[n].refs == |Parked(s.iters, n)| + (if s.info[n].dead then 0 else 1) + (if extra == Some(n) then 1 else 0)
  }

  predicate WaitsRight(s: State, w: nat)
    requires w in s.waiters
  {
    var x := s.waiters[w];
    && (x.woken <==> s.released[x.node] > x.since) && s.released[x.node] >= x.since
    && (x.woken <==> w !in s.queue) && (!x.woken ==> x.node in s.info)
  }

  lemma ParkChange(iters: map<nat, Option<nat>>, i: nat, c: Option<nat>, n: nat)
    ensures var before := if i in iters && iters[i] == Some(n) then 1 else 0;
      |Parked(iters[i := c], n)| == |Parked(iters, n)| - before + (if c == Some(n) then 1 else 0)
  {
    var p, q := Parked(iters, n), Parked(iters[i := c], n);
    if c == Some(n) {
      assert q == p + {i};
    } else {
      assert q == p - {i};
    }
  }

  lemma ParkRemove(iters: map<nat, Option<nat>>, i: nat, n: nat)
    ensures |Parked(iters - {i}, n)| == |Parked(iters, n)| - if i in iters && iters[i] == Some(n) then 1 else 0
  {
    assert Parked(iters - {i}, n) == Parked(iters, n) - {i};
  }

  lemma InsertMembers(s: seq<nat>, k: nat, x: nat)
    requires k <= |s| && NoRepeats(s) && x !in s
    ensures NoRepeats(InsertAt(s, k, x)) && forall y :: y in InsertAt(s, k, x) <==> y == x || y in s
  {
    InsertElements(s, k, x);
    var t := InsertAt(s, k, x);
    forall i, j | 0 <= i < j < |t| ensures t[i] != t[j] {
      assert i != k ==> t[i] in s;
      assert j != k ==> t[j] in s;
    }
  }

  lemma InsertElements(s: seq<nat>, k: nat, x: nat)
    requires k <= |s|
    ensures var t := InsertAt(s, k, x);
      |t| == |s| + 1 && t[k] == x && (forall i :: 0 <= i < k ==> t[i] == s[i])
        && (forall i :: k < i < |t| ==> t[i] == s[i - 1])
      && forall y :: y in t <==> y == x || y in s
  {
    var t := InsertAt(s, k, x);
    assert s == s[..k] + s[k..];
    forall y ensures y in t <==> y == x || y in s {
      assert y in s <==> y in s[..k] || y in s[k..];
    }
  }

  lemma RemoveMembers(s: seq<nat>, x: nat)
    requires NoRepeats(s)
    ensures NoRepeats(Without(s, x)) && forall y :: y in Without(s, x) <==> y in s && y != x
  {
    if x in s {
      RemoveElements(s, Index(s, x));
      OneLess(s, Index(s, x), Without(s, x));
    }
  }

  lemma OneLess(s: seq<nat>, k: nat, t: seq<nat>)
    requires NoRepeats(s) && k < |s| && |t| == |s| - 1
    requires (forall i :: 0 <= i < k ==> t[i] == s[i]) && forall i :: k <= i < |t| ==> t[i] == s[i + 1]
    ensures NoRepeats(t) && forall y :: y in t <==> y in s && y != s[k]
  {
    forall y ensures y in t <==> y in s && y != s[k] {
      if y in s && y != s[k] {
        var j := Index(s, y);
        assert t[if j < k then j else j - 1] == y;
      }
      if y in t {
        var j := Index(t, y);
        assert s[if j < k then j else j + 1] == y;
      }
    }
  }

  lemma RemoveElements(s: seq<nat>, k: nat)
    requires k < |s|
    ensures var t := s[..k] + s[k + 1..];
      |t| == |s| - 1 && (forall i :: 0 <= i < k ==> t[i] == s[i]) && forall i :: k <= i < |t| ==> t[i] == s[i + 1]
  {
  }

  lemma {:induction false} AsleepMembers(queue: seq<nat>, waiters: map<nat, Waiter>, n: nat)
    requires NoRepeats(queue) && forall w :: w in queue ==> w in waiters
    ensures NoRepeats(Asleep(queue, waiters, n))
    ensures forall w :: w in Asleep(queue, waiters, n) <==> w in queue && waiters[w].node != n
  {
    if queue == [] {
    } else {
      AsleepMembers(queue[1..], waiters, n);
      assert queue == [queue[0]] + queue[1..];
    }
  }

  lemma AddedKeeps(s: State, n: nat, k: nat)
    requires Inv(s) && k <= |s.list| && n !in s.info
    ensures Inv(Added(s, n, k))
  {
    InsertMembers(s.list, k, n);
    assert Parked(s.iters, n) == {};
    var s' := Added(s, n, k);
    forall m | m in s'.info ensures Counted(s', m, None) {
      assert m != n ==> Counted(s, m, None);
    }
    forall w | w in s'.waiters ensures WaitsRight(s', w) {
      assert WaitsRight(s, w);
    }
  }

  lemma WaitKeeps(s: State, w: nat, n: nat)
    requires Inv(s) && Enabled(s, Wait(w, n))
    ensures Inv(Apply(s, Wait(w, n)))
  {
    var s' := Apply(s, Wait(w, n));
    assert w !in s.queue;
    forall v | v in s'.waiters ensures WaitsRight(s', v) {
      assert v != w ==> WaitsRight(s, v);
    }
    forall m | m in s'.info ensures Counted(s', m, None) {
      assert Counted(s, m, None);
    }
  }

  /** Dropping the reference in hand restores the invariant, and a node is released only when it is dead. */
  lemma PutKeeps(s: State, n: nat)
    requires Held(s, Some(n)) && n in s.info
    ensures Inv(Put(s, n)) && (s.info[n].refs == 1 ==> s.info[n].dead)
  {
    assert Counted(s, n, Some(n));
    if s.info[n].refs == 1 {
      ReleaseKeeps(s, n);
    } else {
      var s' := Put(s, n);
      forall m | m in s'.info ensures Counted(s', m, None) {
        assert Counted(s, m, Some(n));
      }
      forall w | w in s'.waiters ensures WaitsRight(s', w) {
        assert WaitsRight(s, w);
      }
    }
  }

  lemma ReleaseKeeps(s: State, n: nat)
    requires Held(s, Some(n)) && n in s.info && s.info[n].refs == 1
    ensures Inv(Release(s, n))
  {
    hide Without, Asleep, NoRepeats;
    var s' := Release(s, n);
    assert Counted(s, n, Some(n));
    RemoveMembers(s.list, n);
    AsleepMembers(s.queue, s.waiters, n);
    forall i | i in s.iters ensures s.iters[i] != Some(n) {
      assert i !in Parked(s.iters, n);
    }
    forall m | m in s'.info ensures Counted(s', m, None) {
      assert Counted(s, m, Some(n));
    }
    forall w | w in s'.waiters ensures WaitsRight(s', w) {
      assert WaitsRight(s, w);
    }
  }

  lemma KillKeeps(s: State, n: nat)
    requires Inv(s) && Enabled(s, Kill(n))
    ensures Inv(Apply(s, Kill(n)))
  {
    var s' := s.(info := s.info[n := s.info[n].(dead := true)]);
    forall m | m in s'.info ensures Counted(s', m, Some(n)) {
      assert Counted(s, m, None);
    }
    forall w | w in s'.waiters ensures WaitsRight(s', w) {
      assert WaitsRight(s, w);
    }
    PutKeeps(s', n);
  }

  /** An iterator moves off its node, which keeps the reference for the moment. */
  lemma LeaveKeeps(s: State, i: nat)
    requires Inv(s) && i in s.iters
    ensures Held(Parks(s, i, None), s.iters[i]) && Held(s.(iters := s.iters - {i}), s.iters[i])
  {
    forall m | m in s.info ensures Counted(Parks(s, i, None), m, s.iters[i])
      && Counted(s.(iters := s.iters - {i}), m, s.iters[i]) {
      assert Counted(s, m, None);
      ParkChange(s.iters, i, None, m);
      ParkRemove(s.iters, i, m);
    }
    forall w | w in s.waiters ensures WaitsRight(Parks(s, i, None), w) && WaitsRight(s.(iters := s.iters - {i}), w) {
      assert WaitsRight(s, w);
    }
  }

  lemma ParkKeeps(s: State, i: nat, n: nat)
    requires Inv(s) && n in s.info && (i in s.iters ==> s.iters[i] == None)
    ensures Inv(Parks(Get(s, n), i, Some(n)))
  {
    var s' := Parks(Get(s, n), i, Some(n));
    forall m | m in s'.info ensures Counted(s', m, None) {
      assert Counted(s, m, None);
      ParkChange(s.iters, i, Some(n), m);
    }
    forall w | w in s'.waiters ensures WaitsRight(s', w) {
      assert WaitsRight(s, w);
    }
  }

  lemma {:induction false} FirstLiveIs(info: map<nat, Knode>, s: seq<nat>) returns (k: nat)
    requires forall x :: x in s ==> x in info
    ensures k <= |s| && forall x :: x in s[..k] ==> info[x].dead
    ensures FirstLive(info, s) == if k == |s| then None else Some(s[k])
    ensures k < |s| ==> !info[s[k]].dead
  {
    if s == [] || !info[s[0]].dead {
      k := 0;
    } else {
      k := FirstLiveIs(info, s[1..]);
      assert s[..k + 1] == [s[0]] + s[1..][..k];
      k := k + 1;
    }
  }

  /** Where `klist_next` stops: the first live node behind the iterator's place, if any. */
  lemma FoundIs(s: State, i: nat) returns (start: nat, q: nat)
    requires Inv(s) && i in s.iters
    ensures start <= q <= |s.list| && Ahead(s, i) == s.list[start..]
    ensures s.iters[i].Some? ==> s.iters[i].value in s.list
    ensures start == if s.iters[i].None? then 0 else Index(s.list, s.iters[i].value) + 1
    ensures forall x :: x in s.list[start..q] ==> x in s.info && s.info[x].dead
    ensures Found(s, i) == if q == |s.list| then None else Some(s.list[q])
    ensures q < |s.list| ==> s.list[q] in s.info && !s.info[s.list[q]].dead && Found(s, i) != s.iters[i]
  {
    hide NoRepeats, Counted, WaitsRight, FirstLive;
    NotRepeated(s);
    start := if s.iters[i].None? then 0 else Index(s.list, s.iters[i].value) + 1;
    var rest := s.list[start..];
    var k := FirstLiveIs(s.info, rest);
    q := start + k;
    assert s.list[start..q] == rest[..k];
    if q < |s.list| && start > 0 {
      TwoPlaces(s.list, start - 1, q);
    }
  }

  lemma TwoPlaces(s: seq<nat>, i: nat, j: nat)
    requires NoRepeats(s) && i < j < |s|
    ensures s[i] != s[j]
  {
  }

  lemma NextKeeps(s: State, i: nat)
    requires Inv(s) && i in s.iters
    ensures Inv(Apply(s, Next(i)))
  {
    hide Inv, Held, Without, Asleep, FirstLive, Ahead, Put, Get;
    var next := Found(s, i);
    NextView(s, i);
    LeaveKeeps(s, i);
    var s1 := Parks(s, i, None);
    if s.iters[i].Some? {
      var l := s.iters[i].value;
      PutKeeps(s1, l);
      PutParks(s, i, l);
      s1 := Put(s1, l);
    }
    HeldByNone(s1);
    if next.Some? {
      NextListed(s, i);
      ParkKeeps(s1, i, next.value);
      GetParks(LetGo(s, i), i, next.value);
    }
  }

  lemma HeldByNone(s: State)
    ensures Held(s, None) <==> Inv(s)
  {
  }

  lemma NextListed(s: State, i: nat)
    requires Inv(s) && i in s.iters && Found(s, i).Some?
    ensures Found(s, i).value in LetGo(s, i).info
  {
    NextView(s, i);
  }

  lemma PutParks(s: State, i: nat, l: nat)
    requires l in s.info && s.info[l].refs > 0 && forall w :: w in s.queue ==> w in s.waiters
    ensures Put(Parks(s, i, None), l) == Parks(Put(s, l), i, None)
  {
  }

  lemma GetParks(s: State, i: nat, n: nat)
    ensures Parks(Get(Parks(s, i, None), n), i, Some(n)) == Parks(Get(s, n), i, Some(n))
  {
    assert s.iters[i := None][i := Some(n)] == s.iters[i := Some(n)];
  }

  lemma NextView(s: State, i: nat)
    requires Inv(s) && i in s.iters
    ensures s.iters[i].Some? ==>
      s.iters[i].value in s.info && s.info[s.iters[i].value].refs > 0 && forall w :: w in s.queue ==> w in s.waiters
    ensures Found(s, i).Some? ==> Found(s, i) != s.iters[i] && Found(s, i).value in s.info
  {
    var start, q := FoundIs(s, i);
    if s.iters[i].Some? {
      assert Counted(s, s.iters[i].value, None);
    }
  }

  lemma ExitKeeps(s: State, i: nat)
    requires Inv(s) && i in s.iters
    ensures Inv(Apply(s, IterExit(i)))
  {
    LeaveKeeps(s, i);
    if s.iters[i].Some? {
      PutKeeps(s.(iters := s.iters - {i}), s.iters[i].value);
    }
  }

  lemma InitKeeps(s: State, i: nat)
    requires Inv(s) && i !in s.iters
    ensures Inv(Parks(s, i, None))
  {
    forall m | m in s.info ensures Counted(Parks(s, i, None), m, None) {
      assert Counted(s, m, None);
      ParkChange(s.iters, i, None, m);
    }
    forall w | w in s.waiters ensures WaitsRight(Parks(s, i, None), w) {
      assert WaitsRight(s, w);
    }
  }

  lemma Listed(s: State)
    requires Inv(s)
    ensures forall n :: n in s.info <==> n in s.list
  {
  }

  /** Every step keeps the counts, the membership and the waiters right. */
  lemma StepKeeps(s: State, step: Step)
    requires Inv(s) && Enabled(s, step)
    ensures Inv(Apply(s, step))
  {
    hide Inv, Held, Put, Get, Added, Parks, Without, InsertAt, Asleep, Wake;
    Listed(s);
    match step
    case AddHead(n) => AddedKeeps(s, n, 0);
    case AddTail(n) => AddedKeeps(s, n, |s.list|);
    case AddAfter(n, pos) => AddedKeeps(s, n, Index(s.list, pos) + 1);
    case AddBefore(n, pos) => AddedKeeps(s, n, Index(s.list, pos));
    case Wait(w, n) => WaitKeeps(s, w, n);
    case Kill(n) => KillKeeps(s, n);
    case IterInit(i) => InitKeeps(s, i);
    case IterInitNode(i, n) => ParkKeeps(s, i, n);
    case Next(i) => NextKeeps(s, i);
    case IterExit(i) => ExitKeeps(s, i);
  }

  /** A waiter is woken in the very step that takes its node off the list, and in no other. */
  lemma WokenByRelease(s: State, step: Step, w: nat)
    requires Inv(s) && Enabled(s, step) && w in s.waiters
    ensures w in Apply(s, step).waiters
    ensures var s', n := Apply(s, step), s.waiters[w].node;
      s'.waiters[w].woken <==> s.waiters[w].woken || (n in s.info && n !in s'.info)
  {
    StepKeeps(s, step);
    Releases(s, step, w, s.waiters[w].node);
    assert WaitsRight(s, w) && WaitsRight(Apply(s, step), w);
  }

  /** Every step leaves the waiters' nodes alone and releases a node exactly when it leaves the list. */
  lemma Releases(s: State, step: Step, w: nat, n: nat)
    requires Inv(s) && Enabled(s, step) && w in s.waiters
    ensures var s' := Apply(s, step);
      && w in s'.waiters && s'.waiters[w].node == s.waiters[w].node && s'.waiters[w].since == s.waiters[w].since
      && s'.released[n] == s.released[n] + if n in s.info && n !in s'.info then 1 else 0
  {
    hide Inv, Without, InsertAt, Asleep, Put, Get;
    match step
    case Kill(m) =>
      HeldParts(s);
      PutReleases(s.(info := s.info[m := s.info[m].(dead := true)]), m, w, n);
    case Next(i) =>
      NextView(s, i);
      GetReleases(LetGo(s, i), if Found(s, i).Some? then Found(s, i).value else 0, n);
      if s.iters[i].Some? {
        PutReleases(s, s.iters[i].value, w, n);
      }
    case IterExit(i) =>
      NextView(s, i);
      if s.iters[i].Some? {
        PutReleases(s, s.iters[i].value, w, n);
      }
    case IterInitNode(i, m) => GetReleases(s, m, n);
    case _ =>
  }

  lemma HeldParts(s: State)
    requires Inv(s)
    ensures (forall n :: n in s.info ==> s.info[n].refs > 0) && forall w :: w in s.queue ==> w in s.waiters
  {
    forall n | n in s.info ensures s.info[n].refs > 0 {
      assert Counted(s, n, None);
    }
  }

  lemma GetReleases(s: State, m: nat, n: nat)
    ensures Get(s, m).released == s.released && Get(s, m).waiters == s.waiters && (n in Get(s, m).info <==> n in s.info)
  {
  }

  lemma PutReleases(s: State, m: nat, w: nat, n: nat)
    requires m in s.info && s.info[m].refs > 0 && (forall v :: v in s.queue ==> v in s.waiters) && w in s.waiters
    ensures var s' := Put(s, m);
      && w in s'.waiters && s'.waiters[w].node == s.waiters[w].node && s'.waiters[w].since == s.waiters[w].since
      && s'.released[n] == s.released[n] + if n in s.info && n !in s'.info then 1 else 0
  {
  }

  /** Only an iterator parked on its node can keep a `klist_remove` waiting once the node is killed. */
  lemma OnlyIteratorsDelay(s: State, w: nat)
    requires Inv(s) && w in s.waiters && !s.waiters[w].woken
    ensures s.waiters[w].node in s.list
    ensures s.info[s.waiters[w].node].dead ==> exists i :: i in s.iters && s.iters[i] == Some(s.waiters[w].node)
  {
    var n := s.waiters[w].node;
    assert WaitsRight(s, w) && Counted(s, n, None);
    if s.info[n].dead {
      var i :| i in Parked(s.iters, n);
      assert s.iters[i] == Some(n);
    }
  }

  // ---- whole runs ----

  datatype Run = Run(states: seq<State>, steps: seq<Step>)

  /** Any interleaving of enabled steps. */
  ghost predicate Valid(r: Run) {
    && |r.states| == |r.steps| + 1 && Inv(r.states[0])
    && forall k :: 0 <= k < |r.steps| ==> Happens(r, k)
  }

  ghost predicate Happens(r: Run, k: nat)
    requires |r.states| == |r.steps| + 1 && k < |r.steps|
  {
    Inv(r.states[k]) && Enabled(r.states[k], r.steps[k]) && r.states[k + 1] == Apply(r.states[k], r.steps[k])
  }

  /** What iterator `i`'s calls of `klist_next` have returned after `k` steps, NULL left out. */
  ghost function Visited(r: Run, i: nat, k: nat): seq<nat>
    requires Valid(r) && k <= |r.steps|
  {
    if k == 0 then [] else Visited(r, i, k - 1) + Returned(r, i, k - 1)
  }

  ghost function Returned(r: Run, i: nat, k: nat): seq<nat>
    requires Valid(r) && k < |r.steps|
  {
    assert Happens(r, k);
    if r.steps[k] == Next(i) && Found(r.states[k], i).Some? then [Found(r.states[k], i).value] else []
  }

  /** The nodes of `keep` are live in every state of the run. */
  ghost predicate StayLive(r: Run, keep: set<nat>) {
    forall k, n :: 0 <= k < |r.states| && n in keep ==> Live(r.states[k], n)
  }

  predicate Live(s: State, n: nat) {
    n in s.info && !s.info[n].dead
  }

  /** The list up to and including `c`. */
  function UpTo(list: seq<nat>, c: nat): seq<nat>
    requires c in list
  {
    list[..Index(list, c) + 1]
  }

  /** The kept nodes stand in the same order in both lists, and on the same side of every common node. */
  ghost predicate SameKept(a: seq<nat>, b: seq<nat>, keep: set<nat>) {
    && Filter(a, keep) == Filter(b, keep)
    && forall c :: c in a && c in b ==> Filter(UpTo(a, c), keep) == Filter(UpTo(b, c), keep)
  }

  lemma InsertKept(s: seq<nat>, k: nat, x: nat, keep: set<nat>)
    requires NoRepeats(s) && k <= |s| && x !in s && x !in keep
    ensures SameKept(s, InsertAt(s, k, x), keep)
  {
    var t := InsertAt(s, k, x);
    FilterInsert(s, k, x, keep);
    InsertMembers(s, k, x);
    forall c | c in s && c in t ensures Filter(UpTo(s, c), keep) == Filter(UpTo(t, c), keep) {
      InsertUpTo(s, k, x, keep, c);
    }
  }

  lemma InsertUpTo(s: seq<nat>, k: nat, x: nat, keep: set<nat>, c: nat)
    requires NoRepeats(s) && k <= |s| && x !in s && x !in keep && c in s && c in InsertAt(s, k, x)
    ensures Filter(UpTo(s, c), keep) == Filter(UpTo(InsertAt(s, k, x), c), keep)
  {
    hide Filter;
    var t, j := InsertAt(s, k, x), Index(s, c);
    InsertMembers(s, k, x);
    InsertElements(s, k, x);
    if j < k {
      IndexIs(t, j);
      assert UpTo(t, c) == UpTo(s, c);
    } else {
      IndexIs(t, j + 1);
      TakeIn(s, k, x, j);
      FilterInsert(UpTo(s, c), k, x, keep);
    }
  }

  lemma TakeIn(s: seq<nat>, k: nat, x: nat, j: nat)
    requires k <= j < |s|
    ensures InsertAt(s, k, x)[..j + 2] == InsertAt(s[..j + 1], k, x)
  {
  }

  lemma RemoveKept(s: seq<nat>, x: nat, keep: set<nat>)
    requires NoRepeats(s) && x in s && x !in keep
    ensures SameKept(s, Without(s, x), keep)
  {
    var k, t := Index(s, x), Without(s, x);
    FilterRemove(s, k, keep);
    RemoveMembers(s, x);
    forall c | c in s && c in t ensures Filter(UpTo(s, c), keep) == Filter(UpTo(t, c), keep) {
      RemoveUpTo(s, x, keep, c);
    }
  }

  lemma RemoveUpTo(s: seq<nat>, x: nat, keep: set<nat>, c: nat)
    requires NoRepeats(s) && x in s && x !in keep && c in s && c in Without(s, x)
    ensures Filter(UpTo(s, c), keep) == Filter(UpTo(Without(s, x), c), keep)
  {
    hide Filter, NoRepeats;
    var k, t, j := Index(s, x), Without(s, x), Index(s, c);
    RemoveMembers(s, x);
    RemoveElements(s, k);
    if j < k {
      IndexIs(t, j);
      TakeBefore(s, k, j);
    } else {
      IndexIs(t, j - 1);
      TakeOut(s, k, j);
      FilterRemove(s[..j + 1], k, keep);
    }
  }

  lemma TakeBefore(s: seq<nat>, k: nat, j: nat)
    requires j < k < |s|
    ensures (s[..k] + s[k + 1..])[..j + 1] == s[..j + 1]
  {
  }

  lemma TakeOut(s: seq<nat>, k: nat, j: nat)
    requires k < j < |s|
    ensures (s[..k] + s[k + 1..])[..j] == s[..j + 1][..k] + s[..j + 1][k + 1..]
  {
  }

  /** No step moves a node that stays live. */
  lemma StepKept(s: State, step: Step, keep: set<nat>)
    requires Inv(s) && Enabled(s, step) && forall n :: n in keep ==> Live(s, n) && Live(Apply(s, step), n)
    ensures SameKept(s.list, Apply(s, step).list, keep)
  {
    hide NoRepeats, Without, InsertAt, Put, Get, Inv, SameKept;
    Listed(s);
    NotRepeated(s);
    Unchanged(s.list, keep);
    match step
    case AddHead(n) => InsertKept(s.list, 0, n, keep);
    case AddTail(n) => InsertKept(s.list, |s.list|, n, keep);
    case AddAfter(n, pos) => InsertKept(s.list, Index(s.list, pos) + 1, n, keep);
    case AddBefore(n, pos) => InsertKept(s.list, Index(s.list, pos), n, keep);
    case Kill(n) =>
      HeldParts(s);
      PutKept(s.(info := s.info[n := s.info[n].(dead := true)]), n, keep);
    case Next(i) =>
      NextView(s, i);
      if s.iters[i].Some? {
        PutKept(s, s.iters[i].value, keep);
      }
      GetKept(LetGo(s, i), if Found(s, i).Some? then Found(s, i).value else 0);
    case IterExit(i) =>
      NextView(s, i);
      if s.iters[i].Some? {
        PutKept(s, s.iters[i].value, keep);
      }
    case IterInitNode(i, n) => GetKept(s, n);
    case _ =>
  }

  lemma PutKept(s: State, m: nat, keep: set<nat>)
    requires m in s.info && s.info[m].refs > 0 && (forall v :: v in s.queue ==> v in s.waiters)
    requires NoRepeats(s.list) && m in s.list
    ensures (forall n :: n in keep ==> n in Put(s, m).info) ==> SameKept(s.list, Put(s, m).list, keep)
  {
    hide NoRepeats, SameKept, Without;
    Unchanged(s.list, keep);
    if s.info[m].refs == 1 && m !in keep {
      RemoveKept(s.list, m, keep);
    }
  }

  lemma GetKept(s: State, m: nat)
    ensures Get(s, m).list == s.list && forall n :: n in Get(s, m).info <==> n in s.info
  {
  }

  lemma Unchanged(s: seq<nat>, keep: set<nat>)
    ensures SameKept(s, s, keep)
  {
  }

  /** How far an iteration has come: it has returned exactly the kept nodes up to its place, in list order. */
  ghost predicate Progress(s: State, i: nat, visited: seq<nat>, keep: set<nat>) {
    && i in s.iters && (s.iters[i].Some? ==> s.iters[i].value in s.list)
    && if s.iters[i].None? then visited == [] else Filter(visited, keep) == Filter(UpTo(s.list, s.iters[i].value), keep)
  }

  lemma NoneKept(keep: set<nat>)
    ensures Filter([], keep) == []
  {
  }

  lemma NothingBefore(s: seq<nat>)
    ensures [] + s == s && s + [] == s
  {
  }

  lemma NotRepeated(s: State)
    requires Inv(s)
    ensures NoRepeats(s.list)
  {
  }

  /** One call of `klist_next` on behalf of the iteration. */
  lemma NextAdvances(s: State, i: nat, visited: seq<nat>, keep: set<nat>)
    requires Inv(s) && i in s.iters && Progress(s, i, visited, keep) && forall n :: n in keep ==> Live(s, n)
    ensures Found(s, i).Some? ==>
      Found(s, i).value in s.list
        && Filter(visited + [Found(s, i).value], keep) == Filter(UpTo(s.list, Found(s, i).value), keep)
    ensures Found(s, i).None? ==> Filter(visited, keep) == Filter(s.list, keep)
  {
    hide Filter, FirstLive, Ahead, Inv, Found;
    var start, q := FoundIs(s, i);
    NoneKept(keep);
    NotRepeated(s);
    SkipDead(s.list, start, q, keep);
    SplitList(s.list, start, q);
    if q < |s.list| {
      IndexIs(s.list, q);
      FilterJoin(visited, [s.list[q]], keep);
    }
  }

  lemma SkipDead(list: seq<nat>, start: nat, q: nat, keep: set<nat>)
    requires start <= q <= |list| && forall x :: x in list[start..q] ==> x !in keep
    ensures Filter(list[..q], keep) == Filter(list[..start], keep)
    ensures q < |list| ==> Filter(list[..q + 1], keep) == Filter(list[..start], keep) + Filter([list[q]], keep)
  {
    hide Filter;
    SplitList(list, start, q);
    FilterJoin(list[..start], list[start..q], keep);
    FilterNone(list[start..q], keep);
    NothingBefore(Filter(list[..start], keep));
    if q < |list| {
      FilterJoin(list[..q], [list[q]], keep);
    }
  }

  lemma SplitList(s: seq<nat>, start: nat, q: nat)
    requires start <= q <= |s|
    ensures s[..q] == s[..start] + s[start..q] && s[..0] == []
    ensures q < |s| ==> s[..q + 1] == s[..q] + [s[q]]
    ensures q == |s| ==> s[..q] == s
  {
  }

  /** Iterator `i` is only ever moved by `klist_next` in the run, and only its last call may return NULL. */
  ghost predicate Iterates(r: Run, i: nat) {
    && Valid(r) && i in r.states[0].iters
    && forall k :: 0 <= k < |r.steps| ==> Uses(r, i, k)
  }

  ghost predicate Uses(r: Run, i: nat, k: nat)
    requires Valid(r) && k < |r.steps|
  {
    assert Happens(r, k);
    r.steps[k] != IterExit(i) && (r.steps[k] == Next(i) && k < |r.steps| - 1 ==> Found(r.states[k], i).Some?)
  }

  lemma OtherStepWaits(s: State, step: Step, i: nat, visited: seq<nat>, keep: set<nat>)
    requires Inv(s) && Enabled(s, step) && Progress(s, i, visited, keep) && step != Next(i) && step != IterExit(i)
    requires SameKept(s.list, Apply(s, step).list, keep)
    ensures Progress(Apply(s, step), i, visited, keep)
  {
    hide NoRepeats, Without, InsertAt, Put, Get, Inv, Filter, UpTo;
    StepKeeps(s, step);
    Listed(s);
    Parking(Apply(s, step));
    assert Apply(s, step).iters[i] == s.iters[i] && i in Apply(s, step).iters by {
      ItersSame(s, step, i);
    }
  }

  lemma Parking(s: State)
    requires Inv(s)
    ensures forall i :: i in s.iters && s.iters[i].Some? ==> s.iters[i].value in s.list
  {
  }

  lemma ItersSame(s: State, step: Step, i: nat)
    requires Inv(s) && Enabled(s, step) && i in s.iters && step != Next(i) && step != IterExit(i)
    ensures i in Apply(s, step).iters && Apply(s, step).iters[i] == s.iters[i]
  {
    hide Without, InsertAt, Inv, Wake, Asleep, FirstLive, Ahead;
  }

  lemma NextStepMoves(s: State, i: nat, visited: seq<nat>, keep: set<nat>)
    requires Inv(s) && i in s.iters && Progress(s, i, visited, keep) && forall n :: n in keep ==> Live(s, n)
    requires SameKept(s.list, Apply(s, Next(i)).list, keep) && Found(s, i).Some?
    ensures Progress(Apply(s, Next(i)), i, visited + [Found(s, i).value], keep)
  {
    hide NoRepeats, Without, InsertAt, Put, Get, Inv, Filter, UpTo, FirstLive, Ahead;
    StepKeeps(s, Next(i));
    NextAdvances(s, i, visited, keep);
    Parking(Apply(s, Next(i)));
  }

  /** What an iteration does not return because its start lies behind it: nothing, or the list up to its node. */
  ghost function Passed(s: State, i: nat): seq<nat>
    requires Inv(s) && i in s.iters
  {
    Parking(s);
    if s.iters[i].None? then [] else UpTo(s.list, s.iters[i].value)
  }

  /** Before the call that returns NULL, the iteration has come past the kept nodes up to its place. */
  lemma {:induction false} RunProgress(r: Run, i: nat, keep: set<nat>, k: nat)
    requires Iterates(r, i) && StayLive(r, keep) && k < |r.states|
    requires k == |r.steps| > 0 ==>
      (assert Happens(r, k - 1); r.steps[k - 1] != Next(i) || Found(r.states[k - 1], i).Some?)
    ensures Progress(r.states[k], i, Passed(r.states[0], i) + Visited(r, i, k), keep)
    decreases k
  {
    hide Inv, Filter, Progress, Apply, SameKept, FirstLive, Ahead, Passed;
    var p := Passed(r.states[0], i);
    if k == 0 {
      StartProgress(r.states[0], i, keep);
      NothingBefore(p);
    } else {
      assert Uses(r, i, k - 1);
      assert Happens(r, k - 1);
      RunProgress(r, i, keep, k - 1);
      var s, step, seen := r.states[k - 1], r.steps[k - 1], Visited(r, i, k - 1);
      StepKept(s, step, keep);
      if step == Next(i) {
        NextIn(s, i);
        Assoc(p, seen, [Found(s, i).value]);
        NextStepMoves(s, i, p + seen, keep);
      } else {
        NothingBefore(seen);
        OtherStepWaits(s, step, i, p + seen, keep);
      }
    }
  }

  lemma NextIn(s: State, i: nat)
    requires Inv(s) && Enabled(s, Next(i))
    ensures i in s.iters
  {
  }

  lemma StartProgress(s: State, i: nat, keep: set<nat>)
    requires Inv(s) && i in s.iters
    ensures Progress(s, i, Passed(s, i), keep)
  {
    hide Inv;
    Parking(s);
  }

  /** The kept nodes stand in the list in the same order all the time. */
  lemma {:induction false} RunKept(r: Run, keep: set<nat>, k: nat)
    requires Valid(r) && StayLive(r, keep) && k < |r.states|
    ensures Filter(r.states[k].list, keep) == Filter(r.states[0].list, keep)
    decreases k
  {
    hide Inv, Filter, Apply, UpTo, Enabled;
    if k == 0 {
    } else {
      assert Happens(r, k - 1);
      RunKept(r, keep, k - 1);
      StepKept(r.states[k - 1], r.steps[k - 1], keep);
    }
  }

  /** The last call of the iteration returned NULL. */
  ghost predicate Ends(r: Run, i: nat)
    requires Valid(r)
  {
    && |r.steps| > 0 && r.steps[|r.steps| - 1] == Next(i)
    && (assert Happens(r, |r.steps| - 1); Found(r.states[|r.steps| - 1], i).None?)
  }

  lemma StartParked(r: Run, i: nat)
    requires Iterates(r, i)
    ensures Inv(r.states[0]) && (r.states[0].iters[i].Some? ==> r.states[0].iters[i].value in r.states[0].list)
    ensures AheadAtFirst(r, i) == Ahead(r.states[0], i)
  {
    hide Inv;
    Parking(r.states[0]);
  }

  /** The nodes ahead of the iterator when the iteration starts. */
  ghost function AheadAtFirst(r: Run, i: nat): seq<nat>
    requires Iterates(r, i)
  {
    Parking(r.states[0]);
    Ahead(r.states[0], i)
  }

  /**
   * In every interleaving of adds, deletes and other iterators, an iteration until `klist_next` returns NULL has
   * returned, of the nodes that stayed live throughout, exactly those that lay ahead of it, each once and in list
   * order: the whole list after `klist_iter_init`, and what stands behind the node after `klist_iter_init_node`.
   */
  lemma IterationReturnsAhead(r: Run, i: nat, keep: set<nat>)
    requires Iterates(r, i) && StayLive(r, keep) && Ends(r, i)
    ensures Filter(Visited(r, i, |r.steps|), keep) == Filter(AheadAtFirst(r, i), keep)
    ensures NoRepeats(Filter(Visited(r, i, |r.steps|), keep))
    ensures forall n :: n in keep && n in AheadAtFirst(r, i) ==> n in Visited(r, i, |r.steps|)
  {
    hide Inv, Progress, Apply, FirstLive, Enabled, Without, Filter, Passed, NoRepeats, Ahead;
    var last := |r.steps| - 1;
    assert Happens(r, last);
    var s, s0, p, seen := r.states[last], r.states[0], Passed(r.states[0], i), Visited(r, i, last);
    StartParked(r, i);
    NextIn(s, i);
    RunProgress(r, i, keep, last);
    NextAdvances(s, i, p + seen, keep);
    RunKept(r, keep, last);
    NothingBefore(seen);
    PassedAhead(s0, i);
    FilterJoin(p, seen, keep);
    FilterJoin(p, Ahead(s0, i), keep);
    SameTail(Filter(p, keep), Filter(seen, keep), Filter(Ahead(s0, i), keep));
    NotRepeated(s0);
    AheadParts(s0, i);
    FilterParts(Ahead(s0, i), keep);
    FilterParts(seen, keep);
    assert Visited(r, i, |r.steps|) == seen;
  }

  lemma SameTail(a: seq<nat>, b: seq<nat>, c: seq<nat>)
    requires a + b == a + c
    ensures b == c
  {
    assert b == (a + b)[|a|..] && c == (a + c)[|a|..];
  }

  lemma PassedAhead(s: State, i: nat)
    requires Inv(s) && i in s.iters && (s.iters[i].Some? ==> s.iters[i].value in s.list)
    ensures s.list == Passed(s, i) + Ahead(s, i)
  {
    hide Inv;
  }

  lemma AheadParts(s: State, i: nat)
    requires i in s.iters && (s.iters[i].Some? ==> s.iters[i].value in s.list) && NoRepeats(s.list)
    ensures NoRepeats(Ahead(s, i))
  {
  }

  /**
   * In every interleaving of adds, deletes and other iterators, an iteration from `klist_iter_init`
   * until `klist_next` returns NULL has returned each node that stayed live throughout exactly once
   * and in list order.
   */
  lemma IterationIsComplete(r: Run, i: nat, keep: set<nat>)
    requires Iterates(r, i) && StayLive(r, keep) && Ends(r, i) && r.states[0].iters[i].None?
    ensures Filter(Visited(r, i, |r.steps|), keep) == Filter(r.states[|r.steps|].list, keep)
    ensures NoRepeats(Filter(Visited(r, i, |r.steps|), keep))
    ensures forall n :: n in keep ==> n in Visited(r, i, |r.steps|)
  {
    hide Inv, Filter, NoRepeats, Ends;
    IterationReturnsAhead(r, i, keep);
    RunKept(r, keep, |r.steps|);
    Listed(r.states[0]);
    forall n | n in keep ensures n in Visited(r, i, |r.steps|) {
      assert Live(r.states[0], n);
    }
  }

  lemma {:induction false} FilterParts(s: seq<nat>, keep: set<nat>)
    ensures forall x :: x in Filter(s, keep) <==> x in s && x in keep
    ensures NoRepeats(s) ==> NoRepeats(Filter(s, keep))
  {
    if s == [] {
    } else {
      FilterParts(s[1..], keep);
      assert s == [s[0]] + s[1..];
    }
  }

  /** `klist_next` returns only nodes that are on the list and not dead when it chooses them. */
  lemma NeverDead(s: State, i: nat)
    requires Inv(s) && Enabled(s, Next(i)) && Found(s, i).Some?
    ensures Live(s, Found(s, i).value) && Found(s, i).value in s.list
    ensures Live(Apply(s, Next(i)), Found(s, i).value) && Apply(s, Next(i)).iters[i] == Found(s, i)
  {
    hide Inv, Found, Put, Get, Without;
    var start, q := FoundIs(s, i);
    NextView(s, i);
    Listed(s);
    var v := Found(s, i).value;
    if s.iters[i].Some? {
      PutStays(s, s.iters[i].value, v);
    }
    GetStays(LetGo(s, i), v);
  }

  lemma PutStays(s: State, l: nat, v: nat)
    requires l in s.info && s.info[l].refs > 0 && (forall w :: w in s.queue ==> w in s.waiters)
    requires l != v && Live(s, v)
    ensures Live(Put(s, l), v)
  {
  }

  lemma GetStays(s: State, v: nat)
    requires Live(s, v)
    ensures Live(Get(s, v), v)
  {
  }
}
