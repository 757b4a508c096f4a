/** What the steps of klist.c mean, told without the machine's own functions, and the nodes that come in meanwhile. */
module KlistSteps {
  import opened Basics
  import opened Klist

  // ---- what each step means ----

  /** The node a step puts on the list. */
  function Adds(step: Step): Option<nat> {
    match step
    case AddHead(n) => Some(n)
    case AddTail(n) => Some(n)
    case AddAfter(n, _) => Some(n)
    case AddBefore(n, _) => Some(n)
    case _ => None
  }

  /** A list and the same list with `n` put in, told by the parts they are made of. */
  ghost predicate PutIn(step: Step, list: seq<nat>, list': seq<nat>)
    requires Adds(step).Some?
  {
    match step
    case AddHead(n) => list' == [n] + list
    case AddTail(n) => list' == list + [n]
    case AddAfter(n, pos) => pos in list && forall a, b :: list == a + [pos] + b ==> list' == a + [pos, n] + b
    case AddBefore(n, pos) => pos in list && forall a, b :: list == a + [pos] + b ==> list' == a + [n, pos] + b
  }

  lemma InsertBeside(list: seq<nat>, n: nat, pos: nat, a: seq<nat>, b: seq<nat>)
    requires NoRepeats(list) && list == a + [pos] + b
    ensures pos in list && Index(list, pos) == |a|
    ensures InsertAt(list, |a| + 1, n) == a + [pos, n] + b && InsertAt(list, |a|, n) == a + [n, pos] + b
  {
    assert list[|a|] == pos;
    IndexIs(list, |a|);
    assert list[..|a|] == a && list[|a|..] == [pos] + b;
    assert list[..|a| + 1] == a + [pos] && list[|a| + 1..] == b;
  }

  /** Where each of the four additions puts the node. */
  lemma AddedInPlace(s: State, step: Step)
    requires Inv(s) && Enabled(s, step) && Adds(step).Some?
    ensures PutIn(step, s.list, Apply(s, step).list)
  {
    hide Inv, InsertAt, NoRepeats;
    NotRepeated(s);
    Listed(s);
    match step
    case AddHead(n) => InsertEnds(s.list, n);
    case AddTail(n) => InsertEnds(s.list, n);
    case AddAfter(n, pos) =>
      forall a, b | s.list == a + [pos] + b ensures Apply(s, step).list == a + [pos, n] + b {
        InsertBeside(s.list, n, pos, a, b);
      }
    case AddBefore(n, pos) =>
      forall a, b | s.list == a + [pos] + b ensures Apply(s, step).list == a + [n, pos] + b {
        InsertBeside(s.list, n, pos, a, b);
      }
  }

  lemma InsertEnds(list: seq<nat>, n: nat)
    ensures InsertAt(list, 0, n) == [n] + list && InsertAt(list, |list|, n) == list + [n]
  {
    assert list[..0] == [] && list[0..] == list && list[..|list|] == list && list[|list|..] == [];
  }

  /** A node is live from the step that adds it until the step that kills it. */
  lemma LiveAfter(s: State, step: Step, n: nat)
    requires Inv(s) && Enabled(s, step)
    ensures Live(Apply(s, step), n) <==> Adds(step) == Some(n) || (Live(s, n) && step != Kill(n))
  {
    hide Inv, Without, InsertAt, Asleep, Wake, Put, Get;
    match step
    case Kill(m) =>
      HeldParts(s);
      PutLive(s.(info := s.info[m := s.info[m].(dead := true)]), m, n);
    case Next(i) =>
      NextView(s, i);
      GetLive(LetGo(s, i), if Found(s, i).Some? then Found(s, i).value else 0, n);
      LetGoLive(s, i, n);
    case IterExit(i) => LetGoLive(s, i, n);
    case IterInitNode(_, m) => GetLive(s, m, n);
    case _ =>
  }

  lemma LetGoLive(s: State, i: nat, n: nat)
    requires Inv(s) && i in s.iters
    ensures Live(LetGo(s, i), n) <==> Live(s, n)
  {
    if s.iters[i].Some? {
      var l := s.iters[i].value;
      assert Counted(s, l, None) && i in Parked(s.iters, l);
      HeldParts(s);
      PutLive(s, l, n);
    }
  }

  lemma GetLive(s: State, m: nat, n: nat)
    ensures Live(Get(s, m), n) <==> Live(s, n)
  {
  }

  lemma PutLive(s: State, m: nat, n: nat)
    requires m in s.info && s.info[m].refs > 0 && (forall v :: v in s.queue ==> v in s.waiters)
    requires s.info[m].refs == 1 ==> s.info[m].dead
    ensures Live(Put(s, m), n) <==> Live(s, n)
  {
  }

  /** A node is listed exactly while it is live or some iterator is parked on it. */
  lemma ListedExactly(s: State, n: nat)
    requires Inv(s)
    ensures n in s.list <==> Live(s, n) || exists i :: i in s.iters && s.iters[i] == Some(n)
  {
    if n in s.list && !Live(s, n) {
      assert Counted(s, n, None);
      var i :| i in Parked(s.iters, n);
      assert s.iters[i] == Some(n);
    }
  }

  /** A step that adds no node keeps the others in place: the list is the old one without those that left it. */
  lemma OthersStay(s: State, step: Step)
    requires Inv(s) && Enabled(s, step) && Adds(step).None?
    ensures Apply(s, step).list == Filter(s.list, set n | n in Apply(s, step).list)
  {
    hide NoRepeats, Without, Put, Get, Inv, Filter;
    NotRepeated(s);
    Listed(s);
    FilterAll(s.list, set n | n in s.list);
    match step
    case Kill(n) =>
      HeldParts(s);
      PutOrder(s.(info := s.info[n := s.info[n].(dead := true)]), n);
    case Next(i) =>
      NextView(s, i);
      LetGoOrder(s, i);
      GetKept(LetGo(s, i), if Found(s, i).Some? then Found(s, i).value else 0);
    case IterExit(i) => LetGoOrder(s, i);
    case IterInitNode(_, n) => GetKept(s, n);
    case _ =>
  }

  lemma LetGoOrder(s: State, i: nat)
    requires Inv(s) && i in s.iters
    ensures LetGo(s, i).list == Filter(s.list, set n | n in LetGo(s, i).list)
  {
    hide NoRepeats, Put, Inv, Filter;
    NextView(s, i);
    NotRepeated(s);
    Listed(s);
    FilterAll(s.list, set n | n in s.list);
    if s.iters[i].Some? {
      PutOrder(s, s.iters[i].value);
    }
  }

  lemma PutOrder(s: State, m: nat)
    requires m in s.info && s.info[m].refs > 0 && (forall v :: v in s.queue ==> v in s.waiters)
    requires NoRepeats(s.list) && m in s.list
    ensures Put(s, m).list == Filter(s.list, set n | n in Put(s, m).list)
  {
    hide NoRepeats, Filter, Without;
    var t := Put(s, m).list;
    var keep := set n | n in t;
    FilterAll(t, keep);
    if s.info[m].refs == 1 {
      RemoveMembers(s.list, m);
      RemoveFiltered(s.list, m, keep);
    }
  }

  lemma RemoveFiltered(s: seq<nat>, x: nat, keep: set<nat>)
    requires x in s && x !in keep
    ensures Filter(Without(s, x), keep) == Filter(s, keep)
  {
    FilterRemove(s, Index(s, x), keep);
  }

  lemma {:induction false} FilterAll(s: seq<nat>, keep: set<nat>)
    requires forall x :: x in s ==> x in keep
    ensures Filter(s, keep) == s
  {
    if s == [] {
    } else {
      FilterAll(s[1..], keep);
      assert s == [s[0]] + s[1..];
    }
  }

  /** Where every iterator stands after a step: only the iterator named in the step has moved. */
  lemma ItersAfter(s: State, step: Step)
    requires Inv(s) && Enabled(s, step)
    ensures Apply(s, step).iters ==
      match step
      case IterInit(i) => s.iters[i := None]
      case IterInitNode(i, n) => s.iters[i := Some(n)]
      case Next(i) => s.iters[i := Found(s, i)]
      case IterExit(i) => s.iters - {i}
      case _ => s.iters
  {
    hide Without, InsertAt, Inv, Wake, Asleep, FirstLive, Ahead;
  }

  /** Who waits, for which node: only `klist_remove` adds a waiter, asleep and for a node that is still live. */
  lemma WaitersAfter(s: State, step: Step)
    requires Inv(s) && Enabled(s, step)
    ensures var s' := Apply(s, step);
      && s'.waiters.Keys == s.waiters.Keys + (if step.Wait? then {step.w} else {})
      && (forall w :: w in s.waiters ==> s'.waiters[w].node == s.waiters[w].node)
      && (step.Wait? ==> !s'.waiters[step.w].woken && s'.waiters[step.w].node == step.n && Live(s', step.n))
  {
    hide Inv, Without, InsertAt, Asleep, Wake, Put, Get;
    match step
    case Kill(n) =>
      HeldParts(s);
      PutWaiters(s.(info := s.info[n := s.info[n].(dead := true)]), n);
    case Next(i) =>
      NextView(s, i);
      if s.iters[i].Some? {
        PutWaiters(s, s.iters[i].value);
      }
      GetWaiters(LetGo(s, i), if Found(s, i).Some? then Found(s, i).value else 0);
    case IterExit(i) =>
      NextView(s, i);
      if s.iters[i].Some? {
        PutWaiters(s, s.iters[i].value);
      }
    case IterInitNode(_, n) => GetWaiters(s, n);
    case _ =>
  }

  lemma PutWaiters(s: State, m: nat)
    requires m in s.info && s.info[m].refs > 0 && (forall v :: v in s.queue ==> v in s.waiters)
    ensures var s' := Put(s, m);
      s'.waiters.Keys == s.waiters.Keys && forall w :: w in s.waiters ==> s'.waiters[w].node == s.waiters[w].node
  {
  }

  lemma GetWaiters(s: State, m: nat)
    ensures Get(s, m).waiters == s.waiters
  {
  }

  // ---- nodes that come in while an iteration runs ----

  /** The rest of a run after `k` steps. */
  ghost function Later(r: Run, k: nat): Run
    requires |r.states| == |r.steps| + 1 && k <= |r.steps|
  {
    Run(r.states[k..], r.steps[k..])
  }

  lemma LaterValid(r: Run, k: nat)
    requires Valid(r) && k <= |r.steps|
    ensures Valid(Later(r, k))
  {
    hide Inv, Apply, Enabled;
    var l := Later(r, k);
    InvAt(r, k);
    forall j | 0 <= j < |l.steps| ensures Happens(l, j) {
      assert Happens(r, k + j);
    }
  }

  lemma {:induction false} InvAt(r: Run, k: nat)
    requires Valid(r) && k < |r.states|
    ensures Inv(r.states[k])
  {
    hide Inv, Apply, Enabled;
    if k == 0 {
    } else {
      assert Happens(r, k - 1);
      StepKeeps(r.states[k - 1], r.steps[k - 1]);
    }
  }

  lemma LaterReturned(r: Run, i: nat, j: nat, m: nat)
    requires Valid(r) && j + m < |r.steps| && Valid(Later(r, j))
    ensures m < |Later(r, j).steps| && Returned(Later(r, j), i, m) == Returned(r, i, j + m)
  {
    hide Inv, Apply, Enabled, Found;
    assert Happens(r, j + m);
  }

  lemma {:induction false} LaterVisited(r: Run, i: nat, j: nat, m: nat)
    requires Valid(r) && j + m <= |r.steps| && Valid(Later(r, j)) && m <= |Later(r, j).steps|
    ensures Visited(r, i, j + m) == Visited(r, i, j) + Visited(Later(r, j), i, m)
    decreases m
  {
    hide Inv, Apply, Enabled, Found, Happens;
    if m == 0 {
      NothingBefore(Visited(r, i, j));
    } else {
      LaterVisited(r, i, j, m - 1);
      LaterReturned(r, i, j, m - 1);
      Assoc(Visited(r, i, j), Visited(Later(r, j), i, m - 1), Returned(r, i, j + m - 1));
    }
  }

  lemma LaterIterates(r: Run, i: nat, j: nat)
    requires Iterates(r, i) && Ends(r, i) && j < |r.steps| && Valid(Later(r, j))
    ensures Iterates(Later(r, j), i) && Ends(Later(r, j), i)
  {
    hide Inv, Apply, Enabled, Found;
    var l := Later(r, j);
    IterAt(r, i, j);
    forall k | 0 <= k < |l.steps| ensures Uses(l, i, k) {
      assert Uses(r, i, j + k);
    }
  }

  lemma {:induction false} IterAt(r: Run, i: nat, k: nat)
    requires Iterates(r, i) && k <= |r.steps|
    ensures i in r.states[k].iters
  {
    hide Inv, Apply, Enabled, Found;
    if k == 0 {
    } else {
      IterAt(r, i, k - 1);
      assert Uses(r, i, k - 1) && Happens(r, k - 1);
      ItersAfter(r.states[k - 1], r.steps[k - 1]);
    }
  }

  lemma StandsBehind(list: seq<nat>, c: nat, x: nat)
    requires NoRepeats(list) && c in list
    ensures x in list[Index(list, c) + 1..] <==> x in list && Index(list, c) < Index(list, x)
  {
    var j := Index(list, c);
    if x in list[j + 1..] {
      var k :| 0 <= k < |list[j + 1..]| && list[j + 1..][k] == x;
      assert list[j + 1 + k] == x;
      IndexIs(list, j + 1 + k);
    }
  }

  lemma InsertedBehind(list: seq<nat>, k: nat, n: nat, c: nat)
    requires NoRepeats(list) && k <= |list| && n !in list && c in list
    ensures var t := InsertAt(list, k, n); c in t && (n in t[Index(t, c) + 1..] <==> Index(list, c) < k)
  {
    hide NoRepeats, InsertAt;
    var t, j := InsertAt(list, k, n), Index(list, c);
    InsertMembers(list, k, n);
    InsertElements(list, k, n);
    IndexIs(t, k);
    IndexIs(t, if j < k then j else j + 1);
    StandsBehind(t, c, n);
  }

  /** Whether a node that a step adds comes in ahead of iterator `i`. */
  ghost predicate ComesAhead(s: State, step: Step, i: nat)
    requires Inv(s) && i in s.iters && Adds(step).Some?
  {
    Parking(s);
    s.iters[i].None? ||
    match step
    case AddHead(_) => false
    case AddTail(_) => true
    case AddAfter(_, pos) => s.iters[i] == Some(pos) || pos in Ahead(s, i)
    case AddBefore(_, pos) => pos in Ahead(s, i)
    case _ => false
  }

  /** The index a step puts its node at. */
  ghost function Place(list: seq<nat>, step: Step): (k: nat)
    requires (step.AddAfter? || step.AddBefore?) ==> step.pos in list
    ensures k <= |list|
  {
    match step
    case AddTail(_) => |list|
    case AddAfter(_, pos) => Index(list, pos) + 1
    case AddBefore(_, pos) => Index(list, pos)
    case _ => 0
  }

  lemma AddStep(s: State, step: Step)
    requires Inv(s) && Enabled(s, step) && Adds(step).Some?
    ensures (step.AddAfter? || step.AddBefore?) ==> step.pos in s.list
    ensures Adds(step).value !in s.list && Apply(s, step).iters == s.iters
    ensures Apply(s, step).list == InsertAt(s.list, Place(s.list, step), Adds(step).value)
  {
    hide Inv, InsertAt;
    Listed(s);
  }

  lemma PlaceAhead(list: seq<nat>, step: Step, c: nat)
    requires NoRepeats(list) && c in list && Adds(step).Some?
    requires (step.AddAfter? || step.AddBefore?) ==> step.pos in list
    ensures Index(list, c) < Place(list, step) <==>
      match step
      case AddHead(_) => false
      case AddTail(_) => true
      case AddAfter(_, pos) => c == pos || pos in list[Index(list, c) + 1..]
      case AddBefore(_, pos) => pos in list[Index(list, c) + 1..]
      case _ => false
  {
    hide NoRepeats, Index;
    match step
    case AddAfter(_, pos) => StandsBehind(list, c, pos);
    case AddBefore(_, pos) => StandsBehind(list, c, pos);
    case _ =>
  }

  lemma AddedAhead(s: State, step: Step, i: nat)
    requires Inv(s) && Enabled(s, step) && Adds(step).Some? && i in s.iters && Inv(Apply(s, step))
    ensures var s' := Apply(s, step);
      i in s'.iters && (s'.iters[i].Some? ==> s'.iters[i].value in s'.list)
      && (Adds(step).value in Ahead(s', i) <==> ComesAhead(s, step, i))
  {
    hide *;
    AddStep(s, step);
    NotRepeated(s);
    Parking(s);
    Parking(Apply(s, step));
    var n, k := Adds(step).value, Place(s.list, step);
    InsertHolds(s.list, k, n);
    Listing(Apply(s, step), i);
    Listing(s, i);
    AheadCases(s, step, i);
    if s.iters[i].Some? {
      var c := s.iters[i].value;
      InsertedBehind(s.list, k, n, c);
      PlaceAhead(s.list, step, c);
    }
  }

  lemma InsertHolds(list: seq<nat>, k: nat, n: nat)
    requires k <= |list|
    ensures n in InsertAt(list, k, n)
  {
    assert InsertAt(list, k, n)[k] == n;
  }

  lemma Listing(s: State, i: nat)
    requires i in s.iters && (s.iters[i].Some? ==> s.iters[i].value in s.list)
    ensures Ahead(s, i) == if s.iters[i].None? then s.list else s.list[Index(s.list, s.iters[i].value) + 1..]
  {
  }

  lemma AheadCases(s: State, step: Step, i: nat)
    requires Inv(s) && i in s.iters && Adds(step).Some? && (s.iters[i].Some? ==> s.iters[i].value in s.list)
    ensures s.iters[i].None? ==> ComesAhead(s, step, i)
    ensures s.iters[i].Some? ==>
      match step
      case AddHead(_) => !ComesAhead(s, step, i)
      case AddTail(_) => ComesAhead(s, step, i)
      case AddAfter(_, pos) => ComesAhead(s, step, i) <==> s.iters[i].value == pos || pos in Ahead(s, i)
      case AddBefore(_, pos) => ComesAhead(s, step, i) <==> pos in Ahead(s, i)
      case _ => !ComesAhead(s, step, i)
  {
    hide Inv, Ahead;
  }

  /**
   * A node put on the list while an iteration runs, and live from then on, is returned by that iteration before
   * NULL exactly if it came in ahead of the iterator: always with klist_add_tail, and with klist_add_head only
   * while the iterator still stands at the list head.
   */
  lemma AddedMeanwhile(r: Run, i: nat, j: nat, n: nat)
    requires Iterates(r, i) && Ends(r, i) && j < |r.steps| && Adds(r.steps[j]) == Some(n)
    requires forall k :: j < k < |r.states| ==> Live(r.states[k], n)
    ensures j + 1 < |r.steps| && Valid(Later(r, j + 1)) && Inv(r.states[j]) && i in r.states[j].iters
    ensures var since := Visited(Later(r, j + 1), i, |r.steps| - j - 1);
      && Visited(r, i, |r.steps|) == Visited(r, i, j + 1) + since
      && (n in since <==> ComesAhead(r.states[j], r.steps[j], i))
  {
    hide *;
    GoesOn(r, i, j);
    LaterLives(r, j + 1, n);
    OneReturned(Later(r, j + 1), i, n);
    AddedAhead(r.states[j], r.steps[j], i);
  }

  lemma LaterLives(r: Run, k: nat, n: nat)
    requires |r.states| == |r.steps| + 1 && k <= |r.steps| && forall m :: k <= m < |r.states| ==> Live(r.states[m], n)
    ensures forall m :: 0 <= m < |Later(r, k).states| ==> Live(Later(r, k).states[m], n)
  {
  }

  /** The iteration is still running when a node is added, and the rest of the run is an iteration to its end. */
  lemma GoesOn(r: Run, i: nat, j: nat)
    requires Iterates(r, i) && Ends(r, i) && j < |r.steps| && Adds(r.steps[j]).Some?
    ensures |r.states| == |r.steps| + 1 && Inv(r.states[j]) && Enabled(r.states[j], r.steps[j])
    ensures i in r.states[j].iters && j + 1 < |r.steps| && Inv(r.states[j + 1])
    ensures var l := Later(r, j + 1);
      && |l.states| == |l.steps| + 1 && |l.steps| == |r.steps| - j - 1
      && Valid(l) && Iterates(l, i) && Ends(l, i) && l.states[0] == r.states[j + 1]
      && r.states[j + 1] == Apply(r.states[j], r.steps[j])
      && Visited(r, i, |r.steps|) == Visited(r, i, j + 1) + Visited(l, i, |l.steps|)
  {
    hide Inv, Apply, Enabled, Found, FirstLive, Visited;
    assert Happens(r, j) && Happens(r, |r.steps| - 1);
    var m := j + 1;
    LaterValid(r, m);
    InvAt(r, m);
    IterAt(r, i, j);
    LaterVisited(r, i, m, |Later(r, m).steps|);
    LaterIterates(r, i, m);
  }

  lemma OneReturned(r: Run, i: nat, n: nat)
    requires Iterates(r, i) && Ends(r, i) && forall k :: 0 <= k < |r.states| ==> Live(r.states[k], n)
    ensures Inv(r.states[0]) && (r.states[0].iters[i].Some? ==> r.states[0].iters[i].value in r.states[0].list)
    ensures n in Visited(r, i, |r.steps|) <==> n in Ahead(r.states[0], i)
  {
    hide Inv, Apply, Enabled, Found, FirstLive, Ahead, Filter, NoRepeats;
    assert StayLive(r, {n});
    StartParked(r, i);
    IterationReturnsAhead(r, i, {n});
    FilterParts(Visited(r, i, |r.steps|), {n});
    FilterParts(AheadAtFirst(r, i), {n});
  }

  /** klist_add_tail is never too late for an iteration that is still running. */
  lemma TailIsReturned(r: Run, i: nat, j: nat, n: nat)
    requires Iterates(r, i) && Ends(r, i) && j < |r.steps| && r.steps[j] == AddTail(n)
    requires forall k :: j < k < |r.states| ==> Live(r.states[k], n)
    ensures n in Visited(r, i, |r.steps|)
  {
    AddedMeanwhile(r, i, j, n);
  }
}
