/**
 * slist.h: a stack shared without locks. Each read, write, compare-exchange and exchange is one
 * step; a run is any interleaving of the steps of any number of threads.
 */
module Slist {
  import opened Basics

  type Ptr = Option<nat>

  /** Where a thread stands inside slist_add or slist_remove_head, with its local variables. */
  datatype Pc =
    | Idle
    | AddRead(n: nat)
    | AddWrite(n: nat, entry: Ptr)
    | AddSwap(n: nat, seen: Ptr)
    | RemoveRead
    | RemoveNext(head: nat)
    | RemoveSwap(head: nat, succ: Ptr)

  /**
   * `first` and `next` are the memory; `stk` is the stack the list stands for, newest first; `pushed`
   * and `taken` record what went in and the chains that came out. `consumer` is the one thread that may use
   * slist_remove_head, if any; without one, every thread may use slist_del_all.
   */
  datatype State = State(
    first: Ptr, next: map<nat, Ptr>, pcs: map<nat, Pc>, consumer: Option<nat>,
    stk: seq<nat>, pushed: multiset<nat>, taken: seq<seq<nat>>)

  /** A call begins, or a thread inside a call takes its next step. */
  datatype Step = CallAdd(t: nat, n: nat) | CallRemove(t: nat) | DelAll(t: nat) | Go(t: nat)

  /** What a step returns to its caller. */
  datatype Answer = Pending | WasEmpty(b: bool) | Head(n: nat) | Chain(first: Ptr)

  function PcOf(s: State, t: nat): Pc {
    if t in s.pcs then s.pcs[t] else Idle
  }

  /** The nodes a thread is about to link in. */
  function Mine(pc: Pc): Option<nat> {
    match pc
    case AddRead(n) => Some(n)
    case AddWrite(n, _) => Some(n)
    case AddSwap(n, _) => Some(n)
    case _ => None
  }

  function Put(s: State, t: nat, pc: Pc): State {
    s.(pcs := s.pcs[t := pc])
  }

  function NextOf(s: State, n: nat): Ptr {
    if n in s.next then s.next[n] else None
  }

  /**
   * The memory effect and the answer of one step, as the code has it; `stk` and the records follow the abstract
   * stack.
   */
  function Apply(s: State, step: Step): (State, Answer) {
    match step
    case CallAdd(t, n) => (Put(s, t, AddRead(n)), Pending)
    case CallRemove(t) => (Put(s, t, RemoveRead), Pending)
    case DelAll(t) => (s.(first := None, stk := [], taken := s.taken + [s.stk]), Chain(s.first))
    case Go(t) =>
      match PcOf(s, t)
      case Idle => (s, Pending)
      case AddRead(n) => (Put(s, t, AddWrite(n, s.first)), Pending)
      case AddWrite(n, entry) => (Put(s.(next := s.next[n := entry]), t, AddSwap(n, entry)), Pending)
      case AddSwap(n, seen) =>
        if s.first == seen then
          (Put(s.(first := Some(n), stk := [n] + s.stk, pushed := s.pushed + multiset{n}), t, Idle),
            WasEmpty(seen == None))
        else (Put(s, t, AddWrite(n, s.first)), Pending)
      case RemoveRead => (if s.first.Some? then Put(s, t, RemoveNext(s.first.value)) else s, Pending)
      case RemoveNext(seen) => (Put(s, t, RemoveSwap(seen, NextOf(s, seen))), Pending)
      case RemoveSwap(seen, succ) =>
        if s.first == Some(seen) then
          (Put(s.(first := succ, stk := if s.stk == [] then [] else s.stk[1..],
            taken := s.taken + [s.stk[..if s.stk == [] then 0 else 1]]), t, Idle),
           Head(seen))
        else (if s.first.Some? then Put(s, t, RemoveNext(s.first.value)) else s, Pending)
  }

  /**
   * The callers' side: a thread runs one call at a time; a node is added by one thread while it is not in the
   * list; slist_remove_head is for the one consumer and a list that is not empty, and then slist_del_all is
   * for the consumer too.
   */
  predicate Enabled(s: State, step: Step) {
    match step
    case CallAdd(t, n) => PcOf(s, t) == Idle && n !in s.stk && forall u :: u in s.pcs ==> Mine(s.pcs[u]) != Some(n)
    case CallRemove(t) => PcOf(s, t) == Idle && s.consumer == Some(t) && s.first != None
    case DelAll(t) => PcOf(s, t) == Idle && (s.consumer == None || s.consumer == Some(t))
    case Go(t) => PcOf(s, t) != Idle
  }

  /** Following the links from `p` visits exactly `c`. */
  predicate Linked(p: Ptr, c: seq<nat>, next: map<nat, Ptr>)
    decreases |c|
  {
    if c == [] then p == None
    else p == Some(c[0]) && c[0] in next && Linked(next[c[0]], c[1..], next)
  }

  function Flat(c: seq<seq<nat>>): multiset<nat> {
    if c == [] then multiset{} else Flat(c[..|c| - 1]) + multiset(c[|c| - 1])
  }

  ghost predicate Inv(s: State) {
    && Linked(s.first, s.stk, s.next) && NoRepeats(s.stk)
    && s.pushed == multiset(s.stk) + Flat(s.taken)
    && (forall t :: t in s.pcs ==> Fits(s, t))
    && forall t, u :: t in s.pcs && u in s.pcs && t != u && Mine(s.pcs[t]).Some? ==> Mine(s.pcs[t]) != Mine(s.pcs[u])
  }

  /** What a thread's local variables still say about the memory. */
  ghost predicate Fits(s: State, t: nat)
    requires t in s.pcs
  {
    match s.pcs[t]
    case Idle => true
    case AddRead(n) => n !in s.stk
    case AddWrite(n, _) => n !in s.stk
    case AddSwap(n, seen) => n !in s.stk && n in s.next && s.next[n] == seen
    case RemoveRead => s.consumer == Some(t) && s.stk != []
    case RemoveNext(seen) => s.consumer == Some(t) && seen in s.stk
    case RemoveSwap(seen, succ) => s.consumer == Some(t) && seen in s.stk && seen in s.next && s.next[seen] == succ
  }

  lemma {:induction false} LinkedWrite(p: Ptr, c: seq<nat>, next: map<nat, Ptr>, n: nat, q: Ptr)
    requires Linked(p, c, next) && n !in c
    ensures Linked(p, c, next[n := q])
    decreases |c|
  {
    if c == [] {
    } else {
      LinkedWrite(next[c[0]], c[1..], next, n, q);
    }
  }

  /** The links determine the list. */
  lemma {:induction false} LinkedUnique(p: Ptr, c: seq<nat>, d: seq<nat>, next: map<nat, Ptr>)
    requires Linked(p, c, next) && Linked(p, d, next)
    ensures c == d
    decreases |c|
  {
    if c == [] {
    } else {
      LinkedUnique(next[c[0]], c[1..], d[1..], next);
      assert c == [c[0]] + c[1..] && d == [d[0]] + d[1..];
    }
  }

  lemma {:induction false} LinkedIn(p: Ptr, c: seq<nat>, next: map<nat, Ptr>, n: nat)
    requires Linked(p, c, next) && n in c
    ensures n in next
    decreases |c|
  {
    if c[0] == n {
    } else {
      LinkedIn(next[c[0]], c[1..], next, n);
    }
  }

  lemma FlatMore(c: seq<seq<nat>>, x: seq<nat>)
    ensures Flat(c + [x]) == Flat(c) + multiset(x)
  {
    assert (c + [x])[..|c|] == c;
  }

  /** A step by another thread does not disturb what this thread's variables say. */
  lemma OthersFit(s: State, s': State, t: nat)
    requires t in s.pcs && t in s'.pcs && s'.pcs[t] == s.pcs[t] && Fits(s, t) && s'.consumer == s.consumer
    requires Mine(s.pcs[t]).Some? ==> (Mine(s.pcs[t]).value in s'.stk ==> Mine(s.pcs[t]).value in s.stk)
    requires forall n :: n in s.next && (Mine(s.pcs[t]) == Some(n) || n in s.stk) ==>
      n in s'.next && s'.next[n] == s.next[n]
    requires s.consumer == Some(t) ==> forall n :: n in s.stk ==> n in s'.stk
    ensures Fits(s', t)
  {
    if s.stk != [] && s.consumer == Some(t) {
      assert s.stk[0] in s'.stk;
    }
  }

  lemma PushFacts(stk: seq<nat>, n: nat)
    requires NoRepeats(stk) && n !in stk
    ensures NoRepeats([n] + stk) && ([n] + stk)[1..] == stk && multiset([n] + stk) == multiset{n} + multiset(stk)
  {
  }

  lemma PopFacts(stk: seq<nat>)
    requires NoRepeats(stk) && stk != []
    ensures NoRepeats(stk[1..]) && stk[..1] == [stk[0]] && multiset(stk) == multiset{stk[0]} + multiset(stk[1..])
  {
    assert stk == [stk[0]] + stk[1..];
  }

  /** The compare-exchange of slist_add. */
  lemma PushKeeps(s: State, t: nat, n: nat, seen: Ptr)
    requires Inv(s) && t in s.pcs && s.pcs[t] == AddSwap(n, seen) && s.first == seen
    ensures Inv(Apply(s, Go(t)).0)
  {
    hide NoRepeats, Flat;
    var s' := Apply(s, Go(t)).0;
    assert Fits(s, t);
    PushFacts(s.stk, n);
    forall u | u in s'.pcs ensures Fits(s', u) {
      if u != t {
        PushFits(s, t, n, u);
      }
    }
  }

  lemma PushFits(s: State, t: nat, n: nat, u: nat)
    requires Inv(s) && t in s.pcs && s.pcs[t] == AddSwap(n, s.first) && u in s.pcs && u != t
    ensures u in Apply(s, Go(t)).0.pcs && Fits(Apply(s, Go(t)).0, u)
  {
    hide NoRepeats, Flat, Linked;
    assert Fits(s, u);
    assert Mine(s.pcs[t]) == Some(n) && Mine(s.pcs[u]) != Some(n);
    OthersFit(s, Apply(s, Go(t)).0, u);
  }

  /** The write of the new node's link: it is not in the list yet. */
  lemma WriteKeeps(s: State, t: nat, n: nat, entry: Ptr)
    requires Inv(s) && t in s.pcs && s.pcs[t] == AddWrite(n, entry)
    ensures Inv(Apply(s, Go(t)).0)
  {
    var s' := Apply(s, Go(t)).0;
    assert Fits(s, t);
    LinkedWrite(s.first, s.stk, s.next, n, entry);
    forall u | u in s'.pcs ensures Fits(s', u) {
      if u != t {
        assert Fits(s, u);
        OthersFit(s, s', u);
      }
    }
  }

  lemma DelAllKeeps(s: State, t: nat)
    requires Inv(s) && Enabled(s, DelAll(t))
    ensures Inv(Apply(s, DelAll(t)).0)
  {
    var s' := Apply(s, DelAll(t)).0;
    FlatMore(s.taken, s.stk);
    forall u | u in s'.pcs ensures Fits(s', u) {
      assert Fits(s, u);
    }
  }

  /** The compare-exchange of slist_remove_head installs the true successor. */
  lemma PopKeeps(s: State, t: nat, seen: nat, succ: Ptr)
    requires Inv(s) && t in s.pcs && s.pcs[t] == RemoveSwap(seen, succ) && s.first == Some(seen)
    ensures Inv(Apply(s, Go(t)).0) && s.stk[0] == seen && succ == if |s.stk| > 1 then Some(s.stk[1]) else None
  {
    hide NoRepeats, Flat, Linked, Fits;
    var s' := Apply(s, Go(t)).0;
    PopReads(s, t, seen, succ);
    PopFacts(s.stk);
    FlatMore(s.taken, s.stk[..1]);
    SecondIs(s);
    forall u | u in s'.pcs ensures Fits(s', u) {
      PopFits(s, t, seen, succ, u);
    }
  }

  lemma PopReads(s: State, t: nat, seen: nat, succ: Ptr)
    requires Inv(s) && t in s.pcs && s.pcs[t] == RemoveSwap(seen, succ)
    ensures seen in s.stk && seen in s.next && s.next[seen] == succ && s.stk != []
  {
    assert Fits(s, t);
  }

  lemma SecondIs(s: State)
    requires Linked(s.first, s.stk, s.next) && s.stk != []
    ensures s.first == Some(s.stk[0]) && s.stk[0] in s.next && Linked(s.next[s.stk[0]], s.stk[1..], s.next)
    ensures s.next[s.stk[0]] == if |s.stk| > 1 then Some(s.stk[1]) else None
  {
  }

  lemma PopFits(s: State, t: nat, seen: nat, succ: Ptr, u: nat)
    requires Inv(s) && t in s.pcs && s.pcs[t] == RemoveSwap(seen, succ) && s.first == Some(seen)
    requires u in Apply(s, Go(t)).0.pcs
    ensures Fits(Apply(s, Go(t)).0, u)
  {
    hide NoRepeats, Flat, Linked;
    assert Fits(s, t);
    if u != t {
      assert Fits(s, u);
    }
  }

  lemma ReadKeeps(s: State, t: nat, pc: Pc)
    requires Inv(s) && Fits(Put(s, t, pc), t)
    requires Mine(pc).Some? ==> forall u :: u in s.pcs && u != t ==> Mine(s.pcs[u]) != Mine(pc)
    ensures Inv(Put(s, t, pc))
  {
    var s' := Put(s, t, pc);
    forall u | u in s'.pcs ensures Fits(s', u) {
      if u != t {
        assert Fits(s, u);
      }
    }
  }

  /** Every step of every thread keeps the list, the records and the threads' knowledge right. */
  lemma StepKeeps(s: State, step: Step)
    requires Inv(s) && Enabled(s, step)
    ensures Inv(Apply(s, step).0)
  {
    match step
    case CallAdd(t, n) => ReadKeeps(s, t, AddRead(n));
    case CallRemove(t) => ReadKeeps(s, t, RemoveRead);
    case DelAll(t) => DelAllKeeps(s, t);
    case Go(t) =>
      assert Fits(s, t);
      match s.pcs[t]
      case AddRead(n) => ReadKeeps(s, t, AddWrite(n, s.first));
      case AddWrite(n, entry) => WriteKeeps(s, t, n, entry);
      case AddSwap(n, seen) =>
        if s.first == seen {
          PushKeeps(s, t, n, seen);
        } else {
          ReadKeeps(s, t, AddWrite(n, s.first));
        }
      case RemoveRead => ReadKeeps(s, t, RemoveNext(s.first.value));
      case RemoveNext(seen) =>
        LinkedIn(s.first, s.stk, s.next, seen);
        ReadKeeps(s, t, RemoveSwap(seen, NextOf(s, seen)));
      case RemoveSwap(seen, succ) =>
        if s.first == Some(seen) {
          PopKeeps(s, t, seen, succ);
        } else {
          ReadKeeps(s, t, RemoveNext(s.first.value));
        }
  }

  /** The stack operation a step stands for, at the moment it takes effect. */
  datatype Op = Nothing | Push(n: nat) | PopAll | Pop

  function Effect(s: State, step: Step): Op {
    match step
    case DelAll(_) => PopAll
    case Go(t) =>
      (match PcOf(s, t)
       case AddSwap(n, seen) => if s.first == seen then Push(n) else Nothing
       case RemoveSwap(seen, _) => if s.first == Some(seen) then Pop else Nothing
       case _ => Nothing)
    case _ => Nothing
  }

  /**
   * Linearizability: every step is one operation of a sequential stack or none, a call takes effect in
   * the step that answers it, and the answer is the one the sequential stack gives.
   */
  lemma StepIsStackOperation(s: State, step: Step)
    requires Inv(s) && Enabled(s, step)
    ensures var (s', answer) := Apply(s, step);
      match Effect(s, step)
      case Nothing => s'.stk == s.stk && s'.taken == s.taken && answer == Pending
      case Push(n) => s'.stk == [n] + s.stk && s'.taken == s.taken && answer == WasEmpty(s.stk == [])
      case PopAll => s'.stk == [] && answer.Chain? && Linked(answer.first, s.stk, s'.next)
        && s'.taken == s.taken + [s.stk]
      case Pop => s.stk != [] && s'.stk == s.stk[1..] && answer == Head(s.stk[0]) && s'.taken == s.taken + [[s.stk[0]]]
  {
    match step
    case CallAdd(_, _) =>
    case CallRemove(_) =>
    case DelAll(t) => DelAllIsPopAll(s, t);
    case Go(t) =>
      match PcOf(s, t)
      case AddSwap(n, seen) => SwapIsPush(s, t, n, seen);
      case RemoveSwap(seen, succ) => SwapIsPop(s, t, seen, succ);
      case _ => OtherIsNothing(s, t);
  }

  lemma DelAllIsPopAll(s: State, t: nat)
    requires Inv(s) && Enabled(s, DelAll(t))
    ensures var (s', answer) := Apply(s, DelAll(t));
      s'.stk == [] && answer.Chain? && Linked(answer.first, s.stk, s'.next) && s'.taken == s.taken + [s.stk]
  {
    hide NoRepeats, Flat, Fits, Linked;
  }

  lemma SwapIsPush(s: State, t: nat, n: nat, seen: Ptr)
    requires Inv(s) && PcOf(s, t) == AddSwap(n, seen)
    ensures var (s', answer) := Apply(s, Go(t));
      s'.taken == s.taken
      && if s.first == seen then s'.stk == [n] + s.stk && answer == WasEmpty(s.stk == [])
         else s'.stk == s.stk && answer == Pending
  {
    hide NoRepeats, Flat, Fits;
  }

  lemma SwapIsPop(s: State, t: nat, seen: nat, succ: Ptr)
    requires Inv(s) && PcOf(s, t) == RemoveSwap(seen, succ)
    ensures var (s', answer) := Apply(s, Go(t));
      if s.first == Some(seen) then
        s.stk != [] && s'.stk == s.stk[1..] && answer == Head(s.stk[0]) && s'.taken == s.taken + [[s.stk[0]]]
      else s'.stk == s.stk && s'.taken == s.taken && answer == Pending
  {
    if s.first == Some(seen) {
      hide NoRepeats, Flat, Fits, Linked;
      PopReads(s, t, seen, succ);
      SecondIs(s);
      FirstTaken(s.stk);
    }
  }

  lemma FirstTaken(stk: seq<nat>)
    requires stk != []
    ensures stk[..1] == [stk[0]]
  {
  }

  lemma OtherIsNothing(s: State, t: nat)
    requires !PcOf(s, t).AddSwap? && !PcOf(s, t).RemoveSwap?
    ensures var (s', answer) := Apply(s, Go(t)); s'.stk == s.stk && s'.taken == s.taken && answer == Pending
  {
  }

  /** The stack operation that the call a thread is in has been made for. */
  function Wanted(pc: Pc): Op {
    match pc
    case Idle => Nothing
    case RemoveRead => Pop
    case RemoveNext(_) => Pop
    case RemoveSwap(_, _) => Pop
    case _ => Push(Mine(pc).value)
  }

  /**
   * A call is over in the step that brings about the operation it was made for, and in no other step; until
   * then it stays a call for the same operation. Nobody else's step touches it.
   */
  lemma CallEnds(s: State, step: Step, t: nat)
    requires Enabled(s, step)
    ensures var pc, pc' := PcOf(s, t), PcOf(Apply(s, step).0, t);
      match step
      case CallAdd(u, n) => if u == t then pc == Idle && Wanted(pc') == Push(n) else pc' == pc
      case CallRemove(u) => if u == t then pc == Idle && Wanted(pc') == Pop else pc' == pc
      case DelAll(_) => pc' == pc
      case Go(u) =>
        if u != t then pc' == pc
        else if Effect(s, step) == Nothing then pc' != Idle && Wanted(pc') == Wanted(pc) != Nothing
        else pc' == Idle && Effect(s, step) == Wanted(pc)
  {
  }

  /** The next `k` steps of one thread, with no other thread in between. */
  function Alone(s: State, t: nat, k: nat): State {
    if k == 0 then s else Apply(Alone(s, t, k - 1), Go(t)).0
  }

  /** How many steps of its own a thread needs if no other thread steps in. */
  function Left(s: State, pc: Pc): (k: nat)
    ensures k <= 4
  {
    match pc
    case Idle => 0
    case AddRead(_) => 3
    case AddWrite(_, entry) => if s.first == entry then 2 else 4
    case AddSwap(_, seen) => if s.first == seen then 1 else 3
    case RemoveRead => 3
    case RemoveNext(seen) => if s.first == Some(seen) then 2 else 4
    case RemoveSwap(seen, _) => if s.first == Some(seen) then 1 else 3
  }

  lemma OneLess(s: State, t: nat)
    requires Inv(s) && PcOf(s, t) != Idle
    ensures Left(s, PcOf(s, t)) == 1 <==> Effect(s, Go(t)) != Nothing
    ensures Left(s, PcOf(s, t)) > 0
    ensures Effect(s, Go(t)) == Nothing ==>
      Left(Apply(s, Go(t)).0, PcOf(Apply(s, Go(t)).0, t)) == Left(s, PcOf(s, t)) - 1
  {
    hide NoRepeats, Flat;
    assert Fits(s, t);
  }

  lemma {:induction false} AloneSoFar(s: State, t: nat, k: nat)
    requires Inv(s) && PcOf(s, t) != Idle && k < Left(s, PcOf(s, t))
    ensures var a := Alone(s, t, k);
      && Inv(a) && PcOf(a, t) != Idle && Wanted(PcOf(a, t)) == Wanted(PcOf(s, t))
      && Left(a, PcOf(a, t)) == Left(s, PcOf(s, t)) - k
  {
    hide Apply, Effect, Inv, Wanted, PcOf;
    if k == 0 {
    } else {
      AloneSoFar(s, t, k - 1);
      var a := Alone(s, t, k - 1);
      assert Enabled(a, Go(t));
      OneLess(a, t);
      StepKeeps(a, Go(t));
      CallEnds(a, Go(t), t);
    }
  }

  /** No lock is ever waited for: left alone at any point of its call, a thread ends it within four steps. */
  lemma AloneEnds(s: State, t: nat)
    requires Inv(s) && PcOf(s, t) != Idle
    ensures exists k ::
      (0 < k <= 4 && PcOf(Alone(s, t, k), t) == Idle && Effect(Alone(s, t, k - 1), Go(t)) == Wanted(PcOf(s, t)))
  {
    hide Apply, Effect, Inv, Wanted, PcOf, Alone;
    OneLess(s, t);
    var k := Left(s, PcOf(s, t));
    AloneSoFar(s, t, k - 1);
    var a := Alone(s, t, k - 1);
    OneLess(a, t);
    assert Enabled(a, Go(t));
    CallEnds(a, Go(t), t);
    AloneMore(s, t, k);
  }

  lemma AloneMore(s: State, t: nat, k: nat)
    requires k > 0
    ensures Alone(s, t, k) == Apply(Alone(s, t, k - 1), Go(t)).0
  {
  }

  // ---- whole runs ----

  ghost predicate Run(states: seq<State>, steps: seq<Step>) {
    && |states| == |steps| + 1 && Inv(states[0])
    && forall k :: 0 <= k < |steps| ==> Happens(states, steps, k)
  }

  ghost predicate Happens(states: seq<State>, steps: seq<Step>, k: nat)
    requires |states| == |steps| + 1 && k < |steps|
  {
    Enabled(states[k], steps[k]) && states[k + 1] == Apply(states[k], steps[k]).0
  }

  /** In every interleaving, every node added is in the list or in exactly one chain taken out. */
  lemma {:induction false} NothingLost(states: seq<State>, steps: seq<Step>, k: nat)
    requires Run(states, steps) && k < |states|
    ensures Inv(states[k]) && states[k].pushed == multiset(states[k].stk) + Flat(states[k].taken)
    decreases k
  {
    if k == 0 {
    } else {
      NothingLost(states, steps, k - 1);
      assert Happens(states, steps, k - 1);
      StepKeeps(states[k - 1], steps[k - 1]);
    }
  }

  /** The operations that thread `t` has asked for in the first `k` steps. */
  ghost function Asked(steps: seq<Step>, k: nat, t: nat): seq<Op>
    requires k <= |steps|
  {
    if k == 0 then []
    else
      Asked(steps, k - 1, t) +
      match steps[k - 1]
      case CallAdd(u, n) => if u == t then [Push(n)] else []
      case CallRemove(u) => if u == t then [Pop] else []
      case _ => []
  }

  /** The operations that calls of thread `t` have brought about in the first `k` steps. */
  ghost function Done(states: seq<State>, steps: seq<Step>, k: nat, t: nat): seq<Op>
    requires |states| == |steps| + 1 && k <= |steps|
  {
    if k == 0 then []
    else
      Done(states, steps, k - 1, t) +
      if steps[k - 1] == Go(t) then Only(Effect(states[k - 1], steps[k - 1])) else []
  }

  function Only(op: Op): seq<Op> {
    if op == Nothing then [] else [op]
  }

  /**
   * In every interleaving each call does its work exactly once: what a thread has asked for so far, in order, is
   * what its calls have brought about and the one operation that its present call still owes.
   */
  lemma {:induction false} CallsDoTheirWork(states: seq<State>, steps: seq<Step>, k: nat, t: nat)
    requires Run(states, steps) && k < |states| && PcOf(states[0], t) == Idle
    ensures Asked(steps, k, t) == Done(states, steps, k, t) + Only(Wanted(PcOf(states[k], t)))
  {
    hide Apply, Effect, Inv, Enabled, Wanted, PcOf;
    if k == 0 {
      NobodyWants();
    } else {
      CallsDoTheirWork(states, steps, k - 1, t);
      assert Happens(states, steps, k - 1);
      CallEnds(states[k - 1], steps[k - 1], t);
      NobodyWants();
    }
  }

  lemma NobodyWants()
    ensures Wanted(Idle) == Nothing
  {
  }

  /** The nodes that threads are about to link in. */
  ghost function Held(s: State): set<nat> {
    set t | t in s.pcs && Mine(s.pcs[t]).Some? :: Mine(s.pcs[t]).value
  }

  /** The nodes that slist_add has been called for in the first `k` steps. */
  ghost function Called(steps: seq<Step>, k: nat): multiset<nat>
    requires k <= |steps|
  {
    if k == 0 then multiset{}
    else Called(steps, k - 1) + if steps[k - 1].CallAdd? then multiset{steps[k - 1].n} else multiset{}
  }

  lemma HeldIs(s: State, n: nat)
    ensures n in Held(s) <==> exists t :: t in s.pcs && Mine(s.pcs[t]) == Some(n)
  {
  }

  lemma HeldPut(s: State, s': State, t: nat, pc: Pc)
    requires s'.pcs == s.pcs[t := pc] && Inv(s)
    ensures var before, after := Mine(PcOf(s, t)), Mine(pc);
      && (before == after ==> Held(s') == Held(s))
      && (before == None && after.Some? ==> Held(s') == Held(s) + {after.value})
      && (before.Some? && after == None ==> Held(s') == Held(s) - {before.value} && before.value in Held(s))
  {
    forall n ensures n in Held(s') <==> Mine(pc) == Some(n) || (n in Held(s) && Mine(PcOf(s, t)) != Some(n)) {
      HeldIs(s, n);
      HeldIs(s', n);
      if Mine(pc) == Some(n) {
        assert s'.pcs[t] == pc;
      } else if u :| u in s.pcs && Mine(s.pcs[u]) == Some(n) {
        if u != t {
          assert s'.pcs[u] == s.pcs[u];
        }
      }
    }
  }

  lemma SameHeld(s: State, s': State)
    requires s.pcs == s'.pcs
    ensures Held(s') == Held(s)
  {
  }

  lemma NotHeld(s: State, t: nat, n: nat)
    requires Enabled(s, CallAdd(t, n))
    ensures n !in Held(s)
  {
  }

  /** What a step does to the nodes held and the nodes linked in. */
  lemma HeldStep(s: State, step: Step)
    requires Inv(s) && Enabled(s, step)
    ensures var s' := Apply(s, step).0;
      s'.pushed + multiset(Held(s'))
      == s.pushed + multiset(Held(s)) + if step.CallAdd? then multiset{step.n} else multiset{}
  {
    hide Inv, Held;
    var s' := Apply(s, step).0;
    match step
    case CallAdd(t, n) =>
      NotHeld(s, t, n);
      HeldPut(s, s', t, AddRead(n));
    case CallRemove(t) => HeldPut(s, s', t, RemoveRead);
    case DelAll(_) => SameHeld(s, s');
    case Go(t) => HeldPut(s, s', t, PcOf(s', t));
  }

  /**
   * In every interleaving from an empty list and idle threads, every node that slist_add has been called for is
   * in the list, in exactly one chain taken out, or held by the one thread that is still adding it.
   */
  lemma {:induction false} EveryNodeSomewhere(states: seq<State>, steps: seq<Step>, k: nat)
    requires Run(states, steps) && k < |states|
    requires states[0].stk == [] && states[0].taken == [] && Held(states[0]) == {}
    ensures Called(steps, k) == multiset(states[k].stk) + Flat(states[k].taken) + multiset(Held(states[k]))
  {
    hide Apply, Effect, Inv, Enabled, Held;
    NothingLost(states, steps, k);
    if k == 0 {
    } else {
      NothingLost(states, steps, k - 1);
      EveryNodeSomewhere(states, steps, k - 1);
      assert Happens(states, steps, k - 1);
      HeldStep(states[k - 1], steps[k - 1]);
    }
  }

  /** The effects of the first `k` steps, applied to a sequential stack. */
  function Replay(stk: seq<nat>, op: Op): seq<nat> {
    match op
    case Nothing => stk
    case Push(n) => [n] + stk
    case PopAll => []
    case Pop => if stk == [] then [] else stk[1..]
  }

  ghost function ReplayRun(states: seq<State>, steps: seq<Step>, k: nat): seq<nat>
    requires Run(states, steps) && k < |states|
  {
    if k == 0 then states[0].stk else Replay(ReplayRun(states, steps, k - 1), Effect(states[k - 1], steps[k - 1]))
  }

  /** The memory always holds the stack the operations so far amount to, one after the other. */
  lemma {:induction false} Linearizable(states: seq<State>, steps: seq<Step>, k: nat)
    requires Run(states, steps) && k < |states|
    ensures Linked(states[k].first, ReplayRun(states, steps, k), states[k].next)
    decreases k
  {
    NothingLost(states, steps, k);
    ReplayIsStack(states, steps, k);
  }

  lemma {:induction false} ReplayIsStack(states: seq<State>, steps: seq<Step>, k: nat)
    requires Run(states, steps) && k < |states|
    ensures ReplayRun(states, steps, k) == states[k].stk
    decreases k
  {
    hide Apply, Effect, Inv, Enabled;
    if k == 0 {
    } else {
      NothingLost(states, steps, k - 1);
      assert Happens(states, steps, k - 1);
      ReplayIsStack(states, steps, k - 1);
      StepIsStackOperation(states[k - 1], steps[k - 1]);
    }
  }

  /** No thread is about to link one of these nodes in. */
  ghost predicate LeftAlone(s: State, c: seq<nat>) {
    forall t :: t in s.pcs && Mine(s.pcs[t]).Some? ==> Mine(s.pcs[t]).value !in c
  }

  /** Only an addition of one of its nodes can disturb a chain. */
  lemma StepLeavesChain(s: State, step: Step, p: Ptr, c: seq<nat>)
    requires Enabled(s, step) && (step.CallAdd? ==> step.n !in c)
    requires Linked(p, c, s.next) && LeftAlone(s, c)
    ensures Linked(p, c, Apply(s, step).0.next) && LeftAlone(Apply(s, step).0, c)
  {
    hide Linked;
    if step.Go? && PcOf(s, step.t).AddWrite? {
      var pc := PcOf(s, step.t);
      assert Mine(s.pcs[step.t]) == Some(pc.n);
      LinkedWrite(p, c, s.next, pc.n, pc.entry);
    }
  }

  lemma AddersElsewhere(s: State, t: nat)
    requires Inv(s) && Enabled(s, DelAll(t))
    ensures Linked(s.first, s.stk, Apply(s, DelAll(t)).0.next) && LeftAlone(Apply(s, DelAll(t)).0, s.stk)
  {
    hide Linked;
    forall u | u in s.pcs && Mine(s.pcs[u]).Some? ensures Mine(s.pcs[u]).value !in s.stk {
      assert Fits(s, u);
    }
  }

  /**
   * The chain that slist_del_all returned can be walked, newest to oldest, whatever the other threads do
   * meanwhile, until one of its nodes is added again.
   */
  lemma {:induction false} ChainStays(states: seq<State>, steps: seq<Step>, k: nat, m: nat)
    requires Run(states, steps) && k < m < |states| && steps[k].DelAll?
    requires forall j :: k < j < m && steps[j].CallAdd? ==> steps[j].n !in states[k].stk
    ensures Linked(states[k].first, states[k].stk, states[m].next) && LeftAlone(states[m], states[k].stk)
    decreases m
  {
    hide Inv, Linked, LeftAlone, Apply, Enabled;
    if m == k + 1 {
      NothingLost(states, steps, k);
      assert Happens(states, steps, k);
      AddersElsewhere(states[k], steps[k].t);
    } else {
      ChainStays(states, steps, k, m - 1);
      assert Happens(states, steps, m - 1);
      StepLeavesChain(states[m - 1], steps[m - 1], states[k].first, states[k].stk);
    }
  }

  function After(s: State, steps: seq<Step>): State
    decreases |steps|
  {
    if steps == [] then s else After(Apply(s, steps[0]).0, steps[1..])
  }

  lemma {:induction false} AfterMore(s: State, a: seq<Step>, b: seq<Step>)
    ensures After(s, a + b) == After(After(s, a), b)
    decreases |a|
  {
    if a == [] {
      assert a + b == b;
    } else {
      AfterMore(Apply(s, a[0]).0, a[1..], b);
      assert (a + b)[1..] == a[1..] + b;
    }
  }

  /** A list of nodes 1 and 2 that threads 1 and 2 both take from, at five moments. */
  function Race(k: nat): State {
    var links: map<nat, Ptr> := map[1 := Some(2), 2 := None];
    var stale := RemoveSwap(1, Some(2));
    if k == 0 then State(Some(1), links, map[], None, [1, 2], multiset{1, 2}, [])
    else if k == 1 then State(Some(1), links, map[1 := stale], None, [1, 2], multiset{1, 2}, [])
    else if k == 2 then State(Some(2), links, map[1 := stale, 2 := Idle], None, [2], multiset{1, 2}, [[1]])
    else if k == 3 then State(None, links, map[1 := stale, 2 := Idle], None, [], multiset{1, 2}, [[1], [2]])
    else
      State(Some(1), map[1 := None, 2 := None], map[1 := stale, 2 := Idle, 3 := Idle], None, [1],
        multiset{1, 1, 2}, [[1], [2]])
  }

  /** Undisturbed, slist_remove_head reads the head and its successor. */
  lemma RemoveReads(s: State, t: nat)
    requires s.first.Some?
    ensures After(s, [CallRemove(t), Go(t), Go(t)]) == Put(s, t, RemoveSwap(s.first.value, NextOf(s, s.first.value)))
  {
    hide Apply, After, Put;
    var h := s.first.value;
    var a, b, c := Put(s, t, RemoveRead), Put(s, t, RemoveNext(h)), Put(s, t, RemoveSwap(h, NextOf(s, h)));
    RemoveSteps(s, t);
    StepsTo(s, CallRemove(t), a, [Go(t), Go(t)]);
    StepsTo(a, Go(t), b, [Go(t)]);
    StepsTo(b, Go(t), c, []);
    Chained(CallRemove(t), Go(t), Go(t));
    AfterNone(c);
  }

  lemma AfterNone(s: State)
    ensures After(s, []) == s
  {
  }

  lemma RemoveSteps(s: State, t: nat)
    requires s.first.Some?
    ensures Apply(s, CallRemove(t)).0 == Put(s, t, RemoveRead)
    ensures Apply(Put(s, t, RemoveRead), Go(t)).0 == Put(s, t, RemoveNext(s.first.value))
    ensures Apply(Put(s, t, RemoveNext(s.first.value)), Go(t)).0
         == Put(s, t, RemoveSwap(s.first.value, NextOf(s, s.first.value)))
  {
    var h := s.first.value;
    assert s.pcs[t := RemoveRead][t := RemoveNext(h)] == s.pcs[t := RemoveNext(h)];
    assert s.pcs[t := RemoveNext(h)][t := RemoveSwap(h, NextOf(s, h))] == s.pcs[t := RemoveSwap(h, NextOf(s, h))];
  }

  lemma Chained(p: Step, q: Step, r: Step)
    ensures [p] + [q, r] == [p, q, r] && [q] + [r] == [q, r] && [r] + [] == [r]
  {
  }

  lemma StepsTo(s: State, p: Step, s': State, rest: seq<Step>)
    requires Apply(s, p).0 == s'
    ensures After(s, [p] + rest) == After(s', rest)
  {
    hide Apply;
    assert ([p] + rest)[1..] == rest;
  }

  /** Thread 2 removes a node. */
  lemma RaceRemoves(k: nat)
    requires 1 <= k < 3
    ensures After(Race(k), [CallRemove(2), Go(2), Go(2)] + [Go(2)]) == Race(k + 1)
  {
    hide Apply;
    assert Race(k).first == Some(k);
    RemoveReads(Race(k), 2);
    AfterMore(Race(k), [CallRemove(2), Go(2), Go(2)], [Go(2)]);
    RaceTakes(k);
    StepsTo(Put(Race(k), 2, RemoveSwap(k, NextOf(Race(k), k))), Go(2), Race(k + 1), []);
    assert [Go(2)] + [] == [Go(2)];
  }

  lemma RaceTakes(k: nat)
    requires 1 <= k < 3
    ensures Apply(Put(Race(k), 2, RemoveSwap(k, NextOf(Race(k), k))), Go(2)).0 == Race(k + 1)
  {
    assert [1, 2][1..] == [2] && [1, 2][..1] == [1] && [2][1..] == [] && [2][..1] == [2];
    assert [] + [[1]] == [[1]] && [[1]] + [[2]] == [[1], [2]];
    var s := Put(Race(k), 2, RemoveSwap(k, NextOf(Race(k), k)));
    assert PcOf(s, 2) == RemoveSwap(k, NextOf(Race(k), k));
    assert s.pcs[2 := Idle] == Race(k + 1).pcs;
  }

  /** Thread 3 adds node 1 again. */
  lemma RaceAdds()
    ensures After(Race(3), [CallAdd(3, 1), Go(3), Go(3)] + [Go(3)]) == Race(4)
  {
    var s := Race(3);
    var a, b := Put(s, 3, AddRead(1)), Put(s, 3, AddWrite(1, None));
    var c := Put(s.(next := s.next[1 := None]), 3, AddSwap(1, None));
    StepsTo(s, CallAdd(3, 1), a, [Go(3), Go(3)]);
    assert a.pcs[3 := AddWrite(1, None)] == b.pcs;
    StepsTo(a, Go(3), b, [Go(3)]);
    assert b.pcs[3 := AddSwap(1, None)] == c.pcs;
    StepsTo(b, Go(3), c, []);
    Chained(CallAdd(3, 1), Go(3), Go(3));
    AfterMore(s, [CallAdd(3, 1), Go(3), Go(3)], [Go(3)]);
    RaceAdded(c);
    StepsTo(c, Go(3), Race(4), []);
    assert [Go(3)] + [] == [Go(3)];
  }

  lemma RaceAdded(c: State)
    requires var s := Race(3); c == Put(s.(next := s.next[1 := None]), 3, AddSwap(1, None))
    ensures Apply(c, Go(3)).0 == Race(4)
  {
    assert [1] + [] == [1] && multiset{1, 2} + multiset{1} == multiset{1, 1, 2};
    assert PcOf(c, 3) == AddSwap(1, None);
    assert c.pcs[3 := Idle] == Race(4).pcs && c.next == Race(4).next;
  }

  /**
   * Why slist_remove_head needs a single consumer. From idle threads and a well-formed list, thread 1 reads
   * head 1 and its successor 2; thread 2 removes both, and node 1 is added again. Thread 1's exchange then
   * succeeds and makes node 2, which has been taken out, the first one of a list that should be empty.
   */
  lemma TwoConsumersCorrupt()
    ensures var read, remove := [CallRemove(1), Go(1), Go(1)], [CallRemove(2), Go(2), Go(2)] + [Go(2)];
      var add := [CallAdd(3, 1), Go(3), Go(3)] + [Go(3)];
      var end := After(Race(0), read + (remove + (remove + (add + [Go(1)]))));
      && Inv(Race(0)) && Race(0).pcs == map[]
      && end.stk == [] && end.first == Some(2) && !Linked(end.first, end.stk, end.next)
  {
    hide Apply, Race;
    var read, remove := [CallRemove(1), Go(1), Go(1)], [CallRemove(2), Go(2), Go(2)] + [Go(2)];
    var add := [CallAdd(3, 1), Go(3), Go(3)] + [Go(3)];
    RaceStarts();
    RemoveReads(Race(0), 1);
    AfterMore(Race(0), read, remove + (remove + (add + [Go(1)])));
    RaceRemoves(1);
    AfterMore(Race(1), remove, remove + (add + [Go(1)]));
    RaceRemoves(2);
    AfterMore(Race(2), remove, add + [Go(1)]);
    RaceAdds();
    AfterMore(Race(3), add, [Go(1)]);
    RaceEnds();
    StepsTo(Race(4), Go(1), Apply(Race(4), Go(1)).0, []);
    assert [Go(1)] + [] == [Go(1)];
  }

  lemma RaceStarts()
    ensures Inv(Race(0)) && Race(0).pcs == map[] && Race(0).first == Some(1)
    ensures Put(Race(0), 1, RemoveSwap(1, NextOf(Race(0), 1))) == Race(1)
  {
    var s := Race(0);
    assert s.stk[1..] == [2] && [2][1..] == [];
    assert multiset(s.stk) == multiset{1, 2};
  }

  lemma RaceEnds()
    ensures var end := Apply(Race(4), Go(1)).0; end.stk == [] && end.first == Some(2)
  {
    assert PcOf(Race(4), 1) == RemoveSwap(1, Some(2));
  }
}
