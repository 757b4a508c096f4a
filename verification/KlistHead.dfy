/** The list as klist.c keeps it: loops over the links and the waiters, each proved to be one step of Klist. */
module KlistHead {
  import opened Basics
  import opened K = Klist
  import opened KlistSteps

  /** The node behind `x`, as `n_node.next` has it; `None` is the list head. */
  function Behind(list: seq<nat>, x: nat): Option<nat>
    requires x in list
  {
    if Index(list, x) + 1 < |list| then Some(list[Index(list, x) + 1]) else None
  }

  /** The list from a node on. */
  function From(list: seq<nat>, next: Option<nat>): seq<nat>
    requires next.Some? ==> next.value in list
  {
    if next.None? then [] else list[Index(list, next.value)..]
  }

  lemma BehindFrom(list: seq<nat>, x: nat)
    requires NoRepeats(list) && x in list
    ensures From(list, Behind(list, x)) == list[Index(list, x) + 1..]
    ensures From(list, Some(x)) == [x] + From(list, Behind(list, x))
    ensures Behind(list, x) != Some(x)
  {
    hide NoRepeats;
    var k := Index(list, x);
    SplitAt(list, k);
    if k + 1 < |list| {
      IndexIs(list, k + 1);
      assert From(list, Behind(list, x)) == list[k + 1..];
    } else {
      assert list[k + 1..] == [];
    }
  }

  lemma SplitAt(list: seq<nat>, k: nat)
    requires k < |list|
    ensures list[k..] == [list[k]] + list[k + 1..]
  {
  }

  lemma CutOut(list: seq<nat>, k: nat)
    requires k < |list|
    ensures (list[..k] + list[k + 1..])[k..] == list[k + 1..] && |list[..k] + list[k + 1..]| == |list| - 1
    ensures k + 1 < |list| ==> (list[..k] + list[k + 1..])[k] == list[k + 1]
  {
  }

  /** Taking `l` out does not disturb the walk that goes on behind it. */
  lemma FromWithout(list: seq<nat>, l: nat)
    requires NoRepeats(list) && l in list
    ensures var next := Behind(list, l);
      (next.Some? ==> next.value in Without(list, l)) && From(Without(list, l), next) == From(list, next)
  {
    hide NoRepeats;
    var k, t := Index(list, l), Without(list, l);
    RemoveMembers(list, l);
    if k + 1 < |list| {
      IndexIs(list, k + 1);
      CutOut(list, k);
      assert t[k] == list[k + 1] && t[k] in t;
      IndexIs(t, k);
    }
  }

  class KlistHead {
    var list: seq<nat>
    var info: map<nat, Knode>
    var iters: map<nat, Option<nat>>
    var waiters: map<nat, Waiter>
    var queue: seq<nat>
    /** Not fields of the source: how often each node was taken up by `get` and let go by `klist_release`. */
    var gets: multiset<nat>
    var released: multiset<nat>

    ghost function S(): State
      reads this
    {
      State(list, info, iters, waiters, queue, gets, released)
    }

    /** `klist_init` */
    constructor ()
      ensures Inv(S()) && list == [] && info == map[] && iters == map[] && waiters == map[]
    {
      list, info, iters, waiters, queue := [], map[], map[], map[], [];
      gets, released := multiset{}, multiset{};
      new;
      assert S().gets == multiset{};
    }

    /** `klist_node_init` and the insertion at position `k`: the four `klist_add_` functions. */
    method AddAt(n: nat, k: nat)
      requires n !in info && k <= |list|
      modifies this
      ensures S() == Added(old(S()), n, k)
    {
      info := info[n := Knode(1, false)];
      gets := gets + multiset{n};
      list := InsertAt(list, k, n);
    }

    method AddHead(n: nat)
      requires Inv(S()) && Enabled(S(), Step.AddHead(n))
      modifies this
      ensures S() == Apply(old(S()), Step.AddHead(n)) && Inv(S())
      ensures list == [n] + old(list)
    {
      StepKeeps(S(), Step.AddHead(n));
      AddedInPlace(S(), Step.AddHead(n));
      AddAt(n, 0);
    }

    method AddTail(n: nat)
      requires Inv(S()) && Enabled(S(), Step.AddTail(n))
      modifies this
      ensures S() == Apply(old(S()), Step.AddTail(n)) && Inv(S())
      ensures list == old(list) + [n]
    {
      StepKeeps(S(), Step.AddTail(n));
      AddedInPlace(S(), Step.AddTail(n));
      AddAt(n, |list|);
    }

    method AddAfter(n: nat, pos: nat)
      requires Inv(S()) && Enabled(S(), Step.AddAfter(n, pos))
      modifies this
      ensures S() == Apply(old(S()), Step.AddAfter(n, pos)) && Inv(S())
      ensures pos in old(list) && forall a, b :: old(list) == a + [pos] + b ==> list == a + [pos, n] + b
    {
      hide Inv, Held, InsertAt;
      Listed(S());
      StepKeeps(S(), Step.AddAfter(n, pos));
      AddedInPlace(S(), Step.AddAfter(n, pos));
      AddAt(n, Index(list, pos) + 1);
    }

    method AddBefore(n: nat, pos: nat)
      requires Inv(S()) && Enabled(S(), Step.AddBefore(n, pos))
      modifies this
      ensures S() == Apply(old(S()), Step.AddBefore(n, pos)) && Inv(S())
      ensures pos in old(list) && forall a, b :: old(list) == a + [pos] + b ==> list == a + [n, pos] + b
    {
      StepKeeps(S(), Step.AddBefore(n, pos));
      AddedInPlace(S(), Step.AddBefore(n, pos));
      AddAt(n, Index(list, pos));
    }

    /** `klist_release`'s walk over the waiters of all nodes. */
    method WakeWaiters(n: nat)
      requires forall w :: w in queue ==> w in waiters
      requires forall w :: w in waiters && waiters[w].node == n && !waiters[w].woken ==> w in queue
      modifies this`waiters, this`queue
      ensures waiters == Wake(old(waiters), n) && queue == Asleep(old(queue), old(waiters), n)
    {
      hide Asleep;
      var rest, kept := queue, [];
      while rest != []
        invariant forall w :: w in rest ==> w in waiters
        invariant waiters.Keys == old(waiters).Keys
        invariant kept + Asleep(rest, waiters, n) == Asleep(old(queue), old(waiters), n)
        invariant forall w :: w in waiters ==>
          waiters[w] == old(waiters)[w] || (old(waiters)[w].node == n && waiters[w] == old(waiters)[w].(woken := true))
        invariant forall w :: w in waiters && waiters[w].node == n && !waiters[w].woken ==> w in rest
        decreases |rest|
      {
        var w := rest[0];
        ghost var waiters0 := waiters;
        AsleepStep(rest, waiters0, n);
        if waiters[w].node == n {
          waiters := waiters[w := waiters[w].(woken := true)];
          NothingBefore(Asleep(rest[1..], waiters0, n));
        } else {
          Assoc(kept, [w], Asleep(rest[1..], waiters0, n));
          kept := kept + [w];
        }
        SameAsleep(rest[1..], waiters0, waiters, n);
        assert rest == [w] + rest[1..];
        rest := rest[1..];
      }
      AsleepNone(waiters, n);
      NothingBefore(kept);
      WakeDone(old(waiters), waiters, n);
      queue := kept;
    }

    /** `klist_release` */
    method Release(n: nat)
      requires n in list && forall w :: w in queue ==> w in waiters
      requires forall w :: w in waiters && waiters[w].node == n && !waiters[w].woken ==> w in queue
      modifies this
      ensures S() == K.Release(old(S()), n)
    {
      list := Without(list, n);
      WakeWaiters(n);
      info := info - {n};
      released := released + multiset{n};
    }

    /** `klist_dec_and_del`: whether the count went to zero. */
    method DecAndDel(n: nat) returns (gone: bool)
      requires Held(S(), Some(n)) && n in info
      modifies this
      ensures S() == K.Put(old(S()), n) && Inv(S())
      ensures gone <==> old(info)[n].refs == 1
    {
      PutKeeps(S(), n);
      WaitersQueued(S());
      gone := info[n].refs == 1;
      if gone {
        Release(n);
      } else {
        info := info[n := info[n].(refs := info[n].refs - 1)];
      }
    }

    /** `klist_put(n, true)`, which is `klist_del`; `put` says whether the embedding object is let go. */
    method Del(n: nat) returns (put: bool)
      requires Inv(S()) && Enabled(S(), Kill(n))
      modifies this
      ensures S() == Apply(old(S()), Kill(n)) && Inv(S())
      ensures put <==> n !in info
    {
      hide Inv, Held, Put;
      KillHeld(S(), n);
      info := info[n := info[n].(dead := true)];
      put := DecAndDel(n);
    }

    /** The first part of `klist_remove`: the caller queues up before it deletes the node. */
    method Enqueue(w: nat, n: nat)
      requires Inv(S()) && Enabled(S(), Wait(w, n))
      modifies this
      ensures S() == Apply(old(S()), Wait(w, n)) && Inv(S())
    {
      StepKeeps(S(), Wait(w, n));
      waiters := waiters[w := Waiter(n, released[n], false)];
      queue := [w] + queue;
    }

    /** `klist_iter_init_node`, and `klist_iter_init` where `n` is `None`. */
    method IterInit(i: nat, n: Option<nat>)
      requires Inv(S()) && i !in iters && (n.Some? ==> n.value in info)
      modifies this
      ensures S() == Apply(old(S()), if n.Some? then IterInitNode(i, n.value) else Step.IterInit(i)) && Inv(S())
    {
      hide Inv, Held;
      StepKeeps(S(), if n.Some? then IterInitNode(i, n.value) else Step.IterInit(i));
      iters := iters[i := n];
      if n.Some? {
        info := info[n.value := info[n.value].(refs := info[n.value].refs + 1)];
      }
    }

    /** `klist_iter_exit` */
    method IterExit(i: nat) returns (put: bool)
      requires Inv(S()) && i in iters
      modifies this
      ensures S() == Apply(old(S()), Step.IterExit(i)) && Inv(S())
      ensures put <==> old(iters)[i].Some? && old(iters)[i].value !in info
    {
      hide Inv, Held, Put;
      put := false;
      ExitView(S(), i);
      var cur := iters[i];
      iters := iters - {i};
      if cur.Some? {
        put := DecAndDel(cur.value);
      }
    }

    /** The first half of `klist_next`: the place to go on from is read before the last node is let go. */
    method StepOff(i: nat) returns (next: Option<nat>, put: Option<nat>)
      requires Inv(S()) && i in iters
      modifies this
      ensures S() == Parks(LetGo(old(S()), i), i, None) && Inv(S()) && (next.Some? ==> next.value in list)
      ensures (forall x :: x in From(list, next) ==> x in info)
        && FirstLive(info, From(list, next)) == Found(old(S()), i)
      ensures put == if old(iters)[i].Some? && old(iters)[i].value !in info then old(iters)[i] else None
    {
      hide Inv, Held, FirstLive, NoRepeats, Without, From, Behind, Ahead;
      ghost var s0 := S();
      var last := iters[i];
      put := None;
      HeldByNone(s0);
      LeaveKeeps(s0, i);
      HeldByNone(Parks(s0, i, None));
      if last.Some? {
        NextWalk(s0, i);
        next := Behind(list, last.value);
        iters := iters[i := None];
        PutParks(s0, i, last.value);
        var gone := DecAndDel(last.value);
        if gone {
          put := last;
        }
      } else {
        next := if list == [] then None else Some(list[0]);
        assert iters[i := None] == iters;
      }
      StepOffFound(s0, i, next);
    }

    /** `klist_next`: off the last node, over the dead ones, on to the first live one. */
    method Next(i: nat) returns (r: Option<nat>, put: Option<nat>)
      requires Inv(S()) && i in iters
      modifies this
      ensures S() == Apply(old(S()), Step.Next(i)) && Inv(S()) && r == Found(old(S()), i)
      ensures put == if old(iters)[i].Some? && old(iters)[i].value !in info then old(iters)[i] else None
    {
      hide Inv, Held, NoRepeats, Without, From, Behind, Ahead, LetGo, FirstLive, Found, Apply;
      ghost var s0 := S();
      NextKeeps(s0, i);
      var next;
      next, put := StepOff(i);
      ghost var s1 := S();
      Listed(s1);
      NotRepeated(s1);
      while next.Some?
        invariant S() == s1 && iters[i] == None && (next.Some? ==> next.value in list)
        invariant (forall x :: x in From(list, next) ==> x in info) && FirstLive(info, From(list, next)) == Found(s0, i)
        decreases |From(list, next)|
      {
        BehindFrom(list, next.value);
        BehindIn(list, next.value);
        FirstLiveStep(info, From(list, next));
        assert From(list, next)[1..] == From(list, Behind(list, next.value));
        if !info[next.value].dead {
          info := info[next.value := info[next.value].(refs := info[next.value].refs + 1)];
          iters := iters[i := next];
          break;
        }
        next := Behind(list, next.value);
      }
      FromNone(list);
      FirstLiveStep(info, []);
      NextDone(s0, i);
      r := iters[i];
    }

    /** `klist_node_attached` */
    function NodeAttached(n: nat): (r: bool)
      requires Inv(S())
      reads this
      ensures r <==> n in list
    {
      n in info
    }
  }

  lemma {:induction false} SameAsleep(queue: seq<nat>, a: map<nat, Waiter>, b: map<nat, Waiter>, n: nat)
    requires forall w :: w in queue ==> w in a && w in b && (a[w].node == n <==> b[w].node == n)
    ensures Asleep(queue, a, n) == Asleep(queue, b, n)
  {
    if queue == [] {
    } else {
      SameAsleep(queue[1..], a, b, n);
    }
  }

  lemma WaitersQueued(s: State)
    requires exists x :: Held(s, x)
    ensures NoRepeats(s.queue) && (forall w :: w in s.queue ==> w in s.waiters)
      && (forall n :: n in s.info <==> n in s.list)
    ensures forall w :: w in s.waiters && !s.waiters[w].woken ==> w in s.queue
  {
    forall w | w in s.waiters && !s.waiters[w].woken ensures w in s.queue {
      assert WaitsRight(s, w);
    }
  }

  lemma KillHeld(s: State, n: nat)
    requires Inv(s) && Enabled(s, Kill(n))
    ensures Held(s.(info := s.info[n := s.info[n].(dead := true)]), Some(n))
    ensures n in Apply(s, Kill(n)).info <==> s.info[n].refs != 1
    ensures s.info[n].refs > 0 && (forall w :: w in s.queue ==> w in s.waiters)
    ensures Apply(s, Kill(n)) == Put(s.(info := s.info[n := s.info[n].(dead := true)]), n)
  {
    var s' := s.(info := s.info[n := s.info[n].(dead := true)]);
    forall m | m in s'.info ensures Counted(s', m, Some(n)) {
      assert Counted(s, m, None);
    }
    forall w | w in s'.waiters ensures WaitsRight(s', w) {
      assert WaitsRight(s, w);
    }
  }

  /** What the start of `klist_next` relies on, and where its walk begins. */
  lemma NextWalk(s: State, i: nat)
    requires Inv(s) && i in s.iters && s.iters[i].Some?
    ensures var l := s.iters[i].value;
      && l in s.list && l in s.info && s.info[l].refs > 0 && (forall w :: w in s.queue ==> w in s.waiters)
      && Held(Parks(s, i, None), Some(l)) && (Put(s, l).info.Keys == s.info.Keys <==> s.info[l].refs != 1)
      && Ahead(s, i) == From(s.list, Behind(s.list, l))
      && From(Without(s.list, l), Behind(s.list, l)) == From(s.list, Behind(s.list, l))
  {
    hide Without, From, Behind, NoRepeats, Asleep, Wake;
    LeaveKeeps(s, i);
    HeldParts(s);
    Listed(s);
    BehindFrom(s.list, s.iters[i].value);
    FromWithout(s.list, s.iters[i].value);
  }

  lemma ExitView(s: State, i: nat)
    requires Inv(s) && i in s.iters
    ensures Inv(Apply(s, Step.IterExit(i))) && Held(s.(iters := s.iters - {i}), s.iters[i])
    ensures s.iters[i].Some? ==> s.iters[i].value in s.info
    ensures s.iters[i].Some? ==>
      var l, s' := s.iters[i].value, s.(iters := s.iters - {i});
      s.info[l].refs > 0 && (forall w :: w in s.queue ==> w in s.waiters)
      && Apply(s, Step.IterExit(i)) == Put(s', l) && (l !in Put(s', l).info <==> s.info[l].refs == 1)
    ensures s.iters[i].None? ==> Inv(s.(iters := s.iters - {i}))
  {
    hide Inv, Held;
    ExitKeeps(s, i);
    LeaveKeeps(s, i);
    HeldParts(s);
    HeldByNone(s.(iters := s.iters - {i}));
    NextView(s, i);
  }

  lemma WakeDone(a: map<nat, Waiter>, b: map<nat, Waiter>, n: nat)
    requires a.Keys == b.Keys
    requires forall w :: w in a ==> b[w] == a[w] || (a[w].node == n && b[w] == a[w].(woken := true))
    requires forall w :: w in b && b[w].node == n ==> b[w].woken
    ensures b == Wake(a, n)
  {
  }

  lemma FromNone(list: seq<nat>)
    ensures From(list, None) == []
  {
  }

  lemma {:induction false} SameFirstLive(a: map<nat, Knode>, b: map<nat, Knode>, s: seq<nat>)
    requires forall x :: x in s ==> x in a && x in b && a[x].dead == b[x].dead
    ensures FirstLive(a, s) == FirstLive(b, s)
  {
    if s == [] {
    } else {
      SameFirstLive(a, b, s[1..]);
    }
  }

  /** Letting the last node go changes nothing ahead of the iterator. */
  lemma StepOffFound(s: State, i: nat, next: Option<nat>)
    requires Inv(s) && i in s.iters
    requires next == if s.iters[i].Some? then Behind(s.list, s.iters[i].value)
                     else if s.list == [] then None else Some(s.list[0])
    ensures var s' := LetGo(s, i);
      && (next.Some? ==> next.value in s'.list)
      && (forall x :: x in From(s'.list, next) ==> x in s'.info)
        && FirstLive(s'.info, From(s'.list, next)) == Found(s, i)
  {
    hide FirstLive, NoRepeats, Without, Held, Asleep, Wake, Inv, From, Behind, Put;
    NotRepeated(s);
    Listed(s);
    AheadOthers(s, i);
    if s.iters[i].Some? {
      var l := s.iters[i].value;
      NextWalk(s, i);
      BehindIn(s.list, l);
      PutOthers(s, l);
      FromWithout(s.list, l);
    } else if s.list != [] {
      FromFirst(s.list);
    } else {
      FromNone(s.list);
    }
    SameFirstLive(s.info, LetGo(s, i).info, Ahead(s, i));
  }

  lemma FromFirst(list: seq<nat>)
    requires list != []
    ensures From(list, Some(list[0])) == list
  {
  }

  lemma PutOthers(s: State, l: nat)
    requires l in s.info && s.info[l].refs > 0 && forall w :: w in s.queue ==> w in s.waiters
    ensures forall x :: x in s.info && x != l ==> x in Put(s, l).info && Put(s, l).info[x].dead == s.info[x].dead
    ensures Put(s, l).list == if s.info[l].refs == 1 then Without(s.list, l) else s.list
  {
  }

  lemma BehindIn(list: seq<nat>, l: nat)
    requires l in list
    ensures Behind(list, l).Some? ==> Behind(list, l).value in list
  {
  }

  lemma AheadOthers(s: State, i: nat)
    requires Inv(s) && i in s.iters
    ensures s.iters[i].Some? ==> s.iters[i].value !in Ahead(s, i)
    ensures forall x :: x in Ahead(s, i) ==> x in s.info
  {
  }

  lemma NextDone(s: State, i: nat)
    requires Inv(s) && i in s.iters
    ensures var s1 := Parks(LetGo(s, i), i, None);
      Apply(s, Step.Next(i)) == if Found(s, i).Some? then Parks(Get(s1, Found(s, i).value), i, Found(s, i)) else s1
    ensures Found(s, i).Some? ==> Found(s, i).value in LetGo(s, i).info
  {
    if Found(s, i).Some? {
      GetParks(LetGo(s, i), i, Found(s, i).value);
      NextListed(s, i);
    }
  }

  lemma FirstLiveStep(info: map<nat, Knode>, s: seq<nat>)
    requires forall x :: x in s ==> x in info
    ensures s == [] ==> FirstLive(info, s) == None
    ensures s != [] ==> FirstLive(info, s) == if info[s[0]].dead then FirstLive(info, s[1..]) else Some(s[0])
  {
  }

  lemma AsleepStep(rest: seq<nat>, waiters: map<nat, Waiter>, n: nat)
    requires rest != [] && forall w :: w in rest ==> w in waiters
    ensures Asleep(rest, waiters, n) ==
      (if waiters[rest[0]].node == n then [] else [rest[0]]) + Asleep(rest[1..], waiters, n)
  {
  }

  lemma AsleepNone(waiters: map<nat, Waiter>, n: nat)
    ensures Asleep([], waiters, n) == []
  {
  }
}
