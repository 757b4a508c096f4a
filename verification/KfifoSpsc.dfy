/**
 * kfifo with one writer and one reader that share no lock: each reads the other's index once, copies
 * element by element, and publishes its own index at the end. A run is any interleaving of these steps.
 */
module KfifoSpsc {
  import opened Basics
  import opened KfifoIndex

  /**
   * The writer works from a copy of `out` and the reader from a copy of `in`; `ghost` parts are the counters
   * behind them.
   */
  datatype Writer = WIdle | WCopy(buf: seq<nat>, seen: nat, len: nat, done: nat)
  datatype Reader = RIdle | RCopy(want: nat, seen: nat, len: nat, copied: seq<nat>)

  /**
   * `in_`, `out` and `data` are the memory. `accepted` is everything published by the writer and `got`
   * everything handed out by the reader, in order; `headSeen` and `tailSeen` are the full counters behind the
   * index copies.
   */
  datatype State = State(
    in_: nat, out: nat, data: seq<nat>, w: Writer, r: Reader,
    accepted: seq<nat>, got: seq<nat>, headSeen: nat, tailSeen: nat)

  datatype Step =
    | Write(buf: seq<nat>) | WriteOne | Publish
    | Read(want: nat) | ReadOne | Release

  predicate Enabled(s: State, step: Step) {
    match step
    case Write(_) => s.w.WIdle?
    case WriteOne => s.w.WCopy? && s.w.done < s.w.len
    case Publish => s.w.WCopy? && s.w.done == s.w.len
    case Read(_) => s.r.RIdle?
    case ReadOne => s.r.RCopy? && |s.r.copied| < s.r.len
    case Release => s.r.RCopy? && |s.r.copied| == s.r.len
  }

  function Size(s: State): nat {
    |s.data|
  }

  /** The slot an index names: the index masked. */
  function Slot(s: State, index: nat): nat
    requires Size(s) > 0
  {
    And(index, Size(s) - 1)
  }

  /** One step, on 32-bit indices as the code computes them. */
  function Apply(s: State, step: Step): State
    requires Enabled(s, step) && Size(s) > 0 && s.in_ < WORD && s.out < WORD
    requires s.w.WCopy? ==> s.w.seen < WORD && s.w.len <= |s.w.buf|
  {
    match step
    case Write(buf) =>
      var unused := Sub32(Size(s) % WORD, Sub32(s.in_, s.out));
      s.(w := WCopy(buf, s.out, Min(|buf|, unused), 0), headSeen := |s.got|)
    case WriteOne =>
      s.(data := s.data[Slot(s, Add32(s.in_, s.w.done)) := s.w.buf[s.w.done]], w := s.w.(done := s.w.done + 1))
    case Publish =>
      s.(in_ := Add32(s.in_, s.w.len), w := WIdle, accepted := s.accepted + s.w.buf[..s.w.len])
    case Read(want) =>
      s.(r := RCopy(want, s.in_, Min(want, Sub32(s.in_, s.out)), []), tailSeen := |s.accepted|)
    case ReadOne =>
      s.(r := s.r.(copied := s.r.copied + [s.data[Slot(s, Add32(s.out, |s.r.copied|))]]))
    case Release =>
      s.(out := Add32(s.out, s.r.len), r := RIdle, got := s.got + s.r.copied)
  }

  /** The slot of the element with running number `i`. */
  function Home(i: nat, size: nat): (r: nat)
    requires size > 0
    ensures r < size
  {
    i % size
  }

  ghost predicate Inv(s: State) {
    var h, t, size := |s.got|, |s.accepted|, Size(s);
    && (exists k: nat :: k <= 31 && size == Pow2(k))
    && s.in_ == t % WORD && s.out == h % WORD && h <= t <= h + size
    && s.got == s.accepted[..h]
    && (forall i :: h <= i < t ==> s.data[Home(i, size)] == s.accepted[i])
    && Writing(s) && Reading(s)
  }

  /**
   * The writer's claim: it takes as much as there was room for when it looked, and all it is about to write lies in
   * free slots, whatever the reader has done since.
   */
  ghost predicate Writing(s: State) {
    var t, size := |s.accepted|, Size(s);
    s.w.WCopy? ==>
      && size > 0 && s.headSeen <= |s.got| && s.w.seen == s.headSeen % WORD && s.w.done <= s.w.len <= |s.w.buf|
      && t <= s.headSeen + size && s.w.len == Min(|s.w.buf|, size - (t - s.headSeen))
      && forall j :: 0 <= j < s.w.done ==> s.data[Home(t + j, size)] == s.w.buf[j]
  }

  /**
   * The reader's claim: it takes as much as was published when it looked, and all it is about to read is still
   * there, whatever the writer has done since.
   */
  ghost predicate Reading(s: State) {
    var h := |s.got|;
    s.r.RCopy? ==>
      && s.tailSeen <= |s.accepted| && s.r.seen == s.tailSeen % WORD && h <= s.tailSeen
      && s.r.len == Min(s.r.want, s.tailSeen - h)
      && |s.r.copied| <= s.r.len && s.r.copied == s.accepted[h..h + |s.r.copied|]
  }

  /** Different running numbers less than one turn apart have different slots. */
  lemma HomesDiffer(i: nat, j: nat, size: nat)
    requires size > 0 && i < j < i + size
    ensures Home(i, size) != Home(j, size)
  {
    var q, p := i / size, j / size;
    assert i == size * q + i % size && j == size * p + j % size;
    if i % size == j % size {
      Distribute(size, p, -q);
      assert size * (p - q) == j - i;
      if p - q >= 1 {
        MulAtLeast(size, p - q);
      }
      NotPositive(size, p - q);
    }
  }

  lemma NotPositive(m: int, k: int)
    requires m > 0
    ensures k <= 0 ==> m * k <= 0
  {
  }

  /** The masked 32-bit index is the slot of the running number. */
  lemma SlotIsHome(s: State, x: nat, n: nat)
    requires exists k: nat :: k <= 31 && Size(s) == Pow2(k)
    ensures Size(s) > 0 && Slot(s, Add32(x % WORD, n)) == Home(x + n, Size(s))
  {
    var k: nat :| k <= 31 && Size(s) == Pow2(k);
    WordIsPow2();
    Pow2Divides(k, 32);
    AddWraps(x, n);
    AndMask(Add32(x % WORD, n), k);
    ModWord(x + n, Size(s));
  }

  lemma SizeFits(s: State)
    requires exists k: nat :: k <= 31 && Size(s) == Pow2(k)
    ensures 0 < Size(s) < WORD
  {
    var k: nat :| k <= 31 && Size(s) == Pow2(k);
    WordIsPow2();
    Pow2Divides(k, 31);
    assert Pow2(32) == 2 * Pow2(31);
  }

  lemma ApplyReady(s: State, step: Step)
    requires Inv(s) && Enabled(s, step)
    ensures Size(s) > 0 && s.in_ < WORD && s.out < WORD
    ensures s.w.WCopy? ==> s.w.seen < WORD && s.w.len <= |s.w.buf|
  {
    SizeFits(s);
  }

  ghost function After(s: State, step: Step): State
    requires Inv(s) && Enabled(s, step)
  {
    ApplyReady(s, step);
    Apply(s, step)
  }

  lemma StartWrite(s: State, buf: seq<nat>)
    requires Inv(s) && s.w.WIdle?
    ensures Inv(After(s, Write(buf)))
  {
    SizeFits(s);
    SubWraps(|s.got|, |s.accepted|);
    SmallSub(Size(s), |s.accepted| - |s.got|);
    var s' := After(s, Write(buf));
    assert Size(s') == Size(s);
  }

  lemma SmallSub(a: nat, b: nat)
    requires b <= a < WORD
    ensures Sub32(a % WORD, b) == a - b
  {
  }

  /** The writer's next slot holds no element that is still to be read. */
  lemma WritesFreeSlot(s: State, i: nat)
    requires Inv(s) && Enabled(s, WriteOne) && |s.got| <= i < |s.accepted| + s.w.done
    ensures Size(s) > 0 && s.in_ < WORD && Slot(s, Add32(s.in_, s.w.done)) != Home(i, Size(s))
  {
    SizeFits(s);
    SlotIsHome(s, |s.accepted|, s.w.done);
    HomesDiffer(i, |s.accepted| + s.w.done, Size(s));
  }

  lemma WriteOneKeeps(s: State)
    requires Inv(s) && Enabled(s, WriteOne)
    ensures Inv(After(s, WriteOne))
  {
    hide Home, And, Add32;
    var s' := After(s, WriteOne);
    var t, size := |s.accepted|, Size(s);
    SizeFits(s);
    SlotIsHome(s, t, s.w.done);
    assert Size(s') == size;
    forall i | |s.got| <= i < t ensures s'.data[Home(i, size)] == s.accepted[i] {
      WritesFreeSlot(s, i);
    }
    forall j | 0 <= j < s'.w.done ensures s'.data[Home(t + j, size)] == s.w.buf[j] {
      if j < s.w.done {
        WritesFreeSlot(s, t + j);
      }
    }
  }

  lemma PublishKeeps(s: State)
    requires Inv(s) && Enabled(s, Publish)
    ensures Inv(After(s, Publish))
  {
    var s' := After(s, Publish);
    var h, t := |s.got|, |s.accepted|;
    AddWraps(t, s.w.len);
    assert s'.accepted[..h] == s.accepted[..h];
    assert Size(s') == Size(s);
    forall i | h <= i < t + s.w.len ensures s'.data[Home(i, Size(s))] == s'.accepted[i] {
      if i >= t {
        assert s.data[Home(t + (i - t), Size(s))] == s.w.buf[i - t];
      }
    }
    if s.r.RCopy? {
      assert s'.accepted[h..h + |s.r.copied|] == s.accepted[h..h + |s.r.copied|];
    }
  }

  lemma StartRead(s: State, want: nat)
    requires Inv(s) && s.r.RIdle?
    ensures Inv(After(s, Read(want)))
  {
    SizeFits(s);
    SubWraps(|s.got|, |s.accepted|);
    assert Size(After(s, Read(want))) == Size(s);
  }

  /** The reader's next element is the next one in order. */
  lemma ReadsNext(s: State)
    requires Inv(s) && Enabled(s, ReadOne)
    ensures Size(s) > 0 && s.out < WORD && |s.got| + |s.r.copied| < |s.accepted|
    ensures s.data[Slot(s, Add32(s.out, |s.r.copied|))] == s.accepted[|s.got| + |s.r.copied|]
  {
    SizeFits(s);
    SlotIsHome(s, |s.got|, |s.r.copied|);
  }

  lemma ReadOneKeeps(s: State)
    requires Inv(s) && Enabled(s, ReadOne)
    ensures Inv(After(s, ReadOne))
  {
    hide Home, And, Add32, Slot, Pow2;
    ReadsNext(s);
    var h, n := |s.got|, |s.r.copied|;
    assert Size(After(s, ReadOne)) == Size(s);
    assert s.accepted[h..h + n + 1] == s.accepted[h..h + n] + [s.accepted[h + n]];
  }

  lemma ReleaseKeeps(s: State)
    requires Inv(s) && Enabled(s, Release)
    ensures Inv(After(s, Release))
  {
    var s' := After(s, Release);
    var h := |s.got|;
    AddWraps(h, s.r.len);
    assert Size(s') == Size(s);
    assert s.accepted[..h + s.r.len] == s.accepted[..h] + s.accepted[h..h + s.r.len];
  }

  /** Every step of either side keeps the queue and both sides' claims right. */
  lemma StepKeeps(s: State, step: Step)
    requires Inv(s) && Enabled(s, step)
    ensures Inv(After(s, step))
  {
    match step
    case Write(buf) => StartWrite(s, buf);
    case WriteOne => WriteOneKeeps(s);
    case Publish => PublishKeeps(s);
    case Read(want) => StartRead(s, want);
    case ReadOne => ReadOneKeeps(s);
    case Release => ReleaseKeeps(s);
  }

  /** Any interleaving of a writer's and a reader's steps. */
  ghost predicate Run(states: seq<State>, steps: seq<Step>) {
    && |states| == |steps| + 1 && Inv(states[0])
    && forall k :: 0 <= k < |steps| ==> Happens(states, steps, k)
  }

  ghost predicate Happens(states: seq<State>, steps: seq<Step>, k: nat)
    requires |states| == |steps| + 1 && k < |steps|
  {
    Inv(states[k]) ==> Enabled(states[k], steps[k]) && states[k + 1] == After(states[k], steps[k])
  }

  /** In every interleaving, what the reader has got is a prefix of what the writer has had accepted. */
  lemma {:induction false} OutputIsPrefix(states: seq<State>, steps: seq<Step>, k: nat)
    requires Run(states, steps) && k < |states|
    ensures Inv(states[k]) && states[k].got <= states[k].accepted
    ensures |states[k].accepted| - |states[k].got| <= Size(states[k])
    decreases k
  {
    if k == 0 {
    } else {
      OutputIsPrefix(states, steps, k - 1);
      assert Happens(states, steps, k - 1);
      StepKeeps(states[k - 1], steps[k - 1]);
    }
  }

  /** How often a step has been taken from step `j` up to step `k`. */
  ghost function CountOf(steps: seq<Step>, step: Step, j: nat, k: nat): nat
    requires j <= k <= |steps|
  {
    if k == j then 0 else CountOf(steps, step, j, k - 1) + if steps[k - 1] == step then 1 else 0
  }

  /** What the invariant says about the lengths. */
  lemma Lengths(s: State)
    requires Inv(s)
    ensures |s.got| <= |s.accepted| <= |s.got| + Size(s) && s.got == s.accepted[..|s.got|]
    ensures s.w.WCopy? ==> s.headSeen <= |s.got| && |s.accepted| <= s.headSeen + Size(s) && s.w.len <= |s.w.buf|
    ensures s.w.WCopy? ==> s.w.len == Min(|s.w.buf|, Size(s) - (|s.accepted| - s.headSeen))
    ensures s.r.RCopy? ==> |s.got| <= s.tailSeen <= |s.accepted| && s.r.len == Min(s.r.want, s.tailSeen - |s.got|)
    ensures s.r.RCopy? ==>
      |s.got| + |s.r.copied| <= |s.accepted| && s.r.copied == s.accepted[|s.got|..|s.got| + |s.r.copied|]
  {
  }

  /** The reader's steps are nothing to the writer. */
  lemma WriterOnly(s: State, step: Step)
    requires Inv(s) && Enabled(s, step)
    ensures var s' := After(s, step);
      Size(s') == Size(s) &&
      match step
      case Write(buf) =>
        && s'.accepted == s.accepted && s'.w.WCopy? && s'.w.buf == buf && s'.w.done == 0
        && s'.headSeen == |s.got|
      case WriteOne => s'.accepted == s.accepted && s'.w == s.w.(done := s.w.done + 1) && s'.headSeen == s.headSeen
      case Publish => s'.accepted == s.accepted + s.w.buf[..s.w.len] && s'.w == WIdle
      case _ => s'.accepted == s.accepted && s'.w == s.w && s'.headSeen == s.headSeen
  {
    ApplyReady(s, step);
  }

  /** The writer's steps are nothing to the reader. */
  lemma ReaderOnly(s: State, step: Step)
    requires Inv(s) && Enabled(s, step)
    ensures var s' := After(s, step);
      match step
      case Read(want) =>
        && s'.got == s.got && s'.r.RCopy? && s'.r.want == want && s'.r.copied == []
        && s'.tailSeen == |s.accepted|
      case ReadOne =>
        && s'.got == s.got && s'.r.RCopy? && s'.r.want == s.r.want && |s'.r.copied| == |s.r.copied| + 1
        && s'.tailSeen == s.tailSeen
      case Release => s'.got == s.got + s.r.copied && s'.r == RIdle
      case _ => s'.got == s.got && s'.r == s.r && s'.tailSeen == s.tailSeen
  {
    ApplyReady(s, step);
  }

  /** A call of `__kfifo_in` from its step `j` on: how much it takes is settled there, and it writes one by one. */
  lemma {:induction false} WriteUnderWay(states: seq<State>, steps: seq<Step>, j: nat, k: nat)
    requires Run(states, steps) && j < k < |states| && steps[j].Write?
    requires forall m :: j < m < k ==> steps[m] != Publish
    ensures states[k].accepted == states[j].accepted && Size(states[k]) == Size(states[j])
    ensures |states[j].accepted| - |states[j].got| <= Size(states[j])
    ensures states[k].w.WCopy? && states[k].w.buf == steps[j].buf
    ensures states[k].w.len == Min(|steps[j].buf|, Size(states[j]) - (|states[j].accepted| - |states[j].got|))
    ensures states[k].w.done == CountOf(steps, WriteOne, j + 1, k) && states[k].headSeen == |states[j].got|
    decreases k
  {
    hide Apply, Inv, After;
    OutputIsPrefix(states, steps, k - 1);
    OutputIsPrefix(states, steps, k);
    Lengths(states[k - 1]);
    Lengths(states[k]);
    assert Happens(states, steps, k - 1);
    WriterOnly(states[k - 1], steps[k - 1]);
    if k > j + 1 {
      WriteUnderWay(states, steps, j, k - 1);
    }
  }

  /**
   * In every interleaving, a call of `__kfifo_in` that ends appends exactly as many elements of its buffer as there
   * was room for when it began, after as many copying steps.
   */
  lemma PublishAppends(states: seq<State>, steps: seq<Step>, j: nat, k: nat)
    requires Run(states, steps) && j < k < |steps| && steps[j].Write? && steps[k] == Publish
    requires forall m :: j < m < k ==> steps[m] != Publish
    ensures |states[j].got| <= |states[j].accepted| <= |states[j].got| + Size(states[j])
    ensures var n := Min(|steps[j].buf|, Size(states[j]) - (|states[j].accepted| - |states[j].got|));
      states[k + 1].accepted == states[j].accepted + steps[j].buf[..n] && CountOf(steps, WriteOne, j + 1, k) == n
  {
    hide Apply, Inv, After;
    OutputIsPrefix(states, steps, j);
    OutputIsPrefix(states, steps, k);
    Lengths(states[j]);
    Lengths(states[k]);
    assert Happens(states, steps, k);
    WriteUnderWay(states, steps, j, k);
    WriterOnly(states[k], steps[k]);
  }

  /** A call of `__kfifo_out` from its step `j` on. */
  lemma {:induction false} ReadUnderWay(states: seq<State>, steps: seq<Step>, j: nat, k: nat)
    requires Run(states, steps) && j < k < |states| && steps[j].Read?
    requires forall m :: j < m < k ==> steps[m] != Release
    ensures states[k].got == states[j].got && |states[j].got| <= |states[j].accepted|
    ensures states[k].r.RCopy? && states[k].r.want == steps[j].want
    ensures states[k].r.len == Min(steps[j].want, |states[j].accepted| - |states[j].got|)
    ensures |states[k].r.copied| == CountOf(steps, ReadOne, j + 1, k) && states[k].tailSeen == |states[j].accepted|
    ensures states[j].accepted <= states[k].accepted
    decreases k
  {
    hide Apply, Inv, After;
    OutputIsPrefix(states, steps, k - 1);
    OutputIsPrefix(states, steps, k);
    Lengths(states[k - 1]);
    Lengths(states[k]);
    assert Happens(states, steps, k - 1);
    ReaderOnly(states[k - 1], steps[k - 1]);
    WriterOnly(states[k - 1], steps[k - 1]);
    if k > j + 1 {
      ReadUnderWay(states, steps, j, k - 1);
    }
  }

  /**
   * In every interleaving, a call of `__kfifo_out` that ends hands out exactly the oldest elements that were in the
   * queue when it began, as many as asked for or all there were, after as many copying steps.
   */
  lemma ReleaseHandsOut(states: seq<State>, steps: seq<Step>, j: nat, k: nat)
    requires Run(states, steps) && j < k < |steps| && steps[j].Read? && steps[k] == Release
    requires forall m :: j < m < k ==> steps[m] != Release
    ensures |states[j].got| <= |states[j].accepted|
    ensures var h := |states[j].got|;
      var n := Min(steps[j].want, |states[j].accepted| - h);
      states[k + 1].got == states[j].got + states[j].accepted[h..h + n] && CountOf(steps, ReadOne, j + 1, k) == n
  {
    hide Apply, Inv, After;
    OutputIsPrefix(states, steps, j);
    OutputIsPrefix(states, steps, k);
    Lengths(states[j]);
    Lengths(states[k]);
    assert Happens(states, steps, k);
    ReadUnderWay(states, steps, j, k);
    ReaderOnly(states[k], steps[k]);
    var h, n := |states[j].got|, states[k].r.len;
    assert states[k].accepted[h..h + n] == states[j].accepted[h..h + n];
  }
}
