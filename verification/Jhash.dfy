/** jhash.h: one hash with two loop forms, over bytes and over 32-bit words. */
module Jhash {
  import opened Basics

  type u32 = x: int | 0 <= x < WORD

  function Add(a: u32, b: u32): u32 {
    (a + b) % WORD
  }

  function Sub(a: u32, b: u32): u32 {
    (a - b) % WORD
  }

  /** Bitwise exclusive or. */
  function Xor(x: nat, y: nat): nat {
    if x == 0 && y == 0 then 0 else 2 * Xor(x / 2, y / 2) + (x % 2 + y % 2) % 2
  }

  lemma {:induction false} XorBound(x: nat, y: nat, k: nat)
    requires x < Pow2(k) && y < Pow2(k)
    ensures Xor(x, y) < Pow2(k)
    decreases k
  {
    if x == 0 && y == 0 {
    } else {
      XorBound(x / 2, y / 2, k - 1);
    }
  }

  /** Exclusive or undoes itself. */
  lemma {:induction false} XorTwice(x: nat, y: nat)
    ensures Xor(Xor(x, y), y) == x
    decreases x + y
  {
    if x == 0 && y == 0 {
      assert Xor(0, 0) == 0;
    } else {
      XorStep(x, y);
    }
  }

  lemma XorStep(x: nat, y: nat)
    requires x != 0 || y != 0
    ensures Xor(Xor(x, y), y) == x
    decreases x + y, 0
  {
    hide Xor;
    XorTwice(x / 2, y / 2);
    XorHalves(x, y);
    XorHalves(Xor(x, y), y);
    Halves(Xor(Xor(x, y), y), x);
  }

  lemma Halves(a: nat, b: nat)
    requires a / 2 == b / 2 && a % 2 == b % 2
    ensures a == b
  {
  }

  lemma XorHalves(x: nat, y: nat)
    ensures Xor(x, y) / 2 == Xor(x / 2, y / 2) && Xor(x, y) % 2 == (x % 2 + y % 2) % 2
  {
  }

  function Xor32(a: u32, b: u32): (r: u32)
    ensures Xor(r, b) == a
  {
    WordIsPow2();
    XorBound(a, b, 32);
    XorTwice(a, b);
    Xor(a, b)
  }

  /** `rol32`: the bits shifted out at the top come back at the bottom. */
  function Rol(w: u32, s: nat): u32
    requires 0 < s < 32
  {
    (w * Pow2(s) + w / Pow2(32 - s)) % WORD
  }

  /** Bit `i` of a number. */
  function Bit(w: nat, i: nat): nat {
    if i == 0 then w % 2 else Bit(w / 2, i - 1)
  }

  /** Exclusive or is the sum of the bits, without carries. */
  lemma {:induction false} XorBits(x: nat, y: nat, i: nat)
    ensures Bit(Xor(x, y), i) == (Bit(x, i) + Bit(y, i)) % 2
  {
    hide Xor;
    XorHalves(x, y);
    if i > 0 {
      XorBits(x / 2, y / 2, i - 1);
    }
  }

  /** A word cut at a bit, put together the other way round. */
  lemma RolParts(w: u32, s: nat)
    requires 0 < s < 32
    ensures Pow2(s) * Pow2(32 - s) == WORD
    ensures var hi, lo := w / Pow2(32 - s), w % Pow2(32 - s);
      hi < Pow2(s) && w == hi * Pow2(32 - s) + lo && Rol(w, s) == lo * Pow2(s) + hi
  {
    hide Pow2;
    WordIsPow2();
    Pow2Sum(s, 32 - s);
    var p, q := Pow2(s), Pow2(32 - s);
    CutWord(w, p, q);
  }

  lemma CutWord(w: nat, p: nat, q: nat)
    requires p > 0 && q > 0 && w < p * q
    ensures var hi, lo := w / q, w % q;
      hi < p && w == hi * q + lo && (w * p + hi) % (p * q) == lo * p + hi
  {
    var hi, lo := w / q, w % q;
    Division(w, q);
    if hi >= p {
      TimesLeast(p, hi, q);
    }
    TimesLeast(lo + 1, q, p);
    Rearranged(hi, q, lo, p);
    RemainderIs(w * p + hi, p * q, hi, lo * p + hi);
  }

  lemma Division(w: nat, q: nat)
    requires q > 0
    ensures w == (w / q) * q + w % q && w % q < q
  {
  }

  lemma Rearranged(hi: nat, q: nat, lo: nat, p: nat)
    ensures (hi * q + lo) * p + hi == (p * q) * hi + (lo * p + hi)
    ensures (lo + 1) * p == lo * p + p && q * p == p * q
  {
    assert (hi * q) * p == (p * q) * hi;
  }

  lemma TimesLeast(a: nat, b: nat, m: nat)
    requires a <= b
    ensures a * m <= b * m
  {
  }

  lemma RemainderIs(x: nat, m: nat, k: nat, r: nat)
    requires x == m * k + r && r < m
    ensures x % m == r && x / m == k
  {
    var q := x / m;
    assert x == m * q + x % m;
    OneMore(q, m);
    OneMore(k, m);
    if q < k {
      TimesLeast(q + 1, k, m);
    } else if q > k {
      TimesLeast(k + 1, q, m);
    }
  }

  lemma OneMore(x: nat, m: nat)
    ensures (x + 1) * m == m * x + m && x * m == m * x
  {
  }

  lemma {:induction false} Pow2Sum(a: nat, b: nat)
    ensures Pow2(a + b) == Pow2(a) * Pow2(b)
  {
    if a == 0 {
    } else {
      Pow2Sum(a - 1, b);
      Doubled(Pow2(a - 1), Pow2(b));
    }
  }

  lemma Doubled(x: nat, y: nat)
    ensures 2 * (x * y) == (2 * x) * y
  {
  }

  /** The bits of a number put together from two. */
  lemma {:induction false} BitsOfSum(x: nat, y: nat, k: nat, i: nat)
    requires y < Pow2(k)
    ensures Bit(x * Pow2(k) + y, i) == if i < k then Bit(y, i) else Bit(x, i - k)
    decreases k
  {
    if k == 0 {
      assert x * Pow2(0) + y == x;
    } else {
      var p := Pow2(k - 1);
      assert x * Pow2(k) == 2 * (x * p);
      assert (x * Pow2(k) + y) / 2 == x * p + y / 2 && (x * Pow2(k) + y) % 2 == y % 2;
      if i > 0 {
        BitsOfSum(x, y / 2, k - 1, i - 1);
      }
    }
  }

  /** `rol32` carries bit `i` to bit `i + s`, around the end of the word. */
  lemma RolMovesBits(w: u32, s: nat, i: nat)
    requires 0 < s < 32 && i < 32
    ensures Bit(Rol(w, s), (i + s) % 32) == Bit(w, i)
  {
    hide Rol, Bit, Pow2;
    RolParts(w, s);
    var hi, lo := w / Pow2(32 - s), w % Pow2(32 - s);
    BitsOfSum(hi, lo, 32 - s, i);
    BitsOfSum(lo, hi, s, (i + s) % 32);
  }

  /** Rolling on by the rest of the word undoes it. */
  lemma RolBack(w: u32, s: nat)
    requires 0 < s < 32
    ensures Rol(Rol(w, s), 32 - s) == w
  {
    hide Rol, Pow2;
    var r := Rol(w, s);
    RolParts(w, s);
    RolParts(r, 32 - s);
    CutBack(w, r, Rol(r, 32 - s), Pow2(s), Pow2(32 - s));
  }

  lemma CutBack(w: nat, r: nat, back: nat, p: nat, q: nat)
    requires p > 0 && q > 0 && w / q < p && w == (w / q) * q + w % q
    requires r == (w % q) * p + w / q && back == (r % p) * q + r / p
    ensures back == w
  {
    var hi, lo := w / q, w % q;
    assert lo * p == p * lo;
    RemainderIs(r, p, lo, hi);
  }

  datatype Abc = Abc(a: u32, b: u32, c: u32)

  /** The three statements of one line of `__jhash_mix`, its registers named as in the first line. */
  function MixLine(s: Abc, rot: nat): Abc
    requires 0 < rot < 32
  {
    Abc(Xor32(Sub(s.a, s.c), Rol(s.c, rot)), s.b, Add(s.c, s.b))
  }

  function UnmixLine(s: Abc, rot: nat): Abc
    requires 0 < rot < 32
  {
    var c := Sub(s.c, s.b);
    Abc(Add(Xor32(s.a, Rol(c, rot)), c), s.b, c)
  }

  lemma AddSub(a: u32, b: u32)
    ensures Sub(Add(a, b), b) == a && Add(Sub(a, b), b) == a
  {
  }

  lemma XorUndone(a: u32, b: u32)
    ensures Xor32(Xor32(a, b), b) == a
  {
  }

  lemma LineUndone(s: Abc, rot: nat)
    requires 0 < rot < 32
    ensures UnmixLine(MixLine(s, rot), rot) == s
  {
    hide Add, Sub, Rol, Xor32;
    AddSub(s.c, s.b);
    AddSub(s.a, s.c);
    XorUndone(Sub(s.a, s.c), Rol(s.c, rot));
  }

  lemma LineRedone(s: Abc, rot: nat)
    requires 0 < rot < 32
    ensures MixLine(UnmixLine(s, rot), rot) == s
  {
    hide Add, Sub, Rol, Xor32;
    var c := Sub(s.c, s.b);
    AddSub(s.c, s.b);
    AddSub(Xor32(s.a, Rol(c, rot)), c);
    XorUndone(s.a, Rol(c, rot));
  }

  /** Each line plays the first line's game with the registers moved on by one. */
  function Turn(s: Abc): Abc {
    Abc(s.b, s.c, s.a)
  }

  function TurnBack(s: Abc): Abc {
    Abc(s.c, s.a, s.b)
  }

  /** The rotation amounts of the six lines. */
  function Rotation(k: nat): (r: nat)
    requires k < 6
    ensures 0 < r < 32
  {
    match k
    case 0 => 4
    case 1 => 6
    case 2 => 8
    case 3 => 16
    case 4 => 19
    case _ => 4
  }

  function Lines(s: Abc, k: nat): Abc
    requires k <= 6
  {
    if k == 0 then s else Turn(MixLine(Lines(s, k - 1), Rotation(k - 1)))
  }

  function Unlines(s: Abc, k: nat): Abc
    requires k <= 6
    decreases k
  {
    if k == 0 then s else Unlines(UnmixLine(TurnBack(s), Rotation(k - 1)), k - 1)
  }

  /** `__jhash_mix`, which its comment calls reversible. */
  method Mix(a0: u32, b0: u32, c0: u32) returns (a: u32, b: u32, c: u32)
    ensures Abc(a, b, c) == Lines(Abc(a0, b0, c0), 6)
  {
    hide Add, Sub, Xor32, Rol;
    a, b, c := a0, b0, c0;
    a := Sub(a, c);
    a := Xor32(a, Rol(c, 4));
    c := Add(c, b);
    b := Sub(b, a);
    b := Xor32(b, Rol(a, 6));
    a := Add(a, c);
    c := Sub(c, b);
    c := Xor32(c, Rol(b, 8));
    b := Add(b, a);
    LinesStep(Abc(a0, b0, c0));
    a := Sub(a, c);
    a := Xor32(a, Rol(c, 16));
    c := Add(c, b);
    b := Sub(b, a);
    b := Xor32(b, Rol(a, 19));
    a := Add(a, c);
    c := Sub(c, b);
    c := Xor32(c, Rol(b, 4));
    b := Add(b, a);
  }

  lemma LinesStep(s: Abc)
    ensures var l1 := Turn(MixLine(s, 4)); var l2 := Turn(MixLine(l1, 6)); var l3 := Turn(MixLine(l2, 8));
      var l4 := Turn(MixLine(l3, 16)); var l5 := Turn(MixLine(l4, 19));
      Lines(s, 6) == Turn(MixLine(l5, 4))
  {
    assert Lines(s, 1) == Turn(MixLine(s, 4));
    assert Lines(s, 2) == Turn(MixLine(Lines(s, 1), 6));
    assert Lines(s, 3) == Turn(MixLine(Lines(s, 2), 8));
    assert Lines(s, 4) == Turn(MixLine(Lines(s, 3), 16));
    assert Lines(s, 5) == Turn(MixLine(Lines(s, 4), 19));
  }

  lemma {:induction false} UnlinesLines(s: Abc, k: nat)
    requires k <= 6
    ensures Unlines(Lines(s, k), k) == s
  {
    hide MixLine, UnmixLine, Rotation;
    if k == 0 {
    } else {
      LineUndone(Lines(s, k - 1), Rotation(k - 1));
      UnlinesLines(s, k - 1);
    }
  }

  lemma {:induction false} LinesUnlines(s: Abc, k: nat)
    requires k <= 6
    ensures Lines(Unlines(s, k), k) == s
    decreases k
  {
    hide MixLine, UnmixLine, Rotation;
    if k == 0 {
    } else {
      var t := UnmixLine(TurnBack(s), Rotation(k - 1));
      LineRedone(TurnBack(s), Rotation(k - 1));
      LinesUnlines(t, k - 1);
    }
  }

  /** Every block of the hash can be undone: no two states mix to the same one, and every state is reached. */
  lemma MixReversible(s: Abc, t: Abc)
    ensures Lines(s, 6) == Lines(t, 6) ==> s == t
    ensures Lines(Unlines(t, 6), 6) == t
  {
    UnlinesLines(s, 6);
    UnlinesLines(t, 6);
    LinesUnlines(t, 6);
  }

  /** One line of `__jhash_final`: one register mixed with another and its rotation taken off. */
  function FinalLine(x: u32, y: u32, rot: nat): u32
    requires 0 < rot < 32
  {
    Sub(Xor32(x, y), Rol(y, rot))
  }

  /** `__jhash_final` on all three registers. */
  function Finish(s: Abc): Abc {
    var c1 := FinalLine(s.c, s.b, 14);
    var a1 := FinalLine(s.a, c1, 11);
    var b1 := FinalLine(s.b, a1, 25);
    var c2 := FinalLine(c1, b1, 16);
    var a2 := FinalLine(a1, c2, 4);
    var b2 := FinalLine(b1, a2, 14);
    Abc(a2, b2, FinalLine(c2, b2, 24))
  }

  /** The hash is what the final mix leaves in its third register. */
  function Final(s: Abc): u32 {
    Finish(s).c
  }

  /** `__jhash_final` */
  method FinalMix(a0: u32, b0: u32, c0: u32) returns (c: u32)
    ensures c == Final(Abc(a0, b0, c0))
  {
    hide Sub, Xor32, Rol;
    var a, b;
    a, b, c := a0, b0, c0;
    c := Xor32(c, b);
    c := Sub(c, Rol(b, 14));
    a := Xor32(a, c);
    a := Sub(a, Rol(c, 11));
    b := Xor32(b, a);
    b := Sub(b, Rol(a, 25));
    c := Xor32(c, b);
    c := Sub(c, Rol(b, 16));
    a := Xor32(a, c);
    a := Sub(a, Rol(c, 4));
    b := Xor32(b, a);
    b := Sub(b, Rol(a, 14));
    c := Xor32(c, b);
    c := Sub(c, Rol(b, 24));
  }

  /** One line taken back. */
  function Unline(x: u32, y: u32, rot: nat): u32
    requires 0 < rot < 32
  {
    Xor32(Add(x, Rol(y, rot)), y)
  }

  lemma UnlineUndoes(x: u32, y: u32, rot: nat)
    requires 0 < rot < 32
    ensures Unline(FinalLine(x, y, rot), y, rot) == x && FinalLine(Unline(x, y, rot), y, rot) == x
  {
    hide Add, Sub, Rol, Xor32;
    AddSub(Xor32(x, y), Rol(y, rot));
    XorUndone(x, y);
    AddSub(x, Rol(y, rot));
    XorUndone(Add(x, Rol(y, rot)), y);
  }

  /** The final mix loses nothing: its seven lines, taken back from the last to the first, give the state again. */
  lemma FinishUndone(s: Abc)
    ensures var f := Finish(s);
      var c2 := Unline(f.c, f.b, 24);
      var b1 := Unline(f.b, f.a, 14);
      var a1 := Unline(f.a, c2, 4);
      var c1 := Unline(c2, b1, 16);
      var b := Unline(b1, a1, 25);
      var a := Unline(a1, c1, 11);
      s == Abc(a, b, Unline(c1, b, 14))
  {
    hide Unline, FinalLine;
    var c1 := FinalLine(s.c, s.b, 14);
    var a1 := FinalLine(s.a, c1, 11);
    var b1 := FinalLine(s.b, a1, 25);
    var c2 := FinalLine(c1, b1, 16);
    var a2 := FinalLine(a1, c2, 4);
    var b2 := FinalLine(b1, a2, 14);
    UnlineUndoes(s.c, s.b, 14);
    UnlineUndoes(s.a, c1, 11);
    UnlineUndoes(s.b, a1, 25);
    UnlineUndoes(c1, b1, 16);
    UnlineUndoes(a1, c2, 4);
    UnlineUndoes(b1, a2, 14);
    UnlineUndoes(c2, b2, 24);
  }

  /** Every final state is reached, so every hash is. */
  lemma FinishReaches(f: Abc)
    ensures exists s :: Finish(s) == f
  {
    hide Unline, FinalLine;
    var c2 := Unline(f.c, f.b, 24);
    var b1 := Unline(f.b, f.a, 14);
    var a1 := Unline(f.a, c2, 4);
    var c1 := Unline(c2, b1, 16);
    var b := Unline(b1, a1, 25);
    var a := Unline(a1, c1, 11);
    UnlineUndoes(f.c, f.b, 24);
    UnlineUndoes(f.b, f.a, 14);
    UnlineUndoes(f.a, c2, 4);
    UnlineUndoes(c2, b1, 16);
    UnlineUndoes(b1, a1, 25);
    UnlineUndoes(a1, c1, 11);
    UnlineUndoes(c1, b, 14);
    assert Finish(Abc(a, b, Unline(c1, b, 14))) == f;
  }

  // ---- keys ----

  /** A byte in its place within the word. */
  function Shifted(b: byte, place: nat): (r: u32)
    requires place < 4
    ensures r <= if place == 0 then 0xff else if place == 1 then 0xff00
              else if place == 2 then 0xff_0000 else 0xff00_0000
  {
    var x: int := b;
    if place == 0 then x else if place == 1 then 256 * x else if place == 2 then 0x1_0000 * x else 0x100_0000 * x
  }

  /** A little-endian word of four bytes: what `__get_unaligned_cpu32` reads. */
  function Word(k: seq<byte>): u32
    requires |k| >= 4
  {
    Shifted(k[0], 0) + Shifted(k[1], 1) + Shifted(k[2], 2) + Shifted(k[3], 3)
  }

  /** The first word of a key that may end early: the missing bytes count as zero. */
  function FirstWord(k: seq<byte>): u32
    requires |k| > 0
  {
    if |k| >= 4 then Word(k)
    else if |k| == 3 then Word(k + [0])
    else if |k| == 2 then Word(k + [0, 0])
    else Word(k + [0, 0, 0])
  }

  function Words(k: seq<byte>): (w: seq<u32>)
    ensures |w| == (|k| + 3) / 4
    decreases |k|
  {
    if k == [] then [] else if |k| <= 4 then [FirstWord(k)] else [FirstWord(k)] + Words(k[4..])
  }

  function Bytes(w: u32): (k: seq<byte>)
    ensures |k| == 4
  {
    [w % 256, w / 256 % 256, w / 0x1_0000 % 256, w / 0x100_0000]
  }

  /** The little-endian serialisation of an array of words. */
  function Serial(w: seq<u32>): (k: seq<byte>)
    ensures |k| == 4 * |w|
  {
    if w == [] then [] else Bytes(w[0]) + Serial(w[1..])
  }

  lemma BytesWord(w: u32)
    ensures Word(Bytes(w)) == w
  {
    var x, y, z := w / 256, w / 0x1_0000, w / 0x100_0000;
    assert x / 256 == y && y / 256 == z;
    assert w == 256 * x + w % 256 && x == 256 * y + x % 256 && y == 256 * z + y % 256;
    assert Bytes(w) == [w % 256, x % 256, y % 256, z];
    assert Shifted(x % 256, 1) == 256 * (x % 256);
    assert Shifted(y % 256, 2) == 0x1_0000 * (y % 256);
  }

  lemma {:induction false} SerialWords(w: seq<u32>)
    ensures Words(Serial(w)) == w
  {
    if w == [] {
    } else {
      SerialWords(w[1..]);
      var k := Serial(w);
      assert k[4..] == Serial(w[1..]);
      WordPrefix(Bytes(w[0]), Serial(w[1..]));
      BytesWord(w[0]);
      assert w == [w[0]] + w[1..];
    }
  }

  lemma WordPrefix(a: seq<byte>, b: seq<byte>)
    requires |a| == 4
    ensures Word(a + b) == Word(a)
  {
  }

  // ---- the hash ----

  /** The hash of a sequence of words from a starting state: three words a round, the last one to three into the end. */
  function HashWords(w: seq<u32>, s: Abc): u32
    decreases |w|
  {
    if |w| > 3 then HashWords(w[3..], Lines(Abc(Add(s.a, w[0]), Add(s.b, w[1]), Add(s.c, w[2])), 6))
    else if |w| == 3 then Final(Abc(Add(s.a, w[0]), Add(s.b, w[1]), Add(s.c, w[2])))
    else if |w| == 2 then Final(Abc(Add(s.a, w[0]), Add(s.b, w[1]), s.c))
    else if |w| == 1 then Final(Abc(Add(s.a, w[0]), s.b, s.c))
    else s.c
  }

  const INITVAL: u32 := 0xdeadbeef

  function Start(length: u32, initval: u32): Abc {
    var x := Add(Add(INITVAL, length), initval);
    Abc(x, x, x)
  }

  /** The initial value and the length go into the start in the same way. */
  lemma StartsAlike(length: u32, initval: u32)
    ensures Start(length, initval) == Start(0, (length + initval) % WORD)
  {
  }

  /** The hash of the empty key is the start itself. */
  lemma EmptyKey(initval: u32)
    ensures HashWords([], Start(0, initval)) == (0xdeadbeef + initval) % WORD
  {
  }

  /** The next three words of a key added to the registers, zeros where the key has ended. */
  function AddThree(s: Abc, w: seq<u32>, at: nat): Abc {
    Abc(Add(s.a, WordAt(w, at)), Add(s.b, WordAt(w, at + 1)), Add(s.c, WordAt(w, at + 2)))
  }

  function WordAt(w: seq<u32>, at: nat): u32 {
    if at < |w| then w[at] else 0
  }

  /** The hash told without cases for the end: blocks of three words, the mix between them, the final mix last. */
  function HashPadded(w: seq<u32>, s: Abc, at: nat): u32
    decreases |w| - at
  {
    var t := AddThree(s, w, at);
    if at + 3 < |w| then HashPadded(w, Lines(t, 6), at + 3) else Final(t)
  }

  /** The cases for a key that ends early are there to fill up its last block with zeros. */
  lemma {:induction false} EndIsPadding(w: seq<u32>, s: Abc, at: nat)
    requires at < |w|
    ensures HashWords(w[at..], s) == HashPadded(w, s, at)
    decreases |w| - at
  {
    hide Lines, Final, Add;
    AddNothing(s.b);
    AddNothing(s.c);
    if at + 3 < |w| {
      assert w[at..][3..] == w[at + 3..];
      EndIsPadding(w, Lines(AddThree(s, w, at), 6), at + 3);
    }
  }

  /** `jhash2` */
  method Jhash2(k0: seq<u32>, initval: u32) returns (c: u32)
    requires |k0| < WORD
    ensures c == HashWords(k0, Start(4 * |k0| % WORD, initval))
  {
    hide Lines, Final, Add;
    var length, k := |k0|, k0;
    var a, b;
    a := Add(Add(INITVAL, 4 * length % WORD), initval);
    b, c := a, a;
    while length > 3
      invariant length == |k|
      invariant HashWords(k, Abc(a, b, c)) == HashWords(k0, Start(4 * |k0| % WORD, initval))
    {
      a := Add(a, k[0]);
      b := Add(b, k[1]);
      c := Add(c, k[2]);
      a, b, c := Mix(a, b, c);
      length := length - 3;
      k := k[3..];
    }
    if length >= 3 {
      c := Add(c, k[2]);
    }
    if length >= 2 {
      b := Add(b, k[1]);
    }
    if length >= 1 {
      a := Add(a, k[0]);
      c := FinalMix(a, b, c);
    }
  }

  /** `jhash`: the hash of the key's words, the last one filled up with zero bytes. */
  method JhashBytes(key: seq<byte>, initval: u32) returns (c: u32)
    requires |key| < WORD
    ensures c == HashWords(Words(key), Start(|key|, initval))
  {
    hide Lines, Final, Add, Words, Word, FirstWord;
    var length, k := |key|, key;
    var a, b;
    a := Add(Add(INITVAL, length), initval);
    b, c := a, a;
    while length > 12
      invariant length == |k|
      invariant HashWords(Words(k), Abc(a, b, c)) == HashWords(Words(key), Start(|key|, initval))
    {
      ThreeWords(k);
      a := Add(a, Word(k));
      b := Add(b, Word(k[4..]));
      c := Add(c, Word(k[8..]));
      a, b, c := Mix(a, b, c);
      length := length - 12;
      k := k[12..];
    }
    LastWords(k);
    ghost var s := Abc(a, b, c);
    c := AddTail(c, k, 8);
    b := AddTail(b, k, 4);
    a := AddTail(a, k, 0);
    if length > 0 {
      c := FinalMix(a, b, c);
    }
  }

  /** The four cases that feed one register, each falling through to the next. */
  method AddTail(x0: u32, k: seq<byte>, at: nat) returns (x: u32)
    ensures x == if |k| > at then Add(x0, FirstWord(k[at..])) else x0
  {
    hide Add, FirstWord, Shifted;
    x := x0;
    ghost var p3, p2, p1, p0 := Part(k, at, 3), Part(k, at, 2), Part(k, at, 1), Part(k, at, 0);
    AddNothing(x0);
    AddAdd(x0, p3, p2);
    AddAdd(x0, p3 + p2, p1);
    AddAdd(x0, p3 + p2 + p1, p0);
    if |k| > at + 3 {
      x := Add(x, Shifted(k[at + 3], 3));
    }
    if |k| > at + 2 {
      x := Add(x, Shifted(k[at + 2], 2));
    }
    if |k| > at + 1 {
      x := Add(x, Shifted(k[at + 1], 1));
    }
    if |k| > at {
      x := Add(x, Shifted(k[at], 0));
      FirstWordParts(k, at);
    }
  }

  /** What byte `at + place` of the key adds to its word. */
  function Part(k: seq<byte>, at: nat, place: nat): (r: u32)
    requires place < 4
    ensures r <= if place == 0 then 0xff else if place == 1 then 0xff00
              else if place == 2 then 0xff_0000 else 0xff00_0000
  {
    if |k| > at + place then Shifted(k[at + place], place) else 0
  }

  lemma FirstWordParts(k: seq<byte>, at: nat)
    requires |k| > at
    ensures FirstWord(k[at..]) == Part(k, at, 3) + Part(k, at, 2) + Part(k, at, 1) + Part(k, at, 0)
  {
    hide Shifted;
    NoByte();
  }

  lemma NoByte()
    ensures Shifted(0, 1) == 0 && Shifted(0, 2) == 0 && Shifted(0, 3) == 0
  {
  }

  lemma AddAdd(x: u32, p: u32, q: u32)
    requires p + q < WORD
    ensures Add(Add(x, p), q) == Add(x, p + q)
  {
  }

  lemma AddNothing(x: u32)
    ensures forall y: u32 :: y == 0 ==> Add(x, y) == x
  {
  }

  lemma ThreeWords(k: seq<byte>)
    requires |k| > 12
    ensures |Words(k)| > 3 && Words(k)[0] == Word(k) && Words(k)[1] == Word(k[4..]) && Words(k)[2] == Word(k[8..])
    ensures Words(k)[3..] == Words(k[12..])
  {
    hide Word, Words;
    WordsStep(k);
    WordsStep(k[4..]);
    WordsStep(k[8..]);
    assert k[4..][4..] == k[8..] && k[8..][4..] == k[12..];
  }

  lemma WordsStep(k: seq<byte>)
    requires |k| > 4
    ensures Words(k) == [Word(k)] + Words(k[4..])
  {
  }

  lemma LastWords(k: seq<byte>)
    requires |k| <= 12
    ensures Words(k) ==
      if |k| == 0 then [] else if |k| <= 4 then [FirstWord(k[0..])]
      else if |k| <= 8 then [FirstWord(k[0..]), FirstWord(k[4..])]
      else [FirstWord(k[0..]), FirstWord(k[4..]), FirstWord(k[8..])]
  {
    hide FirstWord;
    assert k[0..] == k;
    if |k| > 8 {
      assert k[4..][4..] == k[8..];
    }
  }

  /** The two forms agree: the words' hash is the hash of their little-endian bytes. */
  lemma FormsAgree(w: seq<u32>, initval: u32)
    requires 4 * |w| < WORD
    ensures HashWords(w, Start(4 * |w| % WORD, initval)) == HashWords(Words(Serial(w)), Start(|Serial(w)|, initval))
  {
    hide HashWords, Words, Serial, Start;
    SerialWords(w);
    assert 4 * |w| % WORD == |Serial(w)|;
  }

  /** Both loops, run on the same key in its two forms. */
  method BothForms(w: seq<u32>, initval: u32) returns (x: u32, y: u32)
    requires 4 * |w| < WORD
    ensures x == y
  {
    x := Jhash2(w, initval);
    y := JhashBytes(Serial(w), initval);
    FormsAgree(w, initval);
  }
}
