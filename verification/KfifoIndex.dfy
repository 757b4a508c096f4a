/** The arithmetic of kfifo's free-running 32-bit indices, and the ring they run around. */
module KfifoIndex {
  import opened Basics

  // ---- 32-bit arithmetic ----

  function Add32(a: nat, b: nat): (r: nat)
    ensures r < WORD
  {
    (a + b) % WORD
  }

  function Sub32(a: nat, b: nat): (r: nat)
    requires a < WORD && b < WORD
    ensures r < WORD
  {
    (a - b + WORD) % WORD
  }

  /** The bitwise `&` of two unsigned numbers. */
  function And(x: nat, y: nat): (r: nat)
    ensures r <= x && r <= y
  {
    if x == 0 || y == 0 then 0 else 2 * And(x / 2, y / 2) + (x % 2) * (y % 2)
  }

  /** Masking with a power of two less one is taking the remainder. */
  lemma {:induction false} AndMask(x: nat, k: nat)
    ensures And(x, Pow2(k) - 1) == x % Pow2(k)
    decreases k
  {
    hide And;
    AndNone(x, Pow2(k) - 1);
    if x == 0 || k == 0 {
    } else {
      AndMask(x / 2, k - 1);
      AndHalves(x, Pow2(k - 1));
      HalfMod(x, Pow2(k - 1));
    }
  }

  lemma AndNone(x: nat, y: nat)
    ensures And(0, y) == 0 && And(x, 0) == 0
  {
  }

  /** The mask without its lowest bit, and that bit. */
  lemma AndHalves(x: nat, p: nat)
    requires x > 0 && p > 0
    ensures And(x, 2 * p - 1) == 2 * And(x / 2, p - 1) + x % 2
  {
    assert (2 * p - 1) / 2 == p - 1 && (2 * p - 1) % 2 == 1;
  }

  lemma HalfMod(x: nat, p: nat)
    requires p > 0
    ensures x % (2 * p) == 2 * ((x / 2) % p) + x % 2
  {
    var q, r := (x / 2) / p, (x / 2) % p;
    assert x == 2 * (q * p + r) + x % 2;
    assert x == (2 * p) * q + (2 * r + x % 2);
    ModIs(x, 2 * p, q, 2 * r + x % 2);
  }

  lemma ModIs(x: int, m: int, q: int, r: int)
    requires m > 0 && 0 <= r < m && x == m * q + r
    ensures x % m == r && x / m == q
  {
    var e := x / m;
    assert x == m * e + x % m;
    Distribute(m, e - q, q);
    if e > q {
      MulAtLeast(m, e - q);
    } else if e < q {
      Distribute(m, q - e, e);
      MulAtLeast(m, q - e);
    }
  }

  lemma MulAtLeast(m: int, k: int)
    requires m > 0 && k >= 1
    ensures m * k >= m
  {
  }

  lemma {:induction false} Pow2Divides(j: nat, k: nat)
    requires j <= k
    ensures Pow2(k) % Pow2(j) == 0 && Pow2(k) >= Pow2(j)
    decreases k
  {
    if j == k {
      ModIs(Pow2(k), Pow2(j), 1, 0);
    } else {
      Pow2Divides(j, k - 1);
      var p, q := Pow2(j), Pow2(k - 1) / Pow2(j);
      assert Pow2(k - 1) == p * q;
      assert Pow2(k) == p * (2 * q) + 0;
      ModIs(Pow2(k), p, 2 * q, 0);
    }
  }

  /** Reducing first to a word and then by a divisor of the word size loses nothing. */
  lemma ModWord(x: nat, size: nat)
    requires size > 0 && WORD % size == 0
    ensures (x % WORD) % size == x % size
  {
    var q, w := x / WORD, WORD / size;
    var r := (x % WORD) % size;
    assert x == WORD * q + x % WORD;
    assert WORD == size * w;
    assert x % WORD == size * ((x % WORD) / size) + r;
    assert WORD * q == size * (w * q) by {
      MulAssoc(size, w, q);
    }
    assert x == size * (w * q + (x % WORD) / size) + r by {
      Distribute(size, w * q, (x % WORD) / size);
    }
    ModIs(x, size, w * q + (x % WORD) / size, r);
  }

  lemma MulAssoc(a: int, b: int, c: int)
    ensures (a * b) * c == a * (b * c)
  {
  }

  lemma Distribute(a: int, b: int, c: int)
    ensures a * (b + c) == a * b + a * c
  {
  }

  /** The slot of an element, counted in bytes. */
  lemma ScaleMod(x: nat, size: nat, esize: nat)
    requires size > 0 && esize > 0
    ensures size * esize > 0 && (x % size) * esize == (x * esize) % (size * esize)
  {
    var q, r := x / size, x % size;
    assert x == size * q + r;
    assert r * esize < size * esize by {
      MulLess(r, size, esize);
    }
    assert x * esize == (size * esize) * q + r * esize by {
      Scale(size, q, r, esize);
    }
    ModIs(x * esize, size * esize, q, r * esize);
  }

  lemma MulLess(a: nat, b: nat, c: nat)
    requires a < b && c > 0
    ensures a * c < b * c
  {
  }

  lemma MulLeq(a: nat, b: nat, c: nat)
    requires a <= b
    ensures a * c <= b * c
  {
  }

  lemma Scale(size: nat, q: nat, r: nat, esize: nat)
    ensures (size * q + r) * esize == (size * esize) * q + r * esize
  {
    Distribute(esize, size * q, r);
    MulAssoc(size, esize, q);
    MulAssoc(size, q, esize);
  }

  /** The difference of two running counters survives the 32-bit wrap. */
  lemma SubWraps(head: nat, tail: nat)
    requires head <= tail < head + WORD
    ensures Sub32(tail % WORD, head % WORD) == tail - head
  {
    var a, b := tail % WORD, head % WORD;
    var d, q := tail - head, tail / WORD - head / WORD;
    assert tail == WORD * (tail / WORD) + a && head == WORD * (head / WORD) + b;
    assert a - b + WORD == d + WORD * (1 - q);
    if q == 0 {
      ModIs(a - b + WORD, WORD, 1, d);
    } else if q == 1 {
      ModIs(a - b + WORD, WORD, 0, d);
    }
  }

  lemma AddWraps(x: nat, n: nat)
    ensures Add32(x % WORD, n) == (x + n) % WORD
  {
    var q := x / WORD;
    assert x == WORD * q + x % WORD;
    var y := x % WORD + n;
    assert x + n == WORD * (q + y / WORD) + y % WORD;
    ModIs(x + n, WORD, q + y / WORD, y % WORD);
  }

  function Mul32(a: nat, b: nat): (r: nat)
    ensures r < WORD
  {
    (a * b) % WORD
  }

  function Min(a: nat, b: nat): nat {
    if a < b then a else b
  }

  /** The bytes of `n` elements, and the 32-bit value of a running counter. */
  function Times(n: nat, esize: nat): nat {
    n * esize
  }

  function Wrap(x: nat): (r: nat)
    ensures r < WORD
  {
    x % WORD
  }

  lemma TimesAdd(a: nat, b: nat, e: nat)
    ensures Times(a + b, e) == Times(a, e) + Times(b, e)
  {
    Distribute(e, a, b);
  }

  lemma TimesLeq(a: nat, b: nat, e: nat)
    requires a <= b
    ensures Times(a, e) <= Times(b, e) && (a < b && e > 0 ==> Times(a, e) < Times(b, e))
  {
    MulLeq(a, b, e);
    if a < b && e > 0 {
      MulLess(a, b, e);
    }
  }

  lemma TimesOne(n: nat)
    ensures Times(n, 1) == n && Times(0, n) == 0
  {
  }

  /** No product below the word size is cut. */
  lemma Mul32Is(n: nat, e: nat)
    requires Times(n, e) < WORD
    ensures Mul32(n, e) == Times(n, e)
  {
  }

  lemma WrapSub(head: nat, tail: nat)
    requires head <= tail < head + WORD
    ensures Sub32(Wrap(tail), Wrap(head)) == tail - head
    ensures Wrap(tail) == Wrap(head) <==> tail == head
  {
    SubWraps(head, tail);
  }

  lemma WrapAdd(x: nat, n: nat)
    ensures Add32(Wrap(x), n) == Wrap(x + n)
  {
    AddWraps(x, n);
  }

  /** The masked and scaled index of an element is the slot of its first byte. */
  lemma SlotOf(at: nat, bits: nat, esize: nat)
    requires bits <= 32 && esize > 0
    ensures var size := Pow2(bits); var off := And(Wrap(at), size - 1);
      off < size && Times(size, esize) > 0 && Times(off, esize) == Times(at, esize) % Times(size, esize)
      && Times(off, esize) < Times(size, esize)
  {
    AndMask(Wrap(at), bits);
    WordIsPow2();
    Pow2Divides(bits, 32);
    ModWord(at, Pow2(bits));
    ScaleMod(at, Pow2(bits), esize);
    TimesLeq(And(Wrap(at), Pow2(bits) - 1), Pow2(bits), esize);
  }

  // ---- the ring ----

  /** `len` bytes of the ring `d` from the running position `from` on. */
  function Ring(d: seq<byte>, from: nat, len: nat): (r: seq<byte>)
    requires |d| > 0
    ensures |r| == len
  {
    seq(len, i requires 0 <= i < len => d[(from + i) % |d|])
  }

  /** The ring after `s` is written at the running position `at`. */
  function Poured(d: seq<byte>, at: nat, s: seq<byte>): (r: seq<byte>)
    requires |d| > 0
    ensures |r| == |d|
  {
    seq(|d|, j requires 0 <= j < |d| => if (j - at) % |d| < |s| then s[(j - at) % |d|] else d[j])
  }

  /** Where the slot of running position `from + i` lies as seen from running position `at`. */
  lemma SlotFrom(from: nat, i: int, at: nat, cap: nat, k: int)
    requires cap > 0 && 0 <= k < cap && from + i >= 0 && (from + i - at == k || from + i - at == k - cap)
    ensures ((from + i) % cap - at) % cap == k
  {
    var x := from + i;
    var e := x / cap;
    assert x == cap * e + x % cap;
    NegMul(cap, e);
    if x - at == k {
      ModIs(x % cap - at, cap, -e, k);
    } else {
      Distribute(cap, -e, -1);
      ModIs(x % cap - at, cap, -e - 1, k);
    }
  }

  lemma NegMul(a: int, b: int)
    ensures a * -b == -(a * b)
  {
  }

  /** Writing behind the ring's contents appends to them, as long as they fit. */
  lemma PourAppends(d: seq<byte>, from: nat, len: nat, s: seq<byte>)
    requires |d| > 0 && len + |s| <= |d|
    ensures Ring(Poured(d, from + len, s), from, len + |s|) == Ring(d, from, len) + s
  {
    var cap, at := |d|, from + len;
    var r := Ring(Poured(d, at, s), from, len + |s|);
    forall i | 0 <= i < len + |s| ensures r[i] == (Ring(d, from, len) + s)[i] {
      SlotFrom(from, i, at, cap, if i < len then i - len + cap else i - len);
    }
  }

  lemma RingSplit(d: seq<byte>, from: nat, a: nat, b: nat)
    requires |d| > 0
    ensures Ring(d, from, a + b) == Ring(d, from, a) + Ring(d, from + a, b)
  {
    var r := Ring(d, from, a + b);
    forall i | 0 <= i < a + b ensures r[i] == (Ring(d, from, a) + Ring(d, from + a, b))[i] {
      if i >= a {
        assert from + i == from + a + (i - a);
      }
    }
  }

  /** The first of the two copies goes up to the ring's end, the second starts over at slot 0. */
  lemma TwoCopiesIn(d: seq<byte>, at: nat, s: seq<byte>, off: nat, l: nat, r: seq<byte>)
    requires |d| > 0 && |r| == |d| && off == at % |d| && l == Min(|s|, |d| - off) && |s| <= |d|
    requires forall j :: 0 <= j < |d| ==>
      r[j] == if off <= j < off + l then s[j - off] else if j < |s| - l then s[l + j] else d[j]
    ensures r == Poured(d, at, s)
  {
    var cap := |d|;
    forall j | 0 <= j < cap ensures r[j] == Poured(d, at, s)[j] {
      OffsetFrom(j, at, cap);
    }
  }

  lemma OffsetFrom(j: nat, at: nat, cap: nat)
    requires j < cap
    ensures (j - at) % cap == if j >= at % cap then j - at % cap else j - at % cap + cap
  {
    var q, off := at / cap, at % cap;
    assert at == cap * q + off;
    if j >= off {
      Distribute(cap, q, -q);
      ModIs(j - at, cap, -q, j - off);
    } else {
      Distribute(cap, -q, -1);
      assert cap * (-q - 1) == cap * (-q) + cap * (-1);
      ModIs(j - at, cap, -q - 1, j - off + cap);
    }
  }

  lemma TwoCopiesOut(d: seq<byte>, at: nat, n: nat, off: nat, l: nat, r: seq<byte>)
    requires |d| > 0 && |r| >= n && off == at % |d| && l == Min(n, |d| - off) && n <= |d|
    requires forall i :: 0 <= i < n ==> r[i] == if i < l then d[off + i] else d[i - l]
    ensures r[..n] == Ring(d, at, n)
  {
    var cap := |d|;
    forall i | 0 <= i < n ensures r[i] == Ring(d, at, n)[i] {
      Onward(at, i, cap);
    }
  }

  lemma Onward(at: nat, i: nat, cap: nat)
    requires i < cap
    ensures (at + i) % cap == if at % cap + i < cap then at % cap + i else at % cap + i - cap
  {
    var q, off := at / cap, at % cap;
    assert at == cap * q + off;
    if off + i < cap {
      ModIs(at + i, cap, q, off + i);
    } else {
      Distribute(cap, q, 1);
      ModIs(at + i, cap, q + 1, off + i - cap);
    }
  }
}
