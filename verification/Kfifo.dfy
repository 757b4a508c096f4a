/** kfifo.c: a queue of fixed-size elements, or of records, in a power-of-two ring. */
module Kfifo {
  import opened Basics
  import opened KfifoIndex

  /** `struct __kfifo`; `head` and `tail` count all elements ever read and written. */
  class KfifoRing {
    var in_: nat
    var out: nat
    var mask: nat
    var esize: nat
    var data: array<byte>
    ghost var head: nat
    ghost var tail: nat
    ghost var bits: nat

    /** `__kfifo_init` on a buffer for `size` bytes; a buffer for fewer than two elements is refused (-EINVAL). */
    constructor (buffer: array<byte>, size0: nat, esize: nat)
      requires esize > 0 && buffer.Length == size0 < WORD
      ensures data == buffer && this.esize == esize
      ensures mask != 0 <==> size0 / esize >= 2
      ensures mask != 0 ==> Valid() && Content() == [] && head == tail
      ensures mask != 0 ==> mask + 1 <= size0 / esize < 2 * (mask + 1)
    {
      var size := size0 / esize;
      ghost var k := 0;
      if size > 0 {
        size, k := RoundDown(size);
      }
      this.in_, this.out, this.esize, this.data := 0, 0, esize, buffer;
      mask := if size < 2 then 0 else size - 1;
      head, tail, bits := 0, 0, k;
      new;
      if size >= 2 {
        InitFits(size0, esize, size, k);
      }
    }

    ghost predicate Valid()
      reads this
    {
      && mask + 1 == Pow2(bits) && 0 < bits <= 32 && esize > 0 && 0 < Cap() < WORD && Cap() <= data.Length
      && head <= tail <= head + (mask + 1)
      && in_ == Wrap(tail) && out == Wrap(head)
    }

    /** The bytes the ring occupies. */
    ghost function Cap(): nat
      reads this
    {
      Times(mask + 1, esize)
    }

    /** The bytes of the elements stored, oldest first. */
    ghost function Content(): (c: seq<byte>)
      requires Valid()
      reads this, data
      ensures |c| == Times(tail - head, esize)
    {
      Ring(data[..Cap()], Times(head, esize), Times(tail - head, esize))
    }

    lemma SizeIsWord()
      requires Valid()
      ensures mask + 1 < WORD && tail < head + WORD
    {
      TimesLarge(mask + 1, esize);
    }

    /** `kfifo_unused` */
    function Unused(): (n: nat)
      requires Valid()
      reads this
      ensures n == mask + 1 - (tail - head)
    {
      SizeIsWord();
      WrapSub(head, tail);
      PlainSub(mask + 1, tail - head);
      Sub32(mask + 1, Sub32(in_, out))
    }

    /** `kfifo_copy_in`, at the 32-bit index `off0` of element `at`. */
    method CopyIn(src: seq<byte>, len0: nat, off0: nat, ghost at: nat)
      requires Valid() && off0 == Wrap(at) && len0 <= mask + 1 && |src| >= Times(len0, esize)
      modifies data
      ensures data[..Cap()] == Poured(old(data[..Cap()]), Times(at, esize), src[..Times(len0, esize)])
      ensures forall j :: Cap() <= j < data.Length ==> data[j] == old(data[j])
    {
      hide Times, Wrap, Poured, And, Mul32, Pow2;
      var size, off, len := mask + 1, And(off0, mask), len0;
      SlotOf(at, bits, esize);
      TimesLeq(len0, mask + 1, esize);
      ScaledAll(off, size, len, esize);
      if esize != 1 {
        off := Mul32(off, esize);
        size := Mul32(size, esize);
        len := Mul32(len, esize);
      }
      var l := Min(len, size - off);
      ghost var d := data[..Cap()];
      Memcpy(data, off, src, 0, l);
      Memcpy(data, 0, src, l, len - l);
      TwoCopiesIn(d, Times(at, esize), src[..len], off, l, data[..Cap()]);
    }

    /** `kfifo_copy_out` */
    method CopyOut(dst: array<byte>, len0: nat, off0: nat, ghost at: nat)
      requires Valid() && off0 == Wrap(at) && len0 <= mask + 1 && dst.Length >= Times(len0, esize) && dst != data
      modifies dst
      ensures dst[..Times(len0, esize)] == Ring(data[..Cap()], Times(at, esize), Times(len0, esize))
      ensures forall j :: Times(len0, esize) <= j < dst.Length ==> dst[j] == old(dst[j])
    {
      hide Times, Wrap, Ring, And, Mul32, Pow2;
      var size, off, len := mask + 1, And(off0, mask), len0;
      SlotOf(at, bits, esize);
      TimesLeq(len0, mask + 1, esize);
      ScaledAll(off, size, len, esize);
      if esize != 1 {
        off := Mul32(off, esize);
        size := Mul32(size, esize);
        len := Mul32(len, esize);
      }
      var l := Min(len, size - off);
      Memcpy(dst, 0, data[..], off, l);
      Memcpy(dst, l, data[..], 0, len - l);
      TwoCopiesOut(data[..Cap()], Times(at, esize), len, off, l, dst[..]);
    }

    /** `__kfifo_in`: as many of `len` elements as fit go behind the others. */
    method In(buf: seq<byte>, len: nat) returns (n: nat)
      requires Valid() && |buf| >= Times(len, esize)
      modifies this`in_, this`tail, data
      ensures Valid() && n == Min(len, mask + 1 - old(tail - head)) && Times(n, esize) <= |buf|
      ensures Content() == old(Content()) + buf[..Times(n, esize)]
    {
      hide Times, Wrap, Poured, Ring, Add32, Pow2;
      n := len;
      var l := Unused();
      if n > l {
        n := l;
      }
      TimesLeq(n, len, esize);
      TimesAdd(tail - head, n, esize);
      TimesAdd(head, tail - head, esize);
      TimesLeq(tail - head + n, mask + 1, esize);
      PourAppends(data[..Cap()], Times(head, esize), Times(tail - head, esize), buf[..Times(n, esize)]);
      CopyIn(buf, n, in_, tail);
      WrapAdd(tail, n);
      in_ := Add32(in_, n);
      tail := tail + n;
    }

    /** `__kfifo_out_peek` */
    method OutPeek(dst: array<byte>, len: nat) returns (n: nat)
      requires Valid() && dst.Length >= Times(len, esize) && dst != data
      modifies dst
      ensures n == Min(len, tail - head) && Times(n, esize) <= dst.Length && Times(n, esize) <= |Content()|
      ensures dst[..Times(n, esize)] == Content()[..Times(n, esize)]
      ensures Content()[Times(n, esize)..] == Ring(data[..Cap()], Times(head + n, esize), Times(tail - head - n, esize))
      ensures forall j :: Times(n, esize) <= j < dst.Length ==> dst[j] == old(dst[j])
    {
      hide Times, Wrap, Ring, Sub32, Pow2;
      n := len;
      SizeIsWord();
      WrapSub(head, tail);
      var l := Sub32(in_, out);
      if n > l {
        n := l;
      }
      TimesLeq(n, len, esize);
      TimesAdd(n, tail - head - n, esize);
      TimesAdd(head, n, esize);
      CopyOut(dst, n, out, head);
      RingSplit(data[..Cap()], Times(head, esize), Times(n, esize), Times(tail - head - n, esize));
    }

    /** `__kfifo_out`: the oldest elements, at most `len` of them, leave the queue. */
    method Out(dst: array<byte>, len: nat) returns (n: nat)
      requires Valid() && dst.Length >= Times(len, esize) && dst != data
      modifies this`out, this`head, dst
      ensures Valid() && n == Min(len, tail - old(head)) && Times(n, esize) <= dst.Length
        && Times(n, esize) <= |old(Content())|
      ensures dst[..Times(n, esize)] == old(Content())[..Times(n, esize)]
        && Content() == old(Content())[Times(n, esize)..]
      ensures forall j :: Times(n, esize) <= j < dst.Length ==> dst[j] == old(dst[j])
    {
      hide Times, Wrap, Ring, Add32, Pow2;
      n := OutPeek(dst, len);
      WrapAdd(head, n);
      out := Add32(out, n);
      head := head + n;
    }

    // ---- records ----

    /** `__kfifo_poke_n`: the length goes in front of the record, low byte first. */
    method PokeN(n: nat, recsize: nat)
      requires Valid() && esize == 1 && 1 <= recsize <= 2 && tail - head + recsize <= mask + 1
      modifies data
      ensures data[..Cap()] == Poured(old(data[..Cap()]), tail, Header(n, recsize))
      ensures forall j :: Cap() <= j < data.Length ==> data[j] == old(data[j])
    {
      hide Wrap, And, Pow2, Poured;
      SlotOf(tail, bits, 1);
      SlotOf(tail + 1, bits, 1);
      WrapAdd(tail, 1);
      OneByte();
      PourHeader(data[..Cap()], tail, n, recsize);
      data[And(in_, mask)] := n % 256;
      if recsize > 1 {
        data[And(Add32(in_, 1), mask)] := n / 256 % 256;
      }
    }

    /** `__kfifo_peek_n` */
    method PeekN(recsize: nat) returns (n: nat)
      requires Valid() && esize == 1 && 1 <= recsize <= 2 && recsize <= tail - head
      ensures n == HeaderOf(Content(), recsize)
    {
      hide Wrap, And, Pow2;
      SlotOf(head, bits, 1);
      SlotOf(head + 1, bits, 1);
      WrapAdd(head, 1);
      OneByte();
      n := data[And(out, mask)];
      if recsize > 1 {
        var high: nat := data[And(Add32(out, 1), mask)];
        n := n + 256 * high;
      }
    }

    /** Where elements are bytes, counting elements is counting bytes. */
    lemma OneByte()
      requires Valid() && esize == 1
      ensures forall n: nat :: Times(n, 1) == n
      ensures Cap() == mask + 1 && |Content()| == tail - head
      ensures Content() == Ring(data[..Cap()], head, tail - head)
    {
    }

    /** The two 32-bit indices are equal exactly if nothing is stored. */
    method IsEmpty() returns (empty: bool)
      requires Valid()
      ensures empty <==> tail == head
    {
      hide Wrap, Pow2;
      SizeIsWord();
      WrapSub(head, tail);
      empty := in_ == out;
    }

    /** `__kfifo_in_r`: a record goes in whole, with its length, or not at all. */
    method InR(buf: seq<byte>, len: nat, recsize: nat) returns (n: nat)
      requires Valid() && esize == 1 && 1 <= recsize <= 2 && |buf| >= len
      modifies this`in_, this`tail, data
      ensures Valid()
      ensures n == if len + recsize <= mask + 1 - old(tail - head) then len else 0
      ensures Content() == if len + recsize <= mask + 1 - old(tail - head)
        then old(Content()) + (Header(len, recsize) + buf[..len]) else old(Content())
    {
      hide Wrap, And, Pow2, Poured, Ring, Times, Add32;
      OneByte();
      if len + recsize > Unused() {
        return 0;
      }
      ghost var d := data[..Cap()];
      PourTwice(d, tail, Header(len, recsize), buf[..len]);
      PourAppends(d, head, tail - head, Header(len, recsize) + buf[..len]);
      PokeN(len, recsize);
      WrapAdd(tail, recsize);
      CopyIn(buf, len, Add32(in_, recsize), tail + recsize);
      WrapAdd(tail, len + recsize);
      in_ := Add32(in_, len + recsize);
      tail := tail + len + recsize;
      OneByte();
      n := len;
    }

    /** `kfifo_out_copy_r`: the first record, cut to the caller's buffer; `n` is its full length. */
    method OutCopyR(dst: array<byte>, len: nat, recsize: nat) returns (l: nat, n: nat)
      requires Valid() && esize == 1 && 1 <= recsize <= 2 && recsize <= tail - head && dst.Length >= len && dst != data
      requires recsize + HeaderOf(Content(), recsize) <= tail - head
      modifies dst
      ensures n == HeaderOf(Content(), recsize) && l == Min(len, n)
      ensures dst[..l] == Content()[recsize..recsize + l] && forall j :: l <= j < dst.Length ==> dst[j] == old(dst[j])
    {
      hide Wrap, And, Pow2, Ring, Times, Add32;
      n := PeekN(recsize);
      l := Min(len, n);
      OneByte();
      WrapAdd(head, recsize);
      CopyOut(dst, l, Add32(out, recsize), head + recsize);
      RingSplit(data[..Cap()], head, recsize, tail - head - recsize);
      RingSplit(data[..Cap()], head + recsize, l, tail - head - recsize - l);
    }

    /** `__kfifo_out_r`: the record leaves whole even if the caller's buffer takes only its start. */
    method OutR(dst: array<byte>, len0: nat, recsize: nat, ghost recs: seq<seq<byte>>) returns (len: nat)
      requires Valid() && esize == 1 && 1 <= recsize <= 2 && dst.Length >= len0 && dst != data
      requires Content() == Frames(recs, recsize) && Fitting(recs, recsize)
      modifies this`out, this`head, dst
      ensures Valid() && Content() == Frames(if recs == [] then [] else recs[1..], recsize)
      ensures len == if recs == [] then 0 else Min(len0, |recs[0]|)
      ensures recs != [] ==> dst[..len] == recs[0][..len]
      ensures forall j :: len <= j < dst.Length ==> dst[j] == old(dst[j])
    {
      hide Wrap, And, Pow2, Ring, Times, Add32, Frames, Header, HeaderOf;
      SizeIsWord();
      WrapSub(head, tail);
      OneByte();
      FramesEmpty(recs, recsize);
      if in_ == out {
        return 0;
      }
      var n;
      FirstFrame(recs, recsize);
      len, n := OutCopyR(dst, len0, recsize);
      Consume(n + recsize);
      WrapAdd(head, n + recsize);
      out := Add32(out, n + recsize);
      head := head + n + recsize;
      OneByte();
    }

    /** `__kfifo_out_peek_r` */
    method OutPeekR(dst: array<byte>, len0: nat, recsize: nat, ghost recs: seq<seq<byte>>) returns (len: nat)
      requires Valid() && esize == 1 && 1 <= recsize <= 2 && dst.Length >= len0 && dst != data
      requires Content() == Frames(recs, recsize) && Fitting(recs, recsize)
      modifies dst
      ensures len == if recs == [] then 0 else Min(len0, |recs[0]|)
      ensures recs != [] ==> dst[..len] == recs[0][..len]
      ensures forall j :: len <= j < dst.Length ==> dst[j] == old(dst[j])
    {
      hide Wrap, And, Pow2, Ring, Times, Frames, Header, HeaderOf;
      SizeIsWord();
      WrapSub(head, tail);
      OneByte();
      FramesEmpty(recs, recsize);
      if in_ == out {
        return 0;
      }
      var n;
      FirstFrame(recs, recsize);
      len, n := OutCopyR(dst, len0, recsize);
    }

    /** `__kfifo_skip_r`: drops exactly the first record. */
    method SkipR(recsize: nat, ghost recs: seq<seq<byte>>)
      requires Valid() && esize == 1 && 1 <= recsize <= 2
      requires Content() == Frames(recs, recsize) && Fitting(recs, recsize) && recs != []
      modifies this`out, this`head
      ensures Valid() && Content() == Frames(recs[1..], recsize)
    {
      hide Wrap, And, Pow2, Ring, Times, Add32, Frames, Header, HeaderOf;
      OneByte();
      FirstFrame(recs, recsize);
      var n := PeekN(recsize);
      Consume(n + recsize);
      WrapAdd(head, n + recsize);
      out := Add32(out, n + recsize);
      head := head + n + recsize;
      OneByte();
    }

    /** `__kfifo_len_r` */
    method LenR(recsize: nat, ghost recs: seq<seq<byte>>) returns (n: nat)
      requires Valid() && esize == 1 && 1 <= recsize <= 2
      requires Content() == Frames(recs, recsize) && Fitting(recs, recsize) && recs != []
      ensures n == |recs[0]|
    {
      OneByte();
      FirstFrame(recs, recsize);
      n := PeekN(recsize);
    }

    lemma Consume(n: nat)
      requires Valid() && esize == 1 && n <= tail - head
      ensures Content()[n..] == Ring(data[..Cap()], head + n, tail - head - n)
    {
      OneByte();
      RingSplit(data[..Cap()], head, n, tail - head - n);
    }
  }

  /** A record's length in `recsize` bytes, low byte first. */
  function Header(n: nat, recsize: nat): (h: seq<byte>)
    ensures |h| == if recsize == 1 then 1 else 2
  {
    if recsize == 1 then [n % 256] else [n % 256, n / 256 % 256]
  }

  function HeaderOf(c: seq<byte>, recsize: nat): nat
    requires 1 <= recsize <= 2 && recsize <= |c|
  {
    var low: nat := c[0];
    if recsize == 1 then low else (var high: nat := c[1]; low + 256 * high)
  }

  /** `__kfifo_max_r`: the most a record's length field can say, with the shift written as a power. */
  function MaxR(len: nat, recsize: nat): (r: nat)
    ensures r <= len && r < Pow2(8 * recsize) && (len < Pow2(8 * recsize) ==> r == len)
  {
    var max := Pow2(8 * recsize) - 1;
    if len > max then max else len
  }

  /** The records stored one behind the other, each with its length in front. */
  function Frames(recs: seq<seq<byte>>, recsize: nat): seq<byte> {
    if recs == [] then [] else (Header(|recs[0]|, recsize) + recs[0]) + Frames(recs[1..], recsize)
  }

  /** Every record is short enough for its length field: what `__kfifo_max_r` leaves alone. */
  predicate Fitting(recs: seq<seq<byte>>, recsize: nat) {
    forall i :: 0 <= i < |recs| ==> MaxR(|recs[i]|, recsize) == |recs[i]|
  }

  lemma {:induction false} FramesJoin(a: seq<seq<byte>>, b: seq<seq<byte>>, recsize: nat)
    ensures Frames(a + b, recsize) == Frames(a, recsize) + Frames(b, recsize)
  {
    if a == [] {
      assert a + b == b;
    } else {
      assert (a + b)[1..] == a[1..] + b;
      FramesJoin(a[1..], b, recsize);
      Assoc(Header(|a[0]|, recsize) + a[0], Frames(a[1..], recsize), Frames(b, recsize));
    }
  }

  /** After `__kfifo_in_r` the queue holds one record more. */
  lemma RecordAppended(recs: seq<seq<byte>>, r: seq<byte>, recsize: nat)
    ensures Frames(recs + [r], recsize) == Frames(recs, recsize) + (Header(|r|, recsize) + r)
  {
    FramesJoin(recs, [r], recsize);
    assert [r][1..] == [];
    assert Frames([r], recsize) == (Header(|r|, recsize) + r) + [] == Header(|r|, recsize) + r;
  }

  lemma FramesEmpty(recs: seq<seq<byte>>, recsize: nat)
    requires 1 <= recsize <= 2
    ensures Frames(recs, recsize) == [] <==> recs == []
  {
    if recs != [] {
      assert |Frames(recs, recsize)| >= |Header(|recs[0]|, recsize)|;
    }
  }

  /** The length field reads back what was written, for every length it can hold. */
  lemma FirstFrame(recs: seq<seq<byte>>, recsize: nat)
    requires 1 <= recsize <= 2 && recs != [] && Fitting(recs, recsize)
    ensures var c := Frames(recs, recsize); var n := |recs[0]|;
      recsize + n <= |c| && HeaderOf(c, recsize) == n && c[recsize..recsize + n] == recs[0]
        && c[n + recsize..] == Frames(recs[1..], recsize)
    ensures var c := Frames(recs, recsize);
      forall l :: 0 <= l <= |recs[0]| ==> c[recsize..recsize + l] == recs[0][..l]
  {
    hide Frames, Header, HeaderOf;
    var r, h := recs[0], Header(|recs[0]|, recsize);
    FramesFirst(recs, recsize);
    assert MaxR(|r|, recsize) == |r|;
    FrameParts(h, r, Frames(recs[1..], recsize));
    HeaderReads(|r|, recsize, h + (r + Frames(recs[1..], recsize)));
    Assoc(h, r, Frames(recs[1..], recsize));
  }

  lemma FramesFirst(recs: seq<seq<byte>>, recsize: nat)
    requires recs != []
    ensures Frames(recs, recsize) == (Header(|recs[0]|, recsize) + recs[0]) + Frames(recs[1..], recsize)
  {
  }

  lemma FrameParts(h: seq<byte>, r: seq<byte>, rest: seq<byte>)
    ensures var c := (h + r) + rest;
      && c[|h|..|h| + |r|] == r && c[|h| + |r|..] == rest && |c| >= |h| + |r|
      && forall l :: 0 <= l <= |r| ==> c[|h|..|h| + l] == r[..l]
  {
    var c := (h + r) + rest;
    forall l | 0 <= l <= |r| ensures c[|h|..|h| + l] == r[..l] {
    }
  }

  lemma HeaderReads(n: nat, recsize: nat, c: seq<byte>)
    requires 1 <= recsize <= 2 && n < Pow2(8 * recsize) && recsize <= |c| && c[..recsize] == Header(n, recsize)
    ensures HeaderOf(c, recsize) == n
  {
    assert Pow2(8) == 256;
    assert Pow2(16) == 0x1_0000;
    assert c[0] == c[..recsize][0] && (recsize == 2 ==> c[1] == c[..recsize][1]);
  }

  /** The length field is little-endian: its second byte counts 256 times as much as its first. */
  lemma LowByteFirst(n: nat)
    ensures n < 0x100 ==> Header(n, 1) == [n]
    ensures forall low: byte, high: byte :: n == low + 256 * high ==> Header(n, 2) == [low, high]
  {
  }

  /** The length field says the truth exactly for the lengths that `__kfifo_max_r` leaves alone. */
  lemma HeaderExact(n: nat, recsize: nat, r: seq<byte>)
    requires 1 <= recsize <= 2
    ensures HeaderOf(Header(n, recsize) + r, recsize) == n <==> MaxR(n, recsize) == n
  {
    assert Pow2(8) == 256;
    assert Pow2(16) == 0x1_0000;
    if n < Pow2(8 * recsize) {
      HeaderReads(n, recsize, Header(n, recsize) + r);
    }
  }

  lemma PourTwice(d: seq<byte>, at: nat, a: seq<byte>, b: seq<byte>)
    requires |d| > 0 && |a| + |b| <= |d|
    ensures Poured(Poured(d, at, a), at + |a|, b) == Poured(d, at, a + b)
  {
    var cap := |d|;
    forall j | 0 <= j < cap ensures Poured(Poured(d, at, a), at + |a|, b)[j] == Poured(d, at, a + b)[j] {
      var k := (j - at) % cap;
      ShiftSlot(j, at, |a|, cap);
    }
  }

  /** A slot's distance from a place further on. */
  lemma ShiftSlot(j: nat, at: nat, a: nat, cap: nat)
    requires j < cap && a <= cap && cap > 0
    ensures var k := (j - at) % cap; (j - (at + a)) % cap == if k >= a then k - a else k - a + cap
  {
    var x := j - at;
    var q, k := x / cap, x % cap;
    assert x == cap * q + k;
    if k >= a {
      ModIs(x - a, cap, q, k - a);
    } else {
      Distribute(cap, q, -1);
      ModIs(x - a, cap, q - 1, k - a + cap);
    }
  }

  /** The two bytes of the length, written one at a time. */
  lemma PourHeader(d: seq<byte>, at: nat, n: nat, recsize: nat)
    requires 1 <= recsize <= 2 && |d| >= recsize
    ensures var p, q := at % |d|, (at + 1) % |d|;
      Poured(d, at, Header(n, recsize)) ==
        (if recsize == 1 then d[p := n % 256] else d[p := n % 256][q := n / 256 % 256])
  {
    var cap, p := |d|, at % |d|;
    Onward(at, 0, cap);
    if recsize == 2 {
      Onward(at, 1, cap);
    }
    var h := Header(n, recsize);
    var t := if recsize == 1 then d[p := n % 256] else d[p := n % 256][(at + 1) % cap := n / 256 % 256];
    forall j | 0 <= j < cap ensures Poured(d, at, h)[j] == t[j] {
      OffsetFrom(j, at, cap);
    }
  }

  /** A difference that needs no borrow. */
  lemma PlainSub(a: nat, b: nat)
    requires b <= a < WORD
    ensures Sub32(a, b) == a - b
  {
  }

  /** The three products of kfifo_copy_in and kfifo_copy_out, which leave bytes alone. */
  lemma ScaledAll(off: nat, size: nat, len: nat, e: nat)
    requires off < size && len <= size && Times(size, e) < WORD && e > 0
    ensures Mul32(off, e) == Times(off, e) && Mul32(size, e) == Times(size, e) && Mul32(len, e) == Times(len, e)
    ensures e == 1 ==> Times(off, e) == off && Times(size, e) == size && Times(len, e) == len
  {
    TimesLeq(off, size, e);
    TimesLeq(len, size, e);
    Mul32Is(off, e);
    Mul32Is(size, e);
    Mul32Is(len, e);
    TimesOne(off);
    TimesOne(size);
    TimesOne(len);
  }

  /** `memcpy` into the array `dst` at `off`, from position `from` of `src`. */
  method Memcpy(dst: array<byte>, off: nat, src: seq<byte>, from: nat, n: nat)
    requires off + n <= dst.Length && from + n <= |src|
    modifies dst
    ensures forall j :: 0 <= j < dst.Length ==>
      dst[j] == if off <= j < off + n then src[from + (j - off)] else old(dst[j])
  {
    var i := 0;
    while i < n
      invariant i <= n
      invariant forall j :: 0 <= j < dst.Length ==>
        dst[j] == if off <= j < off + i then src[from + (j - off)] else old(dst[j])
    {
      dst[off + i] := src[from + i];
      i := i + 1;
    }
  }

  /** The kernel's `rounddown_pow_of_two`, which also leaves a power of two alone. */
  method RoundDown(n: nat) returns (size: nat, ghost k: nat)
    requires n > 0
    ensures size == Pow2(k) && size <= n < 2 * size
  {
    size, k := 1, 0;
    while 2 * size <= n
      invariant size == Pow2(k) && size <= n
      decreases n - size
    {
      size, k := 2 * size, k + 1;
    }
  }

  /** The queue holds as many elements as asked for if and only if a power of two was asked for. */
  lemma RoundedIsAsked(asked: nat, k: nat)
    requires Pow2(k) <= asked < 2 * Pow2(k)
    ensures Pow2(k) >= asked <==> exists j: nat :: Pow2(j) == asked
  {
    forall j: nat | Pow2(j) == asked ensures j == k {
      if j < k {
        Pow2Divides(j, k - 1);
      } else if k < j {
        Pow2Divides(k + 1, j);
      }
    }
  }

  /** Three elements are asked for, and the third one is refused although the buffer has room for it. */
  method ThirdRefused(buffer: array<byte>, elements: seq<byte>) returns (n: nat)
    requires buffer.Length == 3 == |elements|
    modifies buffer
    ensures n == 2
  {
    TimesOne(3);
    var ring := new KfifoRing(buffer, 3, 1);
    n := ring.In(elements, 3);
  }

  lemma InitFits(size0: nat, esize: nat, size: nat, k: nat)
    requires esize > 0 && size0 < WORD && size <= size0 / esize && size == Pow2(k) && size >= 2
    ensures Times(size, esize) <= size0 && 0 < Times(size, esize) && 0 < k <= 32
  {
    hide Times;
    TimesLeq(size, size0 / esize, esize);
    TimesLeq(0, size, esize);
    TimesOne(esize);
    QuotientFits(size0, esize);
    if k > 32 {
      WordIsPow2();
      Pow2Divides(32, k);
      TimesLarge(size, esize);
    }
  }

  lemma QuotientFits(a: nat, e: nat)
    requires e > 0
    ensures Times(a / e, e) <= a
  {
  }

  lemma TimesLarge(n: nat, e: nat)
    requires e > 0
    ensures Times(n, e) >= n
  {
    MulLeq(1, e, n);
    assert Times(n, e) == e * n;
  }
}
