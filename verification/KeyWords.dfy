/**
 * Keys of btree.c as vectors of machine words, most significant word first. The other B+tree
 * modules use the number a key stands for; here the word loops are shown to compute on that number.
 */
module KeyWords {
  import opened Basics

  predicate Key(s: seq<nat>, base: nat) {
    base >= 2 && forall i :: 0 <= i < |s| ==> s[i] < base
  }

  function Value(s: seq<nat>, base: nat): nat {
    if s == [] then 0 else Digit(Value(s[..|s| - 1], base), s[|s| - 1], base)
  }

  function Digit(v: nat, d: nat, base: nat): nat {
    v * base + d
  }

  function Pow(base: nat, n: nat): (p: nat)
    ensures base >= 1 ==> p >= 1
  {
    if n == 0 then 1 else Pow(base, n - 1) * base
  }

  lemma MulLeq(a: nat, b: nat, c: nat)
    requires a <= b
    ensures a * c <= b * c
  {
  }

  lemma DigitLess(v: nat, w: nat, d: nat, e: nat, base: nat)
    requires v < w && d < base
    ensures Digit(v, d, base) < Digit(w, e, base) && Digit(v, d, base) < w * base
  {
    MulLeq(v + 1, w, base);
    assert (v + 1) * base == v * base + base;
  }

  lemma {:induction false} ValueBound(s: seq<nat>, base: nat)
    requires Key(s, base)
    ensures Value(s, base) < Pow(base, |s|)
  {
    hide Digit;
    if s == [] {
    } else {
      ValueBound(s[..|s| - 1], base);
      DigitLess(Value(s[..|s| - 1], base), Pow(base, |s| - 1), s[|s| - 1], 0, base);
    }
  }

  /** The first word that differs decides. */
  lemma {:induction false} FirstDifference(a: seq<nat>, b: seq<nat>, i: nat, base: nat)
    requires Key(a, base) && Key(b, base) && i < |a| == |b| && a[..i] == b[..i] && a[i] < b[i]
    ensures Value(a, base) < Value(b, base)
    decreases |a|
  {
    var n := |a| - 1;
    if i == n {
    } else {
      hide Digit;
      assert a[..n][..i] == a[..i] && b[..n][..i] == b[..i];
      FirstDifference(a[..n], b[..n], i, base);
      DigitLess(Value(a[..n], base), Value(b[..n], base), a[n], b[n], base);
    }
  }

  /** `longcmp`: the sign of the difference of the two numbers. */
  method Longcmp(l1: array<nat>, l2: array<nat>, base: nat) returns (r: int)
    requires l1.Length == l2.Length && Key(l1[..], base) && Key(l2[..], base)
    ensures r < 0 <==> Value(l1[..], base) < Value(l2[..], base)
    ensures r > 0 <==> Value(l1[..], base) > Value(l2[..], base)
    ensures r == 0 <==> l1[..] == l2[..]
  {
    var i := 0;
    while i < l1.Length
      invariant i <= l1.Length && l1[..i] == l2[..i]
    {
      if l1[i] < l2[i] {
        FirstDifference(l1[..], l2[..], i, base);
        return -1;
      }
      if l1[i] > l2[i] {
        FirstDifference(l2[..], l1[..], i, base);
        return 1;
      }
      i := i + 1;
    }
    assert l1[..] == l1[..l1.Length] && l2[..] == l2[..l2.Length];
    return 0;
  }

  /** A key one less, borrowing from the next word up as long as a word is zero. */
  function Less(s: seq<nat>, base: nat): (r: seq<nat>)
    requires Key(s, base)
    ensures |r| == |s|
  {
    if s == [] then []
    else if s[|s| - 1] > 0 then s[..|s| - 1] + [s[|s| - 1] - 1]
    else Less(s[..|s| - 1], base) + [base - 1]
  }

  /** The number goes down by one; zero becomes the greatest number of as many words. */
  lemma {:induction false} LessValue(s: seq<nat>, base: nat)
    requires Key(s, base)
    ensures Key(Less(s, base), base)
    ensures Value(Less(s, base), base) == if Value(s, base) == 0 then Pow(base, |s|) - 1 else Value(s, base) - 1
  {
    hide Digit;
    if s == [] {
    } else {
      var p, last := s[..|s| - 1], s[|s| - 1];
      var t := Less(s, base);
      assert t[..|t| - 1] == if last > 0 then p else Less(p, base);
      if last > 0 {
        DigitDown(Value(p, base), last, base);
      } else {
        LessValue(p, base);
        DigitBorrow(Value(p, base), Pow(base, |p|), base);
      }
    }
  }

  lemma DigitDown(v: nat, d: nat, base: nat)
    requires d > 0
    ensures Digit(v, d, base) > 0 && Digit(v, d - 1, base) == Digit(v, d, base) - 1
  {
  }

  lemma DigitBorrow(v: nat, m: nat, base: nat)
    requires base >= 2 && m >= 1
    ensures Digit(v, 0, base) == 0 <==> v == 0
    ensures v > 0 ==> Digit(v - 1, base - 1, base) == Digit(v, 0, base) - 1
    ensures Digit(m - 1, base - 1, base) == m * base - 1
  {
    ZeroProduct(v, base);
    ZeroProduct(m, base);
  }

  lemma ZeroProduct(v: nat, base: nat)
    requires base >= 2
    ensures v * base == 0 <==> v == 0
    ensures v > 0 ==> (v - 1) * base + (base - 1) == v * base - 1
  {
    if v > 0 {
      MulLeq(1, v, base);
    }
  }

  /** `dec_key` */
  method DecKey(key: array<nat>, base: nat)
    requires Key(key[..], base)
    modifies key
    ensures key[..] == Less(old(key[..]), base)
    ensures Value(old(key[..]), base) == 0 ==> Value(key[..], base) == Pow(base, key.Length) - 1
    ensures Value(old(key[..]), base) > 0 ==> Value(key[..], base) == Value(old(key[..]), base) - 1
  {
    hide Value, Pow, Less;
    ghost var s := key[..];
    LessValue(s, base);
    var i := key.Length - 1;
    Whole(s, base);
    while i >= 0
      invariant -1 <= i < key.Length && Borrowing(s, key[..], i + 1, base)
    {
      ghost var now := key[..];
      var val := key[i];
      BorrowAt(s, now, i, base);
      key[i] := if val == 0 then base - 1 else val - 1;
      assert key[..] == now[i := key[i]];
      if val != 0 {
        break;
      }
      i := i - 1;
    }
    if i < 0 {
      Borrowed(s, key[..], base);
    }
  }

  /** The words from `k` on are done; what is left is to take one off the words before. */
  ghost predicate Borrowing(s: seq<nat>, now: seq<nat>, k: nat, base: nat)
    requires Key(s, base)
  {
    |now| == |s| && k <= |s| && now[..k] == s[..k] && Less(s, base) == Less(s[..k], base) + now[k..]
  }

  lemma Whole(s: seq<nat>, base: nat)
    requires Key(s, base)
    ensures Borrowing(s, s, |s|, base)
  {
    assert s[..|s|] == s && s[|s|..] == [];
  }

  lemma Borrowed(s: seq<nat>, now: seq<nat>, base: nat)
    requires Key(s, base) && Borrowing(s, now, 0, base)
    ensures now == Less(s, base)
  {
    LessNone(base);
    assert s[..0] == [] && now[0..] == now;
  }

  lemma BorrowAt(s: seq<nat>, now: seq<nat>, i: nat, base: nat)
    requires Key(s, base) && i < |s| && Borrowing(s, now, i + 1, base)
    ensures now[i] == s[i]
    ensures now[i] == 0 ==> Borrowing(s, now[i := base - 1], i, base)
    ensures now[i] > 0 ==> now[i := now[i] - 1] == Less(s, base)
  {
    hide Less;
    var val: nat := if now[i] == 0 then base - 1 else now[i] - 1;
    var after := now[i := val];
    assert now[..i + 1][i] == now[i] && s[..i + 1][i] == s[i];
    LessStep(s[..i + 1], base);
    Shorter(s, i);
    Shorter(now, i);
    CutAt(after, i);
    assert after[i + 1..] == now[i + 1..] && after[..i] == now[..i];
    Assoc(if now[i] == 0 then Less(s[..i], base) else s[..i], [val], now[i + 1..]);
  }

  lemma Shorter(s: seq<nat>, i: nat)
    requires i < |s|
    ensures s[..i + 1][..i] == s[..i] && s[..i + 1][i] == s[i]
  {
  }

  lemma CutAt(s: seq<nat>, i: nat)
    requires i < |s|
    ensures s[i..] == [s[i]] + s[i + 1..] && s == s[..i] + s[i..]
  {
  }

  lemma LessStep(s: seq<nat>, base: nat)
    requires Key(s, base) && s != []
    ensures var n := |s| - 1; Less(s, base) == if s[n] > 0 then s[..n] + [s[n] - 1] else Less(s[..n], base) + [base - 1]
  {
  }

  lemma LessNone(base: nat)
    requires base >= 2
    ensures Less([], base) == []
  {
  }

  /** `keyzero` */
  method KeyZero(key: array<nat>, base: nat) returns (zero: bool)
    requires Key(key[..], base)
    ensures zero <==> Value(key[..], base) == 0
  {
    var i := 0;
    while i < key.Length
      invariant i <= key.Length && forall j :: 0 <= j < i ==> key[j] == 0
    {
      if key[i] != 0 {
        ValueZero(key[..], base);
        assert key[..][i] != 0;
        return false;
      }
      i := i + 1;
    }
    ValueZero(key[..], base);
    return true;
  }

  lemma {:induction false} ValueZero(s: seq<nat>, base: nat)
    requires Key(s, base)
    ensures Value(s, base) == 0 <==> forall j :: 0 <= j < |s| ==> s[j] == 0
  {
    if s == [] {
    } else {
      var p := s[..|s| - 1];
      ValueZero(p, base);
      ZeroProduct(Value(p, base), base);
      if Value(s, base) == 0 {
        forall j | 0 <= j < |s| ensures s[j] == 0 {
          assert j < |p| ==> s[j] == p[j];
        }
      } else if Value(p, base) != 0 {
        var j :| 0 <= j < |p| && p[j] != 0;
        assert s[j] != 0;
      }
    }
  }
}
