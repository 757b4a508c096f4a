/** A published value of the hash: "Four score and seven years ago", 30 bytes, from the initial value 0. */
module JhashKnown {
  import opened Basics
  import opened Jhash

  // ---- exclusive or of hexadecimal digits ----

  /** The sum of two bits without its carry. */
  function Sum2(i: nat, j: nat): nat {
    (i + j) % 2
  }

  lemma XorBit(x: nat, y: nat, i: nat, j: nat)
    requires i < 2 && j < 2
    ensures Xor(2 * x + i, 2 * y + j) == 2 * Xor(x, y) + Sum2(i, j)
  {
    hide Xor;
    XorHalves(2 * x + i, 2 * y + j);
    assert (2 * x + i) / 2 == x && (2 * y + j) / 2 == y;
  }

  lemma XorFour(x: nat, y: nat, i3: nat, i2: nat, i1: nat, i0: nat, j3: nat, j2: nat, j1: nat, j0: nat)
    requires i3 < 2 && i2 < 2 && i1 < 2 && i0 < 2 && j3 < 2 && j2 < 2 && j1 < 2 && j0 < 2
    ensures Xor(16 * x + (8 * i3 + 4 * i2 + 2 * i1 + i0), 16 * y + (8 * j3 + 4 * j2 + 2 * j1 + j0))
         == 16 * Xor(x, y) + (8 * Sum2(i3, j3) + 4 * Sum2(i2, j2) + 2 * Sum2(i1, j1) + Sum2(i0, j0))
  {
    hide Xor, Sum2;
    var x3, y3 := 2 * x + i3, 2 * y + j3;
    var x2, y2 := 2 * x3 + i2, 2 * y3 + j2;
    var x1, y1 := 2 * x2 + i1, 2 * y2 + j1;
    XorBit(x, y, i3, j3);
    XorBit(x3, y3, i2, j2);
    XorBit(x2, y2, i1, j1);
    XorBit(x1, y1, i0, j0);
  }

  /** What is left of a digit below the bit of weight `b`. */
  function Below(i: nat, b: nat): nat {
    if i >= b then i - b else i
  }

  /** Whether exactly one of two digits has the bit of weight `b`, the bits above gone. */
  function Either(i: nat, j: nat, b: nat): nat {
    if (i >= b) == (j >= b) then 0 else b
  }

  /** Exclusive or of two hexadecimal digits. */
  function Digit(i: nat, j: nat): nat {
    var i2, j2 := Below(i, 8), Below(j, 8);
    var i1, j1 := Below(i2, 4), Below(j2, 4);
    Either(i, j, 8) + Either(i2, j2, 4) + Either(i1, j1, 2) + Either(Below(i1, 2), Below(j1, 2), 1)
  }

  lemma EitherIs(i: nat, j: nat, b: nat)
    requires 0 < b && i < 2 * b && j < 2 * b
    ensures var p, q := if i >= b then 1 else 0, if j >= b then 1 else 0;
      i == b * p + Below(i, b) && j == b * q + Below(j, b) && Below(i, b) < b && Below(j, b) < b
      && Either(i, j, b) == b * Sum2(p, q)
  {
  }

  lemma XorDigit(x: nat, y: nat, i: nat, j: nat)
    requires i < 16 && j < 16
    ensures Xor(16 * x + i, 16 * y + j) == 16 * Xor(x, y) + Digit(i, j)
  {
    hide Xor, Sum2, Below, Either;
    var i2, j2 := Below(i, 8), Below(j, 8);
    var i1, j1 := Below(i2, 4), Below(j2, 4);
    EitherIs(i, j, 8);
    EitherIs(i2, j2, 4);
    EitherIs(i1, j1, 2);
    EitherIs(Below(i1, 2), Below(j1, 2), 1);
    XorFour(x, y, if i >= 8 then 1 else 0, if i2 >= 4 then 1 else 0, if i1 >= 2 then 1 else 0, Below(i1, 2),
            if j >= 8 then 1 else 0, if j2 >= 4 then 1 else 0, if j1 >= 2 then 1 else 0, Below(j1, 2));
  }

  lemma XorFourDigits(x: nat, y: nat, d: nat, c: nat, b: nat, a: nat, d': nat, c': nat, b': nat, a': nat)
    requires d < 16 && c < 16 && b < 16 && a < 16 && d' < 16 && c' < 16 && b' < 16 && a' < 16
    ensures Xor(0x1_0000 * x + (0x1000 * d + 0x100 * c + 0x10 * b + a),
                0x1_0000 * y + (0x1000 * d' + 0x100 * c' + 0x10 * b' + a'))
         == 0x1_0000 * Xor(x, y)
          + (0x1000 * Digit(d, d') + 0x100 * Digit(c, c') + 0x10 * Digit(b, b') + Digit(a, a'))
  {
    hide Xor, Digit;
    var x1, y1 := 16 * x + d, 16 * y + d';
    var x2, y2 := 16 * x1 + c, 16 * y1 + c';
    var x3, y3 := 16 * x2 + b, 16 * y2 + b';
    XorDigit(x, y, d, d');
    XorDigit(x1, y1, c, c');
    XorDigit(x2, y2, b, b');
    XorDigit(x3, y3, a, a');
  }

  /** The number with these eight digits. */
  function Hex(h: nat, g: nat, f: nat, e: nat, d: nat, c: nat, b: nat, a: nat): nat {
    0x1_0000 * (0x1000 * h + 0x100 * g + 0x10 * f + e) + (0x1000 * d + 0x100 * c + 0x10 * b + a)
  }

  lemma XorHex(h: nat, g: nat, f: nat, e: nat, d: nat, c: nat, b: nat, a: nat,
               h': nat, g': nat, f': nat, e': nat, d': nat, c': nat, b': nat, a': nat)
    requires h < 16 && g < 16 && f < 16 && e < 16 && d < 16 && c < 16 && b < 16 && a < 16
    requires h' < 16 && g' < 16 && f' < 16 && e' < 16 && d' < 16 && c' < 16 && b' < 16 && a' < 16
    ensures Xor(Hex(h, g, f, e, d, c, b, a), Hex(h', g', f', e', d', c', b', a'))
         == Hex(Digit(h, h'), Digit(g, g'), Digit(f, f'), Digit(e, e'), Digit(d, d'), Digit(c, c'), Digit(b, b'),
                Digit(a, a'))
  {
    hide Xor, Digit;
    XorNone();
    XorFourDigits(0, 0, h, g, f, e, h', g', f', e');
    XorFourDigits(0x1000 * h + 0x100 * g + 0x10 * f + e, 0x1000 * h' + 0x100 * g' + 0x10 * f' + e',
                  d, c, b, a, d', c', b', a');
  }

  lemma XorNone()
    ensures Xor(0, 0) == 0
  {
  }

  /** The top `s` bits of a word, and the rest, change places. */
  lemma RolIs(w: u32, s: nat, p: nat, q: nat, hi: nat, lo: nat)
    requires 0 < s < 32 && Pow2(s) == p && Pow2(32 - s) == q
    requires w == hi * q + lo && lo < q
    ensures Rol(w, s) == lo * p + hi
  {
    hide Pow2, Rol;
    RolParts(w, s);
    assert q * hi == hi * q;
    RemainderIs(w, q, hi, lo);
  }

  lemma Powers()
    ensures Pow2(4) == 0x10 && Pow2(6) == 0x40 && Pow2(8) == 0x100 && Pow2(11) == 0x800 && Pow2(13) == 0x2000
    ensures Pow2(14) == 0x4000 && Pow2(16) == 0x1_0000 && Pow2(18) == 0x4_0000 && Pow2(19) == 0x8_0000
    ensures Pow2(7) == 0x80 && Pow2(21) == 0x20_0000 && Pow2(24) == 0x100_0000 && Pow2(25) == 0x200_0000
    ensures Pow2(26) == 0x400_0000 && Pow2(28) == 0x1000_0000
  {
    assert Pow2(8) == 0x100;
    assert Pow2(16) == 0x1_0000;
    assert Pow2(24) == 0x100_0000;
  }

  lemma MixLineIs(a: u32, b: u32, c: u32, s: nat, r: u32, z: u32)
    requires 0 < s < 32 && Rol(c, s) == r && Xor((a - c) % 0x1_0000_0000, r) == z
    ensures MixLine(Abc(a, b, c), s) == Abc(z, b, (c + b) % 0x1_0000_0000)
  {
    hide Rol, Xor;
  }

  lemma FinalLineIs(x: u32, y: u32, s: nat, r: u32, z: u32)
    requires 0 < s < 32 && Rol(y, s) == r && Xor(x, y) == z
    ensures FinalLine(x, y, s) == (z - r) % 0x1_0000_0000
  {
    hide Rol, Xor;
  }

  // ---- the mixing, line by line ----

  lemma Round1Line1()
    ensures Turn(MixLine(Abc(0x51232e53, 0x4e11322d, 0x3fce247f), 4)) == Abc(0x4e11322d, 0x8ddf56ac, 0xedb74e27)
  {
    hide MixLine, Xor, Rol, Pow2;
    Powers();
    RolIs(0x3fce247f, 4, 0x00000010, 0x10000000, 0x00000003, 0x0fce247f);
    XorHex(1, 1, 5, 5, 0, 9, 0xd, 4,
           0xf, 0xc, 0xe, 2, 4, 7, 0xf, 3);
    MixLineIs(0x51232e53, 0x4e11322d, 0x3fce247f, 4, 0xfce247f3, 0xedb74e27);
  }

  lemma Round1Line2()
    ensures Turn(MixLine(Abc(0x4e11322d, 0x8ddf56ac, 0xedb74e27), 6)) == Abc(0x8ddf56ac, 0x7b96a4d3, 0x0d8a6dfd)
  {
    hide MixLine, Xor, Rol, Pow2;
    Powers();
    RolIs(0xedb74e27, 6, 0x00000040, 0x04000000, 0x0000003b, 0x01b74e27);
    XorHex(6, 0, 5, 9, 0xe, 4, 0, 6,
           6, 0xd, 0xd, 3, 8, 9, 0xf, 0xb);
    MixLineIs(0x4e11322d, 0x8ddf56ac, 0xedb74e27, 6, 0x6dd389fb, 0x0d8a6dfd);
  }

  lemma Round1Line3()
    ensures Turn(MixLine(Abc(0x8ddf56ac, 0x7b96a4d3, 0x0d8a6dfd), 8)) == Abc(0x7b96a4d3, 0x892112d0, 0x0a3915a2)
  {
    hide MixLine, Xor, Rol, Pow2;
    Powers();
    RolIs(0x0d8a6dfd, 8, 0x00000100, 0x01000000, 0x0000000d, 0x008a6dfd);
    XorHex(8, 0, 5, 4, 0xe, 8, 0xa, 0xf,
           8, 0xa, 6, 0xd, 0xf, 0xd, 0, 0xd);
    MixLineIs(0x8ddf56ac, 0x7b96a4d3, 0x0d8a6dfd, 8, 0x8a6dfd0d, 0x0a3915a2);
  }

  lemma Round1Line4()
    ensures Turn(MixLine(Abc(0x7b96a4d3, 0x892112d0, 0x0a3915a2), 16)) == Abc(0x892112d0, 0x935a2872, 0x64ff8508)
  {
    hide MixLine, Xor, Rol, Pow2;
    Powers();
    RolIs(0x0a3915a2, 16, 0x00010000, 0x00010000, 0x00000a39, 0x000015a2);
    XorHex(7, 1, 5, 0xd, 8, 0xf, 3, 1,
           1, 5, 0xa, 2, 0, 0xa, 3, 9);
    MixLineIs(0x7b96a4d3, 0x892112d0, 0x0a3915a2, 16, 0x15a20a39, 0x64ff8508);
  }

  lemma Round1Line5()
    ensures Turn(MixLine(Abc(0x892112d0, 0x935a2872, 0x64ff8508), 19)) == Abc(0x935a2872, 0xf859ad7a, 0x0c62aa34)
  {
    hide MixLine, Xor, Rol, Pow2;
    Powers();
    RolIs(0x64ff8508, 19, 0x00080000, 0x00002000, 0x000327fc, 0x00000508);
    XorHex(2, 4, 2, 1, 8, 0xd, 0xc, 8,
           2, 8, 4, 3, 2, 7, 0xf, 0xc);
    MixLineIs(0x892112d0, 0x935a2872, 0x64ff8508, 19, 0x284327fc, 0x0c62aa34);
  }

  lemma Round1Line6()
    ensures Turn(MixLine(Abc(0x935a2872, 0xf859ad7a, 0x0c62aa34), 4)) == Abc(0xf859ad7a, 0x04bc57ae, 0x40dddd7e)
  {
    hide MixLine, Xor, Rol, Pow2;
    Powers();
    RolIs(0x0c62aa34, 4, 0x00000010, 0x10000000, 0x00000000, 0x0c62aa34);
    XorHex(8, 6, 0xf, 7, 7, 0xe, 3, 0xe,
           0xc, 6, 2, 0xa, 0xa, 3, 4, 0);
    MixLineIs(0x935a2872, 0xf859ad7a, 0x0c62aa34, 4, 0xc62aa340, 0x40dddd7e);
  }

  /** The first block is mixed in. */
  lemma Round1()
    ensures Lines(Abc(0x51232e53, 0x4e11322d, 0x3fce247f), 6) == Abc(0xf859ad7a, 0x04bc57ae, 0x40dddd7e)
  {
    hide MixLine;
    Round1Line1();
    Round1Line2();
    Round1Line3();
    Round1Line4();
    Round1Line5();
    Round1Line6();
    LinesStep(Abc(0x51232e53, 0x4e11322d, 0x3fce247f));
  }

  lemma Round2Line1()
    ensures Turn(MixLine(Abc(0x6b7a11e8, 0x7321ce13, 0xa243569e), 4)) == Abc(0x7321ce13, 0x156524b1, 0xed03d2a0)
  {
    hide MixLine, Xor, Rol, Pow2;
    Powers();
    RolIs(0xa243569e, 4, 0x00000010, 0x10000000, 0x0000000a, 0x0243569e);
    XorHex(0xc, 9, 3, 6, 0xb, 0xb, 4, 0xa,
           2, 4, 3, 5, 6, 9, 0xe, 0xa);
    MixLineIs(0x6b7a11e8, 0x7321ce13, 0xa243569e, 4, 0x243569ea, 0xed03d2a0);
  }

  lemma Round2Line2()
    ensures Turn(MixLine(Abc(0x7321ce13, 0x156524b1, 0xed03d2a0), 6)) == Abc(0x156524b1, 0x0268f751, 0xc6e95348)
  {
    hide MixLine, Xor, Rol, Pow2;
    Powers();
    RolIs(0xed03d2a0, 6, 0x00000040, 0x04000000, 0x0000003b, 0x0103d2a0);
    XorHex(8, 6, 1, 0xd, 0xf, 0xb, 7, 3,
           4, 0, 0xf, 4, 0xa, 8, 3, 0xb);
    MixLineIs(0x7321ce13, 0x156524b1, 0xed03d2a0, 6, 0x40f4a83b, 0xc6e95348);
  }

  lemma Round2Line3()
    ensures Turn(MixLine(Abc(0x156524b1, 0x0268f751, 0xc6e95348), 8)) == Abc(0x0268f751, 0xc9524a99, 0xa72899af)
  {
    hide MixLine, Xor, Rol, Pow2;
    Powers();
    RolIs(0xc6e95348, 8, 0x00000100, 0x01000000, 0x000000c6, 0x00e95348);
    XorHex(4, 0xe, 7, 0xb, 0xd, 1, 6, 9,
           0xe, 9, 5, 3, 4, 8, 0xc, 6);
    MixLineIs(0x156524b1, 0x0268f751, 0xc6e95348, 8, 0xe95348c6, 0xa72899af);
  }

  lemma Round2Line4()
    ensures Turn(MixLine(Abc(0x0268f751, 0xc9524a99, 0xa72899af), 16)) == Abc(0xc9524a99, 0x707ae448, 0xc2effa8a)
  {
    hide MixLine, Xor, Rol, Pow2;
    Powers();
    RolIs(0xa72899af, 16, 0x00010000, 0x00010000, 0x0000a728, 0x000099af);
    XorHex(5, 0xb, 4, 0, 5, 0xd, 0xa, 2,
           9, 9, 0xa, 0xf, 0xa, 7, 2, 8);
    MixLineIs(0x0268f751, 0xc9524a99, 0xa72899af, 16, 0x99afa728, 0xc2effa8a);
  }

  lemma Round2Line5()
    ensures Turn(MixLine(Abc(0xc9524a99, 0x707ae448, 0xc2effa8a), 19)) == Abc(0x707ae448, 0x336aded2, 0xd2344770)
  {
    hide MixLine, Xor, Rol, Pow2;
    Powers();
    RolIs(0xc2effa8a, 19, 0x00080000, 0x00002000, 0x0006177f, 0x00001a8a);
    XorHex(0, 6, 6, 2, 5, 0, 0, 0xf,
           0xd, 4, 5, 6, 1, 7, 7, 0xf);
    MixLineIs(0xc9524a99, 0x707ae448, 0xc2effa8a, 19, 0xd456177f, 0xd2344770);
  }

  lemma Round2Line6()
    ensures Turn(MixLine(Abc(0x707ae448, 0x336aded2, 0xd2344770), 4)) == Abc(0x336aded2, 0x059f2642, 0xbd02ebd5)
  {
    hide MixLine, Xor, Rol, Pow2;
    Powers();
    RolIs(0xd2344770, 4, 0x00000010, 0x10000000, 0x0000000d, 0x02344770);
    XorHex(9, 0xe, 4, 6, 9, 0xc, 0xd, 8,
           2, 3, 4, 4, 7, 7, 0, 0xd);
    MixLineIs(0x707ae448, 0x336aded2, 0xd2344770, 4, 0x2344770d, 0xbd02ebd5);
  }

  /** The second block is mixed in. */
  lemma Round2()
    ensures Lines(Abc(0x6b7a11e8, 0x7321ce13, 0xa243569e), 6) == Abc(0x336aded2, 0x059f2642, 0xbd02ebd5)
  {
    hide MixLine;
    Round2Line1();
    Round2Line2();
    Round2Line3();
    Round2Line4();
    Round2Line5();
    Round2Line6();
    LinesStep(Abc(0x6b7a11e8, 0x7321ce13, 0xa243569e));
  }

  lemma FinalLine1()
    ensures FinalLine(0xbd02ebd5, 0x059f95a9, 14) == 0xd3333d15
  {
    hide FinalLine, Xor, Rol, Pow2;
    Powers();
    RolIs(0x059f95a9, 14, 0x00004000, 0x00040000, 0x00000167, 0x000395a9);
    XorHex(0xb, 0xd, 0, 2, 0xe, 0xb, 0xd, 5,
           0, 5, 9, 0xf, 9, 5, 0xa, 9);
    FinalLineIs(0xbd02ebd5, 0x059f95a9, 14, 0xe56a4167, 0xb89d7e7c);
  }

  lemma FinalLine2()
    ensures FinalLine(0x948b5244, 0xd3333d15, 11) == 0xadcfc0b8
  {
    hide FinalLine, Xor, Rol, Pow2;
    Powers();
    RolIs(0xd3333d15, 11, 0x00000800, 0x00200000, 0x00000699, 0x00133d15);
    XorHex(9, 4, 8, 0xb, 5, 2, 4, 4,
           0xd, 3, 3, 3, 3, 0xd, 1, 5);
    FinalLineIs(0x948b5244, 0xd3333d15, 11, 0x99e8ae99, 0x47b86f51);
  }

  lemma FinalLine3()
    ensures FinalLine(0x059f95a9, 0xadcfc0b8, 25) == 0x36f4b590
  {
    hide FinalLine, Xor, Rol, Pow2;
    Powers();
    RolIs(0xadcfc0b8, 25, 0x02000000, 0x00000080, 0x015b9f81, 0x00000038);
    XorHex(0, 5, 9, 0xf, 9, 5, 0xa, 9,
           0xa, 0xd, 0xc, 0xf, 0xc, 0, 0xb, 8);
    FinalLineIs(0x059f95a9, 0xadcfc0b8, 25, 0x715b9f81, 0xa8505511);
  }

  lemma FinalLine4()
    ensures FinalLine(0xd3333d15, 0x36f4b590, 16) == 0x30375191
  {
    hide FinalLine, Xor, Rol, Pow2;
    Powers();
    RolIs(0x36f4b590, 16, 0x00010000, 0x00010000, 0x000036f4, 0x0000b590);
    XorHex(0xd, 3, 3, 3, 3, 0xd, 1, 5,
           3, 6, 0xf, 4, 0xb, 5, 9, 0);
    FinalLineIs(0xd3333d15, 0x36f4b590, 16, 0xb59036f4, 0xe5c78885);
  }

  lemma FinalLine5()
    ensures FinalLine(0xadcfc0b8, 0x30375191, 4) == 0x9a837816
  {
    hide FinalLine, Xor, Rol, Pow2;
    Powers();
    RolIs(0x30375191, 4, 0x00000010, 0x10000000, 0x00000003, 0x00375191);
    XorHex(0xa, 0xd, 0xc, 0xf, 0xc, 0, 0xb, 8,
           3, 0, 3, 7, 5, 1, 9, 1);
    FinalLineIs(0xadcfc0b8, 0x30375191, 4, 0x03751913, 0x9df89129);
  }

  lemma FinalLine6()
    ensures FinalLine(0x36f4b590, 0x9a837816, 14) == 0xce7226e6
  {
    hide FinalLine, Xor, Rol, Pow2;
    Powers();
    RolIs(0x9a837816, 14, 0x00004000, 0x00040000, 0x000026a0, 0x00037816);
    XorHex(3, 6, 0xf, 4, 0xb, 5, 9, 0,
           9, 0xa, 8, 3, 7, 8, 1, 6);
    FinalLineIs(0x36f4b590, 0x9a837816, 14, 0xde05a6a0, 0xac77cd86);
  }

  lemma FinalLine7()
    ensures FinalLine(0x30375191, 0xce7226e6, 24) == 0x17770551
  {
    hide FinalLine, Xor, Rol, Pow2;
    Powers();
    RolIs(0xce7226e6, 24, 0x01000000, 0x00000100, 0x00ce7226, 0x000000e6);
    XorHex(3, 0, 3, 7, 5, 1, 9, 1,
           0xc, 0xe, 7, 2, 2, 6, 0xe, 6);
    FinalLineIs(0x30375191, 0xce7226e6, 24, 0xe6ce7226, 0xfe457777);
  }

  lemma LastRound()
    ensures Final(Abc(0x948b5244, 0x059f95a9, 0xbd02ebd5)) == 0x17770551
  {
    hide FinalLine;
    FinalLine1();
    FinalLine2();
    FinalLine3();
    FinalLine4();
    FinalLine5();
    FinalLine6();
    FinalLine7();
  }

  // ---- the key ----

  /** "Four score and seven years ago" */
  const KEY: seq<byte> := [
    70, 111, 117, 114, 32, 115, 99, 111, 114, 101, 32, 97, 110, 100, 32,
    115, 101, 118, 101, 110, 32, 121, 101, 97, 114, 115, 32, 97, 103, 111]

  lemma Prepend(a: byte, b: byte, c: byte, d: byte, rest: seq<byte>)
    requires rest != []
    ensures Words([a, b, c, d] + rest) == [a + 0x100 * b + 0x1_0000 * c + 0x100_0000 * d] + Words(rest)
  {
    hide Words;
    var k := [a, b, c, d] + rest;
    WordsStep(k);
    assert k[4..] == rest;
  }

  lemma TwoBytes(a: byte, b: byte)
    ensures Words([a, b]) == [a + 0x100 * b]
  {
    assert [a, b] + [0, 0] == [a, b, 0, 0];
    assert Shifted(0, 2) == 0 && Shifted(0, 3) == 0;
  }

  lemma TailIsWords()
    ensures |KEY| == 30 && KEY[16..] != [] && Words(KEY[16..]) == [0x6e657665, 0x61657920, 0x61207372, 0x00006f67]
  {
    hide Words;
    var k3: seq<byte> := [103, 111];
    var k2 := [114, 115, 32, 97] + k3;
    var k1 := [32, 121, 101, 97] + k2;
    assert KEY[16..] == [101, 118, 101, 110] + k1;
    TwoBytes(103, 111);
    Prepend(114, 115, 32, 97, k3);
    Prepend(32, 121, 101, 97, k2);
    Prepend(101, 118, 101, 110, k1);
  }

  /** Little-endian words, the last two bytes filled up with zeros. */
  lemma KeyIsWords()
    ensures |KEY| == 30 && Words(KEY)
         == [0x72756f46, 0x6f637320, 0x61206572, 0x7320646e, 0x6e657665, 0x61657920, 0x61207372, 0x00006f67]
  {
    hide Words;
    TailIsWords();
    var k3 := [110, 100, 32, 115] + KEY[16..];
    var k2 := [114, 101, 32, 97] + k3;
    var k1 := [32, 115, 99, 111] + k2;
    assert KEY == [70, 111, 117, 114] + k1;
    Prepend(110, 100, 32, 115, KEY[16..]);
    Prepend(114, 101, 32, 97, k3);
    Prepend(32, 115, 99, 111, k2);
    Prepend(70, 111, 117, 114, k1);
  }

  lemma Block(w: seq<u32>, s: Abc)
    requires |w| > 3
    ensures HashWords(w, s) == HashWords(w[3..], Lines(Abc(Add(s.a, w[0]), Add(s.b, w[1]), Add(s.c, w[2])), 6))
  {
  }

  lemma TwoLast(w: seq<u32>, s: Abc)
    requires |w| == 2
    ensures HashWords(w, s) == Final(Abc(Add(s.a, w[0]), Add(s.b, w[1]), s.c))
  {
  }

  /** The value published for this hash, at a key of two blocks and a tail of six bytes. */
  lemma FourScore()
    ensures HashWords(Words(KEY), Start(|KEY|, 0)) == 0x17770551
  {
    hide HashWords, Lines, Final, Words;
    KeyIsWords();
    var w := Words(KEY);
    var s := Start(30, 0);
    assert s == Abc(0xdeadbf0d, 0xdeadbf0d, 0xdeadbf0d);
    Block(w, s);
    Round1();
    Block(w[3..], Abc(0xf859ad7a, 0x04bc57ae, 0x40dddd7e));
    Round2();
    assert w[3..][3..] == [0x61207372, 0x00006f67];
    TwoLast(w[3..][3..], Abc(0x336aded2, 0x059f2642, 0xbd02ebd5));
    LastRound();
  }

  /** The byte loop on that key. */
  method HashFourScore() returns (c: u32)
    ensures c == 0x17770551
  {
    FourScore();
    c := JhashBytes(KEY, 0);
  }
}
