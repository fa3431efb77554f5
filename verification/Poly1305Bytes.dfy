/** Between bytes and limbs: loading the key and a block, and the final
    reduction and addition of the pad. */
module Poly1305Bytes {
  import opened Bytes
  import opened Bits
  import opened Poly1305Arithmetic

  lemma Pow2Values()
    ensures Pow2(2) == 4 && Pow2(4) == 0x10 && Pow2(6) == 0x40 && Pow2(8) == 0x100 && Pow2(12) == 0x1000
    ensures Pow2(14) == 0x4000 && Pow2(16) == 0x1_0000 && Pow2(18) == 0x4_0000 && Pow2(20) == 0x10_0000
    ensures Pow2(24) == 0x100_0000 && Pow2(26) == LIMB
  {
  }

  lemma Pow2Of32()
    ensures Pow2(32) == 0x1_0000_0000
  {
    Pow2Values();
    assert Pow2(28) == 4 * Pow2(26);
    assert Pow2(30) == 4 * Pow2(28);
    assert Pow2(32) == 4 * Pow2(30);
  }

  lemma MaskIsMod(x: nat, n: nat, p: nat)
    requires p == Pow2(n)
    ensures And(x, p - 1) == x % p
  {
    MaskLow(x, n);
  }

  lemma ShiftIsDiv(x: nat, n: nat, p: nat)
    requires p == Pow2(n)
    ensures Shr(x, n) == x / p && Low(x, n) == x % p
  {
    ShrIsDiv(x, n);
  }

  lemma OrIsAdd(lo: nat, n: nat, p: nat, hi: nat)
    requires p == Pow2(n) && lo < p
    ensures Or(lo, Shl(hi, n)) == lo + p * hi
  {
    OrDisjoint(lo, n, hi);
    ShlIsTimes(hi, n);
  }

  /** x & 0x3ffffff and x >> 26. */
  function Lo26(x: nat): (r: nat)
    ensures r == Lo(x)
  {
    Pow2Values();
    MaskIsMod(x, 26, LIMB);
    And(x, LIMB - 1)
  }

  function Hi26(x: nat): (r: nat)
    ensures r == Hi(x)
  {
    Pow2Values();
    ShiftIsDiv(x, 26, LIMB);
    Shr(x, 26)
  }

  function FourBytes(a: nat, b: nat, c: nat, d: nat): nat
  {
    a + 0x100 * b + 0x1_0000 * c + 0x100_0000 * d
  }

  lemma OrFour(a: nat, b: nat, c: nat, d: nat)
    requires a < 0x100 && b < 0x100 && c < 0x100 && d < 0x100
    ensures Or(Or(Or(a, Shl(b, 8)), Shl(c, 16)), Shl(d, 24)) == FourBytes(a, b, c, d) < 0x1_0000_0000
  {
    hide Or, Shl, Pow2;
    Pow2Values();
    OrIsAdd(a, 8, 0x100, b);
    OrIsAdd(a + 0x100 * b, 16, 0x1_0000, c);
    OrIsAdd(a + 0x100 * b + 0x1_0000 * c, 24, 0x100_0000, d);
  }

  /** Four bytes as a little-endian word, assembled with shifts and ors. */
  function U8To32(p: seq<byte>): (w: u32)
    requires |p| == 4
    ensures w == FourBytes(p[0], p[1], p[2], p[3])
  {
    hide Or, Shl, FourBytes;
    OrFour(p[0], p[1], p[2], p[3]);
    Or(Or(Or(p[0], Shl(p[1], 8)), Shl(p[2], 16)), Shl(p[3], 24))
  }

  lemma {:induction false} LittleEndianAppend(a: seq<byte>, b: seq<byte>)
    ensures LittleEndian(a + b) == LittleEndian(a) + Pow256(|a|) * LittleEndian(b)
  {
    hide LittleEndian, Pow256;
    if a == [] {
      assert a + b == b;
      LittleEndianNone();
    } else {
      assert (a + b)[1..] == a[1..] + b;
      LittleEndianAppend(a[1..], b);
      LittleEndianStep(a + b);
      LittleEndianStep(a);
      Pow256Step(|a|);
      ScaleUp(LittleEndian(a[1..]), Pow256(|a| - 1), LittleEndian(b));
    }
  }

  lemma LittleEndianNone()
    ensures LittleEndian([]) == 0 && Pow256(0) == 1
  {
  }

  lemma LittleEndianStep(s: seq<byte>)
    requires s != []
    ensures LittleEndian(s) == s[0] + 0x100 * LittleEndian(s[1..])
  {
  }

  lemma Pow256Step(n: nat)
    requires n > 0
    ensures Pow256(n) == 0x100 * Pow256(n - 1)
  {
  }

  lemma ScaleUp(x: nat, p: nat, y: nat)
    ensures 0x100 * (x + p * y) == 0x100 * x + (0x100 * p) * y
  {
  }

  lemma LittleEndianWord(p: seq<byte>, rest: seq<byte>)
    requires |p| == 4
    ensures LittleEndian(p + rest) == FourBytes(p[0], p[1], p[2], p[3]) + 0x1_0000_0000 * LittleEndian(rest)
  {
    LittleEndianAppend(p, rest);
    assert Pow256(4) == 0x1_0000_0000;
    assert LittleEndian(p) == p[0] + 0x100 * LittleEndian(p[1..]);
    assert LittleEndian(p[1..]) == p[1] + 0x100 * LittleEndian(p[2..]) by { assert p[1..][1..] == p[2..]; }
    assert LittleEndian(p[2..]) == p[2] + 0x100 * LittleEndian(p[3..]) by { assert p[2..][1..] == p[3..]; }
    assert LittleEndian(p[3..]) == p[3] by { assert p[3..][1..] == []; }
  }

  function Number16(b: seq<nat>): nat
    requires |b| == 16
  {
    FourBytes(b[0], b[1], b[2], b[3]) + 0x1_0000_0000 * FourBytes(b[4], b[5], b[6], b[7])
    + 0x1_0000_0000_0000_0000 * FourBytes(b[8], b[9], b[10], b[11])
    + 0x1_0000_0000_0000_0000_0000_0000 * FourBytes(b[12], b[13], b[14], b[15])
  }

  lemma SplitWord(p: seq<byte>, i: nat)
    requires i + 4 <= |p|
    ensures LittleEndian(p[i..])
         == FourBytes(p[i], p[i + 1], p[i + 2], p[i + 3]) + 0x1_0000_0000 * LittleEndian(p[i + 4..])
  {
    assert p[i..] == p[i..i + 4] + p[i + 4..];
    LittleEndianWord(p[i..i + 4], p[i + 4..]);
  }

  lemma LittleEndian16(p: seq<byte>)
    requires |p| == 16
    ensures LittleEndian(p) == Number16(p)
  {
    SplitWord(p, 0);
    SplitWord(p, 4);
    SplitWord(p, 8);
    SplitWord(p, 12);
    assert p[0..] == p && p[16..] == [];
  }

  // ---------------------------------------------------------------------
  // Loading a block

  lemma Shifts(x: nat)
    ensures Shr(x, 2) == x / 4 && Shr(x, 4) == x / 0x10 && Shr(x, 6) == x / 0x40 && Shr(x, 8) == x / 0x100
  {
    Pow2Values();
    ShiftIsDiv(x, 2, 4); ShiftIsDiv(x, 4, 0x10); ShiftIsDiv(x, 6, 0x40); ShiftIsDiv(x, 8, 0x100);
  }

  lemma OrHibit(x: nat, hibit: nat)
    requires x < 0x100_0000 && (hibit == 0 || hibit == 0x100_0000)
    ensures Or(x, hibit) == x + hibit
  {
    Pow2Values();
    OrIsAdd(x, 24, 0x100_0000, hibit / 0x100_0000);
    ShlIsTimes(hibit / 0x100_0000, 24);
  }

  lemma CutAt2(a: nat, b: nat, c: nat, d: nat)
    requires a < 0x100 && b < 0x100 && c < 0x100 && d < 0x100
    ensures FourBytes(a, b, c, d) % LIMB == FourBytes(a, b, c, d % 4)
    ensures var x := FourBytes(a, b, c, d) / 4;
      && x % LIMB == a / 4 + 0x40 * b + 0x4000 * c + 0x40_0000 * (d % 16)
      && x % 4 + 4 * (0x40 * (x / 4 / 0x40 % 0x4_0000))
         == a / 4 % 4 + 0x100 * (b / 4) + 0x4000 * c + 0x40_0000 * (d % 16)
  {
    hide FourBytes;
    Parts(a, 4);
    Parts(d, 4);
    LowAt2(a, b, c, d / 4, d % 4);
    ShiftAt2(a / 4, a % 4, b, c, d);
    RestAt2(a / 4, b, c, d);
  }

  lemma Parts(x: nat, n: nat)
    requires n > 0
    ensures x == n * (x / n) + x % n
  {
  }

  lemma RestAt2(a: nat, b: nat, c: nat, d: nat)
    requires a < 0x40 && b < 0x100 && c < 0x100 && d < 0x100
    ensures var x := a + 0x40 * b + 0x4000 * c + 0x40_0000 * d;
      && x % LIMB == a + 0x40 * b + 0x4000 * c + 0x40_0000 * (d % 16)
      && x % 4 + 4 * (0x40 * (x / 4 / 0x40 % 0x4_0000)) == a % 4 + 0x100 * (b / 4) + 0x4000 * c + 0x40_0000 * (d % 16)
  {
    Parts(d, 16);
    LimbAt2(a, b, c, d / 16, d % 16);
    GapAt2(a / 4, a % 4, b / 4, b % 4, c, d / 16, d % 16);
  }

  lemma LowAt2(a: nat, b: nat, c: nat, d1: nat, d0: nat)
    requires a < 0x100 && b < 0x100 && c < 0x100 && d0 < 4
    ensures FourBytes(a, b, c, 4 * d1 + d0) % LIMB == FourBytes(a, b, c, d0)
  {
    DivMod(FourBytes(a, b, c, 4 * d1 + d0), d1, FourBytes(a, b, c, d0), LIMB);
  }

  lemma ShiftAt2(a1: nat, a0: nat, b: nat, c: nat, d: nat)
    requires a0 < 4
    ensures FourBytes(4 * a1 + a0, b, c, d) / 4 == a1 + 0x40 * b + 0x4000 * c + 0x40_0000 * d
  {
    DivMod(FourBytes(4 * a1 + a0, b, c, d), a1 + 0x40 * b + 0x4000 * c + 0x40_0000 * d, a0, 4);
  }

  lemma LimbAt2(a: nat, b: nat, c: nat, d1: nat, d0: nat)
    requires a < 0x40 && b < 0x100 && c < 0x100 && d0 < 16
    ensures (a + 0x40 * b + 0x4000 * c + 0x40_0000 * (16 * d1 + d0)) % LIMB
         == a + 0x40 * b + 0x4000 * c + 0x40_0000 * d0
  {
    DivMod(a + 0x40 * b + 0x4000 * c + 0x40_0000 * (16 * d1 + d0), d1,
           a + 0x40 * b + 0x4000 * c + 0x40_0000 * d0, LIMB);
  }

  lemma GapAt2(a1: nat, a0: nat, b1: nat, b0: nat, c: nat, d1: nat, d0: nat)
    requires a1 < 16 && a0 < 4 && b1 < 0x40 && b0 < 4 && c < 0x100 && d0 < 16
    ensures var x := 4 * a1 + a0 + 0x40 * (4 * b1 + b0) + 0x4000 * c + 0x40_0000 * (16 * d1 + d0);
      x % 4 + 4 * (0x40 * (x / 4 / 0x40 % 0x4_0000)) == a0 + 0x100 * b1 + 0x4000 * c + 0x40_0000 * d0
  {
    var x := 4 * a1 + a0 + 0x40 * (4 * b1 + b0) + 0x4000 * c + 0x40_0000 * (16 * d1 + d0);
    var y := a1 + 16 * (4 * b1 + b0) + 0x1000 * c + 0x10_0000 * (16 * d1 + d0);
    var z := b1 + 0x40 * c + 0x4000 * (16 * d1 + d0);
    DivMod(x, y, a0, 4);
    DivMod(y, z, a1 + 16 * b0, 0x40);
    DivMod(z, d1, b1 + 0x40 * c + 0x4000 * d0, 0x4_0000);
  }

  lemma CutAt4(a: nat, b: nat, c: nat, d: nat)
    requires a < 0x100 && b < 0x100 && c < 0x100 && d < 0x100
    ensures var x := FourBytes(a, b, c, d) / 0x10;
      && x % LIMB == a / 16 + 0x10 * b + 0x1000 * c + 0x10_0000 * (d % 64)
      && x % 0x100 + 0x100 * (0x40 * (x / 0x100 / 0x40 % 0x1000))
         == a / 16 + 0x10 * (b % 16) + 0x4000 * (c / 4) + 0x10_0000 * (d % 64)
  {
    hide FourBytes;
    Parts(a, 16);
    Parts(b, 16);
    Parts(c, 4);
    Parts(d, 64);
    ShiftAt4(a / 16, a % 16, b, c, d);
    LimbAt4(a / 16, b, c, d / 64, d % 64);
    GapAt4(a / 16, b / 16, b % 16, c / 4, c % 4, d / 64, d % 64);
  }

  lemma ShiftAt4(a1: nat, a0: nat, b: nat, c: nat, d: nat)
    requires a0 < 16
    ensures FourBytes(16 * a1 + a0, b, c, d) / 0x10 == a1 + 0x10 * b + 0x1000 * c + 0x10_0000 * d
  {
    DivMod(FourBytes(16 * a1 + a0, b, c, d), a1 + 0x10 * b + 0x1000 * c + 0x10_0000 * d, a0, 0x10);
  }

  lemma LimbAt4(a: nat, b: nat, c: nat, d1: nat, d0: nat)
    requires a < 16 && b < 0x100 && c < 0x100 && d0 < 64
    ensures (a + 0x10 * b + 0x1000 * c + 0x10_0000 * (64 * d1 + d0)) % LIMB
         == a + 0x10 * b + 0x1000 * c + 0x10_0000 * d0
  {
    DivMod(a + 0x10 * b + 0x1000 * c + 0x10_0000 * (64 * d1 + d0), d1,
           a + 0x10 * b + 0x1000 * c + 0x10_0000 * d0, LIMB);
  }

  lemma GapAt4(a: nat, b1: nat, b0: nat, c1: nat, c0: nat, d1: nat, d0: nat)
    requires a < 16 && b1 < 16 && b0 < 16 && c1 < 0x40 && c0 < 4 && d0 < 64
    ensures var x := a + 0x10 * (16 * b1 + b0) + 0x1000 * (4 * c1 + c0) + 0x10_0000 * (64 * d1 + d0);
      x % 0x100 + 0x100 * (0x40 * (x / 0x100 / 0x40 % 0x1000)) == a + 0x10 * b0 + 0x4000 * c1 + 0x10_0000 * d0
  {
    var x := a + 0x10 * (16 * b1 + b0) + 0x1000 * (4 * c1 + c0) + 0x10_0000 * (64 * d1 + d0);
    var y := b1 + 0x10 * (4 * c1 + c0) + 0x1000 * (64 * d1 + d0);
    var z := c1 + 0x40 * (64 * d1 + d0);
    DivMod(x, y, a + 0x10 * b0, 0x100);
    DivMod(y, z, b1 + 0x10 * c0, 0x40);
    DivMod(z, d1, c1 + 0x40 * d0, 0x1000);
  }

  lemma CutAt6(a: nat, b: nat, c: nat, d: nat)
    requires a < 0x100 && b < 0x100 && c < 0x100 && d < 0x100
    ensures var x := FourBytes(a, b, c, d) / 0x40;
      && x % LIMB == a / 64 + 4 * b + 0x400 * c + 0x4_0000 * d
      && x % 0x4000 + 0x4000 * (0x40 * (x / 0x4000 / 0x40 % 0x40))
         == a / 64 + 4 * b + 0x400 * (c % 16) + 0x10_0000 * (d / 4)
  {
    hide FourBytes;
    Parts(a, 64);
    Parts(c, 16);
    Parts(d, 4);
    ShiftAt6(a / 64, a % 64, b, c, d);
    GapAt6(a / 64, b, c / 16, c % 16, d / 4, d % 4);
  }

  lemma ShiftAt6(a1: nat, a0: nat, b: nat, c: nat, d: nat)
    requires a0 < 0x40
    ensures FourBytes(0x40 * a1 + a0, b, c, d) / 0x40 == a1 + 4 * b + 0x400 * c + 0x4_0000 * d
  {
    DivMod(FourBytes(0x40 * a1 + a0, b, c, d), a1 + 4 * b + 0x400 * c + 0x4_0000 * d, a0, 0x40);
  }

  lemma GapAt6(a: nat, b: nat, c1: nat, c0: nat, d1: nat, d0: nat)
    requires a < 4 && b < 0x100 && c1 < 16 && c0 < 16 && d1 < 0x40 && d0 < 4
    ensures var x := a + 4 * b + 0x400 * (16 * c1 + c0) + 0x4_0000 * (4 * d1 + d0);
      && x % LIMB == x
      && x % 0x4000 + 0x4000 * (0x40 * (x / 0x4000 / 0x40 % 0x40)) == a + 4 * b + 0x400 * c0 + 0x10_0000 * d1
  {
    var x := a + 4 * b + 0x400 * (16 * c1 + c0) + 0x4_0000 * (4 * d1 + d0);
    DivMod(x, 0, x, LIMB);
    DivMod(x, c1 + 0x10 * (4 * d1 + d0), a + 4 * b + 0x400 * c0, 0x4000);
    DivMod(c1 + 0x10 * (4 * d1 + d0), d1, c1 + 0x10 * d0, 0x40);
    DivMod(d1, 0, d1, 0x40);
  }

  lemma CutAt8(a: nat, b: nat, c: nat, d: nat)
    requires a < 0x100 && b < 0x100 && c < 0x100 && d < 0x100
    ensures var x := FourBytes(a, b, c, d) / 0x100;
      && x == b + 0x100 * c + 0x1_0000 * d && x < 0x100_0000
      && x % 0x10_0000 == b + 0x100 * c + 0x1_0000 * (d % 16)
  {
    var x := b + 0x100 * c + 0x1_0000 * d;
    DivMod(FourBytes(a, b, c, d), x, a, 0x100);
    DivMod(x, d / 16, b + 0x100 * c + 0x1_0000 * (d % 16), 0x10_0000);
  }

  /** Sixteen bytes cut at 26-bit boundaries. */
  function CutLimbs(b: seq<nat>, hibit: nat): Limbs
    requires |b| == 16
  {
    Limbs(FourBytes(b[0], b[1], b[2], b[3]) % LIMB, FourBytes(b[3], b[4], b[5], b[6]) / 4 % LIMB,
          FourBytes(b[6], b[7], b[8], b[9]) / 0x10 % LIMB, FourBytes(b[9], b[10], b[11], b[12]) / 0x40 % LIMB,
          FourBytes(b[12], b[13], b[14], b[15]) / 0x100 + hibit)
  }

  /** The loads at the top of the block loop. */
  method LoadBlock(m: seq<byte>, hibit: nat) returns (l: Limbs)
    requires |m| == 16 && (hibit == 0 || hibit == 0x100_0000)
    ensures l == CutLimbs(m, hibit)
  {
    hide U8To32, Lo26, Shr, Or, FourBytes;
    var w12 := U8To32(m[12..16]);
    Shifts(U8To32(m[3..7])); Shifts(U8To32(m[6..10])); Shifts(U8To32(m[9..13])); Shifts(w12);
    CutAt8(m[12], m[13], m[14], m[15]);
    OrHibit(Shr(w12, 8), hibit);
    l := Limbs(Lo26(U8To32(m[0..4])), Lo26(Shr(U8To32(m[3..7]), 2)), Lo26(Shr(U8To32(m[6..10]), 4)),
               Lo26(Shr(U8To32(m[9..13]), 6)), Or(Shr(w12, 8), hibit));
  }

  /** The cuts lose nothing. */
  lemma CutBlock(b: seq<nat>, hibit: nat)
    requires |b| == 16 && hibit <= 0x100_0000 && forall i :: 0 <= i < 16 ==> b[i] < 0x100
    ensures AllBelow(CutLimbs(b, hibit), LIMB)
    ensures Value(CutLimbs(b, hibit)) == Number16(b) + X4 * hibit
  {
    CutAt2(b[0], b[1], b[2], b[3]);
    CutAt2(b[3], b[4], b[5], b[6]);
    CutAt4(b[6], b[7], b[8], b[9]);
    CutAt6(b[9], b[10], b[11], b[12]);
    CutAt8(b[12], b[13], b[14], b[15]);
    Joined(b);
  }

  lemma Joined(b: seq<nat>)
    requires |b| == 16
    ensures FourBytes(b[0], b[1], b[2], b[3] % 4)
            + LIMB * (b[3] / 4 + 0x40 * b[4] + 0x4000 * b[5] + 0x40_0000 * (b[6] % 16))
            + X2 * (b[6] / 16 + 0x10 * b[7] + 0x1000 * b[8] + 0x10_0000 * (b[9] % 64))
            + X3 * (b[9] / 64 + 4 * b[10] + 0x400 * b[11] + 0x4_0000 * b[12])
            + X4 * (b[13] + 0x100 * b[14] + 0x1_0000 * b[15])
         == Number16(b)
  {
  }

  lemma BlockValue(m: seq<byte>, hibit: nat)
    requires |m| == 16 && (hibit == 0 || hibit == 0x100_0000)
    ensures AllBelow(CutLimbs(m, hibit), LIMB)
    ensures Value(CutLimbs(m, hibit)) == LittleEndian(m) + (if hibit == 0 then 0 else TWO128)
  {
    CutBlock(m, hibit);
    LittleEndian16(m);
  }

  // ---------------------------------------------------------------------
  // Loading the key

  /** The clamping of r in section 2.5.1 of RFC 8439. */
  function Clamp(k: seq<byte>): (c: seq<byte>)
    requires |k| == 16
    ensures |c| == 16
  {
    [k[0], k[1], k[2], k[3] % 16, k[4] - k[4] % 4, k[5], k[6], k[7] % 16,
     k[8] - k[8] % 4, k[9], k[10], k[11] % 16, k[12] - k[12] % 4, k[13], k[14], k[15] % 16]
  }

  lemma GapMask(x: nat, low: nat, lowP: nat, gap: nat, gapP: nat, width: nat, widthP: nat, mask: nat)
    requires 0 < lowP == Pow2(low) && 0 < gapP == Pow2(gap) && 0 < widthP == Pow2(width)
    requires mask == lowP - 1 + lowP * (gapP * (widthP - 1))
    ensures And(x, mask) == x % lowP + lowP * (gapP * (x / lowP / gapP % widthP))
  {
    hide And, Shl, Shr, Low, Pow2;
    MaskWithGap(x, low, gap, width);
    ShrIsDiv(x, low);
    ShrIsDiv(x / lowP, gap);
    ShrIsDiv(x / lowP / gapP, width);
    var y := x / lowP / gapP % widthP;
    ShlIsTimes(widthP - 1, gap);
    ShlIsTimes(gapP * (widthP - 1), low);
    ShlIsTimes(y, gap);
    ShlIsTimes(gapP * y, low);
  }

  function CutKeyLimbs(k: seq<nat>): Limbs
    requires |k| == 16
  {
    var x1 := FourBytes(k[3], k[4], k[5], k[6]) / 4;
    var x2 := FourBytes(k[6], k[7], k[8], k[9]) / 0x10;
    var x3 := FourBytes(k[9], k[10], k[11], k[12]) / 0x40;
    Limbs(FourBytes(k[0], k[1], k[2], k[3]) % LIMB,
          x1 % 4 + 4 * (0x40 * (x1 / 4 / 0x40 % 0x4_0000)),
          x2 % 0x100 + 0x100 * (0x40 * (x2 / 0x100 / 0x40 % 0x1000)),
          x3 % 0x4000 + 0x4000 * (0x40 * (x3 / 0x4000 / 0x40 % 0x40)),
          FourBytes(k[12], k[13], k[14], k[15]) / 0x100 % 0x10_0000)
  }

  function Mask1(x: nat): (r: nat)
    ensures r == x % 4 + 4 * (0x40 * (x / 4 / 0x40 % 0x4_0000))
  {
    Pow2Values();
    GapMask(x, 2, 4, 6, 0x40, 18, 0x4_0000, 0x3ff_ff03);
    And(x, 0x3ff_ff03)
  }

  function Mask2(x: nat): (r: nat)
    ensures r == x % 0x100 + 0x100 * (0x40 * (x / 0x100 / 0x40 % 0x1000))
  {
    Pow2Values();
    GapMask(x, 8, 0x100, 6, 0x40, 12, 0x1000, 0x3ff_c0ff);
    And(x, 0x3ff_c0ff)
  }

  function Mask3(x: nat): (r: nat)
    ensures r == x % 0x4000 + 0x4000 * (0x40 * (x / 0x4000 / 0x40 % 0x40))
  {
    Pow2Values();
    GapMask(x, 14, 0x4000, 6, 0x40, 6, 0x40, 0x3f0_3fff);
    And(x, 0x3f0_3fff)
  }

  function Mask4(x: nat): (r: nat)
    ensures r == x % 0x10_0000
  {
    Pow2Values();
    MaskIsMod(x, 20, 0x10_0000);
    And(x, 0xf_ffff)
  }

  /** The masked loads of poly1305_init. */
  method LoadKey(k: seq<byte>) returns (l: Limbs)
    requires |k| >= 16
    ensures l == CutKeyLimbs(k[..16])
  {
    hide U8To32, Lo26, Mask1, Mask2, Mask3, Mask4, Shr;
    var w0, w3, w6, w9, w12 := U8To32(k[0..4]), U8To32(k[3..7]), U8To32(k[6..10]), U8To32(k[9..13]), U8To32(k[12..16]);
    Shifts(w3); Shifts(w6); Shifts(w9); Shifts(w12);
    l := Limbs(Lo26(w0), Mask1(Shr(w3, 2)), Mask2(Shr(w6, 4)), Mask3(Shr(w9, 6)), Mask4(Shr(w12, 8)));
  }

  lemma JoinedKey(b: seq<nat>)
    requires |b| == 16
    ensures FourBytes(b[0], b[1], b[2], b[3] % 4)
            + LIMB * (b[3] / 4 % 4 + 0x100 * (b[4] / 4) + 0x4000 * b[5] + 0x40_0000 * (b[6] % 16))
            + X2 * (b[6] / 16 + 0x10 * (b[7] % 16) + 0x4000 * (b[8] / 4) + 0x10_0000 * (b[9] % 64))
            + X3 * (b[9] / 64 + 4 * b[10] + 0x400 * (b[11] % 16) + 0x10_0000 * (b[12] / 4))
            + X4 * (b[13] + 0x100 * b[14] + 0x1_0000 * (b[15] % 16))
         == FourBytes(b[0], b[1], b[2], b[3] % 16) + 0x1_0000_0000 * FourBytes(b[4] - b[4] % 4, b[5], b[6], b[7] % 16)
            + 0x1_0000_0000_0000_0000 * FourBytes(b[8] - b[8] % 4, b[9], b[10], b[11] % 16)
            + 0x1_0000_0000_0000_0000_0000_0000 * FourBytes(b[12] - b[12] % 4, b[13], b[14], b[15] % 16)
  {
    Halves(b[3], b[4], b[6], b[8], b[9], b[12]);
  }

  /** The bytes that a limb boundary or a clamped bit cuts in two. */
  lemma Halves(b3: nat, b4: nat, b6: nat, b8: nat, b9: nat, b12: nat)
    ensures b3 % 16 == b3 % 4 + 4 * (b3 / 4 % 4)
    ensures b4 - b4 % 4 == 4 * (b4 / 4) && b8 - b8 % 4 == 4 * (b8 / 4) && b12 - b12 % 4 == 4 * (b12 / 4)
    ensures b6 == 16 * (b6 / 16) + b6 % 16 && b9 == 64 * (b9 / 64) + b9 % 64
  {
  }

  lemma KeyLimbsAre(b: seq<nat>)
    requires |b| == 16 && forall i :: 0 <= i < 16 ==> b[i] < 0x100
    ensures CutKeyLimbs(b)
         == Limbs(FourBytes(b[0], b[1], b[2], b[3] % 4),
                  b[3] / 4 % 4 + 0x100 * (b[4] / 4) + 0x4000 * b[5] + 0x40_0000 * (b[6] % 16),
                  b[6] / 16 + 0x10 * (b[7] % 16) + 0x4000 * (b[8] / 4) + 0x10_0000 * (b[9] % 64),
                  b[9] / 64 + 4 * b[10] + 0x400 * (b[11] % 16) + 0x10_0000 * (b[12] / 4),
                  b[13] + 0x100 * b[14] + 0x1_0000 * (b[15] % 16))
  {
    hide FourBytes;
    CutAt2(b[0], b[1], b[2], b[3]);
    CutAt2(b[3], b[4], b[5], b[6]);
    CutAt4(b[6], b[7], b[8], b[9]);
    CutAt6(b[9], b[10], b[11], b[12]);
    CutAt8(b[12], b[13], b[14], b[15]);
  }

  lemma CutKey(b: seq<nat>)
    requires |b| == 16 && forall i :: 0 <= i < 16 ==> b[i] < 0x100
    ensures AllBelow(CutKeyLimbs(b), LIMB)
    ensures Value(CutKeyLimbs(b)) == Number16(Clamp(b))
  {
    hide CutKeyLimbs, FourBytes;
    KeyLimbsAre(b);
    JoinedKey(b);
    FourBelow(b[0], b[1], b[2], b[3] % 4);
  }

  lemma FourBelow(a: nat, b: nat, c: nat, d: nat)
    requires a < 0x100 && b < 0x100 && c < 0x100 && d < 4
    ensures FourBytes(a, b, c, d) < LIMB
  {
  }

  /** The five masked loads are the limbs of the clamped r. */
  lemma KeyValue(k: seq<byte>)
    requires |k| == 16
    ensures AllBelow(CutKeyLimbs(k), LIMB)
    ensures Value(CutKeyLimbs(k)) == LittleEndian(Clamp(k))
  {
    CutKey(k);
    LittleEndian16(Clamp(k));
  }

  // ---------------------------------------------------------------------
  // Final reduction

  /** The full carry at the start of finish, for limbs that a block left behind. */
  function FullCarry(h: Limbs): Limbs
  {
    var h2 := h.l2 + Hi(h.l1);
    var h3 := h.l3 + Hi(h2);
    var h4 := h.l4 + Hi(h3);
    var h0 := h.l0 + Hi(h4) * 5;
    Limbs(Lo(h0), Lo(h.l1) + Hi(h0), Lo(h2), Lo(h3), Lo(h4))
  }

  /** Afterwards no limb passes 26 bits: the last carry can only happen when
      the second limb has just been emptied. */
  lemma FullCarryCanonical(h: Limbs)
    requires Reduced(h)
    ensures AllBelow(FullCarry(h), LIMB)
    ensures Value(FullCarry(h)) % P == Value(h) % P
  {
    FullCarryBelow(h);
    FullCarryValue(h);
    ModP(Value(FullCarry(h)), Value(h), Hi(h.l4 + Hi(h.l3 + Hi(h.l2 + Hi(h.l1)))));
  }

  lemma FullCarryBelow(h: Limbs)
    requires Reduced(h)
    ensures AllBelow(FullCarry(h), LIMB)
  {
  }

  lemma FullCarryValue(h: Limbs)
    ensures Value(FullCarry(h)) + P * Hi(h.l4 + Hi(h.l3 + Hi(h.l2 + Hi(h.l1)))) == Value(h)
  {
  }

  /** h + 5 with carries; the top limb is not reduced, so that it shows whether
      h + 5 reaches 2^130. */
  function PlusFive(h: Limbs): Limbs
  {
    var g0 := h.l0 + 5;
    var g1 := h.l1 + Hi(g0);
    var g2 := h.l2 + Hi(g1);
    var g3 := h.l3 + Hi(g2);
    Limbs(Lo(g0), Lo(g1), Lo(g2), Lo(g3), h.l4 + Hi(g3))
  }

  lemma PlusFiveValue(h: Limbs)
    requires AllBelow(h, LIMB)
    ensures var g := PlusFive(h);
      && Value(g) == Value(h) + 5
      && g.l0 < LIMB && g.l1 < LIMB && g.l2 < LIMB && g.l3 < LIMB && g.l4 <= LIMB
      && (g.l4 < LIMB <==> Value(h) < P)
  {
    var g := PlusFive(h);
    assert g.l0 + LIMB * g.l1 + X2 * g.l2 + X3 * g.l3 < X4;
  }

  /** h mod P, for canonical limbs. */
  function Canonical(h: Limbs): (c: Limbs)
  {
    var g := PlusFive(h);
    if g.l4 < LIMB then h else Limbs(g.l0, g.l1, g.l2, g.l3, g.l4 - LIMB)
  }

  lemma CanonicalValue(h: Limbs)
    requires AllBelow(h, LIMB)
    ensures AllBelow(Canonical(h), LIMB)
    ensures Value(Canonical(h)) == Value(h) % P
  {
    PlusFiveValue(h);
    LimbsBelow130(h);
    if Value(h) < P {
      DivMod(Value(h), 0, Value(h), P);
    } else {
      DivMod(Value(h), 1, Value(Canonical(h)), P);
    }
  }

  lemma LimbsBelow130(h: Limbs)
    requires AllBelow(h, LIMB)
    ensures Value(h) < TWO130
  {
  }

  /** The low 128 bits as four 32-bit words. */
  function Words32(h: Limbs): (nat, nat, nat, nat)
  {
    (h.l0 + LIMB * (h.l1 % 0x40), h.l1 / 0x40 + 0x10_0000 * (h.l2 % 0x1000),
     h.l2 / 0x1000 + 0x4000 * (h.l3 % 0x4_0000), h.l3 / 0x4_0000 + 0x100 * (h.l4 % 0x100_0000))
  }

  lemma Words32Value(h: Limbs)
    requires AllBelow(h, LIMB)
    ensures var w := Words32(h);
      && w.0 < 0x1_0000_0000 && w.1 < 0x1_0000_0000 && w.2 < 0x1_0000_0000 && w.3 < 0x1_0000_0000
      && w.0 + 0x1_0000_0000 * w.1 + 0x1_0000_0000_0000_0000 * w.2 + 0x1_0000_0000_0000_0000_0000_0000 * w.3
         == Value(h) % TWO128
  {
    var w := Words32(h);
    DivMod(Value(h), h.l4 / 0x100_0000,
           w.0 + 0x1_0000_0000 * w.1 + 0x1_0000_0000_0000_0000 * w.2 + 0x1_0000_0000_0000_0000_0000_0000 * w.3, TWO128);
  }

  /** `(lo >> drop | hi << keep) & 0xffffffff`. */
  lemma PackWord(lo: nat, drop: nat, dropP: nat, keep: nat, keepP: nat, hi: nat, room: nat)
    requires dropP == Pow2(drop) && keepP == Pow2(keep) && lo / dropP < keepP && keepP * room == 0x1_0000_0000
    ensures And(Or(Shr(lo, drop), Shl(hi, keep)), 0xffff_ffff) == lo / dropP + keepP * (hi % room)
  {
    hide And, Or, Shl, Shr, Pow2;
    ShiftIsDiv(lo, drop, dropP);
    OrIsAdd(lo / dropP, keep, keepP, hi);
    var x := lo / dropP + keepP * hi;
    Pow2Of32();
    MaskIsMod(x, 32, 0x1_0000_0000);
    PackedMod(lo / dropP, keepP, hi, room);
  }

  lemma PackedMod(lo: nat, keepP: nat, hi: nat, room: nat)
    requires lo < keepP && keepP > 0 && room > 0 && keepP * room == 0x1_0000_0000
    ensures (lo + keepP * hi) % 0x1_0000_0000 == lo + keepP * (hi % room)
  {
    var q, r := hi / room, hi % room;
    assert keepP * hi == keepP * (room * q) + keepP * r;
    assert keepP * (room * q) == (keepP * room) * q;
    assert keepP * r <= keepP * (room - 1);
    DivMod(lo + keepP * hi, q, lo + keepP * r, 0x1_0000_0000);
  }
}
