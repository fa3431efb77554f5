/** The Poly1305 authenticator of section 2.5 of RFC 8439, and the incremental
    implementation that keeps its state in five 26-bit limbs. */
module Poly1305 {
  import opened Bytes
  import opened Bits
  import opened Poly1305Arithmetic
  import opened Poly1305Bytes

  // ---------------------------------------------------------------------
  // The definition

  /** How much of a message comes before its last block. */
  function LastBlock(msg: seq<byte>): (n: nat)
    requires msg != []
    ensures n < |msg| <= n + 16 && n % 16 == 0
  {
    WholeBlocksBefore(|msg| - 1);
    (|msg| - 1) / 16 * 16
  }

  lemma WholeBlocksBefore(n: nat)
    ensures n / 16 * 16 <= n < n / 16 * 16 + 16 && n / 16 * 16 % 16 == 0
  {
    var q, r := n / 16, n % 16;
    assert n == q * 16 + r;
  }

  /** Each block, with a one byte put after it, is a little-endian number that
      is added to the accumulator before this is multiplied by r. */
  function Accumulate(r: nat, msg: seq<byte>): (h: nat)
    ensures h < P
    decreases |msg|
  {
    if msg == [] then 0 else
    var n := LastBlock(msg);
    (Accumulate(r, msg[..n]) + LittleEndian(msg[n..] + [1])) * r % P
  }

  /** The tag for a one-time key of 32 bytes. */
  function Tag(key: seq<byte>, msg: seq<byte>): seq<byte>
    requires |key| == 32
  {
    ToLittleEndian((Accumulate(LittleEndian(Clamp(key[..16])), msg) + LittleEndian(key[16..])) % TWO128, 16)
  }

  // ---------------------------------------------------------------------
  // The limbs after a number of blocks

  const HIBIT: nat := 0x100_0000

  const ZERO := Limbs(0, 0, 0, 0, 0)

  function AbsorbBlocks(h: Limbs, r: Limbs, m: seq<byte>, hibit: nat): Limbs
    requires |m| % 16 == 0 && (hibit == 0 || hibit == HIBIT)
    decreases |m|
  {
    if m == [] then h else
    Absorb(AbsorbBlocks(h, r, m[..|m| - 16], hibit), CutLimbs(m[|m| - 16..], hibit), r)
  }

  lemma {:induction false} AbsorbBlocksAppend(h: Limbs, r: Limbs, a: seq<byte>, b: seq<byte>, hibit: nat)
    requires |a| % 16 == 0 && |b| % 16 == 0 && (hibit == 0 || hibit == HIBIT)
    ensures AbsorbBlocks(h, r, a + b, hibit) == AbsorbBlocks(AbsorbBlocks(h, r, a, hibit), r, b, hibit)
    decreases |b|
  {
    hide CutLimbs, Absorb, Value, LittleEndian;
    if b == [] {
      assert a + b == a;
    } else {
      var init := b[..|b| - 16];
      assert (a + b)[..|a + b| - 16] == a + init;
      assert (a + b)[|a + b| - 16..] == b[|b| - 16..];
      AbsorbBlocksAppend(h, r, a, init, hibit);
    }
  }

  lemma {:induction false} AbsorbBlocksReduced(h: Limbs, r: Limbs, m: seq<byte>, hibit: nat)
    requires |m| % 16 == 0 && (hibit == 0 || hibit == HIBIT) && Reduced(h) && AllBelow(r, LIMB)
    ensures Reduced(AbsorbBlocks(h, r, m, hibit))
    decreases |m|
  {
    hide CutLimbs, Absorb, Value, LittleEndian;
    if m != [] {
      AbsorbBlocksReduced(h, r, m[..|m| - 16], hibit);
      BlockValue(m[|m| - 16..], hibit);
      AbsorbReduced(AbsorbBlocks(h, r, m[..|m| - 16], hibit), CutLimbs(m[|m| - 16..], hibit), r);
    }
  }

  lemma NoBlocks(h: Limbs, r: Limbs, hibit: nat)
    requires hibit == 0 || hibit == HIBIT
    ensures AbsorbBlocks(h, r, [], hibit) == h
  {
  }

  lemma NextBlock(h: Limbs, r: Limbs, a: seq<byte>, block: seq<byte>, hibit: nat)
    requires |a| % 16 == 0 && |block| == 16 && (hibit == 0 || hibit == HIBIT)
    ensures AbsorbBlocks(h, r, a + block, hibit) == Absorb(AbsorbBlocks(h, r, a, hibit), CutLimbs(block, hibit), r)
  {
    hide CutLimbs, Absorb;
    assert (a + block)[..|a|] == a && (a + block)[|a|..] == block;
  }

  lemma StepCongruent(h: Limbs, m: Limbs, r: Limbs, acc: nat, n: nat)
    requires Value(h) % P == acc % P && Value(m) == n
    ensures Value(Absorb(h, m, r)) % P == (acc + n) * Value(r) % P
  {
    hide CutLimbs, Absorb, Value, LittleEndian;
    AbsorbCongruent(h, m, r);
    if Value(h) >= acc {
      ModSum(acc, Value(h), n);
    } else {
      ModSum(Value(h), acc, n);
    }
    ModProduct(Value(h) + n, acc + n, Value(r));
  }

  lemma ModSum(a: nat, b: nat, n: nat)
    requires a <= b && a % P == b % P
    ensures (a + n) % P == (b + n) % P
  {
    ModP(a + n, b + n, b / P - a / P);
  }

  lemma WithOne(block: seq<byte>)
    requires |block| == 16
    ensures LittleEndian(block + [1]) == LittleEndian(block) + TWO128
  {
    LittleEndianAppend(block, [1]);
    Pow256Of16();
  }

  lemma Pow256Of16()
    ensures Pow256(16) == TWO128
  {
    assert Pow256(4) == 0x1_0000_0000;
    assert Pow256(8) == 0x1_0000_0000 * Pow256(4);
    assert Pow256(12) == 0x1_0000_0000 * Pow256(8);
    assert Pow256(16) == 0x1_0000_0000 * Pow256(12);
  }

  lemma ZeroValue()
    ensures Value(ZERO) == 0
  {
  }

  lemma ModMod(x: nat)
    ensures x % P % P == x % P
  {
  }

  /** Modulo P, the limbs follow the definition. */
  lemma {:induction false} AbsorbBlocksCongruent(r: Limbs, m: seq<byte>)
    requires |m| % 16 == 0
    ensures Value(AbsorbBlocks(ZERO, r, m, HIBIT)) % P == Accumulate(Value(r), m) % P
    decreases |m|
  {
    hide AbsorbBlocks, Accumulate, Value, CutLimbs, Absorb, LittleEndian, LastBlock;
    if m == [] {
      ZeroValue();
      NoBlocks(ZERO, r, HIBIT);
      AccumulateNone(Value(r));
    } else {
      var init, last := m[..|m| - 16], m[|m| - 16..];
      assert m == init + last;
      AbsorbBlocksCongruent(r, init);
      BlockValue(last, HIBIT);
      WithOne(last);
      NextBlock(ZERO, r, init, last, HIBIT);
      AccumulateNext(Value(r), init, last);
      StepCongruent(AbsorbBlocks(ZERO, r, init, HIBIT), CutLimbs(last, HIBIT), r,
                    Accumulate(Value(r), init), LittleEndian(last + [1]));
      ModMod((Accumulate(Value(r), init) + LittleEndian(last + [1])) * Value(r));
    }
  }

  lemma AccumulateNone(r: nat)
    ensures Accumulate(r, []) == 0
  {
  }

  lemma AccumulateNext(r: nat, init: seq<byte>, last: seq<byte>)
    requires |init| % 16 == 0 && 0 < |last| <= 16
    ensures Accumulate(r, init + last) == (Accumulate(r, init) + LittleEndian(last + [1])) * r % P
  {
    hide LittleEndian;
    assert LastBlock(init + last) == |init|;
    assert (init + last)[..|init|] == init && (init + last)[|init|..] == last;
  }

  /** The last, short block: the one byte is followed by zeroes. */
  function PadBlock(rest: seq<byte>): (block: seq<byte>)
    requires |rest| < 16
    ensures |block| == 16
  {
    rest + [1] + seq(15 - |rest|, _ => 0)
  }

  lemma {:induction false} ZeroesAreZero(n: nat)
    ensures LittleEndian(seq(n, _ => 0)) == 0
  {
    if n > 0 {
      assert seq(n, _ => 0)[1..] == seq(n - 1, _ => 0);
      ZeroesAreZero(n - 1);
    }
  }

  lemma PadBlockIs(rest: seq<byte>)
    requires |rest| < 16
    ensures PadBlock(rest) == (rest + [1]) + seq(15 - |rest|, _ => 0)
  {
  }

  lemma PadBlockValue(rest: seq<byte>)
    requires |rest| < 16
    ensures LittleEndian(PadBlock(rest)) == LittleEndian(rest + [1])
  {
    hide LittleEndian, Pow256, PadBlock;
    var zeroes := seq(15 - |rest|, _ => 0);
    assert PadBlock(rest) == (rest + [1]) + zeroes by { PadBlockIs(rest); }
    LittleEndianAppend(rest + [1], zeroes);
    ZeroesAreZero(15 - |rest|);
    assert Pow256(|rest + [1]|) * LittleEndian(zeroes) == 0;
  }

  /** The limbs when the whole message, with its short block, is in. */
  function FinalLimbs(r: Limbs, msg: seq<byte>): Limbs
  {
    hide *;
    var full := |msg| / 16 * 16;
    var h := AbsorbBlocks(ZERO, r, msg[..full], HIBIT);
    if full == |msg| then h else AbsorbBlocks(h, r, PadBlock(msg[full..]), 0)
  }

  lemma ShortBlockCongruent(r: Limbs, h: Limbs, init: seq<byte>, rest: seq<byte>)
    requires AllBelow(r, LIMB) && Reduced(h) && |init| % 16 == 0 && 0 < |rest| < 16
    requires Value(h) % P == Accumulate(Value(r), init) % P
    ensures var last := AbsorbBlocks(h, r, PadBlock(rest), 0);
      Reduced(last) && Value(last) % P == Accumulate(Value(r), init + rest) % P
  {
    hide CutLimbs, Absorb, Value, LittleEndian, PadBlock, AbsorbBlocks, Accumulate;
    var block := PadBlock(rest);
    AccumulateNext(Value(r), init, rest);
    AbsorbBlocksReduced(h, r, block, 0);
    NoBlocks(h, r, 0);
    NextBlock(h, r, [], block, 0);
    assert [] + block == block;
    BlockValue(block, 0);
    PadBlockValue(rest);
    StepCongruent(h, CutLimbs(block, 0), r, Accumulate(Value(r), init), LittleEndian(rest + [1]));
    ModMod((Accumulate(Value(r), init) + LittleEndian(rest + [1])) * Value(r));
  }

  lemma FinalLimbsCongruent(r: Limbs, msg: seq<byte>)
    requires AllBelow(r, LIMB)
    ensures Reduced(FinalLimbs(r, msg))
    ensures Value(FinalLimbs(r, msg)) % P == Accumulate(Value(r), msg) % P
  {
    hide AbsorbBlocks, Value, Accumulate;
    var full := |msg| / 16 * 16;
    AbsorbBlocksReduced(ZERO, r, msg[..full], HIBIT);
    AbsorbBlocksCongruent(r, msg[..full]);
    assert msg == msg[..full] + msg[full..];
    if full == |msg| {
      assert msg[..full] == msg;
    } else {
      ShortBlockCongruent(r, AbsorbBlocks(ZERO, r, msg[..full], HIBIT), msg[..full], msg[full..]);
    }
  }

  // ---------------------------------------------------------------------
  // The implementation

  /** One column of the product, in 64-bit arithmetic. */
  function Column64(h: Limbs, a0: nat, a1: nat, a2: nat, a3: nat, a4: nat): u64
  {
    Add64(Add64(Add64(Add64(Mul64(h.l0, a0), Mul64(h.l1, a1)), Mul64(h.l2, a2)), Mul64(h.l3, a3)), Mul64(h.l4, a4))
  }

  /** The accumulators never overflow. */
  lemma Column64Exact(h: Limbs, a0: nat, a1: nat, a2: nat, a3: nat, a4: nat)
    requires AllBelow(h, 2 * LIMB + 0x100)
    requires a0 < 5 * LIMB && a1 < 5 * LIMB && a2 < 5 * LIMB && a3 < 5 * LIMB && a4 < 5 * LIMB
    ensures Column64(h, a0, a1, a2, a3, a4) == Column(h, a0, a1, a2, a3, a4)
  {
    hide Add64, Mul64;
    ColumnBound(h, a0, a1, a2, a3, a4, 5 * LIMB);
    MulExact(h.l0, a0); MulExact(h.l1, a1); MulExact(h.l2, a2); MulExact(h.l3, a3); MulExact(h.l4, a4);
    SumExact(h.l0 * a0, h.l1 * a1, h.l2 * a2, h.l3 * a3, h.l4 * a4);
  }

  lemma MulExact(a: nat, b: nat)
    requires a * b < TWO64
    ensures Mul64(a, b) == a * b
  {
    DivMod(a * b, 0, a * b, TWO64);
  }

  lemma AddExact(a: nat, b: nat)
    requires a + b < TWO64
    ensures Add64(a, b) == a + b
  {
  }

  lemma SumExact(p0: nat, p1: nat, p2: nat, p3: nat, p4: nat)
    requires p0 + p1 + p2 + p3 + p4 < TWO64
    ensures Add64(Add64(Add64(Add64(p0, p1), p2), p3), p4) == p0 + p1 + p2 + p3 + p4
  {
    hide Add64;
    AddExact(p0, p1); AddExact(p0 + p1, p2); AddExact(p0 + p1 + p2, p3); AddExact(p0 + p1 + p2 + p3, p4);
  }

  method Multiply(h: Limbs, r: Limbs) returns (d: Limbs)
    requires AllBelow(h, 2 * LIMB + 0x100) && AllBelow(r, LIMB)
    ensures d == Columns(h, r)
  {
    hide Column64, Column, Mul64;
    var s1, s2, s3, s4 := Mul64(r.l1, 5), Mul64(r.l2, 5), Mul64(r.l3, 5), Mul64(r.l4, 5);
    TimesFive64(r.l1); TimesFive64(r.l2); TimesFive64(r.l3); TimesFive64(r.l4);
    Column64Exact(h, r.l0, s4, s3, s2, s1);
    Column64Exact(h, r.l1, r.l0, s4, s3, s2);
    Column64Exact(h, r.l2, r.l1, r.l0, s4, s3);
    Column64Exact(h, r.l3, r.l2, r.l1, r.l0, s4);
    Column64Exact(h, r.l4, r.l3, r.l2, r.l1, r.l0);
    var d0 := Column64(h, r.l0, s4, s3, s2, s1);
    var d1 := Column64(h, r.l1, r.l0, s4, s3, s2);
    var d2 := Column64(h, r.l2, r.l1, r.l0, s4, s3);
    var d3 := Column64(h, r.l3, r.l2, r.l1, r.l0, s4);
    var d4 := Column64(h, r.l4, r.l3, r.l2, r.l1, r.l0);
    d := Limbs(d0, d1, d2, d3, d4);
  }

  lemma TimesFive64(x: nat)
    requires x < LIMB
    ensures Mul64(x, 5) == x * 5
  {
  }

  method PartialCarry(d: Limbs) returns (h: Limbs)
    requires d.l0 < 0x400_0000_0000_0000 && d.l1 < 0x400_0000_0000_0000 && d.l2 < 0x400_0000_0000_0000
    requires d.l3 < 0x400_0000_0000_0000 && d.l4 < 0x100_0000_0000_0000
    ensures h == CarryChain(d)
  {
    hide Lo26, Hi26, Lo, Hi, Add64, Mul64;
    var c: nat, h0: nat, h1: nat, h2: nat, h3: nat, h4: nat;
    var d1: nat, d2: nat, d3: nat, d4: nat;
    c := Hi26(d.l0); h0 := Lo26(d.l0);
    AddExact(d.l1, c); d1 := Add64(d.l1, c); c := Hi26(d1); h1 := Lo26(d1);
    AddExact(d.l2, c); d2 := Add64(d.l2, c); c := Hi26(d2); h2 := Lo26(d2);
    AddExact(d.l3, c); d3 := Add64(d.l3, c); c := Hi26(d3); h3 := Lo26(d3);
    AddExact(d.l4, c); d4 := Add64(d.l4, c); c := Hi26(d4); h4 := Lo26(d4);
    MulExact(c, 5); AddExact(h0, c * 5);
    h0 := Add64(h0, Mul64(c, 5)); c := Hi26(h0); h0 := Lo26(h0);
    AddExact(h1, c);
    h1 := Add64(h1, c);
    h := Limbs(h0, h1, h2, h3, h4);
  }

  method Round(h: Limbs, r: Limbs, m: seq<byte>, hibit: nat) returns (h': Limbs)
    requires |m| == 16 && (hibit == 0 || hibit == HIBIT) && Reduced(h) && AllBelow(r, LIMB)
    ensures h' == Absorb(h, CutLimbs(m, hibit), r) && Reduced(h')
  {
    hide CutLimbs, Column, Value, Add64;
    var l := LoadBlock(m, hibit);
    BlockValue(m, hibit);
    AddExact(h.l0, l.l0); AddExact(h.l1, l.l1); AddExact(h.l2, l.l2); AddExact(h.l3, l.l3); AddExact(h.l4, l.l4);
    var sum := Limbs(Add64(h.l0, l.l0), Add64(h.l1, l.l1), Add64(h.l2, l.l2), Add64(h.l3, l.l3), Add64(h.l4, l.l4));
    assert sum == AddLimbs(h, l);
    ColumnsBound(sum, r);
    var d := Multiply(sum, r);
    h' := PartialCarry(d);
    AbsorbReduced(h, l, r);
  }

  /** The second half of finish: the tag's number from the limbs and the pad. */
  method CarryFully(h: Limbs) returns (c: Limbs)
    requires Reduced(h)
    ensures c == FullCarry(h)
  {
    hide Lo26, Hi26, Lo, Hi, Add64, Mul64;
    var h0: nat, h1: nat, h2: nat, h3: nat, h4: nat := h.l0, h.l1, h.l2, h.l3, h.l4;
    var k: nat := Hi26(h1); h1 := Lo26(h1);
    AddExact(h2, k); h2 := Add64(h2, k); k := Hi26(h2); h2 := Lo26(h2);
    AddExact(h3, k); h3 := Add64(h3, k); k := Hi26(h3); h3 := Lo26(h3);
    AddExact(h4, k); h4 := Add64(h4, k); k := Hi26(h4); h4 := Lo26(h4);
    MulExact(k, 5); AddExact(h0, k * 5);
    h0 := Add64(h0, Mul64(k, 5)); k := Hi26(h0); h0 := Lo26(h0);
    AddExact(h1, k); h1 := Add64(h1, k);
    c := Limbs(h0, h1, h2, h3, h4);
  }

  /** `(h & mask) | g`, where mask is all ones or all zeroes, and so is ~mask
      for g. */
  function Choose(h: nat, g: nat, mask: u64): nat
  {
    Or(And(h, TWO64 - 1 - mask), And(g, mask))
  }

  lemma ChooseEither(h: u64, g: u64)
    ensures Choose(h, g, 0) == h
    ensures Choose(h, g, TWO64 - 1) == g
  {
    Pow2Of64();
    MaskIsMod(h, 64, TWO64);
    MaskIsMod(g, 64, TWO64);
    assert And(h, 0) == 0 && And(g, 0) == 0;
  }

  lemma Pow2Of64()
    ensures Pow2(64) == TWO64
  {
    Pow2Of32();
    Pow2Sum(32, 32);
  }

  lemma {:induction false} Pow2Sum(a: nat, b: nat)
    ensures Pow2(a + b) == Pow2(a) * Pow2(b)
    decreases a
  {
    hide Pow2;
    if a == 0 {
      NoBits(0);
    } else {
      Pow2Sum(a - 1, b);
      Halving(0, a);
      Halving(0, a + b);
      DoubleProduct(Pow2(a - 1), Pow2(b));
    }
  }

  lemma DoubleProduct(x: nat, y: nat)
    ensures 2 * (x * y) == (2 * x) * y
  {
  }

  /** `(g4 >> 63) - 1` tells whether the subtraction of 2^26 borrowed. */
  function SignMask(g4: u64): u64 { Sub64(g4 / 0x8000_0000_0000_0000, 1) }

  lemma SignMaskTells(g: nat)
    requires g <= LIMB
    ensures SignMask(Sub64(g, LIMB)) == if g < LIMB then 0 else TWO64 - 1
    ensures g >= LIMB ==> Sub64(g, LIMB) == g - LIMB
  {
    if g < LIMB {
      assert Sub64(g, LIMB) == TWO64 + g - LIMB;
    }
  }

  /** Compute h + -p, and select it if it is not negative. */
  method SubtractPrime(h: Limbs) returns (c: Limbs)
    requires AllBelow(h, LIMB)
    ensures c == Canonical(h)
  {
    hide Lo26, Hi26, Lo, Hi, Choose, Add64, Sub64, SignMask, Value;
    PlusFiveValue(h);
    var g0: nat, g1: nat, g2: nat, g3: nat, g4: nat;
    var k: nat;
    AddExact(h.l0, 5); g0 := Add64(h.l0, 5); k := Hi26(g0); g0 := Lo26(g0);
    AddExact(h.l1, k); g1 := Add64(h.l1, k); k := Hi26(g1); g1 := Lo26(g1);
    AddExact(h.l2, k); g2 := Add64(h.l2, k); k := Hi26(g2); g2 := Lo26(g2);
    AddExact(h.l3, k); g3 := Add64(h.l3, k); k := Hi26(g3); g3 := Lo26(g3);
    AddExact(h.l4, k);
    g4 := Sub64(Add64(h.l4, k), LIMB);
    assert PlusFive(h) == Limbs(g0, g1, g2, g3, h.l4 + k);
    var mask := SignMask(g4);
    SignMaskTells(h.l4 + k);
    ChooseEither(h.l0, g0);
    ChooseEither(h.l1, g1);
    ChooseEither(h.l2, g2);
    ChooseEither(h.l3, g3);
    ChooseEither(h.l4, g4);
    c := Limbs(Choose(h.l0, g0, mask), Choose(h.l1, g1, mask), Choose(h.l2, g2, mask), Choose(h.l3, g3, mask),
               Choose(h.l4, g4, mask));
  }

  /** h % 2^128 in four words. */
  method Pack(h: Limbs) returns (w0: nat, w1: nat, w2: nat, w3: nat)
    requires AllBelow(h, LIMB)
    ensures (w0, w1, w2, w3) == Words32(h)
  {
    hide And, Or, Shr, Shl;
    Pow2Values();
    PackWord(h.l0, 0, 1, 26, LIMB, h.l1, 0x40);
    PackWord(h.l1, 6, 0x40, 20, 0x10_0000, h.l2, 0x1000);
    PackWord(h.l2, 12, 0x1000, 14, 0x4000, h.l3, 0x4_0000);
    PackWord(h.l3, 18, 0x4_0000, 8, 0x100, h.l4, 0x100_0000);
    w0 := And(Or(Shr(h.l0, 0), Shl(h.l1, 26)), 0xffff_ffff);
    w1 := And(Or(Shr(h.l1, 6), Shl(h.l2, 20)), 0xffff_ffff);
    w2 := And(Or(Shr(h.l2, 12), Shl(h.l3, 14)), 0xffff_ffff);
    w3 := And(Or(Shr(h.l3, 18), Shl(h.l4, 8)), 0xffff_ffff);
  }

  /** mac = (h + pad) % 2^128, with the carries in the high half of f. */
  method AddPad(w0: u32, w1: u32, w2: u32, w3: u32, pad: seq<u32>) returns (mac: seq<byte>)
    requires |pad| == 4
    ensures mac == ToLittleEndian((Join(w0, w1, w2, w3) + Join(pad[0], pad[1], pad[2], pad[3])) % TWO128, 16)
  {
    hide Add64, ToLittleEndian, Join;
    AddExact(w0, pad[0]); AddExact(w1, pad[1]); AddExact(w2, pad[2]); AddExact(w3, pad[3]);
    var f: nat := Add64(w0, pad[0]);
    var m0: nat := f;
    AddExact(w1 as int + pad[1], f / TWO32);
    f := Add64(Add64(w1, pad[1]), f / TWO32);
    var m1: nat := f;
    AddExact(w2 as int + pad[2], f / TWO32);
    f := Add64(Add64(w2, pad[2]), f / TWO32);
    var m2: nat := f;
    AddExact(w3 as int + pad[3], f / TWO32);
    f := Add64(Add64(w3, pad[3]), f / TWO32);
    var m3: nat := f;
    CarriedSum(w0, w1, w2, w3, pad[0], pad[1], pad[2], pad[3], m0, m1, m2, m3);
    JoinBytes(m0 % TWO32, m1 % TWO32, m2 % TWO32, m3 % TWO32);
    mac := ToLittleEndian(m0 % TWO32, 4) + ToLittleEndian(m1 % TWO32, 4)
           + ToLittleEndian(m2 % TWO32, 4) + ToLittleEndian(m3 % TWO32, 4);
  }

  function Join(w0: nat, w1: nat, w2: nat, w3: nat): nat
  {
    w0 + TWO32 * w1 + 0x1_0000_0000_0000_0000 * w2 + 0x1_0000_0000_0000_0000_0000_0000 * w3
  }

  lemma CarriedSum(a0: nat, a1: nat, a2: nat, a3: nat, b0: nat, b1: nat, b2: nat, b3: nat,
                   f0: nat, f1: nat, f2: nat, f3: nat)
    requires f0 == a0 + b0 && f1 == a1 + b1 + f0 / TWO32 && f2 == a2 + b2 + f1 / TWO32 && f3 == a3 + b3 + f2 / TWO32
    ensures Join(f0 % TWO32, f1 % TWO32, f2 % TWO32, f3 % TWO32)
         == (Join(a0, a1, a2, a3) + Join(b0, b1, b2, b3)) % TWO128
  {
    hide Join;
    Halves32(f0);
    Halves32(f1);
    Halves32(f2);
    Halves32(f3);
    CarriesAdd(a0, a1, a2, a3, b0, b1, b2, b3, f0 % TWO32, f1 % TWO32, f2 % TWO32, f3 % TWO32,
               f0 / TWO32, f1 / TWO32, f2 / TWO32, f3 / TWO32);
    JoinBelow(f0 % TWO32, f1 % TWO32, f2 % TWO32, f3 % TWO32);
    DivMod(Join(a0, a1, a2, a3) + Join(b0, b1, b2, b3), f3 / TWO32,
           Join(f0 % TWO32, f1 % TWO32, f2 % TWO32, f3 % TWO32), TWO128);
  }

  lemma Halves32(f: nat)
    ensures f == TWO32 * (f / TWO32) + f % TWO32 && f % TWO32 < TWO32
  {
  }

  lemma CarriesAdd(a0: nat, a1: nat, a2: nat, a3: nat, b0: nat, b1: nat, b2: nat, b3: nat,
                   r0: nat, r1: nat, r2: nat, r3: nat, q0: nat, q1: nat, q2: nat, q3: nat)
    requires a0 + b0 == TWO32 * q0 + r0 && a1 + b1 + q0 == TWO32 * q1 + r1
    requires a2 + b2 + q1 == TWO32 * q2 + r2 && a3 + b3 + q2 == TWO32 * q3 + r3
    ensures Join(a0, a1, a2, a3) + Join(b0, b1, b2, b3) == TWO128 * q3 + Join(r0, r1, r2, r3)
  {
  }

  lemma JoinBelow(w0: nat, w1: nat, w2: nat, w3: nat)
    requires w0 < TWO32 && w1 < TWO32 && w2 < TWO32 && w3 < TWO32
    ensures Join(w0, w1, w2, w3) < TWO128
  {
  }

  lemma {:induction false} ToLittleEndianSplit(x: nat, y: nat, a: nat, b: nat)
    requires x < Pow256(a)
    ensures ToLittleEndian(x + Pow256(a) * y, a + b) == ToLittleEndian(x, a) + ToLittleEndian(y, b)
    decreases a
  {
    if a > 0 {
      var rest := Pow256(a - 1) * y;
      TimesByte(Pow256(a - 1), y);
      LowDigit(x, rest);
      ToLittleEndianSplit(x / 0x100, y, a - 1, b);
    }
  }

  lemma TimesByte(p: nat, y: nat)
    ensures 0x100 * p * y == 0x100 * (p * y)
  {
  }

  lemma LowDigit(x: nat, z: nat)
    ensures (x + 0x100 * z) % 0x100 == x % 0x100 && (x + 0x100 * z) / 0x100 == x / 0x100 + z
  {
  }

  lemma JoinBytes(w0: u32, w1: u32, w2: u32, w3: u32)
    ensures ToLittleEndian(Join(w0, w1, w2, w3), 16)
         == ToLittleEndian(w0, 4) + ToLittleEndian(w1, 4) + ToLittleEndian(w2, 4) + ToLittleEndian(w3, 4)
  {
    hide ToLittleEndian;
    assert Pow256(4) == TWO32;
    ToLittleEndianSplit(w2, w3, 4, 4);
    ToLittleEndianSplit(w1, w2 + TWO32 * w3, 4, 8);
    ToLittleEndianSplit(w0, w1 + TWO32 * (w2 + TWO32 * w3), 4, 12);
    assert Join(w0, w1, w2, w3) == w0 + TWO32 * (w1 + TWO32 * (w2 + TWO32 * w3));
  }

  /** What finish computes from the limbs of the whole message. */
  lemma TagFromLimbs(key: seq<byte>, msg: seq<byte>, h: Limbs)
    requires |key| == 32 && h == FinalLimbs(CutKeyLimbs(key[..16]), msg)
    ensures Reduced(h)
    ensures var w := Words32(Canonical(FullCarry(h)));
      ToLittleEndian((Join(w.0, w.1, w.2, w.3) + LittleEndian(key[16..])) % TWO128, 16) == Tag(key, msg)
  {
    hide CutKeyLimbs, FinalLimbs, Words32, Canonical, FullCarry, Clamp, LittleEndian, ToLittleEndian, Value;
    var r := CutKeyLimbs(key[..16]);
    KeyValue(key[..16]);
    FinalLimbsCongruent(r, msg);
    FullCarryCanonical(h);
    CanonicalValue(FullCarry(h));
    Words32Value(Canonical(FullCarry(h)));
    var acc, s := Accumulate(Value(r), msg), LittleEndian(key[16..]);
    AccumulateBelow(Value(r), msg);
    SumModTwo128(acc, s);
  }

  lemma AccumulateBelow(r: nat, msg: seq<byte>)
    ensures Accumulate(r, msg) < P && Accumulate(r, msg) % P == Accumulate(r, msg)
  {
    hide Accumulate;
  }

  lemma SumModTwo128(a: nat, s: nat)
    ensures (a % TWO128 + s) % TWO128 == (a + s) % TWO128
  {
    DivMod(a + s, a / TWO128 + (a % TWO128 + s) / TWO128, (a % TWO128 + s) % TWO128, TWO128);
  }

  method LoadPad(key: seq<byte>) returns (pad: seq<u32>)
    requires |key| == 32
    ensures |pad| == 4 && Join(pad[0], pad[1], pad[2], pad[3]) == LittleEndian(key[16..])
  {
    hide U8To32, LittleEndian;
    LittleEndian16(key[16..]);
    pad := [U8To32(key[16..20]), U8To32(key[20..24]), U8To32(key[24..28]), U8To32(key[28..32])];
  }

  /** finish, from the limbs to the bytes of the tag. */
  method TagOf(ghost key: seq<byte>, ghost msg: seq<byte>, h: Limbs, pad: seq<u32>) returns (mac: seq<byte>)
    requires |key| == 32 && h == FinalLimbs(CutKeyLimbs(key[..16]), msg)
    requires |pad| == 4 && Join(pad[0], pad[1], pad[2], pad[3]) == LittleEndian(key[16..])
    ensures mac == Tag(key, msg)
  {
    hide CutKeyLimbs, LittleEndian, Tag, FinalLimbs, Reduced, FullCarry, Canonical, AllBelow, Words32, Value, Join;
    hide ToLittleEndian;
    TagFromLimbs(key, msg, h);
    var carried := CarryFully(h);
    FullCarryCanonical(h);
    var reduced := SubtractPrime(carried);
    CanonicalValue(carried);
    var w0, w1, w2, w3 := Pack(reduced);
    Words32Value(reduced);
    mac := AddPad(w0, w1, w2, w3, pad);
  }

  method BlockLoop(h: Limbs, r: Limbs, m: seq<byte>, hibit: nat) returns (t: Limbs)
    requires Reduced(h) && AllBelow(r, LIMB) && (hibit == 0 || hibit == HIBIT)
    ensures t == AbsorbBlocks(h, r, m[..|m| / 16 * 16], hibit) && Reduced(t)
  {
    hide CutLimbs, Absorb, Reduced, AllBelow, AbsorbBlocks;
    t := h;
    var i := 0;
    NoBlocks(h, r, hibit);
    assert m[..0] == [];
    while |m| - i >= 16
      invariant 0 <= i <= |m| && i % 16 == 0
      invariant Reduced(t) && t == AbsorbBlocks(h, r, m[..i], hibit)
    {
      NextBlock(h, r, m[..i], m[i..i + 16], hibit);
      assert m[..i + 16] == m[..i] + m[i..i + 16];
      t := Round(t, r, m[i..i + 16], hibit);
      i := i + 16;
    }
    assert i == |m| / 16 * 16;
  }

  class Poly1305Context {
    var r: Limbs
    var h: Limbs
    var pad: seq<u32>
    var leftover: nat
    var buffer: array<byte>
    var final: bool
    ghost var key: seq<byte>
    ghost var absorbed: seq<byte>    // the message so far

    /** The limbs and the leftover bytes are functions of the key and of the
        message so far alone. */
    ghost predicate Buffered()
      reads this, buffer
    {
      && |key| == 32 && r == CutKeyLimbs(key[..16])
      && |pad| == 4 && Join(pad[0], pad[1], pad[2], pad[3]) == LittleEndian(key[16..])
      && buffer.Length == 16 && !final
      && leftover <= 16 && leftover <= |absorbed|
      && var full := |absorbed| - leftover;
      && full % 16 == 0
      && buffer[..leftover] == absorbed[full..]
      && h == AbsorbBlocks(ZERO, r, absorbed[..full], HIBIT)
    }

    ghost predicate Valid()
      reads this, buffer
    {
      Buffered() && leftover < 16
    }

    constructor (key: seq<byte>)
      requires |key| == 32
      ensures Valid() && fresh(buffer) && this.key == key && absorbed == []
    {
      hide CutKeyLimbs, LittleEndian, Join, AbsorbBlocks, Pow256;
      var limbs := LoadKey(key);
      var words := LoadPad(key);
      r, h, pad := limbs, ZERO, words;
      leftover, final := 0, false;
      buffer := new byte[16];
      this.key, absorbed := key, [];
      new;
      NoBlocks(ZERO, r, HIBIT);
      StartsEmpty();
    }

    lemma StartsEmpty()
      requires |key| == 32 && r == CutKeyLimbs(key[..16]) && h == AbsorbBlocks(ZERO, r, [], HIBIT)
      requires |pad| == 4 && Join(pad[0], pad[1], pad[2], pad[3]) == LittleEndian(key[16..])
      requires buffer.Length == 16 && !final && leftover == 0 && absorbed == []
      ensures Valid()
    {
      hide CutKeyLimbs, LittleEndian, Join, AbsorbBlocks, Pow256;
      assert absorbed[..0] == [];
    }

    /** Whole blocks of `m`, each with 2^128 added unless this is the last one. */
    method Blocks(m: seq<byte>)
      requires Reduced(h) && AllBelow(r, LIMB)
      modifies this`h
      ensures h == AbsorbBlocks(old(h), r, m[..|m| / 16 * 16], if final then 0 else HIBIT)
      ensures Reduced(h)
    {
      var hibit: nat := if final then 0 else HIBIT;
      var t := BlockLoop(h, r, m, hibit);
      h := t;
    }

    /** What Blocks needs is kept by every state of the context. */
    lemma InRange()
      requires Buffered()
      ensures Reduced(h) && AllBelow(r, LIMB)
    {
      hide CutKeyLimbs, AbsorbBlocks, LittleEndian, Join;
      KeyValue(key[..16]);
      AbsorbBlocksReduced(ZERO, r, absorbed[..|absorbed| - leftover], HIBIT);
    }

    method FillBuffer(m: seq<byte>)
      requires Buffered() && leftover + |m| <= 16
      modifies this`leftover, this`absorbed, buffer
      ensures Buffered() && leftover == old(leftover) + |m| && absorbed == old(absorbed) + m
    {
      hide CutKeyLimbs, AbsorbBlocks, LittleEndian, Join;
      var i := 0;
      while i < |m|
        invariant 0 <= i <= |m|
        invariant buffer[..leftover + i] == old(buffer[..leftover]) + m[..i]
        modifies buffer
      {
        buffer[leftover + i] := m[i];
        i := i + 1;
      }
      var full := |absorbed| - leftover;
      absorbed := absorbed + m;
      leftover := leftover + |m|;
      assert absorbed[..full] == old(absorbed)[..full];
      assert absorbed[full..] == old(absorbed)[full..] + m;
    }

    method FlushBuffer()
      requires Buffered() && leftover == 16
      modifies this`h, this`leftover
      ensures Buffered() && leftover == 0
    {
      hide CutKeyLimbs, LittleEndian, Join, AbsorbBlocks, Reduced, AllBelow;
      InRange();
      var full := |absorbed| - 16;
      Blocks(buffer[..]);
      assert buffer[..][..16] == buffer[..16] == absorbed[full..];
      AbsorbBlocksAppend(ZERO, r, absorbed[..full], absorbed[full..], HIBIT);
      assert absorbed[..full] + absorbed[full..] == absorbed == absorbed[..|absorbed|];
      leftover := 0;
    }

    method WholeBlocks(m: seq<byte>)
      requires Buffered() && leftover == 0 && |m| % 16 == 0
      modifies this`h, this`absorbed
      ensures Buffered() && absorbed == old(absorbed) + m
    {
      hide CutKeyLimbs, LittleEndian, Join, AbsorbBlocks;
      InRange();
      Blocks(m);
      assert m[..|m| / 16 * 16] == m && absorbed[..|absorbed|] == absorbed;
      AbsorbBlocksAppend(ZERO, r, absorbed, m, HIBIT);
      absorbed := absorbed + m;
      assert absorbed[..|absorbed|] == absorbed;
    }

    /** However a message is cut into updates, the context after them is the
        one that a single update would have left. */
    method Update(m: seq<byte>)
      requires Valid()
      modifies this`h, this`leftover, this`absorbed, buffer
      ensures Valid() && absorbed == old(absorbed) + m
    {
      hide Buffered;
      var rest := m;
      if leftover > 0 {
        var want := if 16 - leftover > |rest| then |rest| else 16 - leftover;
        FillBuffer(rest[..want]);
        rest := rest[want..];
        if leftover < 16 {
          assert rest == [] && m[..want] == m;
          return;
        }
        FlushBuffer();
      }
      assert absorbed + rest == old(absorbed) + m;
      if |rest| >= 16 {
        var want := |rest| / 16 * 16;
        WholeBlocks(rest[..want]);
        rest := rest[want..];
      }
      assert absorbed + rest == old(absorbed) + m;
      if rest != [] {
        FillBuffer(rest);
      }
    }

    /** finish, up to the limbs of the whole message. */
    method LastBlockIn()
      requires Valid()
      modifies this`h, this`final, buffer
      ensures h == FinalLimbs(r, absorbed)
    {
      hide CutKeyLimbs, LittleEndian, Join, AbsorbBlocks, Reduced, AllBelow;
      InRange();
      var full := |absorbed| - leftover;
      assert full == |absorbed| / 16 * 16;
      if leftover > 0 {
        var i := leftover;
        buffer[i] := 1;
        i := i + 1;
        while i < 16
          invariant leftover < i <= 16 && h == old(h)
          invariant buffer[..leftover] == absorbed[full..] && buffer[leftover] == 1
          invariant forall j :: leftover < j < i ==> buffer[j] == 0
        {
          buffer[i] := 0;
          i := i + 1;
        }
        final := true;
        assert buffer[..] == PadBlock(absorbed[full..]);
        assert buffer[..][..16] == buffer[..];
        Blocks(buffer[..]);
      }
    }

    /** The tag is that of section 2.5 of RFC 8439 for everything absorbed, and
        the key is wiped. */
    method Finish() returns (mac: seq<byte>)
      requires Valid()
      modifies this, buffer
      ensures mac == Tag(old(key), old(absorbed))
      ensures h == ZERO && r == ZERO && pad == [0, 0, 0, 0]
    {
      hide CutKeyLimbs, LittleEndian, Tag, FinalLimbs, AbsorbBlocks, Join;
      LastBlockIn();
      mac := TagOf(key, absorbed, h, pad);
      h, r, pad := ZERO, ZERO, [0, 0, 0, 0];
    }
  }

  /** Two contexts with one key that have absorbed the same bytes, in whatever
      pieces, agree in their limbs and in their leftover bytes. */
  lemma SameBytesSameState(a: Poly1305Context, b: Poly1305Context)
    requires a.Valid() && b.Valid() && a.key == b.key && a.absorbed == b.absorbed
    ensures a.h == b.h && a.leftover == b.leftover && a.buffer[..a.leftover] == b.buffer[..b.leftover]
  {
    hide CutKeyLimbs, LittleEndian, Join, AbsorbBlocks;
    LeftoverIs(|a.absorbed| - a.leftover, a.leftover);
    LeftoverIs(|b.absorbed| - b.leftover, b.leftover);
  }

  lemma LeftoverIs(full: nat, left: nat)
    requires full % 16 == 0 && left < 16
    ensures (full + left) % 16 == left
  {
  }
}
