/** C's unsigned operators on mathematical naturals: 64-bit wrap-around, and
    bitwise operators defined bit by bit. */
module Bits {
  import opened Bytes

  const TWO64 := 0x1_0000_0000_0000_0000

  function Add64(a: nat, b: nat): u64 { (a + b) % TWO64 }

  function Sub64(a: nat, b: nat): u64 { (a - b) % TWO64 }

  function Mul64(a: nat, b: nat): u64 { (a * b) % TWO64 }

  function And(x: nat, y: nat): nat
  {
    if x == 0 || y == 0 then 0
    else 2 * And(x / 2, y / 2) + if x % 2 == 1 && y % 2 == 1 then 1 else 0
  }

  function Or(x: nat, y: nat): nat
    decreases x + y
  {
    if x == 0 then y else if y == 0 then x
    else 2 * Or(x / 2, y / 2) + if x % 2 == 1 || y % 2 == 1 then 1 else 0
  }

  function Pow2(n: nat): (p: nat)
    ensures p > 0
  {
    if n == 0 then 1 else 2 * Pow2(n - 1)
  }

  /** x << n, x >> n and the low n bits of x, one bit at a time. */
  function Shl(x: nat, n: nat): nat
    decreases n
  {
    if n == 0 then x else 2 * Shl(x, n - 1)
  }

  function Shr(x: nat, n: nat): nat
    decreases n
  {
    if n == 0 then x else Shr(x / 2, n - 1)
  }

  function Low(x: nat, n: nat): nat
    decreases n
  {
    if n == 0 then 0 else 2 * Low(x / 2, n - 1) + x % 2
  }

  lemma {:induction false} ShlIsTimes(x: nat, n: nat)
    ensures Shl(x, n) == Pow2(n) * x
    decreases n
  {
    if n > 0 {
      ShlIsTimes(x, n - 1);
      assert 2 * (Pow2(n - 1) * x) == (2 * Pow2(n - 1)) * x;
    }
  }

  lemma {:induction false} BitsOf(x: nat, n: nat)
    ensures x == Shl(Shr(x, n), n) + Low(x, n)
    ensures Low(x, n) < Pow2(n)
    decreases n
  {
    if n > 0 {
      BitsOf(x / 2, n - 1);
    }
  }

  lemma ShrIsDiv(x: nat, n: nat)
    ensures Shr(x, n) == x / Pow2(n) && Low(x, n) == x % Pow2(n)
  {
    BitsOf(x, n);
    ShlIsTimes(Shr(x, n), n);
    DivMod(x, Shr(x, n), Low(x, n), Pow2(n));
  }

  lemma DivMod(x: nat, q: nat, r: nat, d: nat)
    requires d > 0 && r < d && x == d * q + r
    ensures x / d == q && x % d == r
  {
    assert x == d * (x / d) + x % d;
    assert d * (x / d - q) == r - x % d;
    SmallMultiple(d, x / d - q);
  }

  lemma SmallMultiple(d: nat, k: int)
    requires -(d as int) < d * k < d
    ensures k == 0
  {
  }

  lemma AndStep(x: nat, y: nat)
    ensures And(x, y) == 2 * And(x / 2, y / 2) + if x % 2 == 1 && y % 2 == 1 then 1 else 0
  {
  }

  lemma Halving(x: nat, n: nat)
    requires n > 0
    ensures Shl(x, n) == 2 * Shl(x, n - 1) && Shr(x, n) == Shr(x / 2, n - 1)
    ensures Low(x, n) == 2 * Low(x / 2, n - 1) + x % 2 && Pow2(n) == 2 * Pow2(n - 1)
  {
  }

  lemma NoBits(x: nat)
    ensures Shl(x, 0) == x && Shr(x, 0) == x && Low(x, 0) == 0 && Pow2(0) == 1
    ensures And(x, 0) == 0 && And(0, x) == 0
  {
  }

  /** A mask splits into its low bits and the rest. */
  lemma {:induction false} AndSplit(x: nat, n: nat, lo: nat, hi: nat)
    requires lo < Pow2(n)
    ensures And(x, lo + Shl(hi, n)) == And(Low(x, n), lo) + Shl(And(Shr(x, n), hi), n)
    decreases n
  {
    hide And, Shl, Shr, Low, Pow2;
    if n == 0 {
      NoBits(0);
      NoBits(x);
      NoBits(hi);
      NoBits(And(x, hi));
    } else {
      Halving(x, n);
      AndSplit(x / 2, n - 1, lo / 2, hi);
      Halving(hi, n);
      Halving(And(Shr(x, n), hi), n);
      AndStep(x, lo + Shl(hi, n));
      AndStep(Low(x, n), lo);
    }
  }

  lemma {:induction false} AndOnes(x: nat, n: nat)
    ensures And(x, Pow2(n) - 1) == Low(x, n)
    decreases n
  {
    if n > 0 {
      AndOnes(x / 2, n - 1);
      AndStep(x, Pow2(n) - 1);
    }
  }

  lemma OrStep(x: nat, y: nat)
    ensures Or(x, y) == 2 * Or(x / 2, y / 2) + if x % 2 == 1 || y % 2 == 1 then 1 else 0
  {
  }

  /** Bits that do not meet are added. */
  lemma {:induction false} OrDisjoint(lo: nat, n: nat, hi: nat)
    requires lo < Pow2(n)
    ensures Or(lo, Shl(hi, n)) == lo + Shl(hi, n)
    decreases n
  {
    if n > 0 {
      OrDisjoint(lo / 2, n - 1, hi);
      OrStep(lo, Shl(hi, n));
    }
  }

  lemma MaskLow(x: nat, n: nat)
    ensures And(x, Pow2(n) - 1) == x % Pow2(n)
  {
    AndOnes(x, n);
    ShrIsDiv(x, n);
  }

  /** A mask of `width` ones above `gap` zeroes above `low` ones. */
  lemma MaskWithGap(x: nat, low: nat, gap: nat, width: nat)
    ensures And(x, Pow2(low) - 1 + Shl(Shl(Pow2(width) - 1, gap), low))
         == Low(x, low) + Shl(Shl(Low(Shr(Shr(x, low), gap), width), gap), low)
  {
    hide And, Shl, Shr, Low, Pow2;
    var high, y := Shl(Pow2(width) - 1, gap), Shr(x, low);
    NoBits(Low(y, gap));
    AndSplit(x, low, Pow2(low) - 1, high);
    AndOnes(Low(x, low), low);
    LowLow(x, low);
    AndSplit(y, gap, 0, Pow2(width) - 1);
    AndOnes(Shr(y, gap), width);
  }

  lemma {:induction false} LowLow(x: nat, n: nat)
    ensures Low(Low(x, n), n) == Low(x, n)
    decreases n
  {
    if n > 0 {
      LowLow(x / 2, n - 1);
    }
  }
}
