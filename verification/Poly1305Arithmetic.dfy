/** Numbers below 2^130 in five limbs of 26 bits, and the multiplication modulo
    2^130 - 5 that Poly1305 (section 2.5 of RFC 8439) is built on. */
module Poly1305Arithmetic {
  import opened Bytes
  import opened Bits

  const LIMB: nat := 0x400_0000                                   // 2^26
  const X2: nat := 0x10_0000_0000_0000                            // 2^52
  const X3: nat := 0x4000_0000_0000_0000_0000                     // 2^78
  const X4: nat := 0x100_0000_0000_0000_0000_0000_0000            // 2^104
  const TWO128: nat := 0x1_0000_0000_0000_0000_0000_0000_0000_0000
  const TWO130: nat := 0x4_0000_0000_0000_0000_0000_0000_0000_0000
  const P: nat := 0x3_FFFF_FFFF_FFFF_FFFF_FFFF_FFFF_FFFF_FFFB     // 2^130 - 5

  datatype Limbs = Limbs(l0: nat, l1: nat, l2: nat, l3: nat, l4: nat)

  function Value(h: Limbs): nat
  {
    h.l0 + LIMB * h.l1 + X2 * h.l2 + X3 * h.l3 + X4 * h.l4
  }

  /** What one block leaves behind: only the second limb may pass 26 bits. */
  predicate Reduced(h: Limbs)
  {
    h.l0 < LIMB && h.l1 < LIMB + 0x100 && h.l2 < LIMB && h.l3 < LIMB && h.l4 < LIMB
  }

  predicate AllBelow(h: Limbs, bound: nat)
  {
    h.l0 < bound && h.l1 < bound && h.l2 < bound && h.l3 < bound && h.l4 < bound
  }

  function Column(h: Limbs, a0: nat, a1: nat, a2: nat, a3: nat, a4: nat): nat
  {
    h.l0 * a0 + h.l1 * a1 + h.l2 * a2 + h.l3 * a3 + h.l4 * a4
  }

  /** The five columns of h * r, those of weight 2^130 and more folded in with
      the factor 5. */
  function Columns(h: Limbs, r: Limbs): Limbs
  {
    var s1, s2, s3, s4 := r.l1 * 5, r.l2 * 5, r.l3 * 5, r.l4 * 5;
    Limbs(Column(h, r.l0, s4, s3, s2, s1),
          Column(h, r.l1, r.l0, s4, s3, s2),
          Column(h, r.l2, r.l1, r.l0, s4, s3),
          Column(h, r.l3, r.l2, r.l1, r.l0, s4),
          Column(h, r.l4, r.l3, r.l2, r.l1, r.l0))
  }

  /** What stays in a limb, and what is carried to the next. */
  function Lo(x: nat): (r: nat)
    ensures r < LIMB
  {
    x % LIMB
  }

  function Hi(x: nat): (r: nat)
    ensures r <= x
  {
    x / LIMB
  }

  /** The partial carry after a multiplication. */
  function CarryChain(d: Limbs): Limbs
  {
    var d1 := d.l1 + Hi(d.l0);
    var d2 := d.l2 + Hi(d1);
    var d3 := d.l3 + Hi(d2);
    var d4 := d.l4 + Hi(d3);
    var h0 := Lo(d.l0) + Hi(d4) * 5;
    Limbs(Lo(h0), Lo(d1) + Hi(h0), Lo(d2), Lo(d3), Lo(d4))
  }

  function AddLimbs(h: Limbs, m: Limbs): Limbs
  {
    Limbs(h.l0 + m.l0, h.l1 + m.l1, h.l2 + m.l2, h.l3 + m.l3, h.l4 + m.l4)
  }

  /** h := (h + m) * r, partially reduced. */
  function Absorb(h: Limbs, m: Limbs, r: Limbs): Limbs
  {
    CarryChain(Columns(AddLimbs(h, m), r))
  }

  // ---------------------------------------------------------------------
  // Schoolbook multiplication

  lemma Distribute(a: nat, r: Limbs)
    ensures a * Value(r) == a * r.l0 + LIMB * (a * r.l1) + X2 * (a * r.l2) + X3 * (a * r.l3) + X4 * (a * r.l4)
  {
    Distribute2(a, r.l0, r.l1, LIMB);
    Distribute2(a, r.l0 + LIMB * r.l1, r.l2, X2);
    Distribute2(a, r.l0 + LIMB * r.l1 + X2 * r.l2, r.l3, X3);
    Distribute2(a, r.l0 + LIMB * r.l1 + X2 * r.l2 + X3 * r.l3, r.l4, X4);
  }

  lemma Distribute2(a: nat, x: nat, y: nat, c: nat)
    ensures a * (x + c * y) == a * x + c * (a * y)
  {
  }

  /** What the folded columns leave out, in units of P. */
  function Excess(h: Limbs, r: Limbs): nat
  {
    Column(h, 0, r.l4, r.l3, r.l2, r.l1)
    + LIMB * Column(h, 0, 0, r.l4, r.l3, r.l2)
    + X2 * Column(h, 0, 0, 0, r.l4, r.l3)
    + X3 * Column(h, 0, 0, 0, 0, r.l4)
  }

  lemma TimesFive(a: nat, b: nat)
    ensures a * (b * 5) == 5 * (a * b)
  {
  }

  lemma Schoolbook(h: Limbs, r: Limbs)
    ensures Value(h) * Value(r) == Value(Columns(h, r)) + P * Excess(h, r)
  {
    var v := Value(r);
    assert v * Value(h) == v * h.l0 + LIMB * (v * h.l1) + X2 * (v * h.l2) + X3 * (v * h.l3) + X4 * (v * h.l4) by {
      Distribute(v, h);
    }
    Distribute(h.l0, r);
    Distribute(h.l1, r);
    Distribute(h.l2, r);
    Distribute(h.l3, r);
    Distribute(h.l4, r);
    TimesFive(h.l1, r.l4);
    TimesFive(h.l2, r.l3); TimesFive(h.l2, r.l4);
    TimesFive(h.l3, r.l2); TimesFive(h.l3, r.l3); TimesFive(h.l3, r.l4);
    TimesFive(h.l4, r.l1); TimesFive(h.l4, r.l2); TimesFive(h.l4, r.l3); TimesFive(h.l4, r.l4);
  }

  // ---------------------------------------------------------------------
  // Carries

  /** The carry out of the top limb, whose weight 2^130 is replaced by 5. */
  function TopCarry(d: Limbs): nat
  {
    Hi(d.l4 + Hi(d.l3 + Hi(d.l2 + Hi(d.l1 + Hi(d.l0)))))
  }

  lemma CarryChainValue(d: Limbs)
    ensures Value(CarryChain(d)) == Value(d) - P * TopCarry(d)
  {
  }

  lemma CarryChainReduced(d: Limbs)
    requires d.l0 < 0x400_0000_0000_0000 && d.l1 < 0x400_0000_0000_0000 && d.l2 < 0x400_0000_0000_0000
    requires d.l3 < 0x400_0000_0000_0000 && d.l4 < 0x100_0000_0000_0000
    ensures Reduced(CarryChain(d))
    ensures d.l0 / LIMB < 0x1_0000_0000
    ensures TopCarry(d) * 5 + LIMB < LIMB * 0x100
  {
  }

  lemma ProductBound(a: nat, b: nat, A: nat, B: nat)
    requires a <= A && b <= B
    ensures a * b <= A * B
  {
    assert a * b <= a * B;
    assert a * B <= A * B;
  }

  /** Sums of five products stay far below 2^64. */
  lemma ColumnBound(h: Limbs, a0: nat, a1: nat, a2: nat, a3: nat, a4: nat, A: nat)
    requires AllBelow(h, 2 * LIMB + 0x100)
    requires a0 < A && a1 < A && a2 < A && a3 < A && a4 < A
    ensures h.l0 * a0 <= (2 * LIMB + 0x100) * A && h.l1 * a1 <= (2 * LIMB + 0x100) * A
         && h.l2 * a2 <= (2 * LIMB + 0x100) * A && h.l3 * a3 <= (2 * LIMB + 0x100) * A
         && h.l4 * a4 <= (2 * LIMB + 0x100) * A
    ensures Column(h, a0, a1, a2, a3, a4) <= 5 * ((2 * LIMB + 0x100) * A)
  {
    ProductBound(h.l0, a0, 2 * LIMB + 0x100, A);
    ProductBound(h.l1, a1, 2 * LIMB + 0x100, A);
    ProductBound(h.l2, a2, 2 * LIMB + 0x100, A);
    ProductBound(h.l3, a3, 2 * LIMB + 0x100, A);
    ProductBound(h.l4, a4, 2 * LIMB + 0x100, A);
  }

  lemma ColumnsBound(h: Limbs, r: Limbs)
    requires AllBelow(h, 2 * LIMB + 0x100) && AllBelow(r, LIMB)
    ensures var d := Columns(h, r);
      && d.l0 < 0x400_0000_0000_0000 && d.l1 < 0x400_0000_0000_0000 && d.l2 < 0x400_0000_0000_0000
      && d.l3 < 0x400_0000_0000_0000 && d.l4 < 0x100_0000_0000_0000
  {
    var s1, s2, s3, s4 := r.l1 * 5, r.l2 * 5, r.l3 * 5, r.l4 * 5;
    ColumnBound(h, r.l0, s4, s3, s2, s1, 5 * LIMB);
    ColumnBound(h, r.l1, r.l0, s4, s3, s2, 5 * LIMB);
    ColumnBound(h, r.l2, r.l1, r.l0, s4, s3, 5 * LIMB);
    ColumnBound(h, r.l3, r.l2, r.l1, r.l0, s4, 5 * LIMB);
    ColumnBound(h, r.l4, r.l3, r.l2, r.l1, r.l0, LIMB);
  }

  lemma AbsorbReduced(h: Limbs, m: Limbs, r: Limbs)
    requires Reduced(h) && AllBelow(m, LIMB) && AllBelow(r, LIMB)
    ensures Reduced(Absorb(h, m, r))
  {
    ColumnsBound(AddLimbs(h, m), r);
    CarryChainReduced(Columns(AddLimbs(h, m), r));
  }

  lemma ModP(a: nat, b: nat, k: nat)
    requires a + P * k == b
    ensures a % P == b % P
  {
    DivMod(b, a / P + k, a % P, P);
  }

  lemma ModProduct(a: nat, a': nat, b: nat)
    requires a % P == a' % P
    ensures (a * b) % P == (a' * b) % P
    decreases a < a'
  {
    if a >= a' {
      assert a == a' + P * (a / P - a' / P);
      assert a * b == a' * b + P * ((a / P - a' / P) * b);
      ModP(a' * b, a * b, (a / P - a' / P) * b);
    } else {
      ModProduct(a', a, b);
    }
  }

  lemma SumValue(h: Limbs, m: Limbs)
    ensures Value(AddLimbs(h, m)) == Value(h) + Value(m)
  {
  }

  lemma Collected(v: nat, w: nat, top: nat, excess: nat, product: nat)
    requires v == w - P * top && product == w + P * excess
    ensures v + P * (top + excess) == product
  {
  }

  /** One step of the Poly1305 polynomial, modulo 2^130 - 5. */
  lemma AbsorbCongruent(h: Limbs, m: Limbs, r: Limbs)
    ensures Value(Absorb(h, m, r)) % P == ((Value(h) + Value(m)) * Value(r)) % P
  {
    hide Value, Columns, CarryChain, Excess, TopCarry, AddLimbs;
    var sum := AddLimbs(h, m);
    var d := Columns(sum, r);
    Schoolbook(sum, r);
    CarryChainValue(d);
    SumValue(h, m);
    Collected(Value(CarryChain(d)), Value(d), TopCarry(d), Excess(sum, r), Value(sum) * Value(r));
    ModP(Value(CarryChain(d)), Value(sum) * Value(r), TopCarry(d) + Excess(sum, r));
  }
}
