/** The hash of src/apps/kvs/jhash.h is hashlittle of lookup3.c by Bob Jenkins: it has
    the value that is published there for a key of thirty bytes, in which every
    constant, every rotation and the order of the lines count. */
module JhashVector {
  import opened Bytes
  import opened Bits
  import opened Jhash
  import ShardedKvs

  // ---------------------------------------------------------------------
  // Exclusive or, digit by digit

  lemma XorPair(a: nat, i: nat, b: nat, j: nat)
    requires i <= 1 && j <= 1
    ensures Xor(2 * a + i, 2 * b + j) == 2 * Xor(a, b) + Differ(i, j)
  {
    hide Xor;
    XorStep(2 * a + i, 2 * b + j);
    HalfIs(a, i);
    HalfIs(b, j);
  }

  lemma HalfIs(a: nat, i: nat)
    requires i <= 1
    ensures (2 * a + i) / 2 == a && (2 * a + i) % 2 == i
  {
  }

  function Differ(i: nat, j: nat): nat { if i == j then 0 else 1 }

  /** Of two digits in base 4. */
  function Quarter(d: nat, e: nat): nat
  {
    if d == 0 then e else if e == 0 then d
    else if d == e then 0 else if d + e == 3 then 3 else if d + e == 4 then 2 else 1
  }

  function Upper(d: nat): nat { if d >= 12 then 3 else if d >= 8 then 2 else if d >= 4 then 1 else 0 }

  function Lower(d: nat): nat { if d >= 12 then d - 12 else if d >= 8 then d - 8 else if d >= 4 then d - 4 else d }

  /** Of two hexadecimal digits. */
  function Digit(d: nat, e: nat): nat { 4 * Quarter(Upper(d), Upper(e)) + Quarter(Lower(d), Lower(e)) }

  lemma QuarterBits(d: nat, e: nat)
    requires d < 4 && e < 4
    ensures var d1, e1 := if d >= 2 then 1 else 0, if e >= 2 then 1 else 0;
      Quarter(d, e) == 2 * Differ(d1, e1) + Differ(d - 2 * d1, e - 2 * e1)
  {
  }

  lemma XorQuarter(a: nat, d: nat, b: nat, e: nat)
    requires d < 4 && e < 4
    ensures Xor(4 * a + d, 4 * b + e) == 4 * Xor(a, b) + Quarter(d, e)
  {
    hide Xor, Differ, Quarter;
    var d1, e1 := if d >= 2 then 1 else 0, if e >= 2 then 1 else 0;
    XorPair(a, d1, b, e1);
    XorPair(2 * a + d1, d - 2 * d1, 2 * b + e1, e - 2 * e1);
    QuarterBits(d, e);
  }

  lemma XorDigit(a: nat, d: nat, b: nat, e: nat)
    requires d < 16 && e < 16
    ensures Xor(16 * a + d, 16 * b + e) == 16 * Xor(a, b) + Digit(d, e)
  {
    hide Xor, Quarter;
    XorQuarter(a, Upper(d), b, Upper(e));
    XorQuarter(4 * a + Upper(d), Lower(d), 4 * b + Upper(e), Lower(e));
  }

  function Word(d3: nat, d2: nat, d1: nat, d0: nat): nat { 16 * (16 * (16 * d3 + d2) + d1) + d0 }

  /** Four digits behind whatever there is already. */
  lemma XorWords(a: nat, d3: nat, d2: nat, d1: nat, d0: nat, b: nat, e3: nat, e2: nat, e1: nat, e0: nat)
    requires d3 < 16 && d2 < 16 && d1 < 16 && d0 < 16 && e3 < 16 && e2 < 16 && e1 < 16 && e0 < 16
    ensures Xor(0x1_0000 * a + Word(d3, d2, d1, d0), 0x1_0000 * b + Word(e3, e2, e1, e0))
         == 0x1_0000 * Xor(a, b) + Word(Digit(d3, e3), Digit(d2, e2), Digit(d1, e1), Digit(d0, e0))
  {
    hide Xor, Digit;
    var x3, y3 := 16 * a + d3, 16 * b + e3;
    var x2, y2 := 16 * x3 + d2, 16 * y3 + e2;
    var x1, y1 := 16 * x2 + d1, 16 * y2 + e1;
    XorDigit(a, d3, b, e3);
    XorDigit(x3, d2, y3, e2);
    XorDigit(x2, d1, y2, e1);
    XorDigit(x1, d0, y1, e0);
  }

  lemma NoXor()
    ensures Xor(0, 0) == 0
  {
  }

  lemma {:induction false} OrCommutes(x: nat, y: nat)
    ensures Or(x, y) == Or(y, x)
    decreases x + y
  {
    if x != 0 && y != 0 {
      OrCommutes(x / 2, y / 2);
    }
  }

  // ---------------------------------------------------------------------
  // One line of mix or final

  /** A rotation puts the high bits behind the low ones. */
  lemma RotIs(high: nat, low: nat, k: nat, p: nat, q: nat)
    requires 0 < k < 32 && p == Pow2(k) && q == Pow2(32 - k) && p * q == TWO32
    requires high < p && low < q && q * high + low < TWO32
    ensures p * low + high < TWO32 && Rot(q * high + low, k) == p * low + high
  {
    hide Or, Shl, Shr, Pow2;
    var x := q * high + low;
    LowMoved(x, k, high, low, p, q);
    HighMoved(x, k, high, low, q);
    SideBySide(high, low, k, p);
    Small(p * low + high);
  }

  lemma LowMoved(x: nat, k: nat, high: nat, low: nat, p: nat, q: nat)
    requires p == Pow2(k) && p * q == TWO32 && x == q * high + low && high < p && low < q
    ensures Shl(x, k) % TWO32 == p * low && p * low + high < TWO32
  {
    hide Shl, Pow2;
    ShlIsTimes(x, k);
    Moved(high, low, p, q);
    DivMod(p * x, high, p * low, TWO32);
  }

  lemma HighMoved(x: nat, k: nat, high: nat, low: nat, q: nat)
    requires k < 32 && q == Pow2(32 - k) && x == q * high + low && low < q
    ensures Shr(x, 32 - k) == high
  {
    hide Shr, Pow2;
    ShrIsDiv(x, 32 - k);
    DivMod(x, high, low, q);
  }

  lemma SideBySide(high: nat, low: nat, k: nat, p: nat)
    requires p == Pow2(k) && high < p
    ensures Or(p * low, high) == p * low + high
  {
    hide Or, Shl, Pow2;
    OrDisjoint(high, k, low);
    ShlIsTimes(low, k);
    OrCommutes(high, p * low);
  }

  lemma Moved(high: nat, low: nat, p: nat, q: nat)
    requires p * q == TWO32 && low < q && high < p
    ensures p * (q * high + low) == TWO32 * high + p * low && p * low + high < TWO32
  {
    assert p * (q * high + low) == (p * q) * high + p * low;
    assert p * low <= p * (q - 1) == TWO32 - p;
  }

  lemma Small(x: nat)
    requires x < TWO32
    ensures x % TWO32 == x
  {
  }

  /** A difference or a sum of words, with the borrow or the carry lost. */
  lemma Wraps(x: int, r: u32)
    requires x == r || x == r - TWO32 || x == r + TWO32
    ensures x % TWO32 == r
  {
  }

  lemma TurnIs(x: u32, y: u32, z: u32, k: nat, high: nat, low: nat, p: nat, q: nat, diff: u32, x': u32, z': u32)
    requires 0 < k < 32 && p == Pow2(k) && q == Pow2(32 - k) && p * q == TWO32
    requires z == q * high + low && high < p && low < q
    requires diff == x - z || diff == x - z + TWO32
    requires z' == z + y || z' == z + y - TWO32
    requires x' == Xor(diff, p * low + high)
    ensures Turn(x, y, z, k) == (x', z')
  {
    hide Xor, Rot, Pow2;
    RotIs(high, low, k, p, q);
    Wraps(x - z, diff);
    Wraps(z + y, z');
    Small(x');
  }

  lemma LineIs(c: u32, b: u32, k: nat, high: nat, low: nat, p: nat, q: nat, mixed: u32, c': u32)
    requires 0 < k < 32 && p == Pow2(k) && q == Pow2(32 - k) && p * q == TWO32
    requires b == q * high + low && high < p && low < q && mixed == Xor(c, b)
    requires c' == mixed - (p * low + high) || c' == mixed - (p * low + high) + TWO32
    ensures Sub32(Xor32(c, b), Rot(b, k)) == c'
  {
    hide Xor, Rot, Pow2;
    RotIs(high, low, k, p, q);
    Small(mixed);
    Wraps(mixed - (p * low + high), c');
  }

  lemma PowersOf4()
    ensures Pow2(4) == 0x10 && Pow2(28) == 0x10000000
  {
    assert Pow2(2) == 0x4;
    assert Pow2(4) == 0x10;
    assert Pow2(16) == 0x10000;
    assert Pow2(28) == 0x10000000;
  }

  lemma PowersOf6()
    ensures Pow2(6) == 0x40 && Pow2(26) == 0x4000000
  {
    assert Pow2(3) == 0x8;
    assert Pow2(6) == 0x40;
    assert Pow2(16) == 0x10000;
    assert Pow2(26) == 0x4000000;
  }

  lemma PowersOf8()
    ensures Pow2(8) == 0x100 && Pow2(24) == 0x1000000
  {
    assert Pow2(4) == 0x10;
    assert Pow2(8) == 0x100;
    assert Pow2(16) == 0x10000;
    assert Pow2(24) == 0x1000000;
  }

  lemma PowersOf11()
    ensures Pow2(11) == 0x800 && Pow2(21) == 0x200000
  {
    assert Pow2(5) == 0x20;
    assert Pow2(11) == 0x800;
    assert Pow2(16) == 0x10000;
    assert Pow2(21) == 0x200000;
  }

  lemma PowersOf14()
    ensures Pow2(14) == 0x4000 && Pow2(18) == 0x40000
  {
    assert Pow2(7) == 0x80;
    assert Pow2(14) == 0x4000;
    assert Pow2(16) == 0x10000;
    assert Pow2(18) == 0x40000;
  }

  lemma PowersOf16()
    ensures Pow2(16) == 0x10000 && Pow2(16) == 0x10000
  {
    assert Pow2(8) == 0x100;
    assert Pow2(16) == 0x10000;
    assert Pow2(16) == 0x10000;
    assert Pow2(16) == 0x10000;
  }

  lemma PowersOf19()
    ensures Pow2(19) == 0x80000 && Pow2(13) == 0x2000
  {
    assert Pow2(6) == 0x40;
    assert Pow2(13) == 0x2000;
    assert Pow2(16) == 0x10000;
    assert Pow2(19) == 0x80000;
  }

  lemma PowersOf24()
    ensures Pow2(24) == 0x1000000 && Pow2(8) == 0x100
  {
    assert Pow2(4) == 0x10;
    assert Pow2(8) == 0x100;
    assert Pow2(16) == 0x10000;
    assert Pow2(24) == 0x1000000;
  }

  lemma PowersOf25()
    ensures Pow2(25) == 0x2000000 && Pow2(7) == 0x80
  {
    assert Pow2(3) == 0x8;
    assert Pow2(7) == 0x80;
    assert Pow2(16) == 0x10000;
    assert Pow2(25) == 0x2000000;
  }

  // ---------------------------------------------------------------------
  // The published value

  lemma FirstTurnOneXor()
    ensures Xor(0x115509d4, 0xfce247f3) == 0xedb74e27
  {
    hide Xor;
    assert Xor(0x1155, 0xfce2) == 0xedb7 by {
      NoXor();
      XorWords(0, 0x1, 0x1, 0x5, 0x5, 0, 0xf, 0xc, 0xe, 0x2);
    }
    XorWords(0x1155, 0x0, 0x9, 0xd, 0x4, 0xfce2, 0x4, 0x7, 0xf, 0x3);
  }

  lemma FirstTurnOne()
    ensures Turn(0x51232e53, 0x4e11322d, 0x3fce247f, 4) == (0xedb74e27, 0x8ddf56ac)
  {
    hide Xor, Turn, Pow2;
    FirstTurnOneXor();
    PowersOf4();
    TurnIs(0x51232e53, 0x4e11322d, 0x3fce247f, 4, 0x3, 0xfce247f, 0x10, 0x10000000, 0x115509d4, 0xedb74e27, 0x8ddf56ac);
  }

  lemma FirstTurnTwoXor()
    ensures Xor(0x6059e406, 0x6dd389fb) == 0xd8a6dfd
  {
    hide Xor;
    assert Xor(0x6059, 0x6dd3) == 0xd8a by {
      NoXor();
      XorWords(0, 0x6, 0x0, 0x5, 0x9, 0, 0x6, 0xd, 0xd, 0x3);
    }
    XorWords(0x6059, 0xe, 0x4, 0x0, 0x6, 0x6dd3, 0x8, 0x9, 0xf, 0xb);
  }

  lemma FirstTurnTwo()
    ensures Turn(0x4e11322d, 0x8ddf56ac, 0xedb74e27, 6) == (0xd8a6dfd, 0x7b96a4d3)
  {
    hide Xor, Turn, Pow2;
    FirstTurnTwoXor();
    PowersOf6();
    TurnIs(0x4e11322d, 0x8ddf56ac, 0xedb74e27, 6, 0x3b, 0x1b74e27, 0x40, 0x4000000, 0x6059e406, 0xd8a6dfd, 0x7b96a4d3);
  }

  lemma FirstTurnThreeXor()
    ensures Xor(0x8054e8af, 0x8a6dfd0d) == 0xa3915a2
  {
    hide Xor;
    assert Xor(0x8054, 0x8a6d) == 0xa39 by {
      NoXor();
      XorWords(0, 0x8, 0x0, 0x5, 0x4, 0, 0x8, 0xa, 0x6, 0xd);
    }
    XorWords(0x8054, 0xe, 0x8, 0xa, 0xf, 0x8a6d, 0xf, 0xd, 0x0, 0xd);
  }

  lemma FirstTurnThree()
    ensures Turn(0x8ddf56ac, 0x7b96a4d3, 0xd8a6dfd, 8) == (0xa3915a2, 0x892112d0)
  {
    hide Xor, Turn, Pow2;
    FirstTurnThreeXor();
    PowersOf8();
    TurnIs(0x8ddf56ac, 0x7b96a4d3, 0xd8a6dfd, 8, 0xd, 0x8a6dfd, 0x100, 0x1000000, 0x8054e8af, 0xa3915a2, 0x892112d0);
  }

  lemma FirstTurnFourXor()
    ensures Xor(0x715d8f31, 0x15a20a39) == 0x64ff8508
  {
    hide Xor;
    assert Xor(0x715d, 0x15a2) == 0x64ff by {
      NoXor();
      XorWords(0, 0x7, 0x1, 0x5, 0xd, 0, 0x1, 0x5, 0xa, 0x2);
    }
    XorWords(0x715d, 0x8, 0xf, 0x3, 0x1, 0x15a2, 0x0, 0xa, 0x3, 0x9);
  }

  lemma FirstTurnFour()
    ensures Turn(0x7b96a4d3, 0x892112d0, 0xa3915a2, 16) == (0x64ff8508, 0x935a2872)
  {
    hide Xor, Turn, Pow2;
    FirstTurnFourXor();
    PowersOf16();
    TurnIs(0x7b96a4d3, 0x892112d0, 0xa3915a2, 16, 0xa39, 0x15a2, 0x10000, 0x10000, 0x715d8f31, 0x64ff8508, 0x935a2872);
  }

  lemma FirstTurnFiveXor()
    ensures Xor(0x24218dc8, 0x284327fc) == 0xc62aa34
  {
    hide Xor;
    assert Xor(0x2421, 0x2843) == 0xc62 by {
      NoXor();
      XorWords(0, 0x2, 0x4, 0x2, 0x1, 0, 0x2, 0x8, 0x4, 0x3);
    }
    XorWords(0x2421, 0x8, 0xd, 0xc, 0x8, 0x2843, 0x2, 0x7, 0xf, 0xc);
  }

  lemma FirstTurnFive()
    ensures Turn(0x892112d0, 0x935a2872, 0x64ff8508, 19) == (0xc62aa34, 0xf859ad7a)
  {
    hide Xor, Turn, Pow2;
    FirstTurnFiveXor();
    PowersOf19();
    TurnIs(0x892112d0, 0x935a2872, 0x64ff8508, 19, 0x327fc, 0x508, 0x80000, 0x2000, 0x24218dc8, 0xc62aa34, 0xf859ad7a);
  }

  lemma FirstTurnSixXor()
    ensures Xor(0x86f77e3e, 0xc62aa340) == 0x40dddd7e
  {
    hide Xor;
    assert Xor(0x86f7, 0xc62a) == 0x40dd by {
      NoXor();
      XorWords(0, 0x8, 0x6, 0xf, 0x7, 0, 0xc, 0x6, 0x2, 0xa);
    }
    XorWords(0x86f7, 0x7, 0xe, 0x3, 0xe, 0xc62a, 0xa, 0x3, 0x4, 0x0);
  }

  lemma FirstTurnSix()
    ensures Turn(0x935a2872, 0xf859ad7a, 0xc62aa34, 4) == (0x40dddd7e, 0x4bc57ae)
  {
    hide Xor, Turn, Pow2;
    FirstTurnSixXor();
    PowersOf4();
    TurnIs(0x935a2872, 0xf859ad7a, 0xc62aa34, 4, 0x0, 0xc62aa34, 0x10, 0x10000000, 0x86f77e3e, 0x40dddd7e, 0x4bc57ae);
  }

  lemma FirstMix()
    ensures Mix(State(0x51232e53, 0x4e11322d, 0x3fce247f))
         == State(0xf859ad7a, 0x4bc57ae, 0x40dddd7e)
  {
    hide Turn;
    FirstTurnOne();
    FirstTurnTwo();
    FirstTurnThree();
    FirstTurnFour();
    FirstTurnFive();
    FirstTurnSix();
  }

  lemma SecondTurnOneXor()
    ensures Xor(0xc936bb4a, 0x243569ea) == 0xed03d2a0
  {
    hide Xor;
    assert Xor(0xc936, 0x2435) == 0xed03 by {
      NoXor();
      XorWords(0, 0xc, 0x9, 0x3, 0x6, 0, 0x2, 0x4, 0x3, 0x5);
    }
    XorWords(0xc936, 0xb, 0xb, 0x4, 0xa, 0x2435, 0x6, 0x9, 0xe, 0xa);
  }

  lemma SecondTurnOne()
    ensures Turn(0x6b7a11e8, 0x7321ce13, 0xa243569e, 4) == (0xed03d2a0, 0x156524b1)
  {
    hide Xor, Turn, Pow2;
    SecondTurnOneXor();
    PowersOf4();
    TurnIs(0x6b7a11e8, 0x7321ce13, 0xa243569e, 4, 0xa, 0x243569e, 0x10, 0x10000000, 0xc936bb4a, 0xed03d2a0, 0x156524b1);
  }

  lemma SecondTurnTwoXor()
    ensures Xor(0x861dfb73, 0x40f4a83b) == 0xc6e95348
  {
    hide Xor;
    assert Xor(0x861d, 0x40f4) == 0xc6e9 by {
      NoXor();
      XorWords(0, 0x8, 0x6, 0x1, 0xd, 0, 0x4, 0x0, 0xf, 0x4);
    }
    XorWords(0x861d, 0xf, 0xb, 0x7, 0x3, 0x40f4, 0xa, 0x8, 0x3, 0xb);
  }

  lemma SecondTurnTwo()
    ensures Turn(0x7321ce13, 0x156524b1, 0xed03d2a0, 6) == (0xc6e95348, 0x268f751)
  {
    hide Xor, Turn, Pow2;
    SecondTurnTwoXor();
    PowersOf6();
    TurnIs(0x7321ce13, 0x156524b1, 0xed03d2a0, 6, 0x3b, 0x103d2a0, 0x40, 0x4000000, 0x861dfb73, 0xc6e95348, 0x268f751);
  }

  lemma SecondTurnThreeXor()
    ensures Xor(0x4e7bd169, 0xe95348c6) == 0xa72899af
  {
    hide Xor;
    assert Xor(0x4e7b, 0xe953) == 0xa728 by {
      NoXor();
      XorWords(0, 0x4, 0xe, 0x7, 0xb, 0, 0xe, 0x9, 0x5, 0x3);
    }
    XorWords(0x4e7b, 0xd, 0x1, 0x6, 0x9, 0xe953, 0x4, 0x8, 0xc, 0x6);
  }

  lemma SecondTurnThree()
    ensures Turn(0x156524b1, 0x268f751, 0xc6e95348, 8) == (0xa72899af, 0xc9524a99)
  {
    hide Xor, Turn, Pow2;
    SecondTurnThreeXor();
    PowersOf8();
    TurnIs(0x156524b1, 0x268f751, 0xc6e95348, 8, 0xc6, 0xe95348, 0x100, 0x1000000, 0x4e7bd169, 0xa72899af, 0xc9524a99);
  }

  lemma SecondTurnFourXor()
    ensures Xor(0x5b405da2, 0x99afa728) == 0xc2effa8a
  {
    hide Xor;
    assert Xor(0x5b40, 0x99af) == 0xc2ef by {
      NoXor();
      XorWords(0, 0x5, 0xb, 0x4, 0x0, 0, 0x9, 0x9, 0xa, 0xf);
    }
    XorWords(0x5b40, 0x5, 0xd, 0xa, 0x2, 0x99af, 0xa, 0x7, 0x2, 0x8);
  }

  lemma SecondTurnFour()
    ensures Turn(0x268f751, 0xc9524a99, 0xa72899af, 16) == (0xc2effa8a, 0x707ae448)
  {
    hide Xor, Turn, Pow2;
    SecondTurnFourXor();
    PowersOf16();
    TurnIs(0x268f751, 0xc9524a99, 0xa72899af, 16, 0xa728, 0x99af, 0x10000, 0x10000, 0x5b405da2, 0xc2effa8a, 0x707ae448);
  }

  lemma SecondTurnFiveXor()
    ensures Xor(0x662500f, 0xd456177f) == 0xd2344770
  {
    hide Xor;
    assert Xor(0x662, 0xd456) == 0xd234 by {
      NoXor();
      XorWords(0, 0x0, 0x6, 0x6, 0x2, 0, 0xd, 0x4, 0x5, 0x6);
    }
    XorWords(0x662, 0x5, 0x0, 0x0, 0xf, 0xd456, 0x1, 0x7, 0x7, 0xf);
  }

  lemma SecondTurnFive()
    ensures Turn(0xc9524a99, 0x707ae448, 0xc2effa8a, 19) == (0xd2344770, 0x336aded2)
  {
    hide Xor, Turn, Pow2;
    SecondTurnFiveXor();
    PowersOf19();
    TurnIs(0xc9524a99, 0x707ae448, 0xc2effa8a, 19, 0x6177f, 0x1a8a, 0x80000, 0x2000, 0x662500f, 0xd2344770, 0x336aded2);
  }

  lemma SecondTurnSixXor()
    ensures Xor(0x9e469cd8, 0x2344770d) == 0xbd02ebd5
  {
    hide Xor;
    assert Xor(0x9e46, 0x2344) == 0xbd02 by {
      NoXor();
      XorWords(0, 0x9, 0xe, 0x4, 0x6, 0, 0x2, 0x3, 0x4, 0x4);
    }
    XorWords(0x9e46, 0x9, 0xc, 0xd, 0x8, 0x2344, 0x7, 0x7, 0x0, 0xd);
  }

  lemma SecondTurnSix()
    ensures Turn(0x707ae448, 0x336aded2, 0xd2344770, 4) == (0xbd02ebd5, 0x59f2642)
  {
    hide Xor, Turn, Pow2;
    SecondTurnSixXor();
    PowersOf4();
    TurnIs(0x707ae448, 0x336aded2, 0xd2344770, 4, 0xd, 0x2344770, 0x10, 0x10000000, 0x9e469cd8, 0xbd02ebd5, 0x59f2642);
  }

  lemma SecondMix()
    ensures Mix(State(0x6b7a11e8, 0x7321ce13, 0xa243569e))
         == State(0x336aded2, 0x59f2642, 0xbd02ebd5)
  {
    hide Turn;
    SecondTurnOne();
    SecondTurnTwo();
    SecondTurnThree();
    SecondTurnFour();
    SecondTurnFive();
    SecondTurnSix();
  }

  lemma LineOneXor()
    ensures Xor(0xbd02ebd5, 0x59f95a9) == 0xb89d7e7c
  {
    hide Xor;
    assert Xor(0xbd02, 0x59f) == 0xb89d by {
      NoXor();
      XorWords(0, 0xb, 0xd, 0x0, 0x2, 0, 0x0, 0x5, 0x9, 0xf);
    }
    XorWords(0xbd02, 0xe, 0xb, 0xd, 0x5, 0x59f, 0x9, 0x5, 0xa, 0x9);
  }

  lemma LineOne()
    ensures Sub32(Xor32(0xbd02ebd5, 0x59f95a9), Rot(0x59f95a9, 14)) == 0xd3333d15
  {
    hide Xor, Xor32, Rot, Sub32, Pow2;
    LineOneXor();
    PowersOf14();
    LineIs(0xbd02ebd5, 0x59f95a9, 14, 0x167, 0x395a9, 0x4000, 0x40000, 0xb89d7e7c, 0xd3333d15);
  }

  lemma LineTwoXor()
    ensures Xor(0x948b5244, 0xd3333d15) == 0x47b86f51
  {
    hide Xor;
    assert Xor(0x948b, 0xd333) == 0x47b8 by {
      NoXor();
      XorWords(0, 0x9, 0x4, 0x8, 0xb, 0, 0xd, 0x3, 0x3, 0x3);
    }
    XorWords(0x948b, 0x5, 0x2, 0x4, 0x4, 0xd333, 0x3, 0xd, 0x1, 0x5);
  }

  lemma LineTwo()
    ensures Sub32(Xor32(0x948b5244, 0xd3333d15), Rot(0xd3333d15, 11)) == 0xadcfc0b8
  {
    hide Xor, Xor32, Rot, Sub32, Pow2;
    LineTwoXor();
    PowersOf11();
    LineIs(0x948b5244, 0xd3333d15, 11, 0x699, 0x133d15, 0x800, 0x200000, 0x47b86f51, 0xadcfc0b8);
  }

  lemma LineThreeXor()
    ensures Xor(0x59f95a9, 0xadcfc0b8) == 0xa8505511
  {
    hide Xor;
    assert Xor(0x59f, 0xadcf) == 0xa850 by {
      NoXor();
      XorWords(0, 0x0, 0x5, 0x9, 0xf, 0, 0xa, 0xd, 0xc, 0xf);
    }
    XorWords(0x59f, 0x9, 0x5, 0xa, 0x9, 0xadcf, 0xc, 0x0, 0xb, 0x8);
  }

  lemma LineThree()
    ensures Sub32(Xor32(0x59f95a9, 0xadcfc0b8), Rot(0xadcfc0b8, 25)) == 0x36f4b590
  {
    hide Xor, Xor32, Rot, Sub32, Pow2;
    LineThreeXor();
    PowersOf25();
    LineIs(0x59f95a9, 0xadcfc0b8, 25, 0x15b9f81, 0x38, 0x2000000, 0x80, 0xa8505511, 0x36f4b590);
  }

  lemma LineFourXor()
    ensures Xor(0xd3333d15, 0x36f4b590) == 0xe5c78885
  {
    hide Xor;
    assert Xor(0xd333, 0x36f4) == 0xe5c7 by {
      NoXor();
      XorWords(0, 0xd, 0x3, 0x3, 0x3, 0, 0x3, 0x6, 0xf, 0x4);
    }
    XorWords(0xd333, 0x3, 0xd, 0x1, 0x5, 0x36f4, 0xb, 0x5, 0x9, 0x0);
  }

  lemma LineFour()
    ensures Sub32(Xor32(0xd3333d15, 0x36f4b590), Rot(0x36f4b590, 16)) == 0x30375191
  {
    hide Xor, Xor32, Rot, Sub32, Pow2;
    LineFourXor();
    PowersOf16();
    LineIs(0xd3333d15, 0x36f4b590, 16, 0x36f4, 0xb590, 0x10000, 0x10000, 0xe5c78885, 0x30375191);
  }

  lemma LineFiveXor()
    ensures Xor(0xadcfc0b8, 0x30375191) == 0x9df89129
  {
    hide Xor;
    assert Xor(0xadcf, 0x3037) == 0x9df8 by {
      NoXor();
      XorWords(0, 0xa, 0xd, 0xc, 0xf, 0, 0x3, 0x0, 0x3, 0x7);
    }
    XorWords(0xadcf, 0xc, 0x0, 0xb, 0x8, 0x3037, 0x5, 0x1, 0x9, 0x1);
  }

  lemma LineFive()
    ensures Sub32(Xor32(0xadcfc0b8, 0x30375191), Rot(0x30375191, 4)) == 0x9a837816
  {
    hide Xor, Xor32, Rot, Sub32, Pow2;
    LineFiveXor();
    PowersOf4();
    LineIs(0xadcfc0b8, 0x30375191, 4, 0x3, 0x375191, 0x10, 0x10000000, 0x9df89129, 0x9a837816);
  }

  lemma LineSixXor()
    ensures Xor(0x36f4b590, 0x9a837816) == 0xac77cd86
  {
    hide Xor;
    assert Xor(0x36f4, 0x9a83) == 0xac77 by {
      NoXor();
      XorWords(0, 0x3, 0x6, 0xf, 0x4, 0, 0x9, 0xa, 0x8, 0x3);
    }
    XorWords(0x36f4, 0xb, 0x5, 0x9, 0x0, 0x9a83, 0x7, 0x8, 0x1, 0x6);
  }

  lemma LineSix()
    ensures Sub32(Xor32(0x36f4b590, 0x9a837816), Rot(0x9a837816, 14)) == 0xce7226e6
  {
    hide Xor, Xor32, Rot, Sub32, Pow2;
    LineSixXor();
    PowersOf14();
    LineIs(0x36f4b590, 0x9a837816, 14, 0x26a0, 0x37816, 0x4000, 0x40000, 0xac77cd86, 0xce7226e6);
  }

  lemma LineSevenXor()
    ensures Xor(0x30375191, 0xce7226e6) == 0xfe457777
  {
    hide Xor;
    assert Xor(0x3037, 0xce72) == 0xfe45 by {
      NoXor();
      XorWords(0, 0x3, 0x0, 0x3, 0x7, 0, 0xc, 0xe, 0x7, 0x2);
    }
    XorWords(0x3037, 0x5, 0x1, 0x9, 0x1, 0xce72, 0x2, 0x6, 0xe, 0x6);
  }

  lemma LineSeven()
    ensures Sub32(Xor32(0x30375191, 0xce7226e6), Rot(0xce7226e6, 24)) == 0x17770551
  {
    hide Xor, Xor32, Rot, Sub32, Pow2;
    LineSevenXor();
    PowersOf24();
    LineIs(0x30375191, 0xce7226e6, 24, 0xce7226, 0xe6, 0x1000000, 0x100, 0xfe457777, 0x17770551);
  }

  lemma FinalIs()
    ensures Final(State(0x948b5244, 0x59f95a9, 0xbd02ebd5)) == 0x17770551
  {
    hide Xor32, Rot, Sub32;
    LineOne();
    LineTwo();
    LineThree();
    LineFour();
    LineFive();
    LineSix();
    LineSeven();
  }

  /** Four score and seven years ago */
  const KEY: seq<byte> :=
    [0x46, 0x6f, 0x75, 0x72, 0x20, 0x73, 0x63, 0x6f, 0x72, 0x65, 0x20, 0x61]
    + [0x6e, 0x64, 0x20, 0x73, 0x65, 0x76, 0x65, 0x6e, 0x20, 0x79, 0x65, 0x61]
    + [0x72, 0x73, 0x20, 0x61, 0x67, 0x6f]

  lemma WordIs(key: seq<byte>, i: nat, b0: byte, b1: byte, b2: byte, b3: byte, w: nat)
    requires i + 4 <= |key| && key[i] == b0 && key[i + 1] == b1 && key[i + 2] == b2 && key[i + 3] == b3
    requires w == b0 + 0x100 * b1 + 0x1_0000 * b2 + 0x100_0000 * b3
    ensures WordAt(key, i) == w
  {
    Load32Is(key, i);
  }

  /** Twelve bytes are three words. */
  lemma TwelveBytes(b0: byte, b1: byte, b2: byte, b3: byte, b4: byte, b5: byte,
                    b6: byte, b7: byte, b8: byte, b9: byte, b10: byte, b11: byte, x: nat, y: nat, z: nat)
    requires x == b0 + 0x100 * b1 + 0x1_0000 * b2 + 0x100_0000 * b3
    requires y == b4 + 0x100 * b5 + 0x1_0000 * b6 + 0x100_0000 * b7
    requires z == b8 + 0x100 * b9 + 0x1_0000 * b10 + 0x100_0000 * b11
    ensures var key := [b0, b1, b2, b3, b4, b5, b6, b7, b8, b9, b10, b11];
      WordAt(key, 0) == x && WordAt(key, 4) == y && WordAt(key, 8) == z
  {
    hide WordAt;
    var key := [b0, b1, b2, b3, b4, b5, b6, b7, b8, b9, b10, b11];
    WordIs(key, 0, b0, b1, b2, b3, x);
    WordIs(key, 4, b4, b5, b6, b7, y);
    WordIs(key, 8, b8, b9, b10, b11, z);
  }

  /** Six bytes are a word and a half. */
  lemma SixBytes(b0: byte, b1: byte, b2: byte, b3: byte, b4: byte, b5: byte, x: nat, y: nat)
    requires x == b0 + 0x100 * b1 + 0x1_0000 * b2 + 0x100_0000 * b3 && y == b4 + 0x100 * b5
    ensures var key := [b0, b1, b2, b3, b4, b5]; WordAt(key, 0) == x && WordAt(key, 4) == y && WordAt(key, 8) == 0
  {
    var key := [b0, b1, b2, b3, b4, b5];
    WordIs(key, 0, b0, b1, b2, b3, x);
    Load16Is(key, 4);
    assert key[4..] == key[4..6];
  }

  lemma Absorbed(s: State, key: seq<byte>, x: nat, y: nat, z: nat, t: State)
    requires WordAt(key, 0) == x && WordAt(key, 4) == y && WordAt(key, 8) == z
    requires s.a + x == t.a || s.a + x == t.a + TWO32
    requires s.b + y == t.b || s.b + y == t.b + TWO32
    requires s.c + z == t.c || s.c + z == t.c + TWO32
    ensures Absorb(s, key) == t
  {
    hide WordAt;
    Wraps(s.a + x, t.a);
    Wraps(s.b + y, t.b);
    Wraps(s.c + z, t.c);
  }

  lemma FirstWords()
    ensures Absorb(State(0xdeadbf0d, 0xdeadbf0d, 0xdeadbf0d),
                   [0x46, 0x6f, 0x75, 0x72, 0x20, 0x73, 0x63, 0x6f, 0x72, 0x65, 0x20, 0x61])
         == State(0x51232e53, 0x4e11322d, 0x3fce247f)
  {
    hide WordAt, Absorb;
    TwelveBytes(0x46, 0x6f, 0x75, 0x72, 0x20, 0x73, 0x63, 0x6f, 0x72, 0x65, 0x20, 0x61,
                0x72756f46, 0x6f637320, 0x61206572);
    Absorbed(State(0xdeadbf0d, 0xdeadbf0d, 0xdeadbf0d),
             [0x46, 0x6f, 0x75, 0x72, 0x20, 0x73, 0x63, 0x6f, 0x72, 0x65, 0x20, 0x61],
             0x72756f46, 0x6f637320, 0x61206572, State(0x51232e53, 0x4e11322d, 0x3fce247f));
  }

  lemma SecondWords()
    ensures Absorb(State(0xf859ad7a, 0x4bc57ae, 0x40dddd7e),
                   [0x6e, 0x64, 0x20, 0x73, 0x65, 0x76, 0x65, 0x6e, 0x20, 0x79, 0x65, 0x61])
         == State(0x6b7a11e8, 0x7321ce13, 0xa243569e)
  {
    hide WordAt, Absorb;
    TwelveBytes(0x6e, 0x64, 0x20, 0x73, 0x65, 0x76, 0x65, 0x6e, 0x20, 0x79, 0x65, 0x61,
                0x7320646e, 0x6e657665, 0x61657920);
    Absorbed(State(0xf859ad7a, 0x4bc57ae, 0x40dddd7e),
             [0x6e, 0x64, 0x20, 0x73, 0x65, 0x76, 0x65, 0x6e, 0x20, 0x79, 0x65, 0x61],
             0x7320646e, 0x6e657665, 0x61657920, State(0x6b7a11e8, 0x7321ce13, 0xa243569e));
  }

  lemma LastWords()
    ensures Absorb(State(0x336aded2, 0x59f2642, 0xbd02ebd5), [0x72, 0x73, 0x20, 0x61, 0x67, 0x6f])
         == State(0x948b5244, 0x59f95a9, 0xbd02ebd5)
  {
    hide WordAt, Absorb;
    SixBytes(0x72, 0x73, 0x20, 0x61, 0x67, 0x6f, 0x61207372, 0x6f67);
    Absorbed(State(0x336aded2, 0x59f2642, 0xbd02ebd5), [0x72, 0x73, 0x20, 0x61, 0x67, 0x6f],
             0x61207372, 0x6f67, 0, State(0x948b5244, 0x59f95a9, 0xbd02ebd5));
  }

  lemma HashStep(s: State, key: seq<byte>, s': State)
    requires |key| > 12 && s' == Mix(Absorb(s, key[..12]))
    ensures HashFrom(s, key) == HashFrom(s', key[12..])
  {
  }

  /** hashlittle of the thirty bytes, with 0 to start from. */
  lemma HashIs()
    ensures Hash(KEY, 0) == 0x17770551
  {
    var a, b, c := KEY[..12], KEY[12..][..12], KEY[12..][12..];
    assert a == [0x46, 0x6f, 0x75, 0x72, 0x20, 0x73, 0x63, 0x6f, 0x72, 0x65, 0x20, 0x61];
    assert b == [0x6e, 0x64, 0x20, 0x73, 0x65, 0x76, 0x65, 0x6e, 0x20, 0x79, 0x65, 0x61];
    assert c == [0x72, 0x73, 0x20, 0x61, 0x67, 0x6f];
    var s := State(0xdeadbf0d, 0xdeadbf0d, 0xdeadbf0d);
    Wraps(0xdeadbeef + 30, 0xdeadbf0d);
    Small(30);
    Small(0xdeadbf0d);
    assert Begin(30, 0) == s && |KEY| == 30;
    hide Mix, Final, Absorb, Begin;
    FirstWords();
    FirstMix();
    SecondWords();
    SecondMix();
    LastWords();
    FinalIs();
    HashStep(s, KEY, State(0xf859ad7a, 0x4bc57ae, 0x40dddd7e));
    HashStep(State(0xf859ad7a, 0x4bc57ae, 0x40dddd7e), KEY[12..],
             State(0x336aded2, 0x59f2642, 0xbd02ebd5));
    assert HashFrom(State(0x336aded2, 0x59f2642, 0xbd02ebd5), c) == 0x17770551;
  }

  /** So of five back ends the fourth serves it. */
  lemma ShardIs()
    ensures ShardedKvs.Shard(KEY, 5) == 3
  {
    hide Hash;
    HashIs();
  }
}
