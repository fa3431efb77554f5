/** The hash of src/apps/kvs/jhash.h on little-endian machines: three ways of
    loading the key, depending on its address, that give the same value. */
module Jhash {
  import opened Bytes
  import opened Bits

  function Add32(x: nat, y: nat): u32 { (x + y) % TWO32 }

  function Sub32(x: u32, y: u32): u32 { (x - y) % TWO32 }

  function Xor(x: nat, y: nat): nat
    decreases x + y
  {
    if x == 0 then y else if y == 0 then x
    else 2 * Xor(x / 2, y / 2) + if x % 2 == y % 2 then 0 else 1
  }

  function Xor32(x: u32, y: u32): u32 { Xor(x, y) % TWO32 }

  function Rot(x: u32, k: nat): u32
    requires k <= 32
  {
    Or(Shl(x, k) % TWO32, Shr(x, 32 - k)) % TWO32
  }

  datatype State = State(a: u32, b: u32, c: u32)

  /** One of the six lines of mix: x -= z; x ^= rot(z,k); z += y. */
  function Turn(x: u32, y: u32, z: u32, k: nat): (u32, u32)
    requires k <= 32
  {
    (Xor32(Sub32(x, z), Rot(z, k)), Add32(z, y))
  }

  function Mix(s: State): State
  {
    var (a, c) := Turn(s.a, s.b, s.c, 4);
    var (b, a) := Turn(s.b, c, a, 6);
    var (c, b) := Turn(c, a, b, 8);
    var (a, c) := Turn(a, b, c, 16);
    var (b, a) := Turn(b, c, a, 19);
    var (c, b) := Turn(c, a, b, 4);
    State(a, b, c)
  }

  function Final(s: State): u32
  {
    var c := Sub32(Xor32(s.c, s.b), Rot(s.b, 14));
    var a := Sub32(Xor32(s.a, c), Rot(c, 11));
    var b := Sub32(Xor32(s.b, a), Rot(a, 25));
    var c1 := Sub32(Xor32(c, b), Rot(b, 16));
    var a1 := Sub32(Xor32(a, c1), Rot(c1, 4));
    var b1 := Sub32(Xor32(b, a1), Rot(a1, 14));
    Sub32(Xor32(c1, b1), Rot(b1, 24))
  }

  // ---------------------------------------------------------------------
  // Mixing loses nothing

  lemma {:induction false} XorBack(x: nat, y: nat)
    ensures Xor(Xor(x, y), y) == x
    decreases x + y
  {
    hide Xor;
    XorZero(x);
    XorZero(y);
    XorSelf(y);
    if x != 0 && y != 0 {
      var half := Xor(x / 2, y / 2);
      XorBack(x / 2, y / 2);
      XorStep(x, y);
      XorStep(Xor(x, y), y);
      assert Xor(x, y) / 2 == half;
    }
  }

  lemma XorZero(x: nat)
    ensures Xor(x, 0) == x && Xor(0, x) == x
  {
  }

  lemma {:induction false} XorSelf(y: nat)
    ensures Xor(y, y) == 0
  {
    if y != 0 {
      XorSelf(y / 2);
    }
  }

  lemma XorStep(x: nat, y: nat)
    ensures Xor(x, y) == 2 * Xor(x / 2, y / 2) + if x % 2 == y % 2 then 0 else 1
  {
  }

  lemma {:induction false} XorBelow(x: nat, y: nat, n: nat)
    requires x < Pow2(n) && y < Pow2(n)
    ensures Xor(x, y) < Pow2(n)
    decreases n
  {
    if x != 0 && y != 0 {
      XorBelow(x / 2, y / 2, n - 1);
    }
  }

  lemma Xor32Back(x: u32, y: u32)
    ensures Xor32(Xor32(x, y), y) == x
  {
    hide Xor, Pow2;
    Pow2Of32();
    XorBelow(x, y, 32);
    XorBack(x, y);
  }

  lemma Pow2Of32()
    ensures Pow2(32) == TWO32
  {
    assert Pow2(16) == 0x1_0000 by {
      assert Pow2(8) == 0x100;
      assert Pow2(12) == 16 * Pow2(8);
    }
    assert Pow2(20) == 16 * Pow2(16);
    assert Pow2(24) == 16 * Pow2(20);
    assert Pow2(28) == 16 * Pow2(24);
  }

  function UnTurn(x': u32, y: u32, z': u32, k: nat): (u32, u32)
    requires k <= 32
  {
    var z := Sub32(z', y);
    (Add32(Xor32(x', Rot(z, k)), z), z)
  }

  lemma TurnBack(x: u32, y: u32, z: u32, k: nat)
    requires k <= 32
    ensures var (x', z') := Turn(x, y, z, k); UnTurn(x', y, z', k) == (x, z)
  {
    hide Xor32, Rot, Add32, Sub32;
    Xor32Back(Sub32(x, z), Rot(z, k));
    AddThenSub(z, y);
    AddThenSub(x, z);
  }

  lemma AddThenSub(x: u32, y: u32)
    ensures Sub32(Add32(x, y), y) == x && Add32(Sub32(x, y), y) == x
  {
    assert Add32(x, y) == if x + y < TWO32 then x + y else x + y - TWO32;
    assert Sub32(x, y) == if x >= y then x - y else x - y + TWO32;
  }

  function UnMix(s: State): State
  {
    var (c, b) := UnTurn(s.c, s.a, s.b, 4);
    var (b, a) := UnTurn(b, c, s.a, 19);
    var (a, c) := UnTurn(a, b, c, 16);
    var (c, b) := UnTurn(c, a, b, 8);
    var (b, a) := UnTurn(b, c, a, 6);
    var (a, c) := UnTurn(a, b, c, 4);
    State(a, b, c)
  }

  /** Different states stay different through every round. */
  lemma MixIsReversible(s: State)
    ensures UnMix(Mix(s)) == s
  {
    hide Turn, UnTurn;
    var (a1, c1) := Turn(s.a, s.b, s.c, 4);
    var (b2, a2) := Turn(s.b, c1, a1, 6);
    var (c3, b3) := Turn(c1, a2, b2, 8);
    var (a4, c4) := Turn(a2, b3, c3, 16);
    var (b5, a5) := Turn(b3, c4, a4, 19);
    TurnBack(s.a, s.b, s.c, 4);
    TurnBack(s.b, c1, a1, 6);
    TurnBack(c1, a2, b2, 8);
    TurnBack(a2, b3, c3, 16);
    TurnBack(b3, c4, a4, 19);
    TurnBack(c4, a5, b5, 4);
  }

  // ---------------------------------------------------------------------
  // The hash of a key, wherever it is

  /** Four bytes of the key, as far as it reaches. */
  function WordAt(key: seq<byte>, i: nat): nat
  {
    if i >= |key| then 0 else if i + 4 <= |key| then LittleEndian(key[i..i + 4]) else LittleEndian(key[i..])
  }

  function Absorb(s: State, key: seq<byte>): State
  {
    State(Add32(s.a, WordAt(key, 0)), Add32(s.b, WordAt(key, 4)), Add32(s.c, WordAt(key, 8)))
  }

  function HashFrom(s: State, key: seq<byte>): u32
    decreases |key|
  {
    if key == [] then s.c
    else if |key| <= 12 then Final(Absorb(s, key))
    else HashFrom(Mix(Absorb(s, key[..12])), key[12..])
  }

  function Begin(length: nat, init: u32): State
  {
    var x := Add32(Add32(0xdeadbeef, length % TWO32), init);
    State(x, x, x)
  }

  function Hash(key: seq<byte>, init: u32): u32 { HashFrom(Begin(|key|, init), key) }

  // ---------------------------------------------------------------------
  // Loads

  /** A byte shifted left by 8, 16 or 24. */
  function Up8(b: byte): nat { 0x100 * (b as int) }

  function Up16(b: byte): nat { 0x1_0000 * (b as int) }

  function Up24(b: byte): nat { 0x100_0000 * (b as int) }

  function Load16(mem: seq<byte>, p: nat): nat
    requires p + 2 <= |mem|
  {
    LittleEndian(mem[p..p + 2])
  }

  function Load32(mem: seq<byte>, p: nat): nat
    requires p + 4 <= |mem|
  {
    LittleEndian(mem[p..p + 4])
  }

  lemma Load16Is(mem: seq<byte>, p: nat)
    requires p + 2 <= |mem|
    ensures Load16(mem, p) == mem[p] as int + Up8(mem[p + 1])
  {
    var s := mem[p..p + 2];
    assert s[1..] == [mem[p + 1]] && s[1..][1..] == [];
    assert LittleEndian(s[1..]) == mem[p + 1];
  }

  lemma Load32Is(mem: seq<byte>, p: nat)
    requires p + 4 <= |mem|
    ensures Load32(mem, p)
         == mem[p] as int + Up8(mem[p + 1]) + Up16(mem[p + 2]) + Up24(mem[p + 3])
  {
    var s := mem[p..p + 4];
    assert s[1..] == mem[p + 1..p + 4];
    ThreeIs(mem, p + 1);
  }

  lemma ThreeIs(mem: seq<byte>, p: nat)
    requires p + 3 <= |mem|
    ensures LittleEndian(mem[p..p + 3]) == mem[p] as int + Up8(mem[p + 1]) + Up16(mem[p + 2])
  {
    var s := mem[p..p + 3];
    assert s[1..] == mem[p + 1..p + 3];
    Load16Is(mem, p + 1);
  }

  lemma OneIs(mem: seq<byte>, p: nat)
    requires p + 1 <= |mem|
    ensures LittleEndian(mem[p..p + 1]) == mem[p]
  {
    var s := mem[p..p + 1];
    assert s[1..] == [];
  }

  lemma Masks()
    ensures Pow2(8) - 1 == 0xff && Pow2(16) - 1 == 0xffff && Pow2(24) - 1 == 0xffffff
  {
    assert Pow2(8) == 0x100;
    assert Pow2(16) == 0x100 * Pow2(8) by { assert Pow2(12) == 16 * Pow2(8); }
    assert Pow2(24) == 0x100 * Pow2(16) by { assert Pow2(20) == 16 * Pow2(16); }
  }

  /** Masking a word drops the bytes behind the key. */
  lemma MaskedLoad(mem: seq<byte>, p: nat)
    requires p + 4 <= |mem|
    ensures And(Load32(mem, p), 0xff) == LittleEndian(mem[p..p + 1])
    ensures And(Load32(mem, p), 0xffff) == LittleEndian(mem[p..p + 2])
    ensures And(Load32(mem, p), 0xffffff) == LittleEndian(mem[p..p + 3])
  {
    hide And, Pow2, LittleEndian;
    Masks();
    var x := Load32(mem, p);
    MaskLow(x, 8);
    MaskLow(x, 16);
    MaskLow(x, 24);
    Load32Is(mem, p);
    OneIs(mem, p);
    Load16Is(mem, p);
    ThreeIs(mem, p);
    LowBytes(mem[p], mem[p + 1], mem[p + 2], mem[p + 3]);
  }

  lemma LowBytes(b0: byte, b1: byte, b2: byte, b3: byte)
    ensures var x: nat := b0 as int + Up8(b1) + Up16(b2) + Up24(b3);
      && x % 0x100 == b0 && x % 0x1_0000 == b0 as int + Up8(b1)
      && x % 0x100_0000 == b0 as int + Up8(b1) + Up16(b2)
  {
    var x: nat := b0 as int + Up8(b1) + Up16(b2) + Up24(b3);
    DivMod(x, b1 as int + Up8(b2) + Up16(b3), b0, 0x100);
    DivMod(x, b2 as int + Up8(b3), b0 as int + Up8(b1), 0x1_0000);
    DivMod(x, b3, b0 as int + Up8(b1) + Up16(b2), 0x100_0000);
  }

  lemma Add32Twice(x: nat, y: nat, z: nat)
    ensures Add32(Add32(x, y), z) == Add32(x, y + z)
  {
  }

  /** The words of a key that lies in memory from p on. */
  lemma KeyWord(mem: seq<byte>, p: nat, n: nat, i: nat)
    requires p + n <= |mem|
    ensures i >= n ==> WordAt(mem[p..p + n], i) == 0
    ensures i < n ==>
              WordAt(mem[p..p + n], i) == LittleEndian(mem[p + i..if i + 4 <= n then p + i + 4 else p + n])
  {
    var key := mem[p..p + n];
    if i < n {
      if i + 4 <= n {
        assert key[i..i + 4] == [key[i], key[i + 1], key[i + 2], key[i + 3]];
        assert mem[p + i..p + i + 4] == [mem[p + i], mem[p + i + 1], mem[p + i + 2], mem[p + i + 3]];
        assert key[i..i + 4] == mem[p + i..p + i + 4];
      } else {
        assert key[i..] == mem[p + i..p + n];
      }
    }
  }

  /** What a tail of n bytes adds to the state. */
  lemma AbsorbIs(s: State, mem: seq<byte>, p: nat, n: nat)
    requires 0 < n <= 12 && p + n <= |mem|
    ensures var t := Absorb(s, mem[p..p + n]);
      && t.a == Add32(s.a, LittleEndian(mem[p..p + if n < 4 then n else 4]))
      && t.b == (if n <= 4 then s.b else Add32(s.b, LittleEndian(mem[p + 4..p + if n < 8 then n else 8])))
      && t.c == (if n <= 8 then s.c else Add32(s.c, LittleEndian(mem[p + 8..p + n])))
  {
    hide LittleEndian;
    KeyWord(mem, p, n, 0);
    KeyWord(mem, p, n, 4);
    KeyWord(mem, p, n, 8);
  }

  lemma HashStarts(key: seq<byte>, init: u32)
    ensures HashFrom(Begin(|key|, init), key) == Hash(key, init)
  {
  }

  lemma HashSkips(s: State, mem: seq<byte>, p: nat, length: nat)
    requires length > 12 && p + length <= |mem|
    ensures HashFrom(s, mem[p..p + length]) == HashFrom(Mix(Absorb(s, mem[p..p + 12])), mem[p + 12..p + length])
  {
    var key := mem[p..p + length];
    assert key[..12] == mem[p..p + 12] && key[12..] == mem[p + 12..p + length];
  }

  lemma HashEnds(s: State, mem: seq<byte>, p: nat, length: nat)
    requires length <= 12 && p + length <= |mem|
    ensures HashFrom(s, mem[p..p + length]) == if length == 0 then s.c else Final(Absorb(s, mem[p..p + length]))
  {
  }

  // ---------------------------------------------------------------------
  // The code: words, half-words and bytes

  /** Whole words are loaded; the last one may reach behind the key, but not out of
      the aligned memory, and is masked. */
  method WordTail(mem: seq<byte>, k: nat, length: nat, s: State) returns (t: State)
    requires 0 < length <= 12 && k + length <= |mem| && k % 4 == 0 && |mem| % 4 == 0
    ensures t == Absorb(s, mem[k..k + length])
  {
    hide LittleEndian, And, Absorb;
    var a, b, c := s.a, s.b, s.c;
    AbsorbIs(s, mem, k, length);
    MaskedLoad(mem, if length > 8 then k + 8 else if length > 4 then k + 4 else k);
    if length == 12 {
      c := Add32(c, Load32(mem, k + 8));
      b := Add32(b, Load32(mem, k + 4));
      a := Add32(a, Load32(mem, k));
    } else if length == 11 {
      c := Add32(c, And(Load32(mem, k + 8), 0xffffff));
      b := Add32(b, Load32(mem, k + 4));
      a := Add32(a, Load32(mem, k));
    } else if length == 10 {
      c := Add32(c, And(Load32(mem, k + 8), 0xffff));
      b := Add32(b, Load32(mem, k + 4));
      a := Add32(a, Load32(mem, k));
    } else if length == 9 {
      c := Add32(c, And(Load32(mem, k + 8), 0xff));
      b := Add32(b, Load32(mem, k + 4));
      a := Add32(a, Load32(mem, k));
    } else if length == 8 {
      b := Add32(b, Load32(mem, k + 4));
      a := Add32(a, Load32(mem, k));
    } else if length == 7 {
      b := Add32(b, And(Load32(mem, k + 4), 0xffffff));
      a := Add32(a, Load32(mem, k));
    } else if length == 6 {
      b := Add32(b, And(Load32(mem, k + 4), 0xffff));
      a := Add32(a, Load32(mem, k));
    } else if length == 5 {
      b := Add32(b, And(Load32(mem, k + 4), 0xff));
      a := Add32(a, Load32(mem, k));
    } else if length == 4 {
      a := Add32(a, Load32(mem, k));
    } else if length == 3 {
      a := Add32(a, And(Load32(mem, k), 0xffffff));
    } else if length == 2 {
      a := Add32(a, And(Load32(mem, k), 0xffff));
    } else {
      a := Add32(a, And(Load32(mem, k), 0xff));
    }
    t := State(a, b, c);
  }

  method HashByWords(mem: seq<byte>, at: nat, size: nat, init: u32) returns (r: u32)
    requires at + size <= |mem| && at % 4 == 0 && |mem| % 4 == 0
    ensures r == Hash(mem[at..at + size], init)
  {
    hide Absorb, Mix, Final, HashFrom, LittleEndian, Hash, Begin, Add32;
    HashStarts(mem[at..at + size], init);
    var s := Begin(size, init);
    var k, length := at, size;
    while length > 12
      invariant k + length == at + size && k % 4 == 0
      invariant HashFrom(s, mem[k..k + length]) == Hash(mem[at..at + size], init)
    {
      HashSkips(s, mem, k, length);
      AbsorbIs(s, mem, k, 12);
      s := Mix(State(Add32(s.a, Load32(mem, k)), Add32(s.b, Load32(mem, k + 4)), Add32(s.c, Load32(mem, k + 8))));
      length := length - 12;
      k := k + 12;
    }
    HashEnds(s, mem, k, length);
    if length == 0 {
      return s.c;
    }
    s := WordTail(mem, k, length, s);
    r := Final(s);
  }

  /** Two half-words make a word. */
  function Pair(mem: seq<byte>, k: nat): nat
    requires k + 4 <= |mem|
  {
    Load16(mem, k) + 0x1_0000 * Load16(mem, k + 2)
  }

  lemma PairIsWord(mem: seq<byte>, k: nat)
    requires k + 4 <= |mem|
    ensures Pair(mem, k) == LittleEndian(mem[k..k + 4])
  {
    hide LittleEndian;
    Load16Is(mem, k);
    Load16Is(mem, k + 2);
    Load32Is(mem, k);
  }

  /** The odd byte of a tail first, and then the half-word before it. */
  lemma ByteThenHalf(x: u32, mem: seq<byte>, k: nat)
    requires k + 3 <= |mem|
    ensures Add32(Add32(x, Up16(mem[k + 2])), Load16(mem, k)) == Add32(x, LittleEndian(mem[k..k + 3]))
  {
    hide LittleEndian;
    Load16Is(mem, k);
    ThreeIs(mem, k);
    Add32Twice(x, Up16(mem[k + 2]), Load16(mem, k));
  }

  method HalfTail(mem: seq<byte>, k: nat, length: nat, s: State) returns (t: State)
    requires 0 < length <= 12 && k + length <= |mem|
    ensures t == Absorb(s, mem[k..k + length])
  {
    hide LittleEndian, Absorb, Add32, Pair;
    var a, b, c := s.a, s.b, s.c;
    AbsorbIs(s, mem, k, length);
    if length >= 4 { PairIsWord(mem, k); }
    if length >= 8 { PairIsWord(mem, k + 4); }
    if length == 12 {
      PairIsWord(mem, k + 8);
      c := Add32(c, Pair(mem, k + 8));
      b := Add32(b, Pair(mem, k + 4));
      a := Add32(a, Pair(mem, k));
    } else if length >= 10 {
      if length == 11 {
        ByteThenHalf(c, mem, k + 8);
        c := Add32(c, Up16(mem[k + 10]));
      }
      c := Add32(c, Load16(mem, k + 8));
      b := Add32(b, Pair(mem, k + 4));
      a := Add32(a, Pair(mem, k));
    } else if length >= 8 {
      if length == 9 {
        OneIs(mem, k + 8);
        c := Add32(c, mem[k + 8]);
      }
      b := Add32(b, Pair(mem, k + 4));
      a := Add32(a, Pair(mem, k));
    } else if length >= 6 {
      if length == 7 {
        ByteThenHalf(b, mem, k + 4);
        b := Add32(b, Up16(mem[k + 6]));
      }
      b := Add32(b, Load16(mem, k + 4));
      a := Add32(a, Pair(mem, k));
    } else if length >= 4 {
      if length == 5 {
        OneIs(mem, k + 4);
        b := Add32(b, mem[k + 4]);
      }
      a := Add32(a, Pair(mem, k));
    } else if length >= 2 {
      if length == 3 {
        ByteThenHalf(a, mem, k);
        a := Add32(a, Up16(mem[k + 2]));
      }
      a := Add32(a, Load16(mem, k));
    } else {
      OneIs(mem, k);
      a := Add32(a, mem[k]);
    }
    t := State(a, b, c);
  }

  method HashByHalves(mem: seq<byte>, at: nat, size: nat, init: u32) returns (r: u32)
    requires at + size <= |mem|
    ensures r == Hash(mem[at..at + size], init)
  {
    hide Absorb, Mix, Final, HashFrom, LittleEndian, Pair, Hash, Begin, Add32;
    HashStarts(mem[at..at + size], init);
    var s := Begin(size, init);
    var k, length := at, size;
    while length > 12
      invariant k + length == at + size
      invariant HashFrom(s, mem[k..k + length]) == Hash(mem[at..at + size], init)
    {
      HashSkips(s, mem, k, length);
      AbsorbIs(s, mem, k, 12);
      PairIsWord(mem, k);
      PairIsWord(mem, k + 4);
      PairIsWord(mem, k + 8);
      s := Mix(State(Add32(s.a, Pair(mem, k)), Add32(s.b, Pair(mem, k + 4)), Add32(s.c, Pair(mem, k + 8))));
      length := length - 12;
      k := k + 12;
    }
    HashEnds(s, mem, k, length);
    if length == 0 {
      return s.c;
    }
    s := HalfTail(mem, k, length, s);
    r := Final(s);
  }

  /** Four bytes added one by one, first to last. */
  method AddBytes(mem: seq<byte>, k: nat, x: u32) returns (y: u32)
    requires k + 4 <= |mem|
    ensures y == Add32(x, LittleEndian(mem[k..k + 4]))
  {
    hide LittleEndian;
    Load32Is(mem, k);
    y := x;
    y := Add32(y, mem[k]);
    y := Add32(y, Up8(mem[k + 1]));
    y := Add32(y, Up16(mem[k + 2]));
    y := Add32(y, Up24(mem[k + 3]));
    Add32Twice(x, mem[k], Up8(mem[k + 1]));
    Add32Twice(x, mem[k] as int + Up8(mem[k + 1]), Up16(mem[k + 2]));
    Add32Twice(x, mem[k] as int + Up8(mem[k + 1]) + Up16(mem[k + 2]), Up24(mem[k + 3]));
  }

  /** Up to four bytes added one by one, last to first, as the cases of the switch
      fall through. */
  method AddTail(mem: seq<byte>, k: nat, n: nat, x: u32) returns (y: u32)
    requires n <= 4 && k + n <= |mem|
    ensures y == Add32(x, LittleEndian(mem[k..k + n]))
  {
    hide LittleEndian;
    y := x;
    var sum: nat := 0;
    if n >= 4 { y, sum := Add32(y, Up24(mem[k + 3])), sum + Up24(mem[k + 3]); }
    if n >= 3 { Add32Twice(x, sum, Up16(mem[k + 2])); y, sum := Add32(y, Up16(mem[k + 2])), sum + Up16(mem[k + 2]); }
    if n >= 2 { Add32Twice(x, sum, Up8(mem[k + 1])); y, sum := Add32(y, Up8(mem[k + 1])), sum + Up8(mem[k + 1]); }
    if n >= 1 { Add32Twice(x, sum, mem[k]); y, sum := Add32(y, mem[k]), sum + mem[k]; }
    if n == 4 {
      Load32Is(mem, k);
    } else if n == 3 {
      ThreeIs(mem, k);
    } else if n == 2 {
      Load16Is(mem, k);
    } else if n == 1 {
      OneIs(mem, k);
    } else {
      NoBytes(mem, k);
    }
  }

  lemma NoBytes(mem: seq<byte>, k: nat)
    requires k <= |mem|
    ensures LittleEndian(mem[k..k]) == 0
  {
  }

  method HashByBytes(mem: seq<byte>, at: nat, size: nat, init: u32) returns (r: u32)
    requires at + size <= |mem|
    ensures r == Hash(mem[at..at + size], init)
  {
    hide Absorb, Mix, Final, HashFrom, LittleEndian, Hash, Begin, Add32;
    HashStarts(mem[at..at + size], init);
    var s := Begin(size, init);
    var k, length := at, size;
    while length > 12
      invariant k + length == at + size
      invariant HashFrom(s, mem[k..k + length]) == Hash(mem[at..at + size], init)
    {
      HashSkips(s, mem, k, length);
      AbsorbIs(s, mem, k, 12);
      var a := AddBytes(mem, k, s.a);
      var b := AddBytes(mem, k + 4, s.b);
      var c := AddBytes(mem, k + 8, s.c);
      s := Mix(State(a, b, c));
      length := length - 12;
      k := k + 12;
    }
    HashEnds(s, mem, k, length);
    if length == 0 {
      return s.c;
    }
    AbsorbIs(s, mem, k, length);
    var c, b, a := s.c, s.b, s.a;
    if length > 8 {
      c := AddTail(mem, k + 8, length - 8, c);
    }
    if length > 4 {
      b := AddTail(mem, k + 4, if length < 8 then length - 4 else 4, b);
    }
    a := AddTail(mem, k, if length < 4 then length else 4, a);
    r := Final(State(a, b, c));
  }

  /** The address of the key decides how it is loaded, and nothing else: the value
      is that of the key alone, whatever lies around it. */
  method JenkinsHash(mem: seq<byte>, at: nat, size: nat, init: u32) returns (r: u32)
    requires at + size <= |mem| && |mem| % 4 == 0
    ensures r == Hash(mem[at..at + size], init)
  {
    if at % 4 == 0 {
      r := HashByWords(mem, at, size, init);
    } else if at % 2 == 0 {
      r := HashByHalves(mem, at, size, init);
    } else {
      r := HashByBytes(mem, at, size, init);
    }
  }
}
