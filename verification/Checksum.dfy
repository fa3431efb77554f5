/** One's-complement checksums (sections 2 and 3 of RFC 1624) and the
    incremental update that the switch performs. */
module Checksum {
  import opened Bytes

  /** The 16-bit addition with end-around carry of csum16_add: the sum is
      truncated to 16 bits first, and the carry is recovered by a comparison. */
  function Csum16Add(csum: u16, addend: u16): (r: u16)
    ensures r % 0xFFFF == (csum + addend) % 0xFFFF
    ensures r == 0 <==> csum == 0 && addend == 0
  {
    var ret := (csum + addend) % 0x1_0000;
    (ret + if ret < addend then 1 else 0) % 0x1_0000
  }

  function Not16(x: u16): u16 { 0xFFFF - x }

  function Csum16Sub(csum: u16, addend: u16): u16
  {
    Csum16Add(csum, Not16(addend))
  }

  /** `~(x >> 16)` and `~(x & 0xffff)` passed as 16-bit arguments. */
  function HighHalf(x: u32): u16 { x / 0x1_0000 }

  function LowHalf(x: u32): u16 { x % 0x1_0000 }

  /** The four checksum updates that replace one 32-bit address by another. */
  function ReplaceAddr(csum: u16, from: u32, to: u32): u16
  {
    var c := Csum16Sub(csum, Not16(HighHalf(from)));
    var c := Csum16Sub(c, Not16(LowHalf(from)));
    var c := Csum16Add(c, Not16(HighHalf(to)));
    Csum16Add(c, Not16(LowHalf(to)))
  }

  function ReplacePort(csum: u16, from: u16, to: u16): u16
  {
    Csum16Add(Csum16Sub(csum, Not16(from)), Not16(to))
  }

  function Sum(words: seq<u16>): nat
  {
    if words == [] then 0 else words[0] + Sum(words[1..])
  }

  /** Repeated folding of the carries into the low 16 bits. */
  function Fold(n: nat): (r: u16)
    ensures r % 0xFFFF == n % 0xFFFF
    ensures r == 0 <==> n == 0
  {
    if n < 0x1_0000 then n else
      FoldOnce(n);
      Fold(n / 0x1_0000 + n % 0x1_0000)
  }

  lemma FoldOnce(n: nat)
    requires n >= 0x1_0000
    ensures 0 < n / 0x1_0000 + n % 0x1_0000 < n
    ensures (n / 0x1_0000 + n % 0x1_0000) % 0xFFFF == n % 0xFFFF
  {
    var high, low := n / 0x1_0000, n % 0x1_0000;
    assert n == high * 0xFFFF + (high + low);
    SameRest(n, high, high + low);
  }

  lemma SameRest(n: nat, k: nat, m: nat)
    requires n == k * 0xFFFF + m
    ensures n % 0xFFFF == m % 0xFFFF
  {
  }

  /** A receiver accepts the words, checksum included, when their
      one's-complement sum is all ones. */
  predicate Verifies(words: seq<u16>) { Fold(Sum(words)) == 0xFFFF }

  /** The checksum of a sender, the complement of the folded sum of the other words,
      is accepted, and of all numbers only that one and, for it, 0xFFFF if it is 0. */
  lemma SenderAccepted(words: seq<u16>, csum: u16)
    requires Sum(words) > 0
    ensures Verifies(words + [csum]) <==>
      csum == 0xFFFF - Fold(Sum(words)) || (csum == 0xFFFF && Fold(Sum(words)) == 0xFFFF)
  {
    hide Fold;
    SumAppend(words, [csum]);
    assert Sum([csum]) == csum by { assert [csum][1..] == []; }
    VerifiesMeansZero(words + [csum]);
    SumRest(Sum(words), Fold(Sum(words)), csum);
  }

  lemma SumRest(n: nat, f: u16, csum: u16)
    requires n > 0 && f % 0xFFFF == n % 0xFFFF && f > 0
    ensures (n + csum) % 0xFFFF == 0 <==> csum == 0xFFFF - f || (csum == 0xFFFF && f == 0xFFFF)
  {
    SumCongruent(n, f, csum);
  }

  lemma SumCongruent(n: nat, f: nat, csum: nat)
    requires n % 0xFFFF == f % 0xFFFF
    ensures (n + csum) % 0xFFFF == (f + csum) % 0xFFFF
  {
  }

  lemma {:induction false} SumAppend(a: seq<u16>, b: seq<u16>)
    ensures Sum(a + b) == Sum(a) + Sum(b)
  {
    if a == [] {
      assert a + b == b;
    } else {
      assert (a + b)[1..] == a[1..] + b;
      SumAppend(a[1..], b);
    }
  }

  lemma VerifiesMeansZero(words: seq<u16>)
    ensures Verifies(words) <==> Sum(words) > 0 && Sum(words) % 0xFFFF == 0
  {
  }

  /** How often the end-around carry happened. */
  function Carry(csum: u16, addend: u16): (k: nat)
    ensures Csum16Add(csum, addend) == csum + addend - k * 0xFFFF
  {
    if csum + addend < 0x1_0000 then 0 else 1
  }

  lemma ReplaceAddrCongruence(csum: u16, from: u32, to: u32)
    ensures (ReplaceAddr(csum, from, to) + HighHalf(to) + LowHalf(to)) % 0xFFFF
         == (csum + HighHalf(from) + LowHalf(from)) % 0xFFFF
  {
    var c1 := Csum16Add(csum, HighHalf(from));
    var c2 := Csum16Add(c1, LowHalf(from));
    var c3 := Csum16Add(c2, Not16(HighHalf(to)));
    var k := Carry(csum, HighHalf(from)) + Carry(c1, LowHalf(from))
           + Carry(c2, Not16(HighHalf(to))) + Carry(c3, Not16(LowHalf(to)));
    CongruentShift(ReplaceAddr(csum, from, to) + HighHalf(to) + LowHalf(to),
                   csum + HighHalf(from) + LowHalf(from), 2 - k);
  }

  lemma CongruentShift(a: int, b: int, k: int)
    requires a == b + k * 0xFFFF
    ensures a % 0xFFFF == b % 0xFFFF
  {
  }

  lemma ReplacePortCongruence(csum: u16, from: u16, to: u16)
    ensures (ReplacePort(csum, from, to) + to) % 0xFFFF == (csum + from) % 0xFFFF
  {
    var k := Carry(csum, from) + Carry(Csum16Add(csum, from), Not16(to));
    CongruentShift(ReplacePort(csum, from, to) + to, csum + from, 1 - k);
  }

  lemma CongruentSum(a: int, b: int, x: int)
    requires a % 0xFFFF == b % 0xFFFF
    ensures (a + x) % 0xFFFF == (b + x) % 0xFFFF
  {
    assert a - b == (a / 0xFFFF - b / 0xFFFF) * 0xFFFF;
    CongruentShift(a + x, b + x, a / 0xFFFF - b / 0xFFFF);
  }

  lemma ReplaceBothCongruence(csum: u16, from: u32, to: u32, fromPort: u16, toPort: u16)
    ensures (ReplacePort(ReplaceAddr(csum, from, to), fromPort, toPort) + HighHalf(to) + LowHalf(to) + toPort) % 0xFFFF
         == (csum + HighHalf(from) + LowHalf(from) + fromPort) % 0xFFFF
  {
    hide ReplaceAddr, ReplacePort, HighHalf, LowHalf;
    var mid := ReplaceAddr(csum, from, to);
    ReplaceAddrCongruence(csum, from, to);
    ReplacePortCongruence(mid, fromPort, toPort);
    CongruentSum(ReplacePort(mid, fromPort, toPort) + toPort, mid + fromPort, HighHalf(to) + LowHalf(to));
    CongruentSum(mid + HighHalf(to) + LowHalf(to), csum + HighHalf(from) + LowHalf(from), fromPort);
  }
}
