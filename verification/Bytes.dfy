/** Machine integers as ranges of mathematical integers, and the fixed-width
    encodings that the wire formats use. */
module Bytes {

  type byte = x: int | 0 <= x < 0x100
  type u16 = x: int | 0 <= x < 0x1_0000
  type u32 = x: int | 0 <= x < 0x1_0000_0000
  type u64 = x: int | 0 <= x < 0x1_0000_0000_0000_0000

  const TWO32 := 0x1_0000_0000

  const LF: byte := 0x0a
  const CR: byte := 0x0d

  function Zeros(n: nat): (s: seq<byte>)
    ensures |s| == n
  {
    if n == 0 then [] else Zeros(n - 1) + [0]
  }

  /** htons, htonl and htonll followed by a byte copy. */
  function BigEndian(n: nat, width: nat): (s: seq<byte>)
    ensures |s| == width
  {
    if width == 0 then [] else BigEndian(n / 0x100, width - 1) + [n % 0x100]
  }

  /** ntohs, ntohl and ntohll of the bytes in memory order. */
  function FromBigEndian(s: seq<byte>): nat
  {
    if s == [] then 0 else FromBigEndian(s[..|s| - 1]) * 0x100 + s[|s| - 1]
  }

  function Pow256(width: nat): (p: nat)
    ensures p > 0
  {
    if width == 0 then 1 else 0x100 * Pow256(width - 1)
  }

  lemma {:induction false} BigEndianRoundTrip(n: nat, width: nat)
    requires n < Pow256(width)
    ensures FromBigEndian(BigEndian(n, width)) == n
  {
    if width > 0 {
      hide BigEndian, FromBigEndian;
      BigEndianStep(n, width - 1);
      UpperPart(n, Pow256(width - 1));
      BigEndianRoundTrip(n / 0x100, width - 1);
    } else {
      assert BigEndian(n, 0) == [];
    }
  }

  lemma BigEndianStep(n: nat, width: nat)
    ensures FromBigEndian(BigEndian(n, width + 1)) == FromBigEndian(BigEndian(n / 0x100, width)) * 0x100 + n % 0x100
  {
    assert BigEndian(n, width + 1)[..width] == BigEndian(n / 0x100, width);
  }

  lemma UpperPart(n: nat, p: nat)
    requires n < 0x100 * p
    ensures n / 0x100 < p && n == n / 0x100 * 0x100 + n % 0x100
  {
  }

  lemma {:induction false} FromBigEndianBound(s: seq<byte>)
    ensures FromBigEndian(s) < Pow256(|s|)
  {
    if s != [] {
      FromBigEndianBound(s[..|s| - 1]);
    }
  }

  /** The first bytes of memory are the least significant ones. */
  function LittleEndian(s: seq<byte>): nat
  {
    if s == [] then 0 else s[0] + 0x100 * LittleEndian(s[1..])
  }

  function ToLittleEndian(n: nat, width: nat): (s: seq<byte>)
    ensures |s| == width
  {
    if width == 0 then [] else [n % 0x100] + ToLittleEndian(n / 0x100, width - 1)
  }
}
