/** The tag of section 2.5.2 of RFC 8439 for the key and the message given there. */
module Poly1305Vector {
  import opened Bits
  import opened Bytes
  import opened Poly1305Bytes
  import opened Poly1305Arithmetic
  import opened Poly1305

  const KEY: seq<byte> :=
    [0x85, 0xd6, 0xbe, 0x78, 0x57, 0x55, 0x6d, 0x33, 0x7f, 0x44, 0x52, 0xfe, 0x42, 0xd5, 0x06, 0xa8]
    + [0x01, 0x03, 0x80, 0x8a, 0xfb, 0x0d, 0xb2, 0xfd, 0x4a, 0xbf, 0xf6, 0xaf, 0x41, 0x49, 0xf5, 0x1b]

  /** Cryptographic Forum Research Group */
  const MESSAGE: seq<byte> :=
    [0x43, 0x72, 0x79, 0x70, 0x74, 0x6f, 0x67, 0x72, 0x61, 0x70, 0x68, 0x69, 0x63, 0x20, 0x46, 0x6f]
    + [0x72, 0x75, 0x6d, 0x20, 0x52, 0x65, 0x73, 0x65, 0x61, 0x72, 0x63, 0x68, 0x20, 0x47, 0x72, 0x6f]
    + [0x75, 0x70]

  const TAG: seq<byte> :=
    [0xa8, 0x06, 0x1d, 0xc1, 0x30, 0x51, 0x36, 0xc6, 0xc2, 0x2b, 0x8b, 0xaf, 0x0c, 0x01, 0x27, 0xa9]

  lemma KeyNumbers()
    ensures LittleEndian(Clamp(KEY[..16])) == R && LittleEndian(KEY[16..]) == S
  {
    var r, s := KEY[..16], KEY[16..];
    ClampedBytes();
    LittleEndian16(Clamp(r));
    LittleEndian16(s);
    hide LittleEndian;
    assert Number16(s) == S;
  }

  lemma ClampedBytes()
    ensures Clamp(KEY[..16])
         == [0x85, 0xd6, 0xbe, 0x08, 0x54, 0x55, 0x6d, 0x03, 0x7c, 0x44, 0x52, 0x0e, 0x40, 0xd5, 0x06, 0x08]
  {
  }

  const R: nat := 0x806d5400e52447c036d555408bed685
  const S: nat := 0x1bf54941aff6bf4afdb20dfb8a800301

  lemma FirstBlock()
    ensures LittleEndian(MESSAGE[..16] + [1]) == 0x16f4620636968706172676f7470797243
  {
    LittleEndian16(MESSAGE[..16]);
    WithOne(MESSAGE[..16]);
    hide LittleEndian;
  }

  lemma SecondBlock()
    ensures LittleEndian(MESSAGE[16..32] + [1]) == 0x16f7247206863726165736552206d7572
  {
    LittleEndian16(MESSAGE[16..32]);
    WithOne(MESSAGE[16..32]);
    hide LittleEndian;
  }

  lemma LastBytes()
    ensures LittleEndian(MESSAGE[32..] + [1]) == 0x17075
  {
    var s := MESSAGE[32..] + [1];
    assert s == [0x75, 0x70, 0x01] && s[1..] == [0x70, 0x01] && s[1..][1..] == [0x01] && s[1..][1..][1..] == [];
    assert LittleEndian(s[1..][1..]) == 1;
    assert LittleEndian(s[1..]) == 0x170;
  }

  lemma AbsorbOne(r: nat, msg: seq<byte>, n: nat, block: nat, before: nat, quotient: nat, after: nat)
    requires msg != [] && LastBlock(msg) == n && LittleEndian(msg[n..] + [1]) == block
    requires Accumulate(r, msg[..n]) == before && (before + block) * r == P * quotient + after && after < P
    ensures Accumulate(r, msg) == after
  {
    hide LittleEndian, LastBlock;
    DivMod((before + block) * r, quotient, after, P);
  }

  /** The accumulator after each block. */
  lemma Accumulated()
    ensures Accumulate(R, MESSAGE) == 0x28d31b7caff946c77c8844335369d03a7
  {
    hide LittleEndian, Accumulate;
    var m := MESSAGE;
    assert m[..32][..16] == m[..16] && m[..32][16..] == m[16..32] && m[..16][..0] == [] && m[..16][0..] == m[..16];
    NothingAbsorbed();
    FirstBlock();
    SecondBlock();
    LastBytes();
    AbsorbOne(R, m[..16], 0, 0x16f4620636968706172676f7470797243, 0,
              0x2e0ffa647299a001224557735a7a109, 0x2c88c77849d64ae9147ddeb88e69c83fc);
    AbsorbOne(R, m[..32], 16, 0x16f7247206863726165736552206d7572, 0x2c88c77849d64ae9147ddeb88e69c83fc,
              0x8773264b431966e900dbd96edfe2158, 0x2d8adaf23b0337fa7cccfb4ea344b30de);
    AbsorbOne(R, m, 32, 0x17075, 0x2d8adaf23b0337fa7cccfb4ea344b30de,
              0x5b6382283cff87793f9285521ab29e8, 0x28d31b7caff946c77c8844335369d03a7);
  }

  lemma NothingAbsorbed()
    ensures Accumulate(R, []) == 0
  {
  }

  lemma {:induction false} BytesOfNumber(s: seq<byte>)
    ensures ToLittleEndian(LittleEndian(s), |s|) == s
  {
    if s != [] {
      BytesOfNumber(s[1..]);
      LowByte(s[0], LittleEndian(s[1..]));
    }
  }

  lemma LowByte(b: byte, n: nat)
    ensures (b + 0x100 * n) % 0x100 == b && (b + 0x100 * n) / 0x100 == n
  {
  }

  /** The specification that the code is proved against gives the published tag. */
  lemma TagIs()
    ensures Tag(KEY, MESSAGE) == TAG
  {
    hide LittleEndian, ToLittleEndian, Accumulate, Clamp;
    KeyNumbers();
    Accumulated();
    LittleEndian16(TAG);
    BytesOfNumber(TAG);
    DivMod(0x28d31b7caff946c77c8844335369d03a7 + S, 2, 0xa927010caf8b2bc2c6365130c11d06a8, TWO128);
  }
}
