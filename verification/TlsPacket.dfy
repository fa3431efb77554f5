/** The growing packet of src/extern/tlse.c and its fixed-width writers. */
module TlsPacket {
  import opened Bytes

  const BLOB_INCREMENT := 0xFFF

  class TLSPacket {
    var buf: array<byte>
    var len: nat

    ghost predicate Valid()
      reads this
    {
      5 <= len <= buf.Length
    }

    ghost function Contents(): seq<byte>
      requires Valid()
      reads this, buf
    {
      buf[..len]
    }

    /** tls_create_packet without a context; the length comes later. */
    constructor (kind: byte, version: u16)
      ensures Valid() && fresh(buf) && len == 5 && Contents()[..3] == [kind] + BigEndian(version, 2)
    {
      buf := new byte[BLOB_INCREMENT];
      len := 5;
      new;
      buf[0] := kind;
      buf[1] := version / 0x100;
      buf[2] := version % 0x100;
      TwoBytes(version);
    }

    /** realloc. */
    method Grow(size: nat)
      requires Valid() && len <= size
      modifies this`buf
      ensures Valid() && fresh(buf) && buf.Length == size && Contents() == old(Contents())
    {
      var bigger := new byte[size];
      var i := 0;
      while i < len
        invariant unchanged(this) && unchanged(buf)
        invariant 0 <= i <= len && bigger[..i] == buf[..i]
      {
        bigger[i] := buf[i];
        i := i + 1;
      }
      buf := bigger;
    }

    method Append(data: seq<byte>) returns (newLen: nat)
      requires Valid() && len + |data| < 0x8000_0000
      modifies this, buf
      ensures Valid() && Contents() == old(Contents()) + data
      ensures buf == old(buf) || fresh(buf)
      ensures newLen == if data == [] then 0 else len
    {
      if data == [] {
        assert Contents() + data == Contents();
        return 0;
      }
      hide RoundedUp;
      newLen := len + |data|;
      if newLen > buf.Length {
        Grow(RoundedUp(newLen));
      }
      ghost var had := buf[..len];
      var i := 0;
      while i < |data|
        invariant 0 <= i <= |data| && len == old(len) && newLen == len + |data| <= buf.Length
        invariant buf == old(buf) || fresh(buf)
        invariant buf[..len + i] == had + data[..i]
      {
        buf[len + i] := data[i];
        assert buf[..len + i + 1] == buf[..len + i] + [data[i]];
        AppendOne(had, data, i);
        i := i + 1;
      }
      len := newLen;
    }

    method Uint8(i: byte)
      requires Valid() && len + 1 < 0x8000_0000
      modifies this, buf
      ensures Valid() && Contents() == old(Contents()) + [i]
      ensures buf == old(buf) || fresh(buf)
    {
      var _ := Append([i]);
    }

    method Uint16(i: u16)
      requires Valid() && len + 2 < 0x8000_0000
      modifies this, buf
      ensures Valid() && Contents() == old(Contents()) + BigEndian(i, 2)
      ensures buf == old(buf) || fresh(buf)
    {
      hide BigEndian;
      TwoBytes(i);
      var _ := Append([i / 0x100, i % 0x100]);
    }

    /** Only the low 24 bits are written. */
    method Uint24(i: u32)
      requires Valid() && len + 3 < 0x8000_0000
      modifies this, buf
      ensures Valid() && Contents() == old(Contents()) + BigEndian(i, 3)
      ensures buf == old(buf) || fresh(buf)
    {
      hide BigEndian;
      ThreeBytes(i);
      var first := i / 0x10000 % 0x100;
      var rest := i % 0x10000;
      var second := rest / 0x100;
      var third := rest % 0x100;
      var _ := Append([first, second, third]);
    }

    method Uint32(i: u32)
      requires Valid() && len + 4 < 0x8000_0000
      modifies this, buf
      ensures Valid() && Contents() == old(Contents()) + BigEndian(i, 4)
      ensures buf == old(buf) || fresh(buf)
    {
      hide BigEndian;
      FourBytes(i);
      var _ := Append([i / 0x100_0000, i / 0x1_0000 % 0x100, i / 0x100 % 0x100, i % 0x100]);
    }

    /** tls_packet_update without a context: fills in the length. */
    method Update()
      requires Valid()
      modifies buf
      ensures Valid()
      ensures Contents() == old(Contents()[..3]) + BigEndian((len - 5) % 0x1_0000, 2) + old(Contents()[5..])
    {
      var n := (len - 5) % 0x1_0000;
      TwoBytes(n);
      buf[3] := n / 0x100;
      buf[4] := n % 0x100;
    }
  }

  lemma TwoBytes(i: u16)
    ensures BigEndian(i, 2) == [i / 0x100, i % 0x100]
  {
    assert BigEndian(i / 0x100, 1) == BigEndian(i / 0x100 / 0x100, 0) + [i / 0x100 % 0x100];
  }

  /** The size of the memory for so many bytes. */
  function RoundedUp(n: nat): (size: nat)
    ensures n < size
  {
    (n / BLOB_INCREMENT + 1) * BLOB_INCREMENT
  }

  lemma AppendOne(had: seq<byte>, data: seq<byte>, i: nat)
    requires i < |data|
    ensures had + data[..i] + [data[i]] == had + data[..i + 1]
  {
  }

  lemma ThreeBytes(i: nat)
    ensures BigEndian(i, 3) == [i / 0x10000 % 0x100, i % 0x10000 / 0x100, i % 0x100]
    ensures i % 0x10000 % 0x100 == i % 0x100
  {
    MiddleBytes(i);
    assert BigEndian(i / 0x100 / 0x100, 1) == BigEndian(i / 0x100 / 0x100 / 0x100, 0) + [i / 0x100 / 0x100 % 0x100];
    assert BigEndian(i / 0x100, 2) == BigEndian(i / 0x100 / 0x100, 1) + [i / 0x100 % 0x100];
  }

  lemma MiddleBytes(i: nat)
    ensures i / 0x100 / 0x100 == i / 0x10000 && i % 0x10000 / 0x100 == i / 0x100 % 0x100
    ensures i % 0x10000 % 0x100 == i % 0x100
  {
    var a, b, c := i % 0x100, i / 0x100 % 0x100, i / 0x100 / 0x100;
    assert i == (c * 0x100 + b) * 0x100 + a;
    assert i == c * 0x10000 + (b * 0x100 + a);
  }

  lemma UpperBytes(i: nat)
    ensures i / 0x100 / 0x10000 == i / 0x100_0000 && i / 0x100 % 0x10000 / 0x100 == i / 0x1_0000 % 0x100
  {
    MiddleBytes(i / 0x100);
    MiddleBytes(i);
    var a, b, c := i % 0x100, i / 0x100 % 0x10000, i / 0x100 / 0x10000;
    assert i == (c * 0x10000 + b) * 0x100 + a == c * 0x100_0000 + (b * 0x100 + a);
  }

  lemma LastByte(i: nat, width: nat)
    ensures BigEndian(i, width + 1) == BigEndian(i / 0x100, width) + [i % 0x100]
  {
  }

  lemma FourParts(i: u32)
    ensures i / 0x100 / 0x10000 % 0x100 == i / 0x100_0000
    ensures i / 0x100 % 0x10000 / 0x100 == i / 0x1_0000 % 0x100
  {
    UpperBytes(i);
    TopByte(i);
  }

  lemma TopByte(i: u32)
    ensures i / 0x100_0000 < 0x100
  {
  }

  lemma FourBytes(i: u32)
    ensures BigEndian(i, 4) == [i / 0x100_0000, i / 0x1_0000 % 0x100, i / 0x100 % 0x100, i % 0x100]
  {
    LastByte(i, 3);
    hide BigEndian;
    ThreeBytes(i / 0x100);
    FourParts(i);
    var upper: seq<byte> := [i / 0x100_0000, i / 0x1_0000 % 0x100, i / 0x100 % 0x100];
    assert BigEndian(i / 0x100, 3) == upper;
  }
}
