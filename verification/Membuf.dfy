/** The growing byte buffer of src/include/membuf.h.  The pointers cur, prev and
    end are offsets from begin. */
module Membuf {
  import opened Bytes

  class Membuf {
    var begin: array<byte>
    var cur: nat
    var prev: nat

    ghost predicate Valid()
      reads this
    {
      prev <= cur <= begin.Length
    }

    /** The bytes received so far. */
    ghost function Contents(): seq<byte>
      requires Valid()
      reads this, begin
    {
      begin[..cur]
    }

    constructor (initialSize: nat)
      ensures Valid() && fresh(begin) && begin.Length == initialSize && Contents() == [] && prev == 0
    {
      begin := new byte[initialSize];
      cur, prev := 0, 0;
    }

    function Avail(): nat
      requires Valid()
      reads this
    {
      begin.Length - cur
    }

    /** realloc: what has been received moves to the new memory, with room for
        exactly extra more bytes. */
    method Grow(extra: nat)
      requires Valid()
      modifies this
      ensures Valid() && fresh(begin) && Avail() == extra
      ensures Contents() == old(Contents()) && prev == old(prev)
    {
      var memory := new byte[cur + extra];
      var i := 0;
      while i < cur
        invariant unchanged(this) && memory != begin
        invariant 0 <= i <= cur && memory[..i] == begin[..i]
      {
        memory[i] := begin[i];
        i := i + 1;
      }
      begin := memory;
    }

    method Reset()
      requires Valid()
      modifies this
      ensures Valid() && begin == old(begin) && Contents() == [] && prev == 0
    {
      cur, prev := 0, 0;
    }

    /** The last size bytes written behind cur are now received. */
    method Consume(size: nat) returns (error: int)
      requires Valid()
      modifies this
      ensures Valid() && begin == old(begin)
      ensures (error == 0) == (size <= old(Avail()))
      ensures error == 0 ==> prev == old(cur) && cur == old(cur) + size
      ensures error != 0 ==> error == -1 && prev == old(prev) && cur == old(cur)
    {
      if Avail() < size {
        return -1;
      }
      prev := cur;
      cur := cur + size;
      error := 0;
    }

    /** A read by the kernel into the free part of the buffer. */
    method Receive(data: seq<byte>)
      requires Valid() && |data| <= Avail()
      modifies begin
      ensures Valid() && begin[..cur + |data|] == old(Contents()) + data
    {
      var i := 0;
      while i < |data|
        invariant 0 <= i <= |data|
        invariant begin[..cur + i] == old(Contents()) + data[..i]
      {
        begin[cur + i] := data[i];
        assert begin[..cur + i + 1] == begin[..cur + i] + [data[i]];
        i := i + 1;
      }
    }
  }
}
