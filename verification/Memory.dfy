/** memmove within a buffer. */
module Memory {
  import opened Bytes

  predicate Moved(was: seq<byte>, now: seq<byte>, dst: nat, src: nat, n: nat)
  {
    && dst <= src && src + n <= |was| == |now|
    && now[..dst] == was[..dst] && now[dst..dst + n] == was[src..src + n] && now[dst + n..] == was[dst + n..]
  }

  lemma MovedOne(was: seq<byte>, now: seq<byte>, dst: nat, src: nat, n: nat)
    requires Moved(was, now, dst, src, n) && src + n < |was|
    ensures now[src + n] == was[src + n]
    ensures Moved(was, now[dst + n := now[src + n]], dst, src, n + 1)
  {
    var next := now[dst + n := now[src + n]];
    assert now[dst + n..][src - dst] == was[dst + n..][src - dst];
    assert next[..dst] == now[..dst];
    assert next[dst..dst + n + 1] == now[dst..dst + n] + [now[src + n]];
    assert was[src..src + n + 1] == was[src..src + n] + [was[src + n]];
    assert next[dst + n + 1..] == now[dst + n..][1..];
    assert was[dst + n + 1..] == was[dst + n..][1..];
  }

  /** memmove towards the front. */
  method Memmove(buf: array<byte>, dst: nat, src: nat, n: nat)
    requires dst <= src && src + n <= buf.Length
    modifies buf
    ensures Moved(old(buf[..]), buf[..], dst, src, n)
  {
    var i := 0;
    while i < n
      invariant 0 <= i <= n
      invariant Moved(old(buf[..]), buf[..], dst, src, i)
    {
      ghost var now := buf[..];
      MovedOne(old(buf[..]), now, dst, src, i);
      buf[dst + i] := buf[src + i];
      assert buf[..] == now[dst + i := now[src + i]];
      i := i + 1;
    }
  }

  /** What a move leaves alone: the bytes in front of dst and those behind the moved ones. */
  lemma MovedParts(was: seq<byte>, now: seq<byte>, dst: nat, src: nat, n: nat, size: nat)
    requires Moved(was, now, dst, src, n) && src + n <= size <= |was|
    ensures now[..dst] == was[..dst] && now[dst..dst + n] == was[src..size][..n]
    ensures now[src + n..] == was[src + n..] && now[src + n..size] == was[src..size][n..]
  {
    Slices(was, src, size, n);
    Slices(now, src, size, n);
    assert now[src + n..] == now[dst + n..][src - dst..];
    assert was[src + n..] == was[dst + n..][src - dst..];
  }

  lemma Slices(s: seq<byte>, from: nat, to: nat, n: nat)
    requires from + n <= to <= |s|
    ensures s[from..to][..n] == s[from..from + n]
    ensures s[from..to][n..] == s[from + n..to] == s[from + n..][..to - from - n]
  {
  }

  /** n unread bytes at src go behind the bytes kept in front of dst. */
  method MoveUp(buf: array<byte>, dst: nat, src: nat, n: nat, bufsz: nat)
    requires dst <= src && src + n <= bufsz <= buf.Length
    modifies buf
    ensures buf[..dst] == old(buf[..dst]) && buf[dst..dst + n] == old(buf[src..bufsz])[..n]
    ensures buf[src + n..] == old(buf[src + n..]) && buf[src + n..bufsz] == old(buf[src..bufsz])[n..]
    ensures buf[bufsz..] == old(buf[bufsz..])
  {
    hide Moved;
    if dst != src {
      Memmove(buf, dst, src, n);
      ghost var was, now := old(buf[..]), buf[..];
      MovedParts(was, now, dst, src, n, bufsz);
      assert now[..dst] == buf[..dst] && now[dst..dst + n] == buf[dst..dst + n];
      assert now[src + n..] == buf[src + n..] && now[src + n..bufsz] == buf[src + n..bufsz];
      assert now[bufsz..] == now[src + n..][bufsz - src - n..];
      assert was[bufsz..] == was[src + n..][bufsz - src - n..];
    }
  }
}
