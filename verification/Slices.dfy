/** Text at a position of a buffer. */
module Slices {
  import opened Bytes

  predicate Holds(s: seq<byte>, pos: nat, text: seq<byte>)
  {
    pos + |text| <= |s| && s[pos..pos + |text|] == text
  }

  lemma HoldsSplit(s: seq<byte>, pos: nat, a: seq<byte>, b: seq<byte>)
    ensures Holds(s, pos, a + b) <==> Holds(s, pos, a) && Holds(s, pos + |a|, b)
  {
    if Holds(s, pos, a + b) {
      assert s[pos..pos + |a|] == (a + b)[..|a|] == a;
      assert s[pos + |a|..pos + |a| + |b|] == (a + b)[|a|..] == b;
    }
    if Holds(s, pos, a) && Holds(s, pos + |a|, b) {
      assert s[pos..pos + |a + b|] == s[pos..pos + |a|] + s[pos + |a|..pos + |a| + |b|];
    }
  }

  lemma HoldsAt(s: seq<byte>, pos: nat, text: seq<byte>, i: nat)
    requires Holds(s, pos, text) && i < |text|
    ensures pos + i < |s| && s[pos + i] == text[i]
  {
    assert s[pos..pos + |text|][i] == s[pos + i];
  }

  lemma HoldsSlice(s: seq<byte>, pos: nat, text: seq<byte>)
    requires Holds(s, pos, text)
    ensures pos + |text| <= |s| && s[pos..pos + |text|] == text
  {
  }

  lemma HoldsWhole(a: seq<byte>, b: seq<byte>)
    ensures Holds(a + b, 0, a)
  {
  }

  /** Pieces of a stream put together. */
  function Concat(pieces: seq<seq<byte>>): seq<byte>
  {
    if pieces == [] then [] else pieces[0] + Concat(pieces[1..])
  }
}
