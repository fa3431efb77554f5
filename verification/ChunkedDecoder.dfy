/** The resumable, in-place decoder of chunked transfer coding (section 4.1 of
    RFC 7230) in src/extern/picohttpparser.c. */
module ChunkedDecoder {
  import opened Bytes
  import opened Memory
  import opened Slices

  datatype Phase = InChunkSize | InChunkExt | InChunkData | InChunkCrlf | InTrailersLineHead | InTrailersLineMiddle

  datatype Decoder = Decoder(phase: Phase, left: nat, hexCount: nat, consumeTrailer: bool)

  function DecodeHex(ch: byte): (v: int)
    ensures -1 <= v < 16
  {
    if '0' as int <= ch <= '9' as int then ch - '0' as int
    else if 'A' as int <= ch <= 'F' as int then ch - 'A' as int + 10
    else if 'a' as int <= ch <= 'f' as int then ch - 'a' as int + 10
    else -1
  }

  function Pow16(n: nat): (p: nat)
    ensures p > 0
  {
    if n == 0 then 1 else 16 * Pow16(n - 1)
  }

  /** What the fields can be between two calls. */
  predicate Valid(d: Decoder)
  {
    match d.phase
    case InChunkSize => d.hexCount <= 16 && d.left < Pow16(d.hexCount)
    case InChunkExt => d.hexCount == 0 && d.left < Pow16(16)
    case InChunkData => d.hexCount == 0 && 0 < d.left < Pow16(16)
    case _ => d.hexCount == 0 && d.left == 0
  }

  // ---------------------------------------------------------------------
  // The decoder, byte by byte

  datatype Move =
    | Keep(d: Decoder)      // consumed
    | Emit(d: Decoder)      // consumed, and part of the body
    | Fail                  // not consumed
    | Finish(d: Decoder)    // consumed, and the message is over

  function StepExt(d: Decoder, b: byte): Move
  {
    if b != LF then Keep(d)
    else if d.left == 0 then
      (if d.consumeTrailer then Keep(d.(phase := InTrailersLineHead)) else Finish(d))
    else Keep(d.(phase := InChunkData))
  }

  function Step(d: Decoder, b: byte): Move
  {
    match d.phase
    case InChunkSize =>
      var v := DecodeHex(b);
      if v == -1 then (if d.hexCount == 0 then Fail else StepExt(d.(phase := InChunkExt, hexCount := 0), b))
      else if d.hexCount == 16 then Fail
      else Keep(d.(left := d.left * 16 + v, hexCount := d.hexCount + 1))
    case InChunkExt => StepExt(d, b)
    case InChunkData =>
      if d.left > 1 then Emit(d.(left := d.left - 1)) else Emit(d.(left := 0, phase := InChunkCrlf))
    case InChunkCrlf =>
      if b == CR then Keep(d) else if b == LF then Keep(d.(phase := InChunkSize)) else Fail
    case InTrailersLineHead =>
      if b == CR then Keep(d) else if b == LF then Finish(d) else Keep(d.(phase := InTrailersLineMiddle))
    case InTrailersLineMiddle =>
      if b == LF then Keep(d.(phase := InTrailersLineHead)) else Keep(d)
  }

  datatype Verdict = Incomplete | Error | Complete

  datatype Outcome = Outcome(d: Decoder, data: seq<byte>, rest: seq<byte>, verdict: Verdict)

  function Prepend(data: seq<byte>, o: Outcome): Outcome { o.(data := data + o.data) }

  lemma PrependNone(o: Outcome)
    ensures Prepend([], o) == o
  {
    assert [] + o.data == o.data;
  }

  lemma PrependToNone(data: seq<byte>, d: Decoder, rest: seq<byte>, verdict: Verdict)
    ensures Prepend(data, Outcome(d, [], rest, verdict)) == Outcome(d, data, rest, verdict)
  {
    assert data + [] == data;
  }

  lemma PrependTwice(a: seq<byte>, b: seq<byte>, o: Outcome)
    ensures Prepend(a, Prepend(b, o)) == Prepend(a + b, o)
  {
    assert a + (b + o.data) == (a + b) + o.data;
  }

  function Run(d: Decoder, input: seq<byte>): Outcome
    decreases |input|
  {
    if input == [] then Outcome(d, [], [], Incomplete) else
    match Step(d, input[0])
    case Keep(d') => Run(d', input[1..])
    case Emit(d') => Prepend([input[0]], Run(d', input[1..]))
    case Fail => Outcome(d, [], input, Error)
    case Finish(d') => Outcome(d', [], input[1..], Complete)
  }

  lemma StepValid(d: Decoder, b: byte)
    requires Valid(d)
    ensures !Step(d, b).Fail? ==> Valid(Step(d, b).d)
  {
    hide Pow16;
    Pow16Grows(0, 16);
    if d.phase.InChunkSize? {
      Pow16Grows(d.hexCount, 16);
      if d.hexCount < 16 {
        Pow16Next(d.hexCount);
        Pow16Grows(d.hexCount + 1, 16);
      }
    }
  }

  lemma Pow16Next(n: nat)
    ensures Pow16(0) == 1 && Pow16(n + 1) == 16 * Pow16(n)
  {
  }

  lemma {:induction false} Pow16Grows(a: nat, b: nat)
    requires a <= b
    ensures Pow16(a) <= Pow16(b)
    decreases b - a
  {
    if a < b {
      Pow16Grows(a + 1, b);
    }
  }

  /** Before the size line ends, the size is below 16 to the number of digits
      read, and so never leaves 64 bits. */
  lemma {:induction false} RunValid(d: Decoder, input: seq<byte>)
    requires Valid(d)
    ensures Valid(Run(d, input).d)
    decreases |input|
  {
    hide Valid, Step, Pow16;
    if input != [] {
      StepValid(d, input[0]);
      match Step(d, input[0])
      case Keep(d') => RunValid(d', input[1..]);
      case Emit(d') => RunValid(d', input[1..]);
      case _ =>
    }
  }

  // ---------------------------------------------------------------------
  // Fragmentation

  /** A stop is a stop whatever follows; otherwise the next call goes on from
      where the last one was. */
  lemma {:induction false} RunAppend(d: Decoder, a: seq<byte>, b: seq<byte>)
    ensures var o := Run(d, a);
      Run(d, a + b) == if o.verdict.Incomplete? then Prepend(o.data, Run(o.d, b)) else o.(rest := o.rest + b)
    decreases |a|
  {
    hide Step;
    if a == [] {
      assert a + b == b;
      assert forall o: Outcome :: [] + o.data == o.data;
    } else {
      assert (a + b)[0] == a[0] && (a + b)[1..] == a[1..] + b;
      match Step(d, a[0])
      case Keep(d') => RunAppend(d', a[1..], b);
      case Emit(d') =>
        RunAppend(d', a[1..], b);
        var o := Run(d', a[1..]);
        assert [a[0]] + (o.data + Run(o.d, b).data) == ([a[0]] + o.data) + Run(o.d, b).data;
      case _ =>
    }
  }

  /** One call after the other, as long as more input is asked for. */
  function RunPieces(d: Decoder, pieces: seq<seq<byte>>): Outcome
    decreases |pieces|
  {
    if pieces == [] then Outcome(d, [], [], Incomplete) else
    var o := Run(d, pieces[0]);
    if o.verdict.Incomplete? then Prepend(o.data, RunPieces(o.d, pieces[1..]))
    else o.(rest := o.rest + Concat(pieces[1..]))
  }

  /** However the input is cut into reads, the data, the verdict and the bytes
      left over are those of a single call on the whole. */
  lemma {:induction false} Fragmentation(d: Decoder, pieces: seq<seq<byte>>)
    ensures RunPieces(d, pieces) == Run(d, Concat(pieces))
    decreases |pieces|
  {
    if pieces != [] {
      RunAppend(d, pieces[0], Concat(pieces[1..]));
      Fragmentation(Run(d, pieces[0]).d, pieces[1..]);
    }
  }

  function Fresh(consumeTrailer: bool): Decoder { Decoder(InChunkSize, 0, 0, consumeTrailer) }

  lemma RunEmpty(d: Decoder)
    ensures Run(d, []) == Outcome(d, [], [], Incomplete)
  {
  }

  /** Reading the size: what each branch on a byte amounts to. */
  lemma SizeStep(d: Decoder, b: byte)
    requires d.phase.InChunkSize? && Valid(d)
    ensures DecodeHex(b) == -1 && d.hexCount == 0 ==> Step(d, b) == Fail
    ensures DecodeHex(b) != -1 && d.hexCount == 16 ==> Step(d, b) == Fail
    ensures DecodeHex(b) != -1 && d.hexCount != 16 ==>
              && Step(d, b) == Keep(d.(left := d.left * 16 + DecodeHex(b), hexCount := d.hexCount + 1))
              && Valid(Step(d, b).d) && d.left * 16 + DecodeHex(b) < 0x1_0000_0000_0000_0000
  {
    hide Pow16;
    StepValid(d, b);
    Pow16At16();
    if d.hexCount < 16 {
      Pow16Grows(d.hexCount + 1, 16);
    }
  }

  lemma Pow16At16()
    ensures Pow16(16) == 0x1_0000_0000_0000_0000
  {
    assert Pow16(4) == 0x1_0000;
    assert Pow16(8) == 0x1_0000 * Pow16(4);
    assert Pow16(12) == 0x1_0000 * Pow16(8);
    assert Pow16(16) == 0x1_0000 * Pow16(12);
  }

  lemma ExtValid(d: Decoder)
    requires Valid(d) && d.phase.InChunkSize?
    ensures Valid(d.(phase := InChunkExt, hexCount := 0))
  {
    Pow16Grows(d.hexCount, 16);
  }

  /** The digits have been read, and something else comes. */
  lemma DigitsEnd(d: Decoder, input: seq<byte>)
    requires d.phase.InChunkSize? && d.hexCount > 0 && input != [] && DecodeHex(input[0]) == -1
    ensures Run(d, input) == Run(d.(phase := InChunkExt, hexCount := 0), input)
  {
  }

  lemma {:induction false} RunData(d: Decoder, data: seq<byte>, input: seq<byte>)
    requires d.phase.InChunkData? && 0 < d.left && |data| <= d.left
    ensures Run(d, data + input) == Prepend(data, Run(
              d.(left := d.left - |data|, phase := if |data| == d.left then InChunkCrlf else InChunkData), input))
    decreases |data|
  {
    if data == [] {
      assert data + input == input;
      assert [] + Run(d, input).data == Run(d, input).data;
    } else {
      assert (data + input)[1..] == data[1..] + input;
      ghost var phase := if |data| == d.left then InChunkCrlf else InChunkData;
      ghost var end := Run(d.(left := d.left - |data|, phase := phase), input);
      if d.left > 1 {
        RunData(d.(left := d.left - 1), data[1..], input);
      } else {
        assert data[1..] + input == input;
        assert data[1..] + end.data == end.data;
      }
      PrependTwice([data[0]], data[1..], end);
      assert [data[0]] + data[1..] == data;
    }
  }

  // ---------------------------------------------------------------------
  // The decoder as written, in the caller's buffer

  datatype Flow = Go | Stop(verdict: Verdict)

  /** What is still to happen when the fields are d and input is unread. */
  function Continue(flow: Flow, d: Decoder, input: seq<byte>): Outcome
  {
    match flow
    case Go => Run(d, input)
    case Stop(verdict) => Outcome(d, [], input, verdict)
  }

  function ReturnCode(o: Outcome): int
  {
    match o.verdict
    case Incomplete => -2
    case Error => -1
    case Complete => |o.rest|
  }

  lemma RunKeep(d: Decoder, s: seq<byte>, i: nat)
    requires i < |s| && Step(d, s[i]).Keep?
    ensures Run(d, s[i..]) == Run(Step(d, s[i]).d, s[i + 1..])
  {
    assert s[i..][1..] == s[i + 1..];
  }

  lemma RunStop(d: Decoder, s: seq<byte>, i: nat)
    requires i <= |s|
    ensures i == |s| ==> Run(d, s[i..]) == Outcome(d, [], s[i..], Incomplete)
    ensures i < |s| && Step(d, s[i]).Fail? ==> Run(d, s[i..]) == Outcome(d, [], s[i..], Error)
    ensures i < |s| && Step(d, s[i]).Finish? ==> Run(d, s[i..]) == Outcome(Step(d, s[i]).d, [], s[i + 1..], Complete)
  {
    if i < |s| {
      assert s[i..][1..] == s[i + 1..];
    }
  }

  /** A chunk's data up to the end of the chunk or of the input. */
  lemma DataFlow(d: Decoder, input: seq<byte>)
    requires d.phase.InChunkData? && 0 < d.left
    ensures |input| < d.left ==>
              Run(d, input) == Prepend(input, Outcome(d.(left := d.left - |input|), [], [], Incomplete))
    ensures |input| >= d.left ==>
              Run(d, input) == Prepend(input[..d.left], Run(d.(left := 0, phase := InChunkCrlf), input[d.left..]))
  {
    hide Step, Run;
    if |input| < d.left {
      assert input == input + [];
      RunEmpty(d.(left := d.left - |input|));
      RunData(d, input, []);
    } else {
      assert input == input[..d.left] + input[d.left..];
      RunData(d, input[..d.left], input[d.left..]);
    }
  }

  class ChunkedDecoder {
    var state: Phase
    var bytesLeftInChunk: u64
    var hexCount: nat
    var consumeTrailer: bool

    ghost function Value(): Decoder
      reads this
    {
      Decoder(state, bytesLeftInChunk, hexCount, consumeTrailer)
    }

    constructor (consume: bool)
      ensures Value() == Fresh(consume)
    {
      state, bytesLeftInChunk, hexCount, consumeTrailer := InChunkSize, 0, 0, consume;
    }

    method ReadSize(buf: array<byte>, bufsz: nat, start: nat) returns (src: nat, flow: Flow)
      requires start <= bufsz <= buf.Length && state == InChunkSize && Valid(Value())
      modifies this
      ensures start <= src <= bufsz && Valid(Value())
      ensures flow.Go? ==> state == InChunkExt
      ensures Continue(flow, Value(), buf[src..bufsz]) == Run(old(Value()), buf[start..bufsz])
    {
      hide Valid, Pow16, Step, Run;
      src := start;
      ghost var s := buf[..bufsz];
      assert buf[start..bufsz] == s[start..];
      while true
        invariant start <= src <= bufsz && state == InChunkSize && Valid(Value())
        invariant Run(Value(), s[src..]) == Run(old(Value()), s[start..])
        decreases bufsz - src
      {
        assert s[src..] == buf[src..bufsz];
        RunStop(Value(), s, src);
        if src == bufsz {
          return src, Stop(Incomplete);
        }
        SizeStep(Value(), buf[src]);
        var v := DecodeHex(buf[src]);
        if v == -1 {
          if hexCount == 0 {
            return src, Stop(Error);
          }
          break;
        }
        if hexCount == 16 {
          return src, Stop(Error);
        }
        RunKeep(Value(), s, src);
        bytesLeftInChunk, hexCount := bytesLeftInChunk * 16 + v, hexCount + 1;
        src := src + 1;
      }
      DigitsEnd(Value(), s[src..]);
      ExtValid(Value());
      hexCount := 0;
      state := InChunkExt;
      flow := Go;
    }

    method SkipExt(buf: array<byte>, bufsz: nat, start: nat) returns (src: nat, flow: Flow)
      requires start <= bufsz <= buf.Length && state == InChunkExt && Valid(Value())
      modifies this
      ensures start <= src <= bufsz && Valid(Value())
      ensures flow.Go? ==> start < src
      ensures Continue(flow, Value(), buf[src..bufsz]) == Run(old(Value()), buf[start..bufsz])
    {
      hide Pow16, Run;
      src := start;
      ghost var s := buf[..bufsz];
      assert buf[start..bufsz] == s[start..];
      while true
        invariant start <= src <= bufsz
        invariant Value() == old(Value()) && Run(Value(), s[src..]) == Run(Value(), s[start..])
        decreases bufsz - src
      {
        assert s[src..] == buf[src..bufsz];
        RunStop(Value(), s, src);
        if src == bufsz {
          return src, Stop(Incomplete);
        }
        if buf[src] == LF {
          break;
        }
        RunKeep(Value(), s, src);
        src := src + 1;
      }
      ghost var d := Value();
      if Step(d, LF).Keep? {
        RunKeep(d, s, src);
      }
      src := src + 1;
      assert s[src..] == buf[src..bufsz];
      if bytesLeftInChunk == 0 {
        if consumeTrailer {
          state := InTrailersLineHead;
          return src, Go;
        } else {
          return src, Stop(Complete);
        }
      }
      state := InChunkData;
      flow := Go;
    }

    method CopyData(buf: array<byte>, bufsz: nat, to: nat, start: nat) returns (dst: nat, src: nat, flow: Flow)
      requires to <= start <= bufsz <= buf.Length && state == InChunkData && Valid(Value())
      modifies this, buf
      ensures start <= src <= bufsz && dst - to == src - start && Valid(Value())
      ensures buf[..to] == old(buf[..to]) && buf[src..] == old(buf[src..]) && buf[bufsz..] == old(buf[bufsz..])
      ensures flow.Go? ==> start < src
      ensures Prepend(buf[to..dst], Continue(flow, Value(), buf[src..bufsz]))
           == Run(old(Value()), old(buf[start..bufsz]))
    {
      hide Run, Pow16, Step, Moved, Prepend;
      ghost var input := buf[start..bufsz];
      DataFlow(Value(), input);
      var avail := bufsz - start;
      if avail < bytesLeftInChunk {
        MoveUp(buf, to, start, avail, bufsz);
        src := start + avail;
        dst := to + avail;
        bytesLeftInChunk := bytesLeftInChunk - avail;
        assert input[..avail] == input && input[avail..] == [];
        return dst, src, Stop(Incomplete);
      }
      MoveUp(buf, to, start, bytesLeftInChunk, bufsz);
      src := start + bytesLeftInChunk;
      dst := to + bytesLeftInChunk;
      bytesLeftInChunk := 0;
      state := InChunkCrlf;
      flow := Go;
    }

    method SkipCrlf(buf: array<byte>, bufsz: nat, start: nat) returns (src: nat, flow: Flow)
      requires start <= bufsz <= buf.Length && state == InChunkCrlf && Valid(Value())
      modifies this
      ensures start <= src <= bufsz && Valid(Value())
      ensures flow.Go? ==> start < src
      ensures Continue(flow, Value(), buf[src..bufsz]) == Run(old(Value()), buf[start..bufsz])
    {
      hide Run;
      src := start;
      ghost var s := buf[..bufsz];
      assert buf[start..bufsz] == s[start..];
      while true
        invariant start <= src <= bufsz
        invariant Value() == old(Value()) && Run(Value(), s[src..]) == Run(Value(), s[start..])
        decreases bufsz - src
      {
        assert s[src..] == buf[src..bufsz];
        RunStop(Value(), s, src);
        if src == bufsz {
          return src, Stop(Incomplete);
        }
        if buf[src] != CR {
          break;
        }
        RunKeep(Value(), s, src);
        src := src + 1;
      }
      if buf[src] != LF {
        return src, Stop(Error);
      }
      RunKeep(Value(), s, src);
      src := src + 1;
      assert s[src..] == buf[src..bufsz];
      state := InChunkSize;
      flow := Go;
    }

    method SkipTrailerHead(buf: array<byte>, bufsz: nat, start: nat) returns (src: nat, flow: Flow)
      requires start <= bufsz <= buf.Length && state == InTrailersLineHead && Valid(Value())
      modifies this
      ensures start <= src <= bufsz && Valid(Value())
      ensures flow.Go? ==> start < src
      ensures Continue(flow, Value(), buf[src..bufsz]) == Run(old(Value()), buf[start..bufsz])
    {
      hide Run;
      src := start;
      ghost var s := buf[..bufsz];
      assert buf[start..bufsz] == s[start..];
      while true
        invariant start <= src <= bufsz
        invariant Value() == old(Value()) && Run(Value(), s[src..]) == Run(Value(), s[start..])
        decreases bufsz - src
      {
        assert s[src..] == buf[src..bufsz];
        RunStop(Value(), s, src);
        if src == bufsz {
          return src, Stop(Incomplete);
        }
        if buf[src] != CR {
          break;
        }
        RunKeep(Value(), s, src);
        src := src + 1;
      }
      src := src + 1;
      assert s[src..] == buf[src..bufsz];
      if buf[src - 1] == LF {
        return src, Stop(Complete);
      }
      RunKeep(Value(), s, src - 1);
      state := InTrailersLineMiddle;
      flow := Go;
    }

    method SkipTrailerLine(buf: array<byte>, bufsz: nat, start: nat) returns (src: nat, flow: Flow)
      requires start <= bufsz <= buf.Length && state == InTrailersLineMiddle && Valid(Value())
      modifies this
      ensures start <= src <= bufsz && Valid(Value())
      ensures flow.Go? ==> start < src
      ensures Continue(flow, Value(), buf[src..bufsz]) == Run(old(Value()), buf[start..bufsz])
    {
      hide Run;
      src := start;
      ghost var s := buf[..bufsz];
      assert buf[start..bufsz] == s[start..];
      while true
        invariant start <= src <= bufsz
        invariant Value() == old(Value()) && Run(Value(), s[src..]) == Run(Value(), s[start..])
        decreases bufsz - src
      {
        assert s[src..] == buf[src..bufsz];
        RunStop(Value(), s, src);
        if src == bufsz {
          return src, Stop(Incomplete);
        }
        if buf[src] == LF {
          break;
        }
        RunKeep(Value(), s, src);
        src := src + 1;
      }
      RunKeep(Value(), s, src);
      src := src + 1;
      assert s[src..] == buf[src..bufsz];
      state := InTrailersLineHead;
      flow := Go;
    }

    /** One pass of the switch: from the current state to the next one.  Copying
        never reaches a byte that is still to be read. */
    method Advance(buf: array<byte>, bufsz: nat, to: nat, start: nat) returns (dst: nat, src: nat, flow: Flow)
      requires to <= start <= bufsz <= buf.Length && Valid(Value())
      modifies this, buf
      ensures start <= src <= bufsz && to <= dst <= src && Valid(Value())
      ensures buf[..to] == old(buf[..to]) && buf[src..] == old(buf[src..]) && buf[bufsz..] == old(buf[bufsz..])
      ensures flow.Go? ==> start < src || (old(state).InChunkSize? && state.InChunkExt?)
      ensures Prepend(buf[to..dst], Continue(flow, Value(), buf[src..bufsz]))
           == Run(old(Value()), old(buf[start..bufsz]))
    {
      hide Run, Valid;
      dst := to;
      match state {
        case InChunkSize => src, flow := ReadSize(buf, bufsz, start);
        case InChunkExt => src, flow := SkipExt(buf, bufsz, start);
        case InChunkData => dst, src, flow := CopyData(buf, bufsz, to, start);
        case InChunkCrlf => src, flow := SkipCrlf(buf, bufsz, start);
        case InTrailersLineHead => src, flow := SkipTrailerHead(buf, bufsz, start);
        case InTrailersLineMiddle => src, flow := SkipTrailerLine(buf, bufsz, start);
      }
      if dst == to {
        assert buf[to..dst] == [];
        assert forall o: Outcome :: [] + o.data == o.data;
      }
    }

    /** A call leaves the decoded data at the front of the buffer, what follows
        the message right behind it, and returns -2 when it needs more input,
        -1 on malformed input, and otherwise the number of bytes behind. */
    method Decode(buf: array<byte>, bufsz: nat) returns (ret: int, size: nat)
      requires bufsz <= buf.Length && Valid(Value())
      modifies this, buf
      ensures Valid(Value())
      ensures var o := Run(old(Value()), old(buf[..bufsz]));
        && Value() == o.d && ret == ReturnCode(o)
        && size == |o.data| && size + |o.rest| <= bufsz
        && buf[..size] == o.data && buf[size..size + |o.rest|] == o.rest
      ensures buf[bufsz..] == old(buf[bufsz..])
    {
      hide Run, Valid;
      var dst, src, verdict := DecodeUpTo(buf, bufsz);
      ret := match verdict case Incomplete => -2 case Error => -1 case Complete => bufsz - src;
      MoveUp(buf, dst, src, bufsz - src, bufsz);
      size := dst;
    }

    /** The loop: to the end of the input or of the message, or to an error. */
    method DecodeUpTo(buf: array<byte>, bufsz: nat) returns (dst: nat, src: nat, verdict: Verdict)
      requires bufsz <= buf.Length && Valid(Value())
      modifies this, buf
      ensures Valid(Value()) && dst <= src <= bufsz
      ensures Run(old(Value()), old(buf[..bufsz])) == Outcome(Value(), buf[..dst], buf[src..bufsz], verdict)
      ensures buf[bufsz..] == old(buf[bufsz..])
    {
      hide Run, Valid, Prepend;
      var flow;
      dst, src, flow := 0, 0, Go;
      ghost var o := Run(Value(), buf[..bufsz]);
      PrependNone(o);
      assert buf[..dst] == [] && buf[src..bufsz] == buf[..bufsz];
      while flow == Go
        invariant dst <= src <= bufsz && Valid(Value())
        invariant buf[bufsz..] == old(buf[bufsz..])
        invariant Prepend(buf[..dst], Continue(flow, Value(), buf[src..bufsz])) == o
        decreases flow.Go?, bufsz - src, state.InChunkSize?
      {
        ghost var done, to, from := buf[..dst], dst, src;
        ghost var behind := buf[bufsz..];
        dst, src, flow := Advance(buf, bufsz, dst, src);
        assert behind == buf[bufsz..];
        assert buf[..dst] == done + buf[to..dst];
        PrependTwice(done, buf[to..dst], Continue(flow, Value(), buf[src..bufsz]));
      }
      verdict := flow.verdict;
      PrependToNone(buf[..dst], Value(), buf[src..bufsz], verdict);
    }
  }
}
