/** The messages that the decoder of ChunkedDecoder accepts: the chunked coding of
    section 4.1 of RFC 7230 for sizes of at most sixteen digits, with line ends,
    extensions and trailers taken leniently. */
module ChunkedLanguage {
  import opened Bytes
  import opened ChunkedDecoder

  predicate AllHex(s: seq<byte>) { forall i :: 0 <= i < |s| ==> DecodeHex(s[i]) >= 0 }

  predicate NoLf(s: seq<byte>) { forall i :: 0 <= i < |s| ==> s[i] != LF }

  function HexValue(s: seq<byte>): nat
    requires AllHex(s)
  {
    if s == [] then 0 else HexValue(s[..|s| - 1]) * 16 + DecodeHex(s[|s| - 1])
  }

  function Crs(n: nat): seq<byte> { if n == 0 then [] else [CR] + Crs(n - 1) }

  function LineEnd(crs: nat): seq<byte> { Crs(crs) + [LF] }

  /** A size line without its LF (the CR before it counts as extension), the data,
      and how many CRs stand before the LF behind the data. */
  datatype Chunk = Chunk(size: seq<byte>, ext: seq<byte>, data: seq<byte>, crs: nat)

  /** A trailer line; CRs may stand before it. */
  datatype Line = Line(crs: nat, text: seq<byte>)

  datatype Message = Message(chunks: seq<Chunk>, last: Chunk, trailers: seq<Line>, crs: nat)

  /** Up to sixteen digits in either case, leading zeroes included, then any
      extension; the size is that of the data. */
  predicate ChunkOk(c: Chunk)
  {
    && 1 <= |c.size| <= 16 && AllHex(c.size) && HexValue(c.size) == |c.data|
    && NoLf(c.ext) && (c.ext != [] ==> DecodeHex(c.ext[0]) == -1)
  }

  predicate LineOk(line: Line) { line.text != [] && NoLf(line.text) && line.text[0] != CR }

  predicate MessageOk(m: Message)
  {
    && (forall i :: 0 <= i < |m.chunks| ==> ChunkOk(m.chunks[i]) && m.chunks[i].data != [])
    && ChunkOk(m.last) && m.last.data == []
    && (forall i :: 0 <= i < |m.trailers| ==> LineOk(m.trailers[i]))
  }

  function SizeText(c: Chunk): seq<byte> { c.size + c.ext + [LF] }

  function ChunksText(chunks: seq<Chunk>): seq<byte>
  {
    if chunks == [] then []
    else SizeText(chunks[0]) + (chunks[0].data + (LineEnd(chunks[0].crs) + ChunksText(chunks[1..])))
  }

  function TrailersText(lines: seq<Line>, crs: nat): seq<byte>
  {
    if lines == [] then LineEnd(crs) else Crs(lines[0].crs) + (lines[0].text + ([LF] + TrailersText(lines[1..], crs)))
  }

  /** Without trailer consumption the message ends for the decoder with the last
      size line. */
  function Text(m: Message, trailer: bool): seq<byte>
  {
    ChunksText(m.chunks) + (SizeText(m.last) + (if trailer then TrailersText(m.trailers, m.crs) else []))
  }

  function Body(chunks: seq<Chunk>): seq<byte>
  {
    if chunks == [] then [] else chunks[0].data + Body(chunks[1..])
  }

  // ---------------------------------------------------------------------
  // Parts of a message

  lemma RunCons(d: Decoder, b: byte, input: seq<byte>)
    requires Step(d, b).Keep?
    ensures Run(d, [b] + input) == Run(Step(d, b).d, input)
  {
    assert ([b] + input)[1..] == input;
  }

  lemma RunLast(d: Decoder, b: byte, input: seq<byte>)
    requires Step(d, b).Finish?
    ensures Run(d, [b] + input) == Outcome(Step(d, b).d, [], input, Complete)
  {
    assert ([b] + input)[1..] == input;
  }

  lemma {:induction false} RunDigits(d: Decoder, digits: seq<byte>, input: seq<byte>)
    requires d.phase.InChunkSize? && AllHex(digits) && d.hexCount + |digits| <= 16
    ensures Run(d, digits + input) == Run(d.(left := d.left * Pow16(|digits|) + HexValue(digits),
                                             hexCount := d.hexCount + |digits|), input)
    decreases |digits|
  {
    hide Run, Pow16;
    Pow16Next(0);
    if digits == [] {
      assert digits + input == input;
    } else {
      var init, last := digits[..|digits| - 1], digits[|digits| - 1];
      assert digits + input == init + ([last] + input);
      RunDigits(d, init, [last] + input);
      var mid := d.left * Pow16(|init|) + HexValue(init);
      RunCons(d.(left := mid, hexCount := d.hexCount + |init|), last, input);
      Pow16Next(|init|);
      ShiftDigit(d.left, Pow16(|init|), HexValue(init), DecodeHex(last));
    }
  }

  lemma ShiftDigit(left: int, power: int, value: int, digit: int)
    ensures (left * power + value) * 16 + digit == left * (16 * power) + (value * 16 + digit)
  {
  }

  lemma {:induction false} RunExt(d: Decoder, ext: seq<byte>, input: seq<byte>)
    requires d.phase.InChunkExt? && NoLf(ext)
    ensures Run(d, ext + input) == Run(d, input)
  {
    if ext == [] {
      assert ext + input == input;
    } else {
      assert (ext + input)[1..] == ext[1..] + input;
      RunExt(d, ext[1..], input);
    }
  }

  lemma {:induction false} RunCrs(d: Decoder, n: nat, input: seq<byte>)
    requires d.phase.InChunkCrlf? || d.phase.InTrailersLineHead?
    ensures Run(d, Crs(n) + input) == Run(d, input)
  {
    if n == 0 {
      assert Crs(n) + input == input;
    } else {
      assert Crs(n) + input == [CR] + (Crs(n - 1) + input);
      RunCons(d, CR, Crs(n - 1) + input);
      RunCrs(d, n - 1, input);
    }
  }

  lemma {:induction false} RunLine(d: Decoder, text: seq<byte>, input: seq<byte>)
    requires d.phase.InTrailersLineMiddle? && NoLf(text)
    ensures Run(d, text + input) == Run(d, input)
  {
    if text == [] {
      assert text + input == input;
    } else {
      assert text + input == [text[0]] + (text[1..] + input);
      RunCons(d, text[0], text[1..] + input);
      RunLine(d, text[1..], input);
    }
  }

  lemma Regroup(a: seq<byte>, b: seq<byte>, c: seq<byte>)
    ensures (a + b) + c == a + (b + c)
  {
  }

  lemma RunSize(c: Chunk, trailer: bool, input: seq<byte>)
    requires ChunkOk(c)
    ensures Run(Fresh(trailer), SizeText(c) + input) == Run(Decoder(InChunkExt, |c.data|, 0, trailer), [LF] + input)
  {
    hide Run, Pow16;
    var tail := c.ext + ([LF] + input);
    assert SizeText(c) + input == c.size + tail;
    RunDigits(Fresh(trailer), c.size, tail);
    DigitsEnd(Decoder(InChunkSize, |c.data|, |c.size|, trailer), tail);
    RunExt(Decoder(InChunkExt, |c.data|, 0, trailer), c.ext, [LF] + input);
  }

  lemma RunLineEnd(trailer: bool, crs: nat, input: seq<byte>)
    ensures Run(Decoder(InChunkCrlf, 0, 0, trailer), LineEnd(crs) + input) == Run(Fresh(trailer), input)
  {
    hide Run;
    Regroup(Crs(crs), [LF], input);
    RunCrs(Decoder(InChunkCrlf, 0, 0, trailer), crs, [LF] + input);
    RunCons(Decoder(InChunkCrlf, 0, 0, trailer), LF, input);
  }

  lemma RunChunk(c: Chunk, trailer: bool, input: seq<byte>)
    requires ChunkOk(c) && c.data != []
    ensures Run(Fresh(trailer), SizeText(c) + (c.data + (LineEnd(c.crs) + input)))
         == Prepend(c.data, Run(Fresh(trailer), input))
  {
    hide Run, ChunkOk, SizeText, LineEnd;
    var after := c.data + (LineEnd(c.crs) + input);
    RunSize(c, trailer, after);
    RunCons(Decoder(InChunkExt, |c.data|, 0, trailer), LF, after);
    RunData(Decoder(InChunkData, |c.data|, 0, trailer), c.data, LineEnd(c.crs) + input);
    RunLineEnd(trailer, c.crs, input);
  }

  lemma {:induction false} RunChunks(chunks: seq<Chunk>, trailer: bool, input: seq<byte>)
    requires forall i :: 0 <= i < |chunks| ==> ChunkOk(chunks[i]) && chunks[i].data != []
    ensures Run(Fresh(trailer), ChunksText(chunks) + input) == Prepend(Body(chunks), Run(Fresh(trailer), input))
    decreases |chunks|
  {
    hide Run, ChunkOk, SizeText, LineEnd;
    var o := Run(Fresh(trailer), input);
    if chunks == [] {
      assert ChunksText(chunks) + input == input;
      assert [] + o.data == o.data;
    } else {
      var c, rest := chunks[0], ChunksText(chunks[1..]);
      Regroup(SizeText(c), c.data + (LineEnd(c.crs) + rest), input);
      Regroup(c.data, LineEnd(c.crs) + rest, input);
      Regroup(LineEnd(c.crs), rest, input);
      RunChunk(c, trailer, rest + input);
      RunChunks(chunks[1..], trailer, input);
      PrependTwice(c.data, Body(chunks[1..]), o);
    }
  }

  lemma {:induction false} RunTrailers(d: Decoder, lines: seq<Line>, crs: nat, input: seq<byte>)
    requires d.phase.InTrailersLineHead? && forall i :: 0 <= i < |lines| ==> LineOk(lines[i])
    ensures Run(d, TrailersText(lines, crs) + input) == Outcome(d, [], input, Complete)
    decreases |lines|
  {
    hide Run;
    if lines == [] {
      Regroup(Crs(crs), [LF], input);
      RunCrs(d, crs, [LF] + input);
      RunLast(d, LF, input);
    } else {
      var line, rest := lines[0], TrailersText(lines[1..], crs) + input;
      var middle := d.(phase := InTrailersLineMiddle);
      Regroup(Crs(line.crs), line.text + ([LF] + TrailersText(lines[1..], crs)), input);
      Regroup(line.text, [LF] + TrailersText(lines[1..], crs), input);
      Regroup([LF], TrailersText(lines[1..], crs), input);
      RunCrs(d, line.crs, line.text + ([LF] + rest));
      assert line.text + ([LF] + rest) == [line.text[0]] + (line.text[1..] + ([LF] + rest));
      RunCons(d, line.text[0], line.text[1..] + ([LF] + rest));
      RunLine(middle, line.text[1..], [LF] + rest);
      RunCons(middle, LF, rest);
      RunTrailers(d, lines[1..], crs, input);
    }
  }

  /** Every message is accepted: the data of its chunks comes out, and what follows
      it is left over. */
  lemma Accepted(m: Message, trailer: bool, rest: seq<byte>)
    requires MessageOk(m)
    ensures var o := Run(Fresh(trailer), Text(m, trailer) + rest);
      o.verdict == Complete && o.data == Body(m.chunks) && o.rest == rest
  {
    hide Run, ChunkOk, LineOk, SizeText, ChunksText, TrailersText;
    var tail := if trailer then TrailersText(m.trailers, m.crs) else [];
    Regroup(ChunksText(m.chunks), SizeText(m.last) + tail, rest);
    Regroup(SizeText(m.last), tail, rest);
    RunChunks(m.chunks, trailer, SizeText(m.last) + (tail + rest));
    RunSize(m.last, trailer, tail + rest);
    assert Body(m.chunks) + [] == Body(m.chunks);
    if trailer {
      RunCons(Decoder(InChunkExt, 0, 0, true), LF, tail + rest);
      RunTrailers(Decoder(InTrailersLineHead, 0, 0, true), m.trailers, m.crs, rest);
    } else {
      RunLast(Decoder(InChunkExt, 0, 0, false), LF, tail + rest);
      assert tail + rest == rest;
    }
  }

  // ---------------------------------------------------------------------
  // Nothing else is accepted

  function HexCount(s: seq<byte>): (n: nat)
    ensures n <= |s| && AllHex(s[..n]) && (n < |s| ==> DecodeHex(s[n]) == -1)
  {
    if s == [] || DecodeHex(s[0]) == -1 then 0
    else
      var n := 1 + HexCount(s[1..]);
      assert s[..n] == [s[0]] + s[1..][..n - 1];
      n
  }

  function LfIndex(s: seq<byte>): (n: nat)
    ensures n <= |s| && NoLf(s[..n]) && (n < |s| ==> s[n] == LF)
  {
    if s == [] || s[0] == LF then 0
    else
      var n := 1 + LfIndex(s[1..]);
      assert s[..n] == [s[0]] + s[1..][..n - 1];
      n
  }

  function CrCount(s: seq<byte>): (n: nat)
    ensures n <= |s| && s[..n] == Crs(n) && (n < |s| ==> s[n] != CR)
  {
    if s == [] || s[0] != CR then 0
    else
      var n := 1 + CrCount(s[1..]);
      assert s[..n] == [s[0]] + s[1..][..n - 1];
      n
  }

  predicate Completes(d: Decoder, input: seq<byte>) { Run(d, input).verdict.Complete? }

  lemma CompletesNotEmpty(d: Decoder, input: seq<byte>)
    requires Completes(d, input)
    ensures input != [] && !Step(d, input[0]).Fail?
  {
  }

  lemma SizeIsShort(trailer: bool, input: seq<byte>)
    requires Completes(Fresh(trailer), input)
    ensures 1 <= HexCount(input) <= 16
  {
    hide Run, Pow16, Completes;
    var n := HexCount(input);
    CompletesNotEmpty(Fresh(trailer), input);
    if n > 16 {
      var first, rest := input[..16], input[16..];
      assert first == input[..n][..16] && rest[0] == input[..n][16];
      PartHex(input[..n], 16);
      assert input == first + rest;
      RunDigits(Fresh(trailer), first, rest);
      var full := Decoder(InChunkSize, 0 * Pow16(16) + HexValue(first), 16, trailer);
      SameRun(Fresh(trailer), input, full, rest);
      CompletesNotEmpty(full, rest);
      assert false;
    }
  }

  lemma DigitsOf(trailer: bool, input: seq<byte>) returns (size: seq<byte>, left: nat, rest: seq<byte>)
    requires Completes(Fresh(trailer), input)
    ensures input == size + rest && 1 <= |size| <= 16 && AllHex(size)
    ensures rest != [] && DecodeHex(rest[0]) == -1 && Completes(Decoder(InChunkExt, left, 0, trailer), rest)
  {
    hide Run, Pow16, Completes;
    var n := HexCount(input);
    SizeIsShort(trailer, input);
    size, rest := input[..n], input[n..];
    assert input == size + rest;
    RunDigits(Fresh(trailer), size, rest);
    left := 0 * Pow16(n) + HexValue(size);
    var sized := Decoder(InChunkSize, left, n, trailer);
    SameRun(Fresh(trailer), input, sized, rest);
    CompletesNotEmpty(sized, rest);
    DigitsEnd(sized, rest);
    SameRun(sized, rest, Decoder(InChunkExt, left, 0, trailer), rest);
  }

  lemma ExtOf(d: Decoder, rest: seq<byte>) returns (ext: seq<byte>, tail: seq<byte>)
    requires d.phase.InChunkExt? && Completes(d, rest) && rest != [] && DecodeHex(rest[0]) == -1
    ensures rest == ext + ([LF] + tail) && NoLf(ext) && (ext != [] ==> DecodeHex(ext[0]) == -1)
  {
    hide Run, Completes;
    var e := LfIndex(rest);
    ext := rest[..e];
    assert rest == ext + rest[e..];
    RunExt(d, ext, rest[e..]);
    SameRun(d, rest, d, rest[e..]);
    CompletesNotEmpty(d, rest[e..]);
    tail := rest[e + 1..];
    assert rest[e..] == [LF] + tail;
  }

  /** The size line: digits, extension, LF. */
  lemma SizeLineOf(trailer: bool, input: seq<byte>) returns (size: seq<byte>, ext: seq<byte>, tail: seq<byte>)
    requires Completes(Fresh(trailer), input)
    ensures input == size + ext + [LF] + tail && 1 <= |size| <= 16 && AllHex(size)
    ensures NoLf(ext) && (ext != [] ==> DecodeHex(ext[0]) == -1)
  {
    hide Run, Completes, AllHex, NoLf;
    var left, rest;
    size, left, rest := DigitsOf(trailer, input);
    ext, tail := ExtOf(Decoder(InChunkExt, left, 0, trailer), rest);
    Regroup(size, ext, [LF]);
    Regroup(size, ext + [LF], tail);
    Regroup(ext, [LF], tail);
  }

  lemma SameRun(d: Decoder, input: seq<byte>, d': Decoder, input': seq<byte>)
    requires Run(d, input) == Run(d', input')
    ensures Completes(d, input) <==> Completes(d', input')
  {
  }

  lemma PartHex(s: seq<byte>, n: nat)
    requires AllHex(s) && n <= |s|
    ensures AllHex(s[..n])
  {
  }

  lemma CrlfOf(trailer: bool, rest: seq<byte>) returns (crs: nat, tail: seq<byte>)
    requires Completes(Decoder(InChunkCrlf, 0, 0, trailer), rest)
    ensures rest == LineEnd(crs) + tail
  {
    hide Run, Completes;
    var d := Decoder(InChunkCrlf, 0, 0, trailer);
    crs := CrCount(rest);
    assert rest == Crs(crs) + rest[crs..];
    RunCrs(d, crs, rest[crs..]);
    SameRun(d, rest, d, rest[crs..]);
    CompletesNotEmpty(d, rest[crs..]);
    tail := rest[crs + 1..];
    assert rest[crs..] == [LF] + tail;
    Regroup(Crs(crs), [LF], tail);
  }

  /** The data of a chunk and the line end behind it. */
  lemma DataOf(left: nat, trailer: bool, input: seq<byte>) returns (crs: nat, tail: seq<byte>)
    requires left > 0 && Completes(Decoder(InChunkData, left, 0, trailer), input)
    ensures |input| >= left && input == input[..left] + (LineEnd(crs) + tail)
  {
    hide Run, Completes, LineEnd;
    DataFlow(Decoder(InChunkData, left, 0, trailer), input);
    CompletesMeans(Decoder(InChunkData, left, 0, trailer), input);
    CompletesMeans(Decoder(InChunkCrlf, 0, 0, trailer), input[left..]);
    crs, tail := CrlfOf(trailer, input[left..]);
    assert input == input[..left] + input[left..];
  }

  lemma CompletesMeans(d: Decoder, input: seq<byte>)
    ensures Completes(d, input) <==> Run(d, input).verdict == Complete
  {
  }

  lemma LineOf(d: Decoder, rest: seq<byte>, crs: nat) returns (line: Line, after: seq<byte>)
    requires d.phase.InTrailersLineHead? && rest != [] && rest[0] != CR && rest[0] != LF && Completes(d, rest)
    ensures LineOk(line) && line.crs == crs && rest == line.text + ([LF] + after) && Completes(d, after)
  {
    hide Run, Completes, LineOk;
    var middle := d.(phase := InTrailersLineMiddle);
    var e := LfIndex(rest);
    var text := rest[..e];
    assert e > 0 && text == [rest[0]] + rest[1..e];
    LineFrom(text, crs);
    assert rest == [rest[0]] + (rest[1..e] + rest[e..]);
    RunCons(d, rest[0], rest[1..e] + rest[e..]);
    PartNoLf(text);
    assert text[1..] == rest[1..e];
    RunLine(middle, rest[1..e], rest[e..]);
    SameRun(d, rest, middle, rest[e..]);
    CompletesNotEmpty(middle, rest[e..]);
    after := rest[e + 1..];
    assert rest[e..] == [LF] + after;
    RunCons(middle, LF, after);
    SameRun(middle, rest[e..], d, after);
    line := Line(crs, text);
  }

  lemma {:induction false} TrailersOf(d: Decoder, input: seq<byte>)
    returns (lines: seq<Line>, crs: nat, tail: seq<byte>)
    requires d.phase.InTrailersLineHead? && Completes(d, input)
    ensures input == TrailersText(lines, crs) + tail && forall i :: 0 <= i < |lines| ==> LineOk(lines[i])
    decreases |input|
  {
    hide Run, Completes, LineOk;
    var n := CrCount(input);
    var rest := input[n..];
    assert input == Crs(n) + rest;
    RunCrs(d, n, rest);
    SameRun(d, input, d, rest);
    CompletesNotEmpty(d, rest);
    if rest[0] == LF {
      lines, crs, tail := [], n, rest[1..];
      assert rest == [LF] + tail;
      Regroup(Crs(n), [LF], tail);
    } else {
      var line, after := LineOf(d, rest, n);
      var more;
      more, crs, tail := TrailersOf(d, after);
      lines := [line] + more;
      LinesText(line, more, crs, tail);
    }
  }

  lemma LinesText(line: Line, more: seq<Line>, crs: nat, tail: seq<byte>)
    ensures TrailersText([line] + more, crs) + tail
         == Crs(line.crs) + (line.text + ([LF] + (TrailersText(more, crs) + tail)))
  {
    assert ([line] + more)[1..] == more;
    Regroup([LF], TrailersText(more, crs), tail);
    Regroup(line.text, [LF] + TrailersText(more, crs), tail);
    Regroup(Crs(line.crs), line.text + ([LF] + TrailersText(more, crs)), tail);
  }

  lemma LineFrom(text: seq<byte>, crs: nat)
    requires text != [] && NoLf(text) && text[0] != CR
    ensures LineOk(Line(crs, text))
  {
  }

  lemma PartNoLf(s: seq<byte>)
    requires s != [] && NoLf(s)
    ensures NoLf(s[1..])
  {
  }

  /** Only messages are accepted: whatever completes the decoder is the text of one,
      and its data is what came out. */
  lemma {:induction false} OnlyMessages(trailer: bool, input: seq<byte>) returns (m: Message)
    requires Completes(Fresh(trailer), input)
    ensures MessageOk(m) && input == Text(m, trailer) + Run(Fresh(trailer), input).rest
    ensures Run(Fresh(trailer), input).data == Body(m.chunks)
    decreases |input|
  {
    hide Run, Completes, MessageOk, Text, Body;
    var rest;
    m, rest := MessageOf(trailer, input);
    Accepted(m, trailer, rest);
  }

  lemma {:induction false} MessageOf(trailer: bool, input: seq<byte>) returns (m: Message, rest: seq<byte>)
    requires Completes(Fresh(trailer), input)
    ensures MessageOk(m) && input == Text(m, trailer) + rest
    decreases |input|
  {
    hide Run, Completes, ChunkOk, MessageOk, ChunksText, Text, LineEnd, Pow16, HexValue;
    var size, ext, tail := SizeLineOf(trailer, input);
    var n := HexValue(size);
    var probe := Zeros(n);
    var c0 := Chunk(size, ext, probe, 0);
    ChunkFrom(c0);
    RunSize(c0, trailer, tail);
    assert input == SizeText(c0) + tail;
    SameRun(Fresh(trailer), input, Decoder(InChunkExt, n, 0, trailer), [LF] + tail);
    if n > 0 {
      RunCons(Decoder(InChunkExt, n, 0, trailer), LF, tail);
      SameRun(Decoder(InChunkExt, n, 0, trailer), [LF] + tail, Decoder(InChunkData, n, 0, trailer), tail);
      var crs, after := DataOf(n, trailer, tail);
      var c := Chunk(size, ext, tail[..n], crs);
      ChunkFrom(c);
      RunChunk(c, trailer, after);
      CompletesAfter(Fresh(trailer), input, c.data, Fresh(trailer), after);
      LineEndNotEmpty(crs);
      var m';
      m', rest := MessageOf(trailer, after);
      m := WithChunk(c, m', trailer, rest);
    } else if trailer {
      RunCons(Decoder(InChunkExt, 0, 0, true), LF, tail);
      SameRun(Decoder(InChunkExt, n, 0, trailer), [LF] + tail, Decoder(InTrailersLineHead, 0, 0, true), tail);
      var lines, crs;
      lines, crs, rest := TrailersOf(Decoder(InTrailersLineHead, 0, 0, true), tail);
      m := LastOnly(c0, lines, crs, trailer, rest);
    } else {
      rest := tail;
      m := LastOnly(c0, [], 0, trailer, rest);
    }
  }

  lemma ChunkFrom(c: Chunk)
    requires 1 <= |c.size| <= 16 && AllHex(c.size) && HexValue(c.size) == |c.data|
    requires NoLf(c.ext) && (c.ext != [] ==> DecodeHex(c.ext[0]) == -1)
    ensures ChunkOk(c)
  {
  }

  lemma LineEndNotEmpty(crs: nat)
    ensures |LineEnd(crs)| > 0
  {
  }

  lemma CompletesAfter(d: Decoder, input: seq<byte>, data: seq<byte>, d': Decoder, input': seq<byte>)
    requires Run(d, input) == Prepend(data, Run(d', input'))
    ensures Completes(d, input) <==> Completes(d', input')
  {
  }

  lemma WithChunk(c: Chunk, m': Message, trailer: bool, rest: seq<byte>) returns (m: Message)
    requires ChunkOk(c) && c.data != [] && MessageOk(m')
    ensures MessageOk(m)
    ensures SizeText(c) + (c.data + (LineEnd(c.crs) + (Text(m', trailer) + rest))) == Text(m, trailer) + rest
  {
    hide ChunkOk, LineOk, SizeText, LineEnd, TrailersText;
    m := m'.(chunks := [c] + m'.chunks);
    assert m.chunks[1..] == m'.chunks;
    var head := ChunksText(m'.chunks);
    var tail := SizeText(m.last) + (if trailer then TrailersText(m.trailers, m.crs) else []);
    assert Text(m', trailer) == head + tail;
    assert Text(m, trailer) == (SizeText(c) + (c.data + (LineEnd(c.crs) + head))) + tail;
    Five(SizeText(c), c.data, LineEnd(c.crs), head, tail, rest);
  }

  lemma Five(a: seq<byte>, b: seq<byte>, c: seq<byte>, d: seq<byte>, e: seq<byte>, f: seq<byte>)
    ensures a + (b + (c + ((d + e) + f))) == ((a + (b + (c + d))) + e) + f
  {
  }

  lemma LastOnly(c: Chunk, lines: seq<Line>, crs: nat, trailer: bool, rest: seq<byte>) returns (m: Message)
    requires ChunkOk(c) && c.data == [] && forall i :: 0 <= i < |lines| ==> LineOk(lines[i])
    ensures MessageOk(m)
    ensures SizeText(c) + ((if trailer then TrailersText(lines, crs) else []) + rest) == Text(m, trailer) + rest
  {
    hide ChunkOk, LineOk, SizeText, TrailersText;
    m := Message([], c, lines, crs);
    assert ChunksText([]) == [];
    var tail := if trailer then TrailersText(lines, crs) else [];
    Regroup(SizeText(c), tail, rest);
    assert Text(m, trailer) == SizeText(c) + tail;
  }

  // ---------------------------------------------------------------------
  // Waiting for more, and giving up

  /** The shortest way to the end of the message, with zeroes for missing data. */
  function Completion(d: Decoder): seq<byte>
  {
    var end := if d.consumeTrailer then [LF] else [];
    match d.phase
    case InChunkSize => if d.hexCount == 0 then [0x30, LF] + end else AfterSize(d, end)
    case InChunkExt => AfterSize(d, end)
    case InChunkData => Zeros(d.left) + ([LF] + ([0x30, LF] + end))
    case InChunkCrlf => [LF] + ([0x30, LF] + end)
    case InTrailersLineHead => [LF]
    case InTrailersLineMiddle => [LF] + [LF]
  }

  function AfterSize(d: Decoder, end: seq<byte>): seq<byte>
  {
    [LF] + (if d.left == 0 then end else Zeros(d.left) + ([LF] + ([0x30, LF] + end)))
  }

  lemma LastChunkCompletes(trailer: bool)
    ensures Completes(Fresh(trailer), [0x30, LF] + if trailer then [LF] else [])
  {
    hide Run, Completes;
    var end := if trailer then [LF] else [];
    var sized := Decoder(InChunkSize, 0, 1, trailer);
    assert [0x30, LF] + end == [0x30] + ([LF] + end);
    RunCons(Fresh(trailer), 0x30, [LF] + end);
    SameRun(Fresh(trailer), [0x30, LF] + end, sized, [LF] + end);
    DigitsEnd(sized, [LF] + end);
    SameRun(sized, [LF] + end, Decoder(InChunkExt, 0, 0, trailer), [LF] + end);
    EndCompletes(trailer);
  }

  /** From the end of a size line of zero. */
  lemma EndCompletes(trailer: bool)
    ensures Completes(Decoder(InChunkExt, 0, 0, trailer), [LF] + if trailer then [LF] else [])
  {
    if trailer {
      RunCons(Decoder(InChunkExt, 0, 0, true), LF, [LF]);
      HeadCompletes(Decoder(InTrailersLineHead, 0, 0, true));
    } else {
      RunLast(Decoder(InChunkExt, 0, 0, false), LF, []);
    }
  }

  lemma HeadCompletes(d: Decoder)
    requires d.phase.InTrailersLineHead?
    ensures Completes(d, [LF])
  {
    RunLast(d, LF, []);
    assert [LF] + [] == [LF];
  }

  lemma DataCompletes(left: nat, trailer: bool)
    requires left > 0
    ensures Completes(Decoder(InChunkData, left, 0, trailer),
                      Zeros(left) + ([LF] + ([0x30, LF] + if trailer then [LF] else [])))
  {
    hide Run, Completes, Zeros;
    var end := [0x30, LF] + if trailer then [LF] else [];
    LastChunkCompletes(trailer);
    RunCons(Decoder(InChunkCrlf, 0, 0, trailer), LF, end);
    SameRun(Decoder(InChunkCrlf, 0, 0, trailer), [LF] + end, Fresh(trailer), end);
    RunData(Decoder(InChunkData, left, 0, trailer), Zeros(left), [LF] + end);
    CompletesAfter(Decoder(InChunkData, left, 0, trailer), Zeros(left) + ([LF] + end), Zeros(left),
                   Decoder(InChunkCrlf, 0, 0, trailer), [LF] + end);
  }

  lemma SizeCompletes(left: nat, trailer: bool)
    ensures var d := Decoder(InChunkExt, left, 0, trailer); Completes(d, AfterSize(d, if trailer then [LF] else []))
  {
    hide Run, Completes, Zeros;
    var d, end := Decoder(InChunkExt, left, 0, trailer), if trailer then [LF] else [];
    if left == 0 {
      EndCompletes(trailer);
    } else {
      var data := Zeros(left) + ([LF] + ([0x30, LF] + end));
      RunCons(d, LF, data);
      SameRun(d, [LF] + data, d.(phase := InChunkData), data);
      DataCompletes(left, trailer);
    }
  }

  /** Whatever the decoder is waiting for can still come. */
  lemma CompletionCompletes(d: Decoder)
    requires Valid(d)
    ensures Completes(d, Completion(d))
  {
    hide Run, Completes, Zeros, Pow16, AfterSize;
    var end := if d.consumeTrailer then [LF] else [];
    match d.phase {
      case InChunkSize =>
        if d.hexCount == 0 {
          SizeZero(d);
          LastChunkCompletes(d.consumeTrailer);
        } else {
          var e := Decoder(InChunkExt, d.left, 0, d.consumeTrailer);
          AfterSizeStarts(d, end);
          DigitsEnd(d, AfterSize(d, end));
          SameRun(d, AfterSize(d, end), e, AfterSize(d, end));
          SizeCompletes(d.left, d.consumeTrailer);
        }
      case InChunkExt => SizeCompletes(d.left, d.consumeTrailer);
      case InChunkData => DataCompletes(d.left, d.consumeTrailer);
      case InChunkCrlf =>
        RunCons(d, LF, [0x30, LF] + end);
        SameRun(d, Completion(d), Fresh(d.consumeTrailer), [0x30, LF] + end);
        LastChunkCompletes(d.consumeTrailer);
      case InTrailersLineHead => HeadCompletes(d);
      case InTrailersLineMiddle =>
        RunCons(d, LF, [LF]);
        SameRun(d, [LF] + [LF], d.(phase := InTrailersLineHead), [LF]);
        HeadCompletes(d.(phase := InTrailersLineHead));
    }
  }

  lemma SizeZero(d: Decoder)
    requires Valid(d) && d.phase.InChunkSize? && d.hexCount == 0
    ensures d == Fresh(d.consumeTrailer)
  {
  }

  lemma AfterSizeStarts(d: Decoder, end: seq<byte>)
    ensures AfterSize(d, end) != [] && DecodeHex(AfterSize(d, end)[0]) == -1
    ensures AfterSize(d, end) == AfterSize(Decoder(InChunkExt, d.left, 0, d.consumeTrailer), end)
  {
  }

  lemma FreshValid(trailer: bool)
    ensures Valid(Fresh(trailer))
  {
    assert Pow16(0) == 1;
  }

  /** The verdicts mean what they say: an error is reported exactly when no
      continuation of the input is a message, and as early as that. */
  lemma ErrorMeansHopeless(trailer: bool, input: seq<byte>)
    ensures Run(Fresh(trailer), input).verdict.Error? <==> forall more :: !Completes(Fresh(trailer), input + more)
  {
    hide Run, Valid, Completion;
    var o := Run(Fresh(trailer), input);
    forall more ensures o.verdict.Error? ==> !Completes(Fresh(trailer), input + more) {
      RunAppend(Fresh(trailer), input, more);
    }
    if o.verdict.Incomplete? {
      FreshValid(trailer);
      RunValid(Fresh(trailer), input);
      CompletionCompletes(o.d);
      RunAppend(Fresh(trailer), input, Completion(o.d));
      assert Completes(Fresh(trailer), input + Completion(o.d));
    } else if o.verdict.Complete? {
      RunAppend(Fresh(trailer), input, []);
      assert Completes(Fresh(trailer), input + []);
    }
  }
}
