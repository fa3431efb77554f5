/** Chunked messages written out with the digits of their sizes, and what the
    numbers that the decoder returns mean. */
module ChunkedAscii {
  import opened Bytes
  import opened ChunkedDecoder
  import opened ChunkedLanguage

  const LOWER := "0123456789abcdef"
  const UPPER := "0123456789ABCDEF"

  /** A character that stands for the number v. */
  predicate Digit(b: byte, v: nat)
  {
    v < 16 && (b == LOWER[v] as int || b == UPPER[v] as int)
  }

  /** Some digits that stand for n, in either case and with any leading zeros. */
  predicate Writes(text: seq<byte>, n: nat)
  {
    if |text| <= 1 then text != [] && Digit(text[0], n)
    else Digit(text[|text| - 1], n % 16) && Writes(text[..|text| - 1], n / 16)
  }

  lemma DigitsMean(b: byte)
    ensures forall v: nat :: Digit(b, v) <==> DecodeHex(b) == v
    ensures DecodeHex(b) == -1 <==> forall v: nat :: !Digit(b, v)
  {
    forall v: nat | v < 16 ensures Digit(b, v) <==> DecodeHex(b) == v {
      assert LOWER[v] == if v < 10 then '0' + v as char else 'a' + (v - 10) as char;
      assert UPPER[v] == if v < 10 then '0' + v as char else 'A' + (v - 10) as char;
    }
    if DecodeHex(b) >= 0 {
      assert Digit(b, DecodeHex(b));
    }
  }

  lemma {:induction false} WritesMeans(text: seq<byte>, n: nat)
    requires Writes(text, n)
    ensures AllHex(text) && HexValue(text) == n
    decreases |text|
  {
    hide DecodeHex, Digit;
    var last := text[|text| - 1];
    DigitsMean(last);
    if |text| == 1 {
      assert text[..0] == [];
      assert DecodeHex(last) == n;
    } else {
      WritesMeans(text[..|text| - 1], n / 16);
      assert DecodeHex(last) == n % 16;
      assert forall i :: 0 <= i < |text| - 1 ==> text[i] == text[..|text| - 1][i];
    }
  }

  // ---------------------------------------------------------------------
  // Whole messages

  /** The digits of a size and that many bytes of data. */
  datatype Piece = Piece(size: seq<byte>, data: seq<byte>)

  predicate PieceOk(p: Piece) { |p.size| <= 16 && Writes(p.size, |p.data|) }

  function PiecesText(pieces: seq<Piece>): seq<byte>
  {
    if pieces == [] then []
    else pieces[0].size + [13, 10] + pieces[0].data + [13, 10] + PiecesText(pieces[1..])
  }

  function Data(pieces: seq<Piece>): seq<byte>
  {
    if pieces == [] then [] else pieces[0].data + Data(pieces[1..])
  }

  function ChunksFor(pieces: seq<Piece>): (chunks: seq<Chunk>)
    ensures |chunks| == |pieces|
    ensures forall i :: 0 <= i < |chunks| ==> chunks[i] == Chunk(pieces[i].size, [CR], pieces[i].data, 1)
  {
    if pieces == [] then [] else [Chunk(pieces[0].size, [CR], pieces[0].data, 1)] + ChunksFor(pieces[1..])
  }

  lemma PieceIsOk(p: Piece)
    requires PieceOk(p)
    ensures ChunkOk(Chunk(p.size, [CR], p.data, 1))
  {
    hide Writes, DecodeHex;
    WritesMeans(p.size, |p.data|);
    CrEndsSize();
    WritesSome(p.size, |p.data|);
  }

  lemma WritesSome(text: seq<byte>, n: nat)
    requires Writes(text, n)
    ensures text != []
  {
  }

  lemma CrEndsSize()
    ensures DecodeHex(CR) == -1
  {
  }

  lemma {:induction false} PiecesTextIs(pieces: seq<Piece>)
    ensures ChunksText(ChunksFor(pieces)) == PiecesText(pieces) && Body(ChunksFor(pieces)) == Data(pieces)
  {
    if pieces != [] {
      PiecesTextIs(pieces[1..]);
      assert ChunksFor(pieces)[1..] == ChunksFor(pieces[1..]);
      assert Crs(1) == [CR] + Crs(0) && LineEnd(1) == [CR, LF];
    }
  }

  /** Every chunked message that is written in this way is decoded to its data, with
      the number of bytes behind it as the result. */
  lemma PiecesDecoded(pieces: seq<Piece>, zero: seq<byte>, rest: seq<byte>)
    requires forall i :: 0 <= i < |pieces| ==> PieceOk(pieces[i]) && pieces[i].data != []
    requires |zero| <= 16 && Writes(zero, 0)
    ensures var o := Run(Fresh(true), PiecesText(pieces) + zero + [13, 10, 13, 10] + rest);
      o.data == Data(pieces) && o.rest == rest && ReturnCode(o) == |rest|
  {
    hide Run, Writes, ChunkOk, PiecesText, ChunksText, ChunksFor, Text, Body;
    var m := MessageFor(pieces, zero);
    forall i | 0 <= i < |pieces| ensures ChunkOk(m.chunks[i]) && m.chunks[i].data != [] { PieceIsOk(pieces[i]); }
    PieceIsOk(Piece(zero, []));
    MessageForText(pieces, zero);
    Accepted(m, true, rest);
  }

  function MessageFor(pieces: seq<Piece>, zero: seq<byte>): Message
  {
    Message(ChunksFor(pieces), Chunk(zero, [CR], [], 1), [], 1)
  }

  lemma MessageForText(pieces: seq<Piece>, zero: seq<byte>)
    ensures var m := MessageFor(pieces, zero);
      Text(m, true) == PiecesText(pieces) + zero + [13, 10, 13, 10] && Body(m.chunks) == Data(pieces)
  {
    hide PiecesText, ChunksText, ChunksFor, Body, Data;
    PiecesTextIs(pieces);
    assert Crs(1) == [CR] + Crs(0) && TrailersText([], 1) == [CR, LF];
    var m := MessageFor(pieces, zero);
    assert SizeText(m.last) == zero + [CR] + [LF];
    hide TrailersText, SizeText;
    assert Text(m, true) == PiecesText(pieces) + ((zero + [CR] + [LF]) + [CR, LF]);
  }

  /** A size ends with the first byte that is no digit: whatever stands between it
      and the line feed, and whatever it is, the size is that of the digits before. */
  lemma SizeEnds(p: Piece, ext: seq<byte>, zero: seq<byte>, rest: seq<byte>)
    requires PieceOk(p) && p.data != [] && |zero| <= 16 && Writes(zero, 0)
    requires ext != [] ==> forall v: nat :: !Digit(ext[0], v)
    requires forall i :: 0 <= i < |ext| ==> ext[i] != 10
    ensures var o := Run(Fresh(true), p.size + ext + [10] + p.data + [10] + zero + [10, 10] + rest);
      o.data == p.data && o.rest == rest && ReturnCode(o) == |rest|
  {
    hide Run, Writes, DecodeHex, Digit;
    WritesMeans(p.size, |p.data|);
    WritesSome(p.size, |p.data|);
    WritesMeans(zero, 0);
    WritesSome(zero, 0);
    if ext != [] { DigitsMean(ext[0]); }
    OneChunkText(p, ext, zero);
    hide Text, Body, HexValue, AllHex;
    Accepted(OneChunk(p, ext, zero), true, rest);
  }

  function OneChunk(p: Piece, ext: seq<byte>, zero: seq<byte>): Message
  {
    Message([Chunk(p.size, ext, p.data, 0)], Chunk(zero, [], [], 0), [], 0)
  }

  lemma OneChunkText(p: Piece, ext: seq<byte>, zero: seq<byte>)
    ensures var m := OneChunk(p, ext, zero);
      && Text(m, true) == p.size + ext + [10] + p.data + [10] + zero + [10, 10]
      && Body(m.chunks) == p.data
  {
    var m := OneChunk(p, ext, zero);
    var size := p.size + ext + [LF];
    var none: seq<byte> := [];
    assert m.chunks[1..] == [] && LineEnd(0) == [LF];
    assert ChunksText(m.chunks) == size + (p.data + ([LF] + none));
    assert SizeText(m.last) == zero + [LF] && TrailersText([], 0) == [LF];
    hide ChunksText, SizeText, TrailersText, LineEnd;
    assert Text(m, true) == (size + (p.data + ([LF] + none))) + ((zero + [LF]) + [LF]);
    assert p.data + none == p.data;
  }

  /** Where a size has to be, any byte but a digit is an error, and so is a
      seventeenth digit. */
  lemma NoSize(trailer: bool, b: byte, rest: seq<byte>)
    requires forall v: nat :: !Digit(b, v)
    ensures ReturnCode(Run(Fresh(trailer), [b] + rest)) == -1
  {
    hide DecodeHex, Digit;
    DigitsMean(b);
  }

  lemma SizeTooLong(trailer: bool, text: seq<byte>, n: nat, b: byte, v: nat, rest: seq<byte>)
    requires |text| == 16 && Writes(text, n) && Digit(b, v)
    ensures ReturnCode(Run(Fresh(trailer), text + ([b] + rest))) == -1
  {
    hide DecodeHex, Digit, Writes, Run, Pow16, HexValue;
    WritesMeans(text, n);
    DigitsMean(b);
    RunDigits(Fresh(trailer), text, [b] + rest);
    var d := Fresh(trailer);
    SeventeenthFails(d.(left := d.left * Pow16(16) + HexValue(text), hexCount := 16), b, rest);
  }

  lemma SeventeenthFails(d: Decoder, b: byte, rest: seq<byte>)
    requires d.phase.InChunkSize? && d.hexCount == 16 && DecodeHex(b) >= 0
    ensures Run(d, [b] + rest).verdict.Error?
  {
  }

  // ---------------------------------------------------------------------
  // What the decoder returns

  /** -1 is returned exactly if no continuation completes a message, -2 exactly if
      one does but the input itself does not; and otherwise the result is the number
      of bytes behind the first part of the input that completes one. */
  lemma ReturnCodesMean(trailer: bool, input: seq<byte>)
    ensures var code, d := ReturnCode(Run(Fresh(trailer), input)), Fresh(trailer);
      && (code == -1 <==> forall more :: !Completes(d, input + more))
      && (code == -2 <==> !Completes(d, input) && exists more :: Completes(d, input + more))
      && (code >= 0 ==> code <= |input| && Completes(d, input[..|input| - code])
                        && forall k: nat :: k < |input| - code ==> !Completes(d, input[..k]))
  {
    hide Run, Completes, ReturnCode;
    ErrorMeansHopeless(trailer, input);
    CodeIs(Fresh(trailer), input);
    if Completes(Fresh(trailer), input) {
      CompletesFirst(trailer, input);
    }
  }

  lemma CodeIs(d: Decoder, input: seq<byte>)
    ensures var code, o := ReturnCode(Run(d, input)), Run(d, input);
      && (code == -1 <==> o.verdict.Error?) && (code >= 0 <==> Completes(d, input)) && -2 <= code
      && (o.verdict.Error? ==> !Completes(d, input)) && (Completes(d, input) ==> code == |o.rest|)
  {
    hide Run;
  }

  lemma CompletesFirst(trailer: bool, input: seq<byte>)
    requires Completes(Fresh(trailer), input)
    ensures var n := |Run(Fresh(trailer), input).rest|;
      && n <= |input| && Completes(Fresh(trailer), input[..|input| - n])
      && forall k: nat :: k < |input| - n ==> !Completes(Fresh(trailer), input[..k])
  {
    hide Run, MessageOk, Text, Body;
    var rest, d := Run(Fresh(trailer), input).rest, Fresh(trailer);
    var m := OnlyMessages(trailer, input);
    Accepted(m, trailer, []);
    assert input[..|input| - |rest|] == Text(m, trailer) == Text(m, trailer) + [];
    forall k: nat | k < |input| - |rest| ensures !Completes(d, input[..k]) {
      assert input == input[..k] + input[k..];
      RestGrows(d, input[..k], input[k..]);
    }
  }

  lemma RestGrows(d: Decoder, a: seq<byte>, b: seq<byte>)
    ensures Completes(d, a) ==> |Run(d, a + b).rest| >= |b|
  {
    hide Run;
    RunAppend(d, a, b);
  }
}
