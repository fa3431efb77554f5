/** What request and response parsing share in src/extern/picohttpparser.c:
    tokens, lines and header lists, read from a buffer of which more may come. */
module HttpScan {
  import opened Bytes

  const HT: byte := 0x09
  const SP: byte := 0x20
  const COLON: byte := 0x3a
  const DEL: byte := 0x7f

  /** A value and the position behind it, a syntax error (-1), or too few bytes
      to tell (-2). */
  datatype Parse<T> = Ok(value: T, next: nat) | Bad | Partial

  /** Pointers into the buffer; a header that continues the previous one has no
      name. */
  datatype Span = Null | Span(from: nat, to: nat)

  datatype Header = Header(name: Span, value: Span)

  predicate Control(b: byte) { b < SP || b == DEL }

  predicate ValueStop(b: byte) { Control(b) && b != HT }

  predicate Blank(b: byte) { b == SP || b == HT }

  /** A tchar of section 3.2.6 of RFC 7230. */
  predicate TokenChar(b: byte)
  {
    || b == 0x21 || 0x23 <= b <= 0x27 || b == 0x2a || b == 0x2b || b == 0x2d || b == 0x2e || 0x30 <= b <= 0x39
    || 0x41 <= b <= 0x5a || 0x5e <= b <= 0x7a || b == 0x7c || b == 0x7e
  }

  // ---------------------------------------------------------------------
  // The grammar, one byte at a time

  /** The end of a method or path: the first space, with no control before it. */
  function Token(s: seq<byte>, pos: nat): (r: Parse<nat>)
    requires pos <= |s|
    ensures r.Ok? ==> pos <= r.value < r.next <= |s|
    decreases |s| - pos
  {
    if pos == |s| then Partial
    else if s[pos] == SP then Ok(pos, pos + 1)
    else if Control(s[pos]) then Bad
    else Token(s, pos + 1)
  }

  function NameEnd(s: seq<byte>, pos: nat): (r: Parse<nat>)
    requires pos <= |s|
    ensures r.Ok? ==> pos <= r.value < r.next <= |s|
    decreases |s| - pos
  {
    if pos == |s| then Partial
    else if s[pos] == COLON then Ok(pos, pos + 1)
    else if !TokenChar(s[pos]) then Bad
    else NameEnd(s, pos + 1)
  }

  /** A line end, with or without CR; the value is where it starts. */
  function LineEnd(s: seq<byte>, pos: nat): (r: Parse<nat>)
    requires pos < |s|
    ensures r.Ok? ==> pos == r.value < r.next <= |s|
  {
    if s[pos] == CR then
      (if pos + 1 == |s| then Partial else if s[pos + 1] == LF then Ok(pos, pos + 2) else Bad)
    else if s[pos] == LF then Ok(pos, pos + 1)
    else Bad
  }

  function ValueEnd(s: seq<byte>, pos: nat): (r: Parse<nat>)
    requires pos <= |s|
    ensures r.Ok? ==> pos <= r.value < r.next <= |s|
    decreases |s| - pos
  {
    if pos == |s| then Partial
    else if ValueStop(s[pos]) then LineEnd(s, pos)
    else ValueEnd(s, pos + 1)
  }

  function SkipBlanks(s: seq<byte>, pos: nat): (r: nat)
    requires pos <= |s|
    ensures pos <= r <= |s|
    decreases |s| - pos
  {
    if pos < |s| && Blank(s[pos]) then SkipBlanks(s, pos + 1) else pos
  }

  function TrimEnd(s: seq<byte>, from: nat, to: nat): (r: nat)
    requires from <= to <= |s|
    ensures from <= r <= to
  {
    if from < to && Blank(s[to - 1]) then TrimEnd(s, from, to - 1) else to
  }

  function Value(s: seq<byte>, pos: nat, name: Span): (r: Parse<Header>)
    requires pos <= |s|
    ensures r.Ok? ==> pos < r.next <= |s|
  {
    match ValueEnd(s, pos)
    case Ok(end, next) => Ok(Header(name, Span(pos, TrimEnd(s, pos, end))), next)
    case Bad => Bad
    case Partial => Partial
  }

  function HeaderLine(s: seq<byte>, pos: nat, first: bool): (r: Parse<Header>)
    requires pos < |s|
    ensures r.Ok? ==> pos < r.next <= |s|
  {
    if !first && Blank(s[pos]) then Value(s, pos, Null)
    else match NameEnd(s, pos)
      case Ok(end, next) => if end == pos then Bad else Value(s, SkipBlanks(s, next), Span(pos, end))
      case Bad => Bad
      case Partial => Partial
  }

  function Push(h: Header, rest: Parse<seq<Header>>): Parse<seq<Header>>
  {
    if rest.Ok? then Ok([h] + rest.value, rest.next) else rest
  }

  /** Header lines up to an empty line; at most max of them, count of which have
      been read before. */
  function Headers(s: seq<byte>, pos: nat, count: nat, max: nat): (r: Parse<seq<Header>>)
    requires pos <= |s|
    ensures r.Ok? ==> pos < r.next <= |s|
    decreases |s| - pos
  {
    if pos == |s| then Partial
    else if s[pos] == CR || s[pos] == LF then
      match LineEnd(s, pos)
      case Ok(_, next) => Ok([], next)
      case Bad => Bad
      case Partial => Partial
    else if count == max then Bad
    else match HeaderLine(s, pos, count == 0)
      case Ok(h, next) => Push(h, Headers(s, next, count + 1, max))
      case Bad => Bad
      case Partial => Partial
  }

  const HTTP1: seq<byte> := [0x48, 0x54, 0x54, 0x50, 0x2f, 0x31, 0x2e]

  predicate Digit(b: byte) { 0x30 <= b <= 0x39 }

  /** HTTP/1. and one digit; a ninth byte must be there before any is looked at. */
  function Version(s: seq<byte>, pos: nat): (r: Parse<nat>)
    requires pos <= |s|
    ensures r.Ok? ==> r.next == pos + 8 < |s|
  {
    if |s| - pos < 9 then Partial
    else if s[pos..pos + 7] != HTTP1 || !Digit(s[pos + 7]) then Bad
    else Ok(s[pos + 7] - 0x30, pos + 8)
  }

  // ---------------------------------------------------------------------
  // More input

  /** What a parser promises about a buffer s and any longer one t: a result on
      s is final, and a result on t that ends before the end of s was already
      there. */
  ghost predicate Agree<T>(short: Parse<T>, long: Parse<T>, size: nat)
  {
    && (!short.Partial? ==> long == short)
    && (long.Ok? && long.next < size ==> short == long)
  }

  lemma {:induction false} TokenAgree(s: seq<byte>, t: seq<byte>, pos: nat)
    requires s <= t && pos <= |s|
    ensures Agree(Token(s, pos), Token(t, pos), |s|)
    decreases |s| - pos
  {
    if pos < |s| {
      TokenAgree(s, t, pos + 1);
    }
  }

  lemma {:induction false} NameEndAgree(s: seq<byte>, t: seq<byte>, pos: nat)
    requires s <= t && pos <= |s|
    ensures Agree(NameEnd(s, pos), NameEnd(t, pos), |s|)
    decreases |s| - pos
  {
    if pos < |s| {
      NameEndAgree(s, t, pos + 1);
    }
  }

  lemma LineEndAgree(s: seq<byte>, t: seq<byte>, pos: nat)
    requires s <= t && pos < |s|
    ensures Agree(LineEnd(s, pos), LineEnd(t, pos), |s| + 1)
  {
  }

  lemma {:induction false} ValueEndAgree(s: seq<byte>, t: seq<byte>, pos: nat)
    requires s <= t && pos <= |s|
    ensures Agree(ValueEnd(s, pos), ValueEnd(t, pos), |s|)
    decreases |s| - pos
  {
    if pos < |s| {
      if ValueStop(s[pos]) {
        LineEndAgree(s, t, pos);
      } else {
        ValueEndAgree(s, t, pos + 1);
      }
    }
  }

  lemma {:induction false} SkipBlanksAgree(s: seq<byte>, t: seq<byte>, pos: nat)
    requires s <= t && pos <= |s|
    ensures SkipBlanks(s, pos) < |s| ==> SkipBlanks(t, pos) == SkipBlanks(s, pos)
    ensures SkipBlanks(t, pos) < |s| ==> SkipBlanks(t, pos) == SkipBlanks(s, pos)
    decreases |s| - pos
  {
    if pos < |s| && Blank(s[pos]) {
      SkipBlanksAgree(s, t, pos + 1);
    }
  }

  lemma {:induction false} TrimEndAgree(s: seq<byte>, t: seq<byte>, from: nat, end: nat)
    requires s <= t && from <= end <= |s|
    ensures TrimEnd(s, from, end) == TrimEnd(t, from, end)
    decreases end
  {
    if from < end && Blank(s[end - 1]) {
      TrimEndAgree(s, t, from, end - 1);
    }
  }

  lemma ValueAgree(s: seq<byte>, t: seq<byte>, pos: nat, name: Span)
    requires s <= t && pos <= |s|
    ensures Agree(Value(s, pos, name), Value(t, pos, name), |s|)
  {
    hide ValueEnd, TrimEnd;
    ValueEndAgree(s, t, pos);
    var end := ValueEnd(s, pos);
    if end.Ok? {
      TrimEndAgree(s, t, pos, end.value);
    }
  }

  lemma HeaderLineAgree(s: seq<byte>, t: seq<byte>, pos: nat, first: bool)
    requires s <= t && pos < |s|
    ensures Agree(HeaderLine(s, pos, first), HeaderLine(t, pos, first), |s|)
  {
    hide NameEnd, Value, SkipBlanks;
    if !first && Blank(s[pos]) {
      ValueAgree(s, t, pos, Null);
    } else {
      NameEndAgree(s, t, pos);
      var end := NameEnd(s, pos);
      if end.Ok? {
        SkipBlanksAgree(s, t, end.next);
        var v := SkipBlanks(s, end.next);
        if v < |s| {
          ValueAgree(s, t, v, Span(pos, end.value));
        } else {
          ValueAtEnd(s, Span(pos, end.value));
        }
      }
    }
  }

  lemma ValueAtEnd(s: seq<byte>, name: Span)
    ensures Value(s, |s|, name) == Partial
  {
  }

  lemma {:induction false} HeadersAgree(s: seq<byte>, t: seq<byte>, pos: nat, count: nat, max: nat)
    requires s <= t && pos <= |s|
    ensures Agree(Headers(s, pos, count, max), Headers(t, pos, count, max), |s| + 1)
    decreases |s| - pos
  {
    hide HeaderLine, LineEnd;
    if pos < |s| {
      if s[pos] == CR || s[pos] == LF {
        LineEndAgree(s, t, pos);
      } else if count != max {
        HeaderLineAgree(s, t, pos, count == 0);
        var line := HeaderLine(s, pos, count == 0);
        if line.Ok? {
          HeadersAgree(s, t, line.next, count + 1, max);
        }
      }
    }
  }

  lemma VersionAgree(s: seq<byte>, t: seq<byte>, pos: nat)
    requires s <= t && pos <= |s|
    ensures Agree(Version(s, pos), Version(t, pos), |s|)
  {
    if |s| - pos >= 9 {
      assert s[pos..pos + 7] == t[pos..pos + 7];
    }
  }

  // ---------------------------------------------------------------------
  // Accepted text has whole line ends

  /** Between from and to, every CR is followed by an LF. */
  predicate WholeLines(s: seq<byte>, from: nat, to: nat)
  {
    to <= |s| && forall i :: from <= i < to && s[i] == CR ==> i + 1 < to && s[i + 1] == LF
  }

  lemma {:induction false} TokenWhole(s: seq<byte>, pos: nat)
    requires pos <= |s| && Token(s, pos).Ok?
    ensures WholeLines(s, pos, Token(s, pos).next)
    decreases |s| - pos
  {
    if s[pos] != SP {
      TokenWhole(s, pos + 1);
    }
  }

  lemma {:induction false} NameEndWhole(s: seq<byte>, pos: nat)
    requires pos <= |s| && NameEnd(s, pos).Ok?
    ensures WholeLines(s, pos, NameEnd(s, pos).next)
    decreases |s| - pos
  {
    if s[pos] != COLON {
      NameEndWhole(s, pos + 1);
    }
  }

  lemma {:induction false} ValueEndWhole(s: seq<byte>, pos: nat)
    requires pos <= |s| && ValueEnd(s, pos).Ok?
    ensures WholeLines(s, pos, ValueEnd(s, pos).next) && s[ValueEnd(s, pos).next - 1] == LF
    decreases |s| - pos
  {
    if !ValueStop(s[pos]) {
      ValueEndWhole(s, pos + 1);
    }
  }

  lemma {:induction false} SkipBlanksWhole(s: seq<byte>, pos: nat)
    requires pos <= |s|
    ensures WholeLines(s, pos, SkipBlanks(s, pos))
    decreases |s| - pos
  {
    if pos < |s| && Blank(s[pos]) {
      SkipBlanksWhole(s, pos + 1);
    }
  }

  lemma HeaderLineWhole(s: seq<byte>, pos: nat, first: bool)
    requires pos < |s| && HeaderLine(s, pos, first).Ok?
    ensures var next := HeaderLine(s, pos, first).next; WholeLines(s, pos, next) && s[next - 1] == LF
  {
    hide NameEnd, ValueEnd, SkipBlanks, TrimEnd;
    if !first && Blank(s[pos]) {
      ValueEndWhole(s, pos);
    } else {
      NameEndWhole(s, pos);
      SkipBlanksWhole(s, NameEnd(s, pos).next);
      ValueEndWhole(s, SkipBlanks(s, NameEnd(s, pos).next));
    }
  }

  /** An empty line ends at end, after another line end. */
  predicate EmptyLineBefore(s: seq<byte>, end: nat)
  {
    && 2 <= end <= |s| && s[end - 1] == LF
    && (s[end - 2] == LF || (end >= 3 && s[end - 2] == CR && s[end - 3] == LF))
  }

  lemma {:induction false} HeadersWhole(s: seq<byte>, pos: nat, count: nat, max: nat)
    requires 0 < pos <= |s| && s[pos - 1] == LF && Headers(s, pos, count, max).Ok?
    ensures var next := Headers(s, pos, count, max).next; WholeLines(s, pos, next) && EmptyLineBefore(s, next)
    decreases |s| - pos
  {
    hide HeaderLine;
    if s[pos] != CR && s[pos] != LF {
      HeaderLineWhole(s, pos, count == 0);
      HeadersWhole(s, HeaderLine(s, pos, count == 0).next, count + 1, max);
    }
  }

  // ---------------------------------------------------------------------
  // The code: wide scans

  predicate InRanges(b: byte, ranges: seq<byte>)
  {
    exists i :: 0 <= i < |ranges| / 2 && ranges[2 * i] <= b <= ranges[2 * i + 1]
  }

  /** _mm_cmpestri over ranges of unsigned bytes: the least index that matches,
      or 16. */
  method CompareRanges(ranges: seq<byte>, block: seq<byte>) returns (r: nat)
    requires |block| == 16
    ensures r <= 16 && forall k :: 0 <= k < r ==> !InRanges(block[k], ranges)
    ensures r < 16 ==> InRanges(block[r], ranges)
  {
    r := 0;
    while r < 16
      invariant r <= 16 && forall k :: 0 <= k < r ==> !InRanges(block[k], ranges)
    {
      var i, hit := 0, false;
      while i < |ranges| / 2
        invariant 0 <= i <= |ranges| / 2
        invariant hit <==> exists j :: 0 <= j < i && ranges[2 * j] <= block[r] <= ranges[2 * j + 1]
      {
        hit := hit || ranges[2 * i] <= block[r] <= ranges[2 * i + 1];
        i := i + 1;
      }
      if hit {
        return;
      }
      r := r + 1;
    }
  }

  /** Skips whole blocks of 16 bytes in the build with SSE 4.2, and nothing in
      the other. */
  method FindCharFast(s: seq<byte>, start: nat, ranges: seq<byte>, sse: bool) returns (pos: nat, found: bool)
    requires start <= |s|
    ensures start <= pos <= |s| && forall k :: start <= k < pos ==> !InRanges(s[k], ranges)
    ensures found ==> pos < |s| && InRanges(s[pos], ranges)
  {
    hide InRanges;
    pos, found := start, false;
    if sse && |s| - pos >= 16 {
      var left := (|s| - pos) / 16 * 16;
      while left != 0
        invariant left % 16 == 0 && start <= pos <= pos + left <= |s|
        invariant forall k :: start <= k < pos ==> !InRanges(s[k], ranges)
      {
        var block := s[pos..pos + 16];
        var r := CompareRanges(ranges, block);
        assert forall k :: pos <= k < pos + r ==> s[k] == block[k - pos];
        if r != 16 {
          assert s[pos + r] == block[r];
          return pos + r, true;
        }
        pos := pos + 16;
        left := left - 16;
      }
    }
  }

  const TOKEN_RANGES: seq<byte> := [0x00, 0x20, 0x7f, 0x7f]
  const EOL_RANGES: seq<byte> := [0x00, 0x08, 0x0a, 0x1f, 0x7f, 0x7f]
  const NAME_RANGES: seq<byte> :=
    [0x00, 0x20, 0x22, 0x22, 0x28, 0x29, 0x2c, 0x2c, 0x2f, 0x2f, 0x3a, 0x40, 0x5b, 0x5d, 0x7b, 0xff]

  /** What the ranges may skip and where they stop. */
  lemma RangesMeanClasses(b: byte)
    ensures InRanges(b, TOKEN_RANGES) <==> b == SP || Control(b)
    ensures InRanges(b, EOL_RANGES) <==> ValueStop(b)
  {
    assert TOKEN_RANGES[2 * 0] == 0x00 && TOKEN_RANGES[2 * 0 + 1] == 0x20;
    assert TOKEN_RANGES[2 * 1] == 0x7f && TOKEN_RANGES[2 * 1 + 1] == 0x7f;
    assert EOL_RANGES[2 * 0] == 0x00 && EOL_RANGES[2 * 0 + 1] == 0x08;
    assert EOL_RANGES[2 * 1] == 0x0a && EOL_RANGES[2 * 1 + 1] == 0x1f;
    assert EOL_RANGES[2 * 2] == 0x7f && EOL_RANGES[2 * 2 + 1] == 0x7f;
  }

  /** The ranges for names also stop at two bytes that may stand in one. */
  lemma NameRangesMean(b: byte)
    ensures InRanges(b, NAME_RANGES) <==> !TokenChar(b) || b == 0x7c || b == 0x7e
  {
    var n := NAME_RANGES;
    assert n[2 * 0] == 0x00 && n[2 * 0 + 1] == 0x20 && n[2 * 1] == 0x22 && n[2 * 1 + 1] == 0x22;
    assert n[2 * 2] == 0x28 && n[2 * 2 + 1] == 0x29 && n[2 * 3] == 0x2c && n[2 * 3 + 1] == 0x2c;
    assert n[2 * 4] == 0x2f && n[2 * 4 + 1] == 0x2f && n[2 * 5] == 0x3a && n[2 * 5 + 1] == 0x40;
    assert n[2 * 6] == 0x5b && n[2 * 6 + 1] == 0x5d && n[2 * 7] == 0x7b && n[2 * 7 + 1] == 0xff;
  }

  predicate PrintableAscii(b: byte) { 0x20 <= b < 0x7f }

  lemma {:induction false} TokenSkips(s: seq<byte>, start: nat, pos: nat)
    requires start <= pos <= |s| && forall k :: start <= k < pos ==> s[k] != SP && !Control(s[k])
    ensures Token(s, start) == Token(s, pos)
    decreases pos - start
  {
    if start < pos {
      TokenSkips(s, start + 1, pos);
    }
  }

  lemma {:induction false} NameEndSkips(s: seq<byte>, start: nat, pos: nat)
    requires start <= pos <= |s| && forall k :: start <= k < pos ==> TokenChar(s[k])
    ensures NameEnd(s, start) == NameEnd(s, pos)
    decreases pos - start
  {
    if start < pos {
      NameEndSkips(s, start + 1, pos);
    }
  }

  lemma {:induction false} ValueEndSkips(s: seq<byte>, start: nat, pos: nat)
    requires start <= pos <= |s| && forall k :: start <= k < pos ==> !ValueStop(s[k])
    ensures ValueEnd(s, start) == ValueEnd(s, pos)
    decreases pos - start
  {
    if start < pos {
      ValueEndSkips(s, start + 1, pos);
    }
  }

  // ---------------------------------------------------------------------
  // The code: tokens, values and headers, in either build

  method AdvanceToken(s: seq<byte>, start: nat, sse: bool) returns (r: Parse<nat>)
    requires start <= |s|
    ensures r == Token(s, start)
  {
    hide InRanges;
    var pos, found := FindCharFast(s, start, TOKEN_RANGES, sse);
    forall k | start <= k < pos ensures s[k] != SP && !Control(s[k]) {
      RangesMeanClasses(s[k]);
    }
    TokenSkips(s, start, pos);
    if !found {
      if pos == |s| {
        return Partial;
      }
    }
    while true
      invariant pos < |s| && Token(s, start) == Token(s, pos)
      decreases |s| - pos
    {
      if s[pos] == SP {
        return Ok(pos, pos + 1);
      } else if !PrintableAscii(s[pos]) {
        if s[pos] < SP || s[pos] == DEL {
          return Bad;
        }
      }
      pos := pos + 1;
      if pos == |s| {
        return Partial;
      }
    }
  }

  /** The hot loop of the build without SSE: eight bytes at a time, while there
      are eight. */
  method SkipByEights(s: seq<byte>, start: nat) returns (pos: nat, found: bool)
    requires start <= |s|
    ensures start <= pos <= |s| && forall k :: start <= k < pos ==> !ValueStop(s[k])
    ensures found ==> pos < |s| && ValueStop(s[pos])
  {
    pos, found := start, false;
    while |s| - pos >= 8
      invariant start <= pos <= |s| && forall k :: start <= k < pos ==> !ValueStop(s[k])
    {
      var i := 0;
      ghost var base := pos;
      while i < 8 && PrintableAscii(s[pos])
        invariant 0 <= i <= 8 && pos == base + i
        invariant forall k :: start <= k < pos ==> !ValueStop(s[k])
      {
        pos, i := pos + 1, i + 1;
      }
      if i < 8 {
        if ValueStop(s[pos]) {
          return pos, true;
        }
        pos := pos + 1;
      }
    }
  }

  method GetTokenToEol(s: seq<byte>, start: nat, sse: bool) returns (r: Parse<nat>)
    requires start <= |s|
    ensures r == ValueEnd(s, start)
  {
    hide InRanges;
    var pos, found;
    if sse {
      pos, found := FindCharFast(s, start, EOL_RANGES, sse);
      forall k | start <= k < pos ensures !ValueStop(s[k]) {
        RangesMeanClasses(s[k]);
      }
      if found {
        RangesMeanClasses(s[pos]);
      }
    } else {
      pos, found := SkipByEights(s, start);
    }
    ValueEndSkips(s, start, pos);
    while !found
      invariant pos <= |s| && ValueEnd(s, start) == ValueEnd(s, pos)
      invariant found ==> pos < |s| && ValueStop(s[pos])
      decreases |s| - pos, !found
    {
      if pos == |s| {
        return Partial;
      }
      if !PrintableAscii(s[pos]) && ValueStop(s[pos]) {
        found := true;
      } else {
        pos := pos + 1;
      }
    }
    if s[pos] == CR {
      if pos + 1 == |s| {
        return Partial;
      }
      if s[pos + 1] != LF {
        return Bad;
      }
      return Ok(pos, pos + 2);
    } else if s[pos] == LF {
      return Ok(pos, pos + 1);
    }
    return Bad;
  }

  method ParseName(s: seq<byte>, start: nat, sse: bool) returns (r: Parse<nat>)
    requires start < |s|
    ensures r == NameEnd(s, start)
  {
    hide InRanges;
    var pos, found := FindCharFast(s, start, NAME_RANGES, sse);
    forall k | start <= k < pos ensures TokenChar(s[k]) {
      NameRangesMean(s[k]);
    }
    NameEndSkips(s, start, pos);
    if !found {
      if pos == |s| {
        return Partial;
      }
    }
    while true
      invariant pos < |s| && NameEnd(s, start) == NameEnd(s, pos)
      decreases |s| - pos
    {
      if s[pos] == COLON {
        return Ok(pos, pos + 1);
      } else if !TokenChar(s[pos]) {
        return Bad;
      }
      pos := pos + 1;
      if pos == |s| {
        return Partial;
      }
    }
  }

  /** The value of a header, without the blanks behind it. */
  method ParseValue(s: seq<byte>, start: nat, name: Span, sse: bool) returns (r: Parse<Header>)
    requires start <= |s|
    ensures r == Value(s, start, name)
  {
    hide ValueEnd;
    var line := GetTokenToEol(s, start, sse);
    match line {
      case Bad => return Bad;
      case Partial => return Partial;
      case Ok(to, next) =>
        var end := to;
        while end != start
          invariant start <= end <= to && TrimEnd(s, start, to) == TrimEnd(s, start, end)
        {
          if !Blank(s[end - 1]) {
            break;
          }
          end := end - 1;
        }
        return Ok(Header(name, Span(start, end)), next);
    }
  }

  method ParseHeaderLine(s: seq<byte>, start: nat, first: bool, sse: bool) returns (r: Parse<Header>)
    requires start < |s|
    ensures r == HeaderLine(s, start, first)
  {
    hide NameEnd, Value;
    if !(!first && Blank(s[start])) {
      var name := ParseName(s, start, sse);
      match name {
        case Bad => return Bad;
        case Partial => return Partial;
        case Ok(end, next) =>
          if end == start {
            return Bad;
          }
          var pos := next;
          while true
            invariant pos <= |s| && SkipBlanks(s, next) == SkipBlanks(s, pos)
            decreases |s| - pos
          {
            if pos == |s| {
              ValueAtEnd(s, Span(start, end));
              return Partial;
            }
            if !Blank(s[pos]) {
              break;
            }
            pos := pos + 1;
          }
          r := ParseValue(s, pos, Span(start, end), sse);
      }
    } else {
      r := ParseValue(s, start, Null, sse);
    }
  }

  function Append(headers: seq<Header>, rest: Parse<seq<Header>>): Parse<seq<Header>>
  {
    if rest.Ok? then Ok(headers + rest.value, rest.next) else rest
  }

  lemma AppendPush(headers: seq<Header>, h: Header, rest: Parse<seq<Header>>)
    ensures Append(headers, Push(h, rest)) == Append(headers + [h], rest)
  {
    if rest.Ok? {
      assert headers + ([h] + rest.value) == (headers + [h]) + rest.value;
    }
  }

  method ParseHeaders(s: seq<byte>, start: nat, max: nat, sse: bool) returns (r: Parse<seq<Header>>)
    requires start <= |s|
    ensures r == Headers(s, start, 0, max)
  {
    hide HeaderLine;
    var pos, headers := start, [];
    EmptyAppend(Headers(s, start, 0, max));
    while true
      invariant pos <= |s| && Append(headers, Headers(s, pos, |headers|, max)) == Headers(s, start, 0, max)
      decreases |s| - pos
    {
      assert headers + [] == headers;
      if pos == |s| {
        return Partial;
      }
      if s[pos] == CR {
        if pos + 1 == |s| {
          return Partial;
        }
        if s[pos + 1] != LF {
          return Bad;
        }
        return Ok(headers, pos + 2);
      } else if s[pos] == LF {
        return Ok(headers, pos + 1);
      }
      if |headers| == max {
        return Bad;
      }
      var line := ParseHeaderLine(s, pos, |headers| == 0, sse);
      match line {
        case Bad => return Bad;
        case Partial => return Partial;
        case Ok(h, next) =>
          AppendPush(headers, h, Headers(s, next, |headers| + 1, max));
          headers := headers + [h];
          pos := next;
      }
    }
  }

  lemma EmptyAppend(rest: Parse<seq<Header>>)
    ensures Append([], rest) == rest
  {
    if rest.Ok? {
      assert [] + rest.value == rest.value;
    }
  }

  method ParseHttpVersion(s: seq<byte>, start: nat) returns (r: Parse<nat>)
    requires start <= |s|
    ensures r == Version(s, start)
  {
    if |s| - start < 9 {
      return Partial;
    }
    var i := 0;
    while i < 7
      invariant 0 <= i <= 7 && s[start..start + i] == HTTP1[..i]
    {
      if s[start + i] != HTTP1[i] {
        assert s[start..start + 7][i] != HTTP1[i];
        return Bad;
      }
      assert s[start..start + i + 1] == s[start..start + i] + [s[start + i]];
      assert HTTP1[..i + 1] == HTTP1[..i] + [HTTP1[i]];
      i := i + 1;
    }
    assert HTTP1[..7] == HTTP1;
    if s[start + 7] < 0x30 || 0x39 < s[start + 7] {
      return Bad;
    }
    return Ok(s[start + 7] - 0x30, start + 8);
  }
}
