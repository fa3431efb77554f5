/** Request parsing in src/extern/picohttpparser.c, and how src/http.cpp calls it
    again after every read. */
module RequestParser {
  import opened Bytes
  import opened HttpScan
  import opened Membuf

  /** Pointers to the method and the path, the minor version, and the headers. */
  datatype Request = Request(verb: Span, path: Span, minor: nat, headers: seq<Header>)

  /** An empty line may precede the request. */
  function FirstLine(s: seq<byte>): (r: Parse<nat>)
    ensures r.Ok? ==> r.next <= |s|
  {
    if s == [] then Partial
    else if s[0] == CR || s[0] == LF then LineEnd(s, 0)
    else Ok(0, 0)
  }

  function VersionLine(s: seq<byte>, pos: nat): (r: Parse<nat>)
    requires pos <= |s|
    ensures r.Ok? ==> pos < r.next <= |s|
  {
    match Version(s, pos)
    case Ok(minor, next) => (match LineEnd(s, next)
      case Ok(_, next') => Ok(minor, next')
      case Bad => Bad
      case Partial => Partial)
    case Bad => Bad
    case Partial => Partial
  }

  function RequestLine(s: seq<byte>, pos: nat): (r: Parse<Request>)
    requires pos <= |s|
    ensures r.Ok? ==> pos < r.next <= |s|
  {
    match Token(s, pos)
    case Ok(verbEnd, pathStart) => (match Token(s, pathStart)
      case Ok(pathEnd, next) =>
        if verbEnd == pos || pathEnd == pathStart then Bad
        else (match VersionLine(s, next)
          case Ok(minor, next') => Ok(Request(Span(pos, verbEnd), Span(pathStart, pathEnd), minor, []), next')
          case Bad => Bad
          case Partial => Partial)
      case Bad => Bad
      case Partial => Partial)
    case Bad => Bad
    case Partial => Partial
  }

  function RequestFrom(s: seq<byte>, pos: nat, max: nat): (r: Parse<Request>)
    requires pos <= |s|
    ensures r.Ok? ==> pos < r.next <= |s|
  {
    match RequestLine(s, pos)
    case Ok(req, next) => (match Headers(s, next, 0, max)
      case Ok(headers, next') => Ok(req.(headers := headers), next')
      case Bad => Bad
      case Partial => Partial)
    case Bad => Bad
    case Partial => Partial
  }

  /** The full parser: everything is read from the start of the buffer. */
  function FullParse(s: seq<byte>, max: nat): (r: Parse<Request>)
    ensures r.Ok? ==> r.next <= |s|
  {
    match FirstLine(s)
    case Ok(_, pos) => RequestFrom(s, pos, max)
    case Bad => Bad
    case Partial => Partial
  }

  /** Looks for two line ends in a row, and nothing else. */
  function Complete(s: seq<byte>, pos: nat, lineEnds: nat): Parse<nat>
    requires pos <= |s|
    decreases |s| - pos
  {
    if pos == |s| then Partial
    else if s[pos] == CR || s[pos] == LF then
      match LineEnd(s, pos)
      case Ok(_, next) => if lineEnds + 1 == 2 then Ok(next, next) else Complete(s, next, lineEnds + 1)
      case Bad => Bad
      case Partial => Partial
    else Complete(s, pos + 1, 0)
  }

  function ScanStart(last: nat): (pos: nat)
    ensures pos <= last
  {
    if last < 3 then 0 else last - 3
  }

  /** One call of phr_parse_request, last bytes of s having been seen before. */
  function Incremental(s: seq<byte>, max: nat, last: nat): Parse<Request>
    requires last <= |s|
  {
    if last == 0 then FullParse(s, max)
    else match Complete(s, ScanStart(last), 0)
      case Ok(_, _) => FullParse(s, max)
      case Bad => Bad
      case Partial => Partial
  }

  // ---------------------------------------------------------------------
  // More input

  lemma VersionLineAgree(s: seq<byte>, t: seq<byte>, pos: nat)
    requires s <= t && pos <= |s|
    ensures Agree(VersionLine(s, pos), VersionLine(t, pos), |s|)
  {
    hide Version;
    VersionAgree(s, t, pos);
    if Version(s, pos).Ok? {
      LineEndAgree(s, t, Version(s, pos).next);
    }
  }

  lemma FirstLineAgree(s: seq<byte>, t: seq<byte>)
    requires s <= t
    ensures Agree(FirstLine(s), FirstLine(t), |s|)
  {
    if s != [] {
      LineEndAgree(s, t, 0);
    }
  }

  lemma RequestLineAgree(s: seq<byte>, t: seq<byte>, pos: nat)
    requires s <= t && pos <= |s|
    ensures Agree(RequestLine(s, pos), RequestLine(t, pos), |s|)
  {
    hide Token, VersionLine;
    TokenAgree(s, t, pos);
    var verb := Token(s, pos);
    if verb.Ok? {
      TokenAgree(s, t, verb.next);
      var path := Token(s, verb.next);
      if path.Ok? {
        VersionLineAgree(s, t, path.next);
      }
    }
  }

  lemma RequestFromAgree(s: seq<byte>, t: seq<byte>, pos: nat, max: nat)
    requires s <= t && pos <= |s|
    ensures Agree(RequestFrom(s, pos, max), RequestFrom(t, pos, max), |s| + 1)
  {
    hide RequestLine, Headers;
    RequestLineAgree(s, t, pos);
    var line := RequestLine(s, pos);
    if line.Ok? {
      HeadersAgree(s, t, line.next, 0, max);
    }
  }

  /** Success and rejection are final: a longer buffer gives the same result, and
      success needs no byte behind the head. */
  lemma FullParseAgree(s: seq<byte>, t: seq<byte>, max: nat)
    requires s <= t
    ensures !FullParse(s, max).Partial? ==> FullParse(t, max) == FullParse(s, max)
    ensures FullParse(t, max).Ok? && FullParse(t, max).next <= |s| ==> FullParse(s, max) == FullParse(t, max)
  {
    hide FirstLine, RequestFrom;
    FirstLineAgree(s, t);
    if FirstLine(s).Ok? {
      RequestFromAgree(s, t, FirstLine(s).next, max);
    }
  }

  lemma {:induction false} CompleteAgree(s: seq<byte>, t: seq<byte>, pos: nat, lineEnds: nat)
    requires s <= t && pos <= |s|
    ensures !Complete(s, pos, lineEnds).Partial? ==> Complete(t, pos, lineEnds) == Complete(s, pos, lineEnds)
    decreases |s| - pos
  {
    if pos < |s| {
      if s[pos] == CR || s[pos] == LF {
        LineEndAgree(s, t, pos);
        if LineEnd(s, pos).Ok? {
          CompleteAgree(s, t, LineEnd(s, pos).next, lineEnds + 1);
        }
      } else {
        CompleteAgree(s, t, pos + 1, 0);
      }
    }
  }

  // ---------------------------------------------------------------------
  // The shortcut finds the end of every acceptable head

  lemma VersionLineWhole(s: seq<byte>, pos: nat)
    requires pos <= |s| && VersionLine(s, pos).Ok?
    ensures var next := VersionLine(s, pos).next; WholeLines(s, pos, next) && s[next - 1] == LF
  {
    forall i | pos <= i < pos + 7 ensures s[i] != CR {
      assert s[i] == s[pos..pos + 7][i - pos] == HTTP1[i - pos];
    }
  }

  lemma RequestLineWhole(s: seq<byte>, pos: nat)
    requires pos <= |s| && RequestLine(s, pos).Ok?
    ensures var next := RequestLine(s, pos).next; WholeLines(s, pos, next) && s[next - 1] == LF
  {
    hide Token, VersionLine;
    TokenWhole(s, pos);
    var pathStart := Token(s, pos).next;
    TokenWhole(s, pathStart);
    VersionLineWhole(s, Token(s, pathStart).next);
  }

  lemma FullParseWhole(s: seq<byte>, max: nat)
    requires FullParse(s, max).Ok?
    ensures var next := FullParse(s, max).next; WholeLines(s, 0, next) && EmptyLineBefore(s, next)
  {
    hide RequestLine, Headers;
    var pos := FirstLine(s).next;
    RequestLineWhole(s, pos);
    HeadersWhole(s, RequestLine(s, pos).next, 0, max);
  }

  function LastLine(s: seq<byte>, end: nat): nat
    requires EmptyLineBefore(s, end)
  {
    if s[end - 2] == CR then end - 2 else end - 1
  }

  /** The shortcut finds nothing but an empty line. */
  lemma {:induction false} CompleteFound(s: seq<byte>, pos: nat, lineEnds: nat)
    requires pos <= |s| && lineEnds < 2 && (lineEnds == 1 ==> pos > 0 && s[pos - 1] == LF)
    requires Complete(s, pos, lineEnds).Ok?
    ensures pos < Complete(s, pos, lineEnds).next && EmptyLineBefore(s, Complete(s, pos, lineEnds).next)
    decreases |s| - pos
  {
    if s[pos] == CR || s[pos] == LF {
      if lineEnds == 0 {
        CompleteFound(s, LineEnd(s, pos).next, 1);
      }
    } else {
      CompleteFound(s, pos + 1, 0);
    }
  }

  lemma {:induction false} CompleteFinds(s: seq<byte>, pos: nat, lineEnds: nat, end: nat)
    requires lineEnds < 2 && EmptyLineBefore(s, end) && WholeLines(s, pos, end)
    requires pos <= LastLine(s, end) && (pos == LastLine(s, end) ==> lineEnds == 1)
    ensures Complete(s, pos, lineEnds).Ok?
    decreases end - pos
  {
    if s[pos] == CR || s[pos] == LF {
      if lineEnds == 0 {
        CompleteFinds(s, LineEnd(s, pos).next, 1, end);
      }
    } else {
      CompleteFinds(s, pos + 1, 0, end);
    }
  }

  /** Given that the bytes seen before were no whole head, a head is found from
      three bytes before them on. */
  lemma CompleteFindsHead(seen: seq<byte>, s: seq<byte>, max: nat)
    requires seen <= s && !FullParse(seen, max).Ok? && FullParse(s, max).Ok?
    ensures Complete(s, ScanStart(|seen|), 0).Ok?
  {
    hide FullParse, Complete;
    FullParseAgree(seen, s, max);
    FullParseWhole(s, max);
    CompleteFinds(s, ScanStart(|seen|), 0, FullParse(s, max).next);
  }

  // ---------------------------------------------------------------------
  // Any way of splitting a request into reads

  /** What the buffer holds after k reads. */
  function Buffer(pieces: seq<seq<byte>>, k: nat): seq<byte>
    requires k <= |pieces|
  {
    if k == 0 then [] else Buffer(pieces, k - 1) + pieces[k - 1]
  }

  lemma {:induction false} BufferGrows(pieces: seq<seq<byte>>, j: nat, k: nat)
    requires j <= k <= |pieces|
    ensures Buffer(pieces, j) <= Buffer(pieces, k)
  {
    if j < k {
      BufferGrows(pieces, j, k - 1);
    }
  }

  datatype Reading = Reading(calls: nat, result: Parse<Request>)

  /** Parse after every read that brings something, until a call does not ask for
      more. */
  function Feed(pieces: seq<seq<byte>>, k: nat, max: nat): (f: Reading)
    requires k <= |pieces|
    ensures k <= f.calls <= |pieces| && (f.result.Partial? ==> f.calls == |pieces|)
    decreases |pieces| - k
  {
    if k == |pieces| then Reading(k, Partial)
    else if pieces[k] == [] then Feed(pieces, k + 1, max)
    else
      BufferGrows(pieces, k, k + 1);
      var r := Incremental(Buffer(pieces, k + 1), max, |Buffer(pieces, k)|);
      if r.Partial? then Feed(pieces, k + 1, max) else Reading(k + 1, r)
  }

  /** One call, when no call before it has accepted. */
  lemma IncrementalStep(seen: seq<byte>, s: seq<byte>, max: nat)
    requires seen <= s && !FullParse(seen, max).Ok?
    ensures FullParse(s, max).Ok? ==> Incremental(s, max, |seen|) == FullParse(s, max)
    ensures Incremental(s, max, |seen|).Ok? ==> Incremental(s, max, |seen|) == FullParse(s, max)
    ensures Incremental(s, max, |seen|).Bad? ==> forall t: seq<byte> :: s <= t ==> !FullParse(t, max).Ok?
  {
    hide FullParse, Complete;
    if FullParse(s, max).Ok? {
      CompleteFindsHead(seen, s, max);
    }
    if Incremental(s, max, |seen|).Bad? {
      forall t: seq<byte> | s <= t ensures !FullParse(t, max).Ok? {
        FullParseAgree(s, t, max);
        CompleteAgree(s, t, ScanStart(|seen|), 0);
        if FullParse(t, max).Ok? {
          CompleteFindsHead(seen, t, max);
        }
      }
    }
  }

  lemma BufferStep(pieces: seq<seq<byte>>, k: nat)
    requires k < |pieces|
    ensures Buffer(pieces, k + 1) == Buffer(pieces, k) + pieces[k]
    ensures pieces[k] == [] ==> Buffer(pieces, k + 1) == Buffer(pieces, k)
  {
  }

  lemma FeedStep(pieces: seq<seq<byte>>, k: nat, max: nat)
    requires k < |pieces| && |Buffer(pieces, k)| <= |Buffer(pieces, k + 1)|
    ensures var r := Incremental(Buffer(pieces, k + 1), max, |Buffer(pieces, k)|);
      Feed(pieces, k, max) == if pieces[k] == [] || r.Partial? then Feed(pieces, k + 1, max) else Reading(k + 1, r)
  {
  }

  lemma FeedEnd(pieces: seq<seq<byte>>, max: nat)
    ensures Feed(pieces, |pieces|, max) == Reading(|pieces|, Partial)
  {
  }

  lemma {:induction false} FeedFrom(pieces: seq<seq<byte>>, k: nat, max: nat)
    requires k <= |pieces| && forall j: nat :: j <= k ==> !FullParse(Buffer(pieces, j), max).Ok?
    ensures var f := Feed(pieces, k, max);
      && (forall j: nat :: j < f.calls ==> !FullParse(Buffer(pieces, j), max).Ok?)
      && (f.result.Ok? ==> FullParse(Buffer(pieces, f.calls), max) == f.result)
      && (!f.result.Ok? ==> !FullParse(Buffer(pieces, f.calls), max).Ok?)
      && (f.result.Bad? ==> forall t: seq<byte> :: Buffer(pieces, f.calls) <= t ==> !FullParse(t, max).Ok?)
    decreases |pieces| - k
  {
    hide FullParse, Incremental, Feed, Buffer;
    if k < |pieces| {
      BufferGrows(pieces, k, k + 1);
      var seen, s := Buffer(pieces, k), Buffer(pieces, k + 1);
      IncrementalStep(seen, s, max);
      FeedStep(pieces, k, max);
      BufferStep(pieces, k);
      if pieces[k] == [] || Incremental(s, max, |seen|).Partial? {
        FeedFrom(pieces, k + 1, max);
      }
    } else {
      FeedEnd(pieces, max);
    }
  }

  lemma NothingInNothing(max: nat)
    ensures FullParse([], max) == Partial
  {
  }

  /** However the input is cut into reads, the shortcut accepts after the same read
      and with the same offsets as the full parser, and rejects only what the full
      parser accepts at no later time. */
  lemma SameBoundary(pieces: seq<seq<byte>>, max: nat)
    ensures var f := Feed(pieces, 0, max);
      && (f.result.Ok? ==> FullParse(Buffer(pieces, f.calls), max) == f.result)
      && (forall j: nat :: j < f.calls ==> !FullParse(Buffer(pieces, j), max).Ok?)
      && (!f.result.Ok? ==> forall j: nat :: j <= |pieces| ==> !FullParse(Buffer(pieces, j), max).Ok?)
      && (f.result.Bad? ==> forall t: seq<byte> :: Buffer(pieces, |pieces|) <= t ==> !FullParse(t, max).Ok?)
  {
    hide FullParse, Feed;
    NothingInNothing(max);
    FeedFrom(pieces, 0, max);
    var f := Feed(pieces, 0, max);
    if f.result.Bad? {
      forall j: nat | f.calls <= j <= |pieces| ensures !FullParse(Buffer(pieces, j), max).Ok? {
        BufferGrows(pieces, f.calls, j);
      }
      BufferGrows(pieces, f.calls, |pieces|);
    }
  }

  // ---------------------------------------------------------------------
  // The code

  method IsComplete(s: seq<byte>, last: nat) returns (r: Parse<nat>)
    requires last <= |s|
    ensures r == Complete(s, ScanStart(last), 0)
  {
    var lineEnds, pos := 0, if last < 3 then 0 else last - 3;
    while true
      invariant pos <= |s| && lineEnds < 2
      invariant Complete(s, pos, lineEnds) == Complete(s, ScanStart(last), 0)
      decreases |s| - pos
    {
      if pos == |s| {
        return Partial;
      }
      if s[pos] == CR {
        pos := pos + 1;
        if pos == |s| {
          return Partial;
        }
        if s[pos] != LF {
          return Bad;
        }
        pos := pos + 1;
        lineEnds := lineEnds + 1;
      } else if s[pos] == LF {
        pos := pos + 1;
        lineEnds := lineEnds + 1;
      } else {
        pos := pos + 1;
        lineEnds := 0;
      }
      if lineEnds == 2 {
        return Ok(pos, pos);
      }
    }
  }

  method ParseRequestLine(s: seq<byte>, start: nat, sse: bool) returns (r: Parse<Request>)
    requires start <= |s|
    ensures r == RequestLine(s, start)
  {
    hide Token, Version;
    var verb := AdvanceToken(s, start, sse);
    if !verb.Ok? {
      return if verb.Bad? then Bad else Partial;
    }
    var path := AdvanceToken(s, verb.next, sse);
    if !path.Ok? {
      return if path.Bad? then Bad else Partial;
    }
    if verb.value == start || path.value == verb.next {
      return Bad;
    }
    var version := ParseHttpVersion(s, path.next);
    if !version.Ok? {
      return if version.Bad? then Bad else Partial;
    }
    var pos := version.next;
    if s[pos] == CR {
      pos := pos + 1;
      if pos == |s| {
        return Partial;
      }
      if s[pos] != LF {
        return Bad;
      }
    } else if s[pos] != LF {
      return Bad;
    }
    return Ok(Request(Span(start, verb.value), Span(verb.next, path.value), version.value, []), pos + 1);
  }

  method ParseRequest(s: seq<byte>, max: nat, sse: bool) returns (r: Parse<Request>)
    ensures r == FullParse(s, max)
  {
    hide RequestLine, Headers;
    var pos := 0;
    if pos == |s| {
      return Partial;
    }
    if s[pos] == CR {
      pos := pos + 1;
      if pos == |s| {
        return Partial;
      }
      if s[pos] != LF {
        return Bad;
      }
      pos := pos + 1;
    } else if s[pos] == LF {
      pos := pos + 1;
    }
    var line := ParseRequestLine(s, pos, sse);
    if !line.Ok? {
      return line;
    }
    var headers := ParseHeaders(s, line.next, max, sse);
    match headers {
      case Ok(list, next) => r := Ok(line.value.(headers := list), next);
      case Bad => r := Bad;
      case Partial => r := Partial;
    }
  }

  /** Both builds, whatever the width of their scans, compute the same. */
  method PhrParseRequest(s: seq<byte>, max: nat, last: nat, sse: bool) returns (r: Parse<Request>)
    requires last <= |s|
    ensures r == Incremental(s, max, last)
  {
    if last != 0 {
      var complete := IsComplete(s, last);
      if !complete.Ok? {
        return if complete.Bad? then Bad else Partial;
      }
    }
    r := ParseRequest(s, max, sse);
  }

  const HTTP_HEADERS_MAX := 16

  method HttpParseRequest(mem: Membuf, sse: bool) returns (r: Parse<Request>)
    requires mem.Valid()
    ensures r == Incremental(mem.Contents(), 16, mem.prev)
  {
    r := PhrParseRequest(mem.begin[..mem.cur], HTTP_HEADERS_MAX, mem.prev, sse);
  }

  /** The room that a read is offered. */
  function Room(capacity: nat, used: nat): nat
    requires used <= capacity
  {
    if capacity - used < 1024 then 4096 else capacity - used
  }

  method OnAlloc(mem: Membuf)
    requires mem.Valid()
    modifies mem
    ensures mem.Valid() && mem.Contents() == old(mem.Contents()) && mem.prev == old(mem.prev)
    ensures mem.Avail() == Room(old(mem.begin.Length), old(mem.cur))
    ensures mem.begin == old(mem.begin) || fresh(mem.begin)
  {
    if mem.Avail() < 1024 {
      mem.Grow(4096);
    }
  }

  /** One read, while the head is being received; one that brings nothing is passed
      over. */
  method OnRead(mem: Membuf, data: seq<byte>, sse: bool) returns (r: Parse<Request>)
    requires mem.Valid() && |data| <= mem.Avail()
    modifies mem, mem.begin
    ensures mem.Valid() && mem.begin == old(mem.begin) && mem.Contents() == old(mem.Contents()) + data
    ensures data == [] ==> r == Partial && mem.prev == old(mem.prev)
    ensures data != [] ==> mem.prev == old(mem.cur)
    ensures data != [] ==> r == Incremental(old(mem.Contents()) + data, HTTP_HEADERS_MAX, |old(mem.Contents())|)
  {
    hide Incremental;
    if data == [] {
      return Partial;
    }
    mem.Receive(data);
    var error := mem.Consume(|data|);
    r := HttpParseRequest(mem, sse);
  }

  /** No read brings more than it is offered room for. */
  predicate Offered(pieces: seq<seq<byte>>, k: nat, capacity: nat, used: nat)
    requires k <= |pieces| && used <= capacity
    decreases |pieces| - k
  {
    k < |pieces| ==>
      && |pieces[k]| <= Room(capacity, used)
      && Offered(pieces, k + 1, used + Room(capacity, used), used + |pieces[k]|)
  }

  /** The reads of one connection, while the parser asks for more. */
  method OnReads(mem: Membuf, pieces: seq<seq<byte>>, sse: bool) returns (f: Reading)
    requires mem.Valid() && mem.Contents() == [] && Offered(pieces, 0, mem.begin.Length, 0)
    modifies mem, mem.begin
    ensures mem.Valid() && f == Feed(pieces, 0, HTTP_HEADERS_MAX)
    ensures mem.Contents() == Buffer(pieces, f.calls)
  {
    hide Incremental, Feed, Buffer;
    var k := 0;
    BufferNone(pieces);
    while k < |pieces|
      invariant 0 <= k <= |pieces| && (mem.begin == old(mem.begin) || fresh(mem.begin)) && mem.Valid()
      invariant mem.Contents() == Buffer(pieces, k) && Offered(pieces, k, mem.begin.Length, mem.cur)
      invariant Feed(pieces, 0, HTTP_HEADERS_MAX) == Feed(pieces, k, HTTP_HEADERS_MAX)
    {
      BufferStep(pieces, k);
      FeedStep(pieces, k, HTTP_HEADERS_MAX);
      OnAlloc(mem);
      var r := OnRead(mem, pieces[k], sse);
      k := k + 1;
      if !r.Partial? {
        return Reading(k, r);
      }
    }
    FeedEnd(pieces, HTTP_HEADERS_MAX);
    f := Reading(k, Partial);
  }

  lemma BufferNone(pieces: seq<seq<byte>>)
    ensures Buffer(pieces, 0) == []
  {
  }
}
