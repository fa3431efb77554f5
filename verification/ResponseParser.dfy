/** Response parsing in src/extern/picohttpparser.c against the response printer
    of src/phttp_server.cpp. */
module ResponseParser {
  import opened Bytes
  import opened HttpScan
  import opened HttpText
  import opened Slices
  import opened Membuf
  import R = RequestParser

  datatype Response = Response(minor: nat, status: nat, reason: Span, headers: seq<Header>)

  function StatusLine(s: seq<byte>): (r: Parse<Response>)
    ensures r.Ok? ==> 0 < r.next <= |s|
  {
    match Version(s, 0)
    case Ok(minor, pos) =>
      if s[pos] != SP then Bad
      else if |s| - (pos + 1) < 4 then Partial
      else if !Digit(s[pos + 1]) || !Digit(s[pos + 2]) || !Digit(s[pos + 3]) || s[pos + 4] != SP then Bad
      else (match ValueEnd(s, pos + 5)
        case Ok(end, next) =>
          Ok(Response(minor, ThreeDigits(s[pos + 1], s[pos + 2], s[pos + 3]), Span(pos + 5, end), []), next)
        case Bad => Bad
        case Partial => Partial)
    case Bad => Bad
    case Partial => Partial
  }

  function ThreeDigits(a: byte, b: byte, c: byte): nat
    requires Digit(a) && Digit(b) && Digit(c)
  {
    100 * (a - 0x30) + 10 * (b - 0x30) + (c - 0x30)
  }

  function FullResponse(s: seq<byte>, max: nat): (r: Parse<Response>)
  {
    match StatusLine(s)
    case Ok(res, next) => (match Headers(s, next, 0, max)
      case Ok(headers, next') => Ok(res.(headers := headers), next')
      case Bad => Bad
      case Partial => Partial)
    case Bad => Bad
    case Partial => Partial
  }

  // ---------------------------------------------------------------------
  // The printer

  /** What a handler leaves in the response record. */
  datatype Reply = Reply(status: nat, reason: seq<byte>, headers: seq<Field>, bodySize: nat)

  const SERVER: seq<byte> := [0x53, 0x65, 0x72, 0x76, 0x65, 0x72]
  const PRISM: seq<byte> := [0x50, 0x72, 0x69, 0x73, 0x6d]
  const CONTENT_LENGTH: seq<byte> :=
    [0x43, 0x6f, 0x6e, 0x74, 0x65, 0x6e, 0x74, 0x2d, 0x4c, 0x65, 0x6e, 0x67, 0x74, 0x68]

  function Decimal(n: nat): (s: seq<byte>)
    ensures |s| > 0
  {
    if n < 10 then [0x30 + n] else Decimal(n / 10) + [0x30 + n % 10]
  }

  /** What printf takes of a string: nothing from its first NUL on. */
  function CString(s: seq<byte>): (r: seq<byte>)
    ensures |r| <= |s|
  {
    if s == [] || s[0] == 0 then [] else [s[0]] + CString(s[1..])
  }

  function PrintedFields(fields: seq<Field>): (r: seq<Field>)
    ensures |r| == |fields|
  {
    if fields == [] then []
    else
      var f := fields[|fields| - 1];
      PrintedFields(fields[..|fields| - 1]) + [Field(CString(f.name), CString(f.value))]
  }

  function StandardFields(bodySize: nat): seq<Field>
  {
    [Field(SERVER, PRISM), Field(CONTENT_LENGTH, Decimal(bodySize))]
  }

  function FirstLine(r: Reply): seq<byte>
  {
    HTTP1 + [0x31, SP] + Decimal(r.status) + [SP] + CString(r.reason) + [CR, LF]
  }

  /** An interim response, such as 100 Continue, is printed without headers. */
  function Head(r: Reply, interim: bool): seq<byte>
  {
    FirstLine(r)
    + (if interim then [] else FieldLines(StandardFields(r.bodySize) + PrintedFields(r.headers)))
    + [CR, LF]
  }

  // ---------------------------------------------------------------------
  // When parsing undoes printing

  predicate Printable(r: Reply, interim: bool, max: nat)
  {
    && 100 <= r.status <= 999 && ControlFree(r.reason)
    && (interim || (FieldsOk(r.headers) && |r.headers| + 2 <= max))
  }

  /** The parser consumes exactly the head, whatever follows it, and finds what
      the handler put there. */
  predicate Undone(r: Reply, interim: bool, rest: seq<byte>, max: nat)
  {
    var s := Head(r, interim) + rest;
    var p := FullResponse(s, max);
    && p.Ok? && p.next == |Head(r, interim)|
    && p.value.minor == 1 && p.value.status == r.status && Text(s, p.value.reason) == r.reason
    && ReadsAs(s, Ok(p.value.headers, p.next), if interim then [] else StandardFields(r.bodySize) + r.headers, p.next)
  }

  lemma {:induction false} CStringOfControlFree(s: seq<byte>)
    requires ControlFree(s)
    ensures CString(s) == s
  {
    if s != [] {
      assert !ValueStop(s[0]);
      forall i | 0 <= i < |s[1..]| ensures !ValueStop(s[1..][i]) {
        assert s[1..][i] == s[i + 1];
      }
      CStringOfControlFree(s[1..]);
    }
  }

  lemma {:induction false} TokenIsControlFree(s: seq<byte>)
    requires IsToken(s)
    ensures ControlFree(s)
  {
    forall i | 0 <= i < |s| ensures !ValueStop(s[i]) {
      assert TokenChar(s[i]);
    }
  }

  lemma PrintedStep(fields: seq<Field>)
    requires fields != []
    ensures var f := fields[|fields| - 1];
      PrintedFields(fields) == PrintedFields(fields[..|fields| - 1]) + [Field(CString(f.name), CString(f.value))]
  {
  }

  lemma FieldAsGiven(f: Field)
    requires FieldOk(f)
    ensures CString(f.name) == f.name && CString(f.value) == f.value
  {
    hide ControlFree, Trimmed, IsToken, CString;
    TokenIsControlFree(f.name);
    CStringOfControlFree(f.name);
    CStringOfControlFree(f.value);
  }

  lemma {:induction false} PrintedAsGiven(fields: seq<Field>)
    requires FieldsOk(fields)
    ensures PrintedFields(fields) == fields
  {
    hide FieldOk, CString, PrintedFields;
    if fields == [] {
      PrintedNone();
    } else {
      var init, f := fields[..|fields| - 1], fields[|fields| - 1];
      assert FieldOk(f) && FieldsOk(init);
      PrintedAsGiven(init);
      FieldAsGiven(f);
      PrintedStep(fields);
      assert fields == init + [f];
    }
  }

  lemma PrintedNone()
    ensures PrintedFields([]) == []
  {
  }

  lemma {:induction false} DecimalDigits(n: nat)
    ensures forall i :: 0 <= i < |Decimal(n)| ==> Digit(Decimal(n)[i])
  {
    if n >= 10 {
      DecimalDigits(n / 10);
    }
  }

  lemma StandardFieldsOk(bodySize: nat)
    ensures FieldsOk(StandardFields(bodySize))
  {
    assert FieldOk(Field(SERVER, PRISM));
    DecimalDigits(bodySize);
    var d := Decimal(bodySize);
    forall i | 0 <= i < |d| ensures !ValueStop(d[i]) && !Blank(d[i]) {
      assert Digit(d[i]);
    }
    assert IsToken(CONTENT_LENGTH);
    assert FieldOk(Field(CONTENT_LENGTH, d));
  }

  lemma DecimalThree(n: nat)
    ensures |Decimal(n)| == 3 <==> 100 <= n <= 999
    ensures 100 <= n <= 999 ==> var d := Decimal(n);
              Digit(d[0]) && Digit(d[1]) && Digit(d[2]) && ThreeDigits(d[0], d[1], d[2]) == n
  {
    if n >= 1000 {
      assert |Decimal(n)| == |Decimal(n / 10)| + 1 == |Decimal(n / 10 / 10)| + 2 == |Decimal(n / 10 / 10 / 10)| + 3;
    } else if n >= 100 {
      var q := n / 10;
      assert Decimal(q / 10) == [0x30 + q / 10];
      assert Decimal(q) == [0x30 + q / 10, 0x30 + q % 10];
      assert Decimal(n) == [0x30 + q / 10, 0x30 + q % 10, 0x30 + n % 10];
    }
  }

  /** Where the parts of the first line are. */
  lemma FirstLineHolds(r: Reply, s: seq<byte>)
    requires Holds(s, 0, FirstLine(r))
    ensures var d := Decimal(r.status);
      && Holds(s, 0, HTTP1) && Holds(s, 7, [0x31, SP]) && Holds(s, 9, d) && Holds(s, 9 + |d|, [SP])
      && Holds(s, 10 + |d|, CString(r.reason) + [CR, LF])
  {
    hide Holds;
    var d, tail := Decimal(r.status), CString(r.reason) + [CR, LF];
    assert FirstLine(r) == HTTP1 + ([0x31, SP] + (d + ([SP] + tail)));
    HoldsSplit(s, 0, HTTP1, [0x31, SP] + (d + ([SP] + tail)));
    HoldsSplit(s, 7, [0x31, SP], d + ([SP] + tail));
    HoldsSplit(s, 9, d, [SP] + tail);
    HoldsSplit(s, 9 + |d|, [SP], tail);
  }

  lemma VersionReads(s: seq<byte>)
    requires Holds(s, 0, HTTP1) && Holds(s, 7, [0x31, SP])
    ensures Version(s, 0) == Ok(1, 8) && s[8] == SP
  {
    HoldsAt(s, 7, [0x31, SP], 0);
    HoldsAt(s, 7, [0x31, SP], 1);
  }

  lemma StatusLineReads(r: Reply, s: seq<byte>)
    requires Holds(s, 0, FirstLine(r)) && 100 <= r.status <= 999 && ControlFree(r.reason)
    ensures StatusLine(s) == Ok(Response(1, r.status, Span(13, 13 + |r.reason|), []), |FirstLine(r)|)
    ensures Text(s, Span(13, 13 + |r.reason|)) == r.reason
  {
    hide Holds, Version, ValueEnd, ControlFree, Decimal;
    FirstLineHolds(r, s);
    CStringOfControlFree(r.reason);
    VersionReads(s);
    DecimalThree(r.status);
    HoldsAt(s, 9, Decimal(r.status), 0);
    HoldsAt(s, 9, Decimal(r.status), 1);
    HoldsAt(s, 9, Decimal(r.status), 2);
    HoldsAt(s, 12, [SP], 0);
    ValueReads(s, 13, r.reason);
    HoldsSplit(s, 13, r.reason, [CR, LF]);
    HoldsFits(s, 13, r.reason);
    HoldsFits(s, 0, FirstLine(r));
    HoldsFits(s, 13, r.reason + [CR, LF]);
  }

  function HeadFields(r: Reply, interim: bool): seq<Field>
  {
    if interim then [] else StandardFields(r.bodySize) + PrintedFields(r.headers)
  }

  lemma HeadParts(r: Reply, interim: bool, rest: seq<byte>)
    ensures var s := Head(r, interim) + rest;
      && Head(r, interim) == FirstLine(r) + LinesFrom(HeadFields(r, interim))
      && Holds(s, 0, FirstLine(r)) && Holds(s, |FirstLine(r)|, LinesFrom(HeadFields(r, interim)))
  {
    hide Holds, FirstLine, LinesFrom, HeadFields;
    var s, fields := Head(r, interim) + rest, HeadFields(r, interim);
    LinesFromIsFieldLines([], fields);
    assert [] + fields == fields && FieldLines([]) + LinesFrom(fields) == LinesFrom(fields);
    HeadText(r, interim);
    HoldsWhole(Head(r, interim), rest);
    HoldsSplit(s, 0, FirstLine(r), LinesFrom(fields));
  }

  lemma HeadText(r: Reply, interim: bool)
    ensures Head(r, interim) == FirstLine(r) + (FieldLines(HeadFields(r, interim)) + [CR, LF])
  {
    hide FirstLine, StandardFields, PrintedFields;
    if interim {
      assert FieldLines([]) == [];
    }
  }

  lemma PrintableIsUndone(r: Reply, interim: bool, rest: seq<byte>, max: nat)
    requires Printable(r, interim, max)
    ensures Undone(r, interim, rest, max)
  {
    hide Holds, StatusLine, FirstLine, LinesFrom, Headers, ControlFree, FieldsOk, StandardFields, Head, FieldsOf;
    var s, fields := Head(r, interim) + rest, HeadFields(r, interim);
    HeadParts(r, interim, rest);
    StatusLineReads(r, s);
    assert FieldsOk(fields) && |fields| <= max && (!interim ==> fields == StandardFields(r.bodySize) + r.headers) by {
      if interim {
        assert FieldsOk([]) by { NoFieldsOk(); }
      } else {
        PrintedAsGiven(r.headers);
        StandardFieldsOk(r.bodySize);
        JoinFieldsOk(StandardFields(r.bodySize), r.headers);
        assert |StandardFields(r.bodySize)| == 2 by { TwoStandardFields(r.bodySize); }
      }
    }
    FieldsRead(s, |FirstLine(r)|, fields, 0, max);
  }

  lemma NoFieldsOk()
    ensures FieldsOk([])
  {
  }

  lemma TwoStandardFields(bodySize: nat)
    ensures |StandardFields(bodySize)| == 2
  {
  }

  lemma JoinFieldsOk(a: seq<Field>, b: seq<Field>)
    ensures FieldsOk(a + b) <==> FieldsOk(a) && FieldsOk(b)
  {
    hide FieldOk;
    if FieldsOk(a + b) {
      forall i | 0 <= i < |a| ensures FieldOk(a[i]) {
        assert (a + b)[i] == a[i];
      }
      forall i | 0 <= i < |b| ensures FieldOk(b[i]) {
        assert (a + b)[|a| + i] == b[i];
      }
    }
  }

  /** A status line can only be read when the status printed is three digits. */
  lemma StatusLineMeansPrintable(r: Reply, s: seq<byte>)
    requires Holds(s, 0, FirstLine(r)) && StatusLine(s).Ok? && Text(s, StatusLine(s).value.reason) == r.reason
    ensures 100 <= r.status <= 999 && ControlFree(r.reason)
  {
    hide Holds, Version, ValueEnd, CString;
    FirstLineHolds(r, s);
    VersionReads(s);
    var d := Decimal(r.status);
    DecimalDigits(r.status);
    HoldsAt(s, 9 + |d|, [SP], 0);
    if |d| > 3 {
      HoldsAt(s, 9, d, 3);
    }
    DecimalThree(r.status);
    ValueIsControlFree(s, 13);
  }

  lemma {:induction false} ReadFieldsOk(s: seq<byte>, headers: seq<Header>, fields: seq<Field>)
    requires FieldsOf(s, headers) == fields
    requires forall i :: 0 <= i < |headers| ==> FieldOk(FieldOf(s, headers[i]))
    ensures FieldsOk(fields)
  {
    hide FieldOk, FieldOf;
    forall i | 0 <= i < |fields| ensures FieldOk(fields[i]) {
      FieldsOfAt(s, headers, i);
    }
  }

  lemma UndoneIsPrintable(r: Reply, interim: bool, rest: seq<byte>, max: nat)
    requires Undone(r, interim, rest, max)
    ensures Printable(r, interim, max)
  {
    hide Holds, StatusLine, FirstLine, LinesFrom, Headers, ControlFree, FieldsOk, StandardFields, Head;
    hide FieldsOf, FieldOk;
    var s := Head(r, interim) + rest;
    HeadParts(r, interim, rest);
    StatusLineMeansPrintable(r, s);
    if !interim {
      var headers := FullResponse(s, max).value.headers;
      HeadersAreFields(s, StatusLine(s).next, 0, max);
      ReadFieldsOk(s, headers, StandardFields(r.bodySize) + r.headers);
      JoinFieldsOk(StandardFields(r.bodySize), r.headers);
      TwoStandardFields(r.bodySize);
    }
  }

  /** The parser undoes the printer on exactly these responses.  A reason that
      ends in a line feed, as several of the key-value handlers set it, is not
      among them. */
  lemma RoundTrip(r: Reply, interim: bool, rest: seq<byte>, max: nat)
    ensures Undone(r, interim, rest, max) <==> Printable(r, interim, max)
  {
    hide Undone, Printable;
    if Printable(r, interim, max) {
      PrintableIsUndone(r, interim, rest, max);
    }
    if Undone(r, interim, rest, max) {
      UndoneIsPrintable(r, interim, rest, max);
    }
  }

  /** "Method Not Allowed" with a line feed behind it, the reason of status 405 in
      both key-value back ends. */
  const METHOD_NOT_ALLOWED: seq<byte> :=
    [0x4d, 0x65, 0x74, 0x68, 0x6f, 0x64, 0x20, 0x4e, 0x6f, 0x74, 0x20, 0x41, 0x6c, 0x6c, 0x6f, 0x77, 0x65, 0x64, 0x0a]

  /** Such a response ends, for its reader, at the line feed: no header is seen. */
  lemma LineFeedEndsHead(bodySize: nat, rest: seq<byte>, max: nat)
    ensures var r := Reply(405, METHOD_NOT_ALLOWED, [], bodySize);
      var p := FullResponse(Head(r, false) + rest, max);
      !Undone(r, false, rest, max) && p.Ok? && p.value.headers == [] && p.next < |Head(r, false)|
  {
    hide Undone, Holds, StatusLine, Head, FieldLines, LinesFrom, FieldsOk, ControlFree, Headers, FirstLine, HeadFields;
    var r := Reply(405, METHOD_NOT_ALLOWED, [], bodySize);
    var s := Head(r, false) + rest;
    RoundTrip(r, false, rest, max);
    HasLineFeed();
    HeadParts(r, false, rest);
    HeadText(r, false);
    LineFeedStatusLine(s, r);
    HeadersAtCrLf(s, 32, max);
  }

  lemma HasLineFeed()
    ensures !ControlFree(METHOD_NOT_ALLOWED)
  {
    assert ValueStop(METHOD_NOT_ALLOWED[18]);
  }

  lemma HeadersAtCrLf(s: seq<byte>, pos: nat, max: nat)
    requires pos + 1 < |s| && s[pos] == CR && s[pos + 1] == LF
    ensures Headers(s, pos, 0, max) == Ok([], pos + 2)
  {
  }

  /** The reason of such a response, as it is read. */
  lemma LineFeedReason(s: seq<byte>)
    requires Holds(s, 13, METHOD_NOT_ALLOWED + [CR, LF])
    ensures |s| >= 34 && s[32] == CR && s[33] == LF && ValueEnd(s, 13) == Ok(31, 32)
  {
    hide Holds;
    var text := METHOD_NOT_ALLOWED;
    HoldsSplit(s, 13, text, [CR, LF]);
    HoldsAt(s, 32, [CR, LF], 0);
    HoldsAt(s, 32, [CR, LF], 1);
    forall k | 13 <= k < 31 ensures !ValueStop(s[k]) {
      HoldsAt(s, 13, text, k - 13);
    }
    HoldsAt(s, 13, text, 18);
    ValueEndSkips(s, 13, 31);
  }

  lemma LineFeedStatusLine(s: seq<byte>, r: Reply)
    requires r.status == 405 && r.reason == METHOD_NOT_ALLOWED && Holds(s, 0, FirstLine(r))
    ensures StatusLine(s).Ok? && StatusLine(s).next == 32 && |FirstLine(r)| == 34 <= |s| && s[32] == CR && s[33] == LF
  {
    hide Holds, Version, CString, ValueEnd;
    FirstLineHolds(r, s);
    VersionReads(s);
    DecimalThree(405);
    CStringOfNonZero(METHOD_NOT_ALLOWED);
    HoldsAt(s, 9, Decimal(405), 0);
    HoldsAt(s, 9, Decimal(405), 1);
    HoldsAt(s, 9, Decimal(405), 2);
    HoldsAt(s, 12, [SP], 0);
    LineFeedReason(s);
  }

  lemma {:induction false} CStringOfNonZero(s: seq<byte>)
    requires forall i :: 0 <= i < |s| ==> s[i] != 0
    ensures CString(s) == s
  {
    if s != [] {
      CStringOfNonZero(s[1..]);
    }
  }

  // ---------------------------------------------------------------------
  // The code

  method ParseStatusLine(s: seq<byte>, sse: bool) returns (r: Parse<Response>)
    ensures r == StatusLine(s)
  {
    hide Version, ValueEnd;
    var version := ParseHttpVersion(s, 0);
    if !version.Ok? {
      return if version.Bad? then Bad else Partial;
    }
    var pos := version.next;
    if s[pos] != SP {
      return Bad;
    }
    pos := pos + 1;
    if |s| - pos < 4 {
      return Partial;
    }
    if s[pos] < 0x30 || 0x39 < s[pos] {
      return Bad;
    }
    var status: nat := 100 * (s[pos] as int - 0x30);
    pos := pos + 1;
    if s[pos] < 0x30 || 0x39 < s[pos] {
      return Bad;
    }
    status, pos := status + 10 * (s[pos] as int - 0x30), pos + 1;
    if s[pos] < 0x30 || 0x39 < s[pos] {
      return Bad;
    }
    status, pos := status + (s[pos] as int - 0x30), pos + 1;
    if s[pos] != SP {
      return Bad;
    }
    pos := pos + 1;
    var reason := GetTokenToEol(s, pos, sse);
    match reason {
      case Bad => r := Bad;
      case Partial => r := Partial;
      case Ok(end, next) => r := Ok(Response(version.value, status, Span(pos, end), []), next);
    }
  }

  method PhrParseResponse(s: seq<byte>, max: nat, last: nat, sse: bool) returns (r: Parse<Response>)
    requires last <= |s|
    ensures r == if last == 0 || R.Complete(s, R.ScanStart(last), 0).Ok? then FullResponse(s, max)
                 else if R.Complete(s, R.ScanStart(last), 0).Bad? then Bad else Partial
  {
    hide StatusLine, Headers;
    if last != 0 {
      var complete := R.IsComplete(s, last);
      if !complete.Ok? {
        return if complete.Bad? then Bad else Partial;
      }
    }
    var line := ParseStatusLine(s, sse);
    if !line.Ok? {
      return line;
    }
    var headers := ParseHeaders(s, line.next, max, sse);
    match headers {
      case Ok(list, next) => r := Ok(line.value.(headers := list), next);
      case Bad => r := Bad;
      case Partial => r := Partial;
    }
  }

  /** snprintf behind cur, and membuf_consume of what it printed. */
  method Print(mem: Membuf, text: seq<byte>)
    requires mem.Valid() && |text| < mem.Avail()
    modifies mem, mem.begin
    ensures mem.Valid() && mem.begin == old(mem.begin) && mem.Contents() == old(mem.Contents()) + text
  {
    mem.Receive(text);
    var error := mem.Consume(|text|);
  }

  /** What is in the buffer when count of the user's headers are printed. */
  function HeadUpTo(r: Reply, count: nat): seq<byte>
    requires count <= |r.headers|
  {
    FirstLine(r) + FieldLines(StandardFields(r.bodySize) + PrintedFields(r.headers[..count]))
  }

  function HeaderText(f: Field): seq<byte> { CString(f.name) + [COLON, SP] + CString(f.value) + [CR, LF] }

  lemma HeadStart(r: Reply)
    ensures HeadUpTo(r, 0) == (FirstLine(r) + (SERVER + [COLON, SP] + PRISM + [CR, LF]))
                              + (CONTENT_LENGTH + [COLON, SP] + Decimal(r.bodySize) + [CR, LF])
  {
    hide FirstLine, Decimal;
    var server, length := Field(SERVER, PRISM), Field(CONTENT_LENGTH, Decimal(r.bodySize));
    assert r.headers[..0] == [] && StandardFields(r.bodySize) + PrintedFields([]) == [server, length];
    assert [server, length][..1] == [server] && [server][..0] == [];
    assert FieldLines([server, length]) == (FieldLines([]) + FieldLine(server)) + FieldLine(length);
  }

  lemma HeadNext(r: Reply, count: nat)
    requires count < |r.headers|
    ensures HeadUpTo(r, count + 1) == HeadUpTo(r, count) + HeaderText(r.headers[count])
  {
    hide FirstLine, StandardFields, CString;
    var f := r.headers[count];
    assert r.headers[..count + 1][..count] == r.headers[..count];
    var fields := StandardFields(r.bodySize) + PrintedFields(r.headers[..count]);
    var more := StandardFields(r.bodySize) + PrintedFields(r.headers[..count + 1]);
    assert more == fields + [Field(CString(f.name), CString(f.value))];
    assert more[..|more| - 1] == fields;
  }

  lemma HeadEnd(r: Reply)
    ensures HeadUpTo(r, |r.headers|) + [CR, LF] == Head(r, false)
  {
    assert r.headers[..|r.headers|] == r.headers;
  }

  lemma {:induction false} HeadUpToFits(r: Reply, count: nat)
    requires count <= |r.headers|
    ensures |HeadUpTo(r, count)| + 2 <= |Head(r, false)|
    decreases |r.headers| - count
  {
    hide HeadUpTo, Head;
    if count == |r.headers| {
      HeadEnd(r);
    } else {
      HeadNext(r, count);
      HeadUpToFits(r, count + 1);
    }
  }

  /** Sends the head only if it fits the buffer with a byte to spare, as the
      assertions of the source demand. */
  method SendHttpRes(mem: Membuf, r: Reply, interim: bool)
    requires mem.Valid() && mem.Contents() == [] && |Head(r, interim)| < mem.Avail()
    modifies mem, mem.begin
    ensures mem.Valid() && mem.begin == old(mem.begin) && mem.Contents() == Head(r, interim)
  {
    hide FirstLine, HeadUpTo, Decimal, FieldLines, Head;
    if interim {
      InterimHead(r);
      Print(mem, FirstLine(r));
    } else {
      HeadUpToFits(r, 0);
      HeadStart(r);
      Print(mem, FirstLine(r) + (SERVER + [COLON, SP] + PRISM + [CR, LF]));
      Print(mem, CONTENT_LENGTH + [COLON, SP] + Decimal(r.bodySize) + [CR, LF]);
      assert mem.Contents() == HeadUpTo(r, 0);
      PrintHeaders(mem, r);
      HeadEnd(r);
    }
    Print(mem, [CR, LF]);
  }

  lemma InterimHead(r: Reply)
    ensures Head(r, true) == FirstLine(r) + [CR, LF]
  {
  }

  method PrintHeaders(mem: Membuf, r: Reply)
    requires mem.Valid() && mem.Contents() == HeadUpTo(r, 0) && |Head(r, false)| < mem.cur + mem.Avail()
    modifies mem, mem.begin
    ensures mem.Valid() && mem.begin == old(mem.begin) && mem.Contents() == HeadUpTo(r, |r.headers|)
  {
    hide HeadUpTo, HeaderText, Head;
    var i := 0;
    while i < |r.headers|
      invariant 0 <= i <= |r.headers| && mem.begin == old(mem.begin)
      invariant mem.Valid() && mem.Contents() == HeadUpTo(r, i)
    {
      HeadNext(r, i);
      HeadUpToFits(r, i + 1);
      PrintHeader(mem, r.headers[i]);
      i := i + 1;
    }
  }

  method PrintHeader(mem: Membuf, f: Field)
    requires mem.Valid() && |HeaderText(f)| < mem.Avail()
    modifies mem, mem.begin
    ensures mem.Valid() && mem.begin == old(mem.begin) && mem.Contents() == old(mem.Contents()) + HeaderText(f)
  {
    Print(mem, CString(f.name) + [COLON, SP] + CString(f.value) + [CR, LF]);
  }
}
