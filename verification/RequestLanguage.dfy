/** The requests that the parser accepts: those of section 3 of RFC 7230 with
    lenient line ends, optional blanks around values, and folded lines. */
module RequestLanguage {
  import opened Bytes
  import opened HttpScan
  import opened HttpText
  import opened RequestParser
  import opened Slices

  /** A header line, or one that continues the header before it.  Blanks stand
      around the value; `cr` tells whether a CR stands before the LF. */
  datatype Line =
    | Named(name: seq<byte>, lead: seq<byte>, value: seq<byte>, trail: seq<byte>, cr: bool)
    | Folded(value: seq<byte>, trail: seq<byte>, cr: bool)

  predicate Blanks(s: seq<byte>) { forall i :: 0 <= i < |s| ==> Blank(s[i]) }

  predicate NoBlankEnd(s: seq<byte>) { s != [] ==> !Blank(s[|s| - 1]) }

  predicate BlankStart(s: seq<byte>) { s != [] && Blank(s[0]) }

  /** Blanks behind an empty value count as blanks before it. */
  predicate LineOk(line: Line, first: bool)
  {
    && ControlFree(line.value) && NoBlankEnd(line.value) && Blanks(line.trail)
    && match line
       case Named(name, lead, value, trail, _) =>
         IsToken(name) && Blanks(lead) && !BlankStart(value) && (value == [] ==> trail == [])
       case Folded(value, trail, _) => !first && BlankStart(value + trail)
  }

  predicate LinesOk(lines: seq<Line>, first: bool)
  {
    forall i :: 0 <= i < |lines| ==> LineOk(lines[i], first && i == 0)
  }

  function Eol(cr: bool): (s: seq<byte>)
    ensures |s| > 0
  {
    if cr then [CR, LF] else [LF]
  }

  function ValueText(line: Line): seq<byte> { line.value + (line.trail + Eol(line.cr)) }

  function LineText(line: Line): seq<byte>
  {
    if line.Named? then (line.name + [COLON]) + (line.lead + ValueText(line)) else ValueText(line)
  }

  function LinesText(lines: seq<Line>, cr: bool): seq<byte>
  {
    if lines == [] then Eol(cr) else LineText(lines[0]) + LinesText(lines[1..], cr)
  }

  /** What the parser makes of a line. */
  predicate Matches(s: seq<byte>, h: Header, line: Line)
  {
    && h.value.Span? && Text(s, h.value) == line.value
    && if line.Named? then h.name.Span? && Text(s, h.name) == line.name else h.name == Null
  }

  predicate ReadsLines(s: seq<byte>, r: Parse<seq<Header>>, lines: seq<Line>, next: nat)
  {
    r.Ok? && r.next == next && |r.value| == |lines| && forall i :: 0 <= i < |lines| ==> Matches(s, r.value[i], lines[i])
  }

  // ---------------------------------------------------------------------
  // Lines are read as they are

  lemma EolReads(s: seq<byte>, pos: nat, cr: bool)
    requires Holds(s, pos, Eol(cr))
    ensures pos < |s| && (s[pos] == CR || s[pos] == LF) && LineEnd(s, pos) == Ok(pos, pos + |Eol(cr)|)
  {
    HoldsAt(s, pos, Eol(cr), 0);
    if cr {
      HoldsAt(s, pos, Eol(cr), 1);
    }
  }

  lemma {:induction false} TrimSkips(s: seq<byte>, from: nat, end: nat, upto: nat)
    requires from <= end <= upto <= |s| && (forall k :: end <= k < upto ==> Blank(s[k]))
    requires from < end ==> !Blank(s[end - 1])
    ensures TrimEnd(s, from, upto) == end
    decreases upto
  {
    if end < upto {
      TrimSkips(s, from, end, upto - 1);
    }
  }

  lemma {:induction false} BlanksSkipped(s: seq<byte>, pos: nat, end: nat)
    requires pos <= end < |s| && (forall k :: pos <= k < end ==> Blank(s[k])) && !Blank(s[end])
    ensures SkipBlanks(s, pos) == end
    decreases end - pos
  {
    if pos < end {
      BlanksSkipped(s, pos + 1, end);
    }
  }

  /** The bytes of a value and of the blanks behind it. */
  lemma ValueBytes(s: seq<byte>, pos: nat, line: Line)
    requires Holds(s, pos, ValueText(line)) && ControlFree(line.value) && Blanks(line.trail)
    ensures var end := pos + |line.value|;
      var stop := end + |line.trail|;
      && stop < |s| && Holds(s, pos, line.value) && Holds(s, stop, Eol(line.cr))
      && (forall k :: pos <= k < stop ==> !ValueStop(s[k])) && (forall k :: end <= k < stop ==> Blank(s[k]))
  {
    hide Holds, LineEnd, Eol;
    var end := pos + |line.value|;
    var stop := end + |line.trail|;
    HoldsSplit(s, pos, line.value, line.trail + Eol(line.cr));
    HoldsSplit(s, end, line.trail, Eol(line.cr));
    EolReads(s, stop, line.cr);
    forall k | pos <= k < end ensures !ValueStop(s[k]) {
      HoldsAt(s, pos, line.value, k - pos);
    }
    forall k | end <= k < stop ensures !ValueStop(s[k]) && Blank(s[k]) {
      HoldsAt(s, end, line.trail, k - end);
    }
  }

  lemma ValueEndsHere(s: seq<byte>, stop: nat, cr: bool)
    requires Holds(s, stop, Eol(cr))
    ensures stop < |s| && ValueEnd(s, stop) == Ok(stop, stop + |Eol(cr)|)
  {
    hide Holds, LineEnd, Eol;
    EolReads(s, stop, cr);
  }

  lemma ValueTextReads(s: seq<byte>, pos: nat, line: Line, name: Span)
    requires Holds(s, pos, ValueText(line)) && ControlFree(line.value) && NoBlankEnd(line.value) && Blanks(line.trail)
    ensures Value(s, pos, name) == Ok(Header(name, Span(pos, pos + |line.value|)), pos + |ValueText(line)|)
    ensures Text(s, Span(pos, pos + |line.value|)) == line.value && pos < |s|
  {
    hide Holds, LineEnd, Eol, Blanks, ControlFree, ValueStop, ValueEnd, TrimEnd, Blank;
    var end := pos + |line.value|;
    var stop := end + |line.trail|;
    ValueBytes(s, pos, line);
    ValueEndsHere(s, stop, line.cr);
    HoldsFits(s, pos, line.value);
    if pos < end {
      HoldsAt(s, pos, line.value, |line.value| - 1);
    }
    ValueEndSkips(s, pos, stop);
    TrimSkips(s, pos, end, stop);
  }

  /** The first byte of a named line's value, or of its end, is no blank. */
  lemma ValueStarts(line: Line)
    requires line.Named? && LineOk(line, true)
    ensures !Blank(ValueText(line)[0])
  {
    if line.value == [] {
      assert ValueText(line) == Eol(line.cr);
    } else {
      assert ValueText(line)[0] == line.value[0];
    }
  }

  /** The blanks in front of a named line's value. */
  lemma NameGapReads(s: seq<byte>, after: nat, line: Line)
    requires line.Named? && LineOk(line, true) && Holds(s, after, line.lead + ValueText(line))
    ensures var v := after + |line.lead|; v < |s| && SkipBlanks(s, after) == v && Holds(s, v, ValueText(line))
  {
    hide Holds, ValueText, ControlFree, IsToken, SkipBlanks;
    var v := after + |line.lead|;
    HoldsSplit(s, after, line.lead, ValueText(line));
    ValueStarts(line);
    ValueTextNotEmpty(line);
    HoldsAt(s, v, ValueText(line), 0);
    forall k | after <= k < v ensures Blank(s[k]) {
      HoldsAt(s, after, line.lead, k - after);
    }
    BlanksSkipped(s, after, v);
  }

  lemma NamedReads(s: seq<byte>, pos: nat, line: Line, first: bool)
    requires Holds(s, pos, LineText(line)) && line.Named? && LineOk(line, first)
    ensures pos < |s| && s[pos] != CR && s[pos] != LF
    ensures var r := HeaderLine(s, pos, first); r.Ok? && r.next == pos + |LineText(line)| && Matches(s, r.value, line)
  {
    hide Holds, NameEnd, Value, ValueText, ControlFree, IsToken, Text, SkipBlanks;
    var after := pos + |line.name| + 1;
    HoldsSplit(s, pos, line.name + [COLON], line.lead + ValueText(line));
    NameReads(s, pos, line.name);
    NameGapReads(s, after, line);
    ValueTextReads(s, after + |line.lead|, line, Span(pos, pos + |line.name|));
  }

  lemma ValueTextNotEmpty(line: Line)
    ensures |ValueText(line)| > 0
  {
  }

  lemma FoldedReads(s: seq<byte>, pos: nat, line: Line)
    requires Holds(s, pos, LineText(line)) && line.Folded? && LineOk(line, false)
    ensures pos < |s| && s[pos] != CR && s[pos] != LF
    ensures var r := HeaderLine(s, pos, false); r.Ok? && r.next == pos + |LineText(line)| && Matches(s, r.value, line)
  {
    hide Holds, Value, ControlFree, Text;
    ValueTextReads(s, pos, line, Null);
    HoldsAt(s, pos, ValueText(line), 0);
    assert ValueText(line)[0] == (line.value + line.trail)[0];
  }

  lemma LineReads(s: seq<byte>, pos: nat, line: Line, first: bool)
    requires Holds(s, pos, LineText(line)) && LineOk(line, first)
    ensures pos < |s| && s[pos] != CR && s[pos] != LF
    ensures var r := HeaderLine(s, pos, first); r.Ok? && r.next == pos + |LineText(line)| && Matches(s, r.value, line)
  {
    hide Holds, HeaderLine, LineText, Matches;
    if line.Named? {
      NamedReads(s, pos, line, first);
    } else {
      FoldedReads(s, pos, line);
    }
  }

  lemma PushLine(s: seq<byte>, h: Header, rest: Parse<seq<Header>>, lines: seq<Line>, next: nat)
    requires lines != [] && Matches(s, h, lines[0]) && ReadsLines(s, rest, lines[1..], next)
    ensures ReadsLines(s, Push(h, rest), lines, next)
  {
    hide Matches;
    var all := [h] + rest.value;
    forall i | 0 <= i < |lines| ensures Matches(s, all[i], lines[i]) {
      if i > 0 {
        assert all[i] == rest.value[i - 1] && lines[i] == lines[1..][i - 1];
      }
    }
  }

  lemma EndReads(s: seq<byte>, pos: nat, cr: bool, count: nat, max: nat)
    requires Holds(s, pos, Eol(cr))
    ensures pos <= |s| && ReadsLines(s, Headers(s, pos, count, max), [], pos + |Eol(cr)|)
  {
    hide Holds, Eol, LineEnd;
    EolReads(s, pos, cr);
  }

  lemma LinesOkParts(lines: seq<Line>, first: bool)
    requires LinesOk(lines, first) && lines != []
    ensures LineOk(lines[0], first) && LinesOk(lines[1..], false)
  {
    hide LineOk;
    forall i | 0 <= i < |lines[1..]| ensures LineOk(lines[1..][i], false) {
      assert lines[1..][i] == lines[i + 1];
    }
  }

  lemma {:induction false} LinesRead(s: seq<byte>, pos: nat, lines: seq<Line>, cr: bool, count: nat, max: nat)
    requires Holds(s, pos, LinesText(lines, cr)) && LinesOk(lines, count == 0) && count + |lines| <= max
    ensures pos <= |s| && ReadsLines(s, Headers(s, pos, count, max), lines, pos + |LinesText(lines, cr)|)
    decreases |lines|
  {
    hide HeaderLine, Holds, LineText, LineOk, LinesOk, ReadsLines, LineEnd, Headers, LinesText, Matches, Eol;
    LinesTextStep(lines, cr);
    if lines == [] {
      EndReads(s, pos, cr, count, max);
    } else {
      var line, rest := lines[0], lines[1..];
      var next := pos + |LineText(line)|;
      LinesOkParts(lines, count == 0);
      HoldsSplit(s, pos, LineText(line), LinesText(rest, cr));
      LineReads(s, pos, line, count == 0);
      LinesRead(s, next, rest, cr, count + 1, max);
      HeadersStep(s, pos, count, max);
      PushLine(s, HeaderLine(s, pos, count == 0).value, Headers(s, next, count + 1, max), lines,
               pos + |LinesText(lines, cr)|);
    }
  }

  lemma LinesTextStep(lines: seq<Line>, cr: bool)
    ensures LinesText(lines, cr) == if lines == [] then Eol(cr) else LineText(lines[0]) + LinesText(lines[1..], cr)
  {
  }

  // ---------------------------------------------------------------------
  // Nothing else is read as lines

  lemma LineEndIsEol(s: seq<byte>, pos: nat) returns (cr: bool)
    requires pos < |s| && LineEnd(s, pos).Ok?
    ensures LineEnd(s, pos).next == pos + |Eol(cr)| && s[pos..LineEnd(s, pos).next] == Eol(cr)
  {
    cr := s[pos] == CR;
  }

  lemma {:induction false} TrimmedAreBlank(s: seq<byte>, from: nat, upto: nat)
    requires from <= upto <= |s|
    ensures forall k :: TrimEnd(s, from, upto) <= k < upto ==> Blank(s[k])
    decreases upto
  {
    if from < upto && Blank(s[upto - 1]) {
      TrimmedAreBlank(s, from, upto - 1);
    }
  }

  lemma {:induction false} SkippedAreBlank(s: seq<byte>, pos: nat)
    requires pos <= |s|
    ensures forall k :: pos <= k < SkipBlanks(s, pos) ==> Blank(s[k])
    decreases |s| - pos
  {
    if pos < |s| && Blank(s[pos]) {
      SkippedAreBlank(s, pos + 1);
    }
  }

  lemma {:induction false} ValueEndsInEol(s: seq<byte>, pos: nat)
    requires pos <= |s| && ValueEnd(s, pos).Ok?
    ensures var e := ValueEnd(s, pos); e.value < |s| && LineEnd(s, e.value) == e
    decreases |s| - pos
  {
    if !ValueStop(s[pos]) {
      ValueEndsInEol(s, pos + 1);
    }
  }

  /** Value, blanks and line end from pos on. */
  lemma ValueOf(s: seq<byte>, pos: nat, name: Span) returns (value: seq<byte>, trail: seq<byte>, cr: bool)
    requires pos <= |s| && Value(s, pos, name).Ok?
    ensures s[pos..Value(s, pos, name).next] == value + (trail + Eol(cr))
    ensures ControlFree(value) && NoBlankEnd(value) && Blanks(trail)
    ensures value == [] && trail != [] ==> Blank(s[pos])
  {
    hide ValueEnd, TrimEnd, LineEnd, Eol;
    var line := ValueEnd(s, pos);
    var e := TrimEnd(s, pos, line.value);
    ValueIsControlFree(s, pos);
    ValueEndsInEol(s, pos);
    TrimEndTrims(s, pos, line.value);
    TrimmedAreBlank(s, pos, line.value);
    cr := LineEndIsEol(s, line.value);
    value, trail := s[pos..e], s[e..line.value];
    assert s[pos..line.next] == s[pos..e] + (s[e..line.value] + s[line.value..line.next]);
  }

  lemma NamedOf(s: seq<byte>, pos: nat, first: bool) returns (line: Line)
    requires pos < |s| && HeaderLine(s, pos, first).Ok? && (first || !Blank(s[pos]))
    ensures LineOk(line, first) && s[pos..HeaderLine(s, pos, first).next] == LineText(line)
  {
    hide NameEnd, Value, SkipBlanks, Eol, ControlFree;
    var name := NameEnd(s, pos);
    var v := SkipBlanks(s, name.next);
    NameIsToken(s, pos);
    NameEndsInColon(s, pos);
    SkippedAreBlank(s, name.next);
    SkipBlanksSkips(s, name.next);
    ValueNotAtEnd(s, v, Span(pos, name.value));
    var value, trail, cr := ValueOf(s, v, Span(pos, name.value));
    var next := HeaderLine(s, pos, first).next;
    line := Named(s[pos..name.value], s[name.next..v], value, trail, cr);
    assert value != [] ==> value[0] == s[v..next][0] == s[v];
    Pieces(s, pos, name.value, name.next, v, next);
  }

  lemma Pieces(s: seq<byte>, a: nat, b: nat, c: nat, d: nat, e: nat)
    requires a <= b && b + 1 == c <= d <= e <= |s| && s[b] == COLON
    ensures s[a..e] == (s[a..b] + [COLON]) + (s[c..d] + s[d..e])
  {
  }

  lemma {:induction false} NameEndsInColon(s: seq<byte>, pos: nat)
    requires pos <= |s| && NameEnd(s, pos).Ok?
    ensures var e := NameEnd(s, pos); s[e.value] == COLON && e.next == e.value + 1
    decreases |s| - pos
  {
    if s[pos] != COLON {
      NameEndsInColon(s, pos + 1);
    }
  }

  lemma ValueNotAtEnd(s: seq<byte>, pos: nat, name: Span)
    requires pos <= |s| && Value(s, pos, name).Ok?
    ensures pos < |s|
  {
  }

  lemma FoldedOf(s: seq<byte>, pos: nat) returns (line: Line)
    requires pos < |s| && HeaderLine(s, pos, false).Ok? && Blank(s[pos])
    ensures LineOk(line, false) && s[pos..HeaderLine(s, pos, false).next] == LineText(line)
  {
    hide Value, ControlFree;
    var value, trail, cr := ValueOf(s, pos, Null);
    line := Folded(value, trail, cr);
    var next := HeaderLine(s, pos, false).next;
    assert s[pos..next][0] == s[pos];
    assert (value + (trail + Eol(cr)))[0] == (value + trail)[0];
  }

  /** Every header list that is accepted is the text of such lines. */
  lemma {:induction false} LinesOf(s: seq<byte>, pos: nat, count: nat, max: nat) returns (lines: seq<Line>, cr: bool)
    requires pos <= |s| && Headers(s, pos, count, max).Ok?
    ensures LinesOk(lines, count == 0) && s[pos..Headers(s, pos, count, max).next] == LinesText(lines, cr)
    ensures |lines| == |Headers(s, pos, count, max).value|
    decreases |s| - pos
  {
    hide HeaderLine, LineOk, LineText, LineEnd, Eol;
    if s[pos] == CR || s[pos] == LF {
      lines := [];
      cr := LineEndIsEol(s, pos);
    } else {
      var h := HeaderLine(s, pos, count == 0);
      var line;
      if count != 0 && Blank(s[pos]) {
        line := FoldedOf(s, pos);
      } else {
        line := NamedOf(s, pos, count == 0);
      }
      var rest;
      rest, cr := LinesOf(s, h.next, count + 1, max);
      lines := [line] + rest;
      assert lines[1..] == rest;
      var end := Headers(s, h.next, count + 1, max).next;
      assert s[pos..end] == s[pos..h.next] + s[h.next..end];
    }
  }

  // ---------------------------------------------------------------------
  // Whole requests

  /** A method or request target: no space and no control byte. */
  predicate Word(s: seq<byte>) { s != [] && forall i :: 0 <= i < |s| ==> s[i] != SP && !Control(s[i]) }

  /** An empty line may precede the request line. */
  datatype Lead = NoLead | EmptyLine(cr: bool)

  /** A request with the line ends of its request line and of its end. */
  datatype RequestText = RequestText(lead: Lead, verb: seq<byte>, path: seq<byte>, minor: nat, cr: bool,
                                     lines: seq<Line>, endCr: bool)

  predicate RequestOk(t: RequestText) { Word(t.verb) && Word(t.path) && t.minor < 10 && LinesOk(t.lines, true) }

  function LeadText(lead: Lead): seq<byte> { if lead.NoLead? then [] else Eol(lead.cr) }

  function VersionText(minor: nat, cr: bool): seq<byte>
    requires minor < 10
  {
    HTTP1 + ([0x30 + minor] + Eol(cr))
  }

  function LineOneText(t: RequestText): seq<byte>
    requires t.minor < 10
  {
    (t.verb + [SP]) + ((t.path + [SP]) + VersionText(t.minor, t.cr))
  }

  function HeadText(t: RequestText): seq<byte>
    requires t.minor < 10
  {
    LeadText(t.lead) + (LineOneText(t) + LinesText(t.lines, t.endCr))
  }

  /** The parser's result has the contents of t and consumes exactly its text. */
  predicate Parsed(s: seq<byte>, r: Parse<Request>, t: RequestText)
    requires t.minor < 10
  {
    && r.Ok? && r.next == |HeadText(t)| && r.value.minor == t.minor
    && Text(s, r.value.verb) == t.verb && Text(s, r.value.path) == t.path
    && ReadsLines(s, Ok(r.value.headers, r.next), t.lines, r.next)
  }

  lemma WordReads(s: seq<byte>, pos: nat, word: seq<byte>)
    requires Holds(s, pos, word + [SP]) && Word(word)
    ensures Token(s, pos) == Ok(pos + |word|, pos + |word| + 1)
    ensures |word| > 0 && Text(s, Span(pos, pos + |word|)) == word
    ensures s[pos] != CR && s[pos] != LF
  {
    HoldsSplit(s, pos, word, [SP]);
    forall k | pos <= k < pos + |word| ensures s[k] != SP && !Control(s[k]) {
      HoldsAt(s, pos, word, k - pos);
    }
    HoldsAt(s, pos + |word|, [SP], 0);
    TokenSkips(s, pos, pos + |word|);
  }

  lemma VersionReads(s: seq<byte>, pos: nat, minor: nat, cr: bool)
    requires minor < 10 && Holds(s, pos, VersionText(minor, cr))
    ensures pos <= |s| && VersionLine(s, pos) == Ok(minor, pos + |VersionText(minor, cr)|)
  {
    hide LineEnd, Eol;
    HoldsSplit(s, pos, HTTP1, [0x30 + minor] + Eol(cr));
    HoldsSplit(s, pos + 7, [0x30 + minor], Eol(cr));
    HoldsAt(s, pos + 7, [0x30 + minor], 0);
    EolReads(s, pos + 8, cr);
  }

  lemma LineOneReads(s: seq<byte>, pos: nat, t: RequestText)
    requires RequestOk(t) && Holds(s, pos, LineOneText(t))
    ensures pos < |s| && s[pos] != CR && s[pos] != LF
    ensures var r := RequestLine(s, pos);
      && r.Ok? && r.next == pos + |LineOneText(t)| && r.value.minor == t.minor
      && Text(s, r.value.verb) == t.verb && Text(s, r.value.path) == t.path
  {
    hide Word, Holds, Token, VersionLine, Text, VersionText, LinesOk;
    HoldsSlice(s, pos, LineOneText(t));
    HoldsSplit(s, pos, t.verb + [SP], (t.path + [SP]) + VersionText(t.minor, t.cr));
    HoldsSplit(s, pos + |t.verb| + 1, t.path + [SP], VersionText(t.minor, t.cr));
    WordReads(s, pos, t.verb);
    WordReads(s, pos + |t.verb| + 1, t.path);
    VersionReads(s, pos + |t.verb| + |t.path| + 2, t.minor, t.cr);
  }

  lemma LeadReads(s: seq<byte>, lead: Lead)
    requires Holds(s, 0, LeadText(lead))
    requires lead.NoLead? ==> s != [] && s[0] != CR && s[0] != LF
    ensures FirstLine(s).Ok? && FirstLine(s).next == |LeadText(lead)|
  {
    hide LineEnd, Eol;
    if lead.EmptyLine? {
      EolReads(s, 0, lead.cr);
    }
  }

  /** Every request is accepted, as what it says, up to its last byte and no
      further. */
  lemma Accepted(t: RequestText, rest: seq<byte>, max: nat)
    requires RequestOk(t) && |t.lines| <= max
    ensures Parsed(HeadText(t) + rest, FullParse(HeadText(t) + rest, max), t)
  {
    hide Word, Holds, RequestLine, LineOneText, Headers, LinesText, LinesOk, ReadsLines, Text, FirstLine, LeadText;
    var lead, line, lines := LeadText(t.lead), LineOneText(t), LinesText(t.lines, t.endCr);
    var s := HeadText(t) + rest;
    HoldsWhole(HeadText(t), rest);
    HoldsSplit(s, 0, lead, line + lines);
    HoldsSplit(s, |lead|, line, lines);
    LineOneReads(s, |lead|, t);
    NoLeadText(t.lead);
    LeadReads(s, t.lead);
    LinesRead(s, |lead| + |line|, t.lines, t.endCr, 0, max);
    SameHeaders(s, Headers(s, |lead| + |line|, 0, max), t.lines, |HeadText(t)|);
  }

  lemma NoLeadText(lead: Lead)
    ensures lead.NoLead? ==> LeadText(lead) == []
  {
  }

  lemma SameHeaders(s: seq<byte>, r: Parse<seq<Header>>, lines: seq<Line>, next: nat)
    requires ReadsLines(s, r, lines, next)
    ensures r.Ok? && r.next == next && ReadsLines(s, Ok(r.value, next), lines, next)
  {
  }

  lemma {:induction false} TokenIsWord(s: seq<byte>, pos: nat)
    requires pos <= |s| && Token(s, pos).Ok?
    ensures forall k :: pos <= k < Token(s, pos).value ==> s[k] != SP && !Control(s[k])
    ensures var e := Token(s, pos); s[e.value] == SP && e.next == e.value + 1
    decreases |s| - pos
  {
    if s[pos] != SP {
      TokenIsWord(s, pos + 1);
    }
  }

  lemma VersionOf(s: seq<byte>, pos: nat) returns (cr: bool)
    requires pos <= |s| && VersionLine(s, pos).Ok?
    ensures var r := VersionLine(s, pos); r.value < 10 && s[pos..r.next] == VersionText(r.value, cr)
  {
    hide LineEnd, Eol;
    var r := VersionLine(s, pos);
    cr := LineEndIsEol(s, pos + 8);
    assert s[pos..r.next] == s[pos..pos + 7] + ([s[pos + 7]] + s[pos + 8..r.next]);
  }

  lemma LineOneOf(s: seq<byte>, pos: nat) returns (t: RequestText)
    requires pos <= |s| && RequestLine(s, pos).Ok?
    ensures RequestOk(t) && t.lines == [] && t.lead == NoLead
    ensures s[pos..RequestLine(s, pos).next] == LineOneText(t)
  {
    hide Token, VersionLine, VersionText;
    var verb := Token(s, pos);
    var path := Token(s, verb.next);
    TokenIsWord(s, pos);
    TokenIsWord(s, verb.next);
    var cr := VersionOf(s, path.next);
    var end := VersionLine(s, path.next);
    t := RequestText(NoLead, s[pos..verb.value], s[verb.next..path.value], end.value, cr, [], false);
    TwoWords(s, pos, verb.value, path.value, end.next);
  }

  lemma TwoWords(s: seq<byte>, a: nat, b: nat, c: nat, d: nat)
    requires a <= b && b + 1 <= c && c + 1 <= d <= |s| && s[b] == SP && s[c] == SP
    ensures s[a..d] == (s[a..b] + [SP]) + ((s[b + 1..c] + [SP]) + s[c + 1..d])
  {
  }

  lemma LeadOf(s: seq<byte>) returns (lead: Lead)
    requires FirstLine(s).Ok?
    ensures s[..FirstLine(s).next] == LeadText(lead)
  {
    hide LineEnd, Eol;
    if s[0] == CR || s[0] == LF {
      var cr := LineEndIsEol(s, 0);
      lead := EmptyLine(cr);
      assert s[..FirstLine(s).next] == s[0..FirstLine(s).next];
    } else {
      lead := NoLead;
    }
  }

  /** Only requests are accepted: the bytes consumed are the text of one with at
      most max header lines. */
  lemma OnlyRequests(s: seq<byte>, max: nat) returns (t: RequestText)
    requires FullParse(s, max).Ok?
    ensures RequestOk(t) && |t.lines| <= max
    ensures s[..FullParse(s, max).next] == HeadText(t) && Parsed(s, FullParse(s, max), t)
  {
    hide RequestLine, Headers, FirstLine, LineOneText, LinesText, LeadText, Word, LinesOk, Parsed;
    var r := FullParse(s, max);
    var pos := FirstLine(s).next;
    var lead := LeadOf(s);
    var one := LineOneOf(s, pos);
    var line := RequestLine(s, pos);
    HeadersAreFields(s, line.next, 0, max);
    var lines, cr := LinesOf(s, line.next, 0, max);
    t := one.(lead := lead, lines := lines, endCr := cr);
    SameLineOne(one, t);
    assert s[..r.next] == s[..pos] + (s[pos..line.next] + s[line.next..r.next]);
    assert s == HeadText(t) + s[r.next..];
    Accepted(t, s[r.next..], max);
  }

  lemma SameLineOne(one: RequestText, t: RequestText)
    requires one.minor < 10 && t == one.(lead := t.lead, lines := t.lines, endCr := t.endCr)
    ensures LineOneText(t) == LineOneText(one)
  {
  }
}
