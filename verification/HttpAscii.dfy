/** Requests and byte classes written as text and as numbers, with nothing of the
    parser's own tables: what the classes of HttpScan have to be. */
module HttpAscii {
  import opened Bytes
  import opened HttpScan
  import opened HttpText
  import opened RequestParser
  import opened RequestLanguage
  import opened Slices

  function Code(c: char): byte { if c as int < 0x80 then c as int else 0 }

  function Ascii(text: string): (s: seq<byte>)
    ensures |s| == |text| && forall i :: 0 <= i < |s| ==> s[i] == Code(text[i])
  {
    seq(|text|, i requires 0 <= i < |text| => Code(text[i]))
  }

  /** A digit, a letter or one of the fifteen other characters of a name. */
  predicate NameByte(b: byte)
  {
    || Code('0') <= b <= Code('9') || Code('A') <= b <= Code('Z') || Code('a') <= b <= Code('z')
    || (b < 0x80 && b as char in "!#$%&'*+-.^_`|~")
  }

  predicate ControlByte(b: byte) { b < 32 || b == 127 }

  /** A value may have tabs in it. */
  predicate ValueByte(b: byte) { b == 9 || !ControlByte(b) }

  lemma NameBytesAre(b: byte)
    ensures TokenChar(b) <==> NameByte(b)
    ensures Control(b) <==> ControlByte(b)
    ensures ValueStop(b) <==> !ValueByte(b)
    ensures Blank(b) <==> b == Code(' ') || b == Code('\t')
  {
    var others := "!#$%&'*+-.^_`|~";
    assert others[0] == '!' && others[1] == '#' && others[2] == '$' && others[3] == '%' && others[4] == '&';
    assert others[5] == '\'' && others[6] == '*' && others[7] == '+' && others[8] == '-' && others[9] == '.';
    assert others[10] == '^' && others[11] == '_' && others[12] == '`' && others[13] == '|' && others[14] == '~';
  }

  // ---------------------------------------------------------------------
  // One byte at a time, through the parser

  /** A header line whose name is one byte is accepted exactly for the bytes of a
      name, and for no other byte. */
  lemma OneByteName(b: byte, v: seq<byte>)
    requires forall i :: 0 <= i < |v| ==> ValueByte(v[i])
    ensures var r := HeaderLine([b] + Ascii(":") + v + Ascii("\r\n"), 0, true);
      && (r.Ok? <==> NameByte(b)) && (r.Bad? <==> !NameByte(b))
      && (r.Ok? ==> r.value.name == Span(0, 1) && r.next == |v| + 4)
  {
    var s := [b] + Ascii(":") + v + Ascii("\r\n");
    assert s[0] == b && s[1] == 0x3a && s[|v| + 2] == 0x0d && s[|v| + 3] == 0x0a;
    NameBytesAre(b);
    if NameByte(b) {
      assert NameEnd(s, 1) == Ok(1, 2) && NameEnd(s, 0) == NameEnd(s, 1);
      forall k | 2 <= k < |v| + 2 ensures !ValueStop(s[k]) {
        assert s[k] == v[k - 2];
        NameBytesAre(s[k]);
      }
      BlanksEnd(s, 2, |v| + 2);
      ValueEndSkips(s, SkipBlanks(s, 2), |v| + 2);
    }
  }

  lemma {:induction false} BlanksEnd(s: seq<byte>, pos: nat, end: nat)
    requires pos <= end < |s| && !Blank(s[end])
    ensures pos <= SkipBlanks(s, pos) <= end
    decreases end - pos
  {
    if pos < end && Blank(s[pos]) {
      BlanksEnd(s, pos + 1, end);
    }
  }

  /** Where a method or a path ends, and what it must not contain. */
  lemma OneByteToken(b: byte)
    ensures Token([b] + Ascii(" "), 0) == if b == 32 then Ok(0, 1) else if ControlByte(b) then Bad else Ok(1, 2)
  {
    var s := [b] + Ascii(" ");
    assert s[0] == b && s[1] == 32;
  }

  /** Where a value ends, what it must not contain, and what is cut off behind it. */
  lemma OneByteValue(b: byte)
    ensures Value([b] + Ascii("\r\n"), 0, Null) ==
      if b == 10 then Ok(Header(Null, Span(0, 0)), 1)
      else if b == 9 || b == 32 then Ok(Header(Null, Span(0, 0)), 3)
      else if ControlByte(b) then Bad
      else Ok(Header(Null, Span(0, 1)), 3)
  {
    var s := [b] + Ascii("\r\n");
    assert s[0] == b && s[1] == 13 && s[2] == 10;
    NameBytesAre(b);
    assert ValueEnd(s, 1) == Ok(1, 3);
    if ValueByte(b) {
      assert ValueEnd(s, 0) == ValueEnd(s, 1);
      assert TrimEnd(s, 0, 1) == if Blank(b) then TrimEnd(s, 0, 0) else 1;
    } else {
      assert ValueEnd(s, 0) == LineEnd(s, 0);
    }
  }

  // ---------------------------------------------------------------------
  // Whole requests

  predicate PlainWord(s: seq<byte>) { s != [] && forall i :: 0 <= i < |s| ==> s[i] != 32 && !ControlByte(s[i]) }

  predicate PlainField(f: Field)
  {
    && f.name != [] && (forall i :: 0 <= i < |f.name| ==> NameByte(f.name[i]))
    && (forall i :: 0 <= i < |f.value| ==> ValueByte(f.value[i]))
    && (f.value != [] ==>
          var first, last := f.value[0], f.value[|f.value| - 1];
          first != 32 && first != 9 && last != 32 && last != 9)
  }

  function FieldsAscii(fields: seq<Field>): seq<byte>
  {
    if fields == [] then Ascii("\r\n")
    else fields[0].name + Ascii(": ") + fields[0].value + Ascii("\r\n") + FieldsAscii(fields[1..])
  }

  function RequestAscii(verb: seq<byte>, path: seq<byte>, minor: byte, fields: seq<Field>): seq<byte>
  {
    verb + Ascii(" ") + path + Ascii(" HTTP/1.") + [minor] + Ascii("\r\n") + FieldsAscii(fields)
  }

  function LineOf(f: Field): Line { Named(f.name, Ascii(" "), f.value, [], true) }

  function LinesFor(fields: seq<Field>): (lines: seq<Line>)
    ensures |lines| == |fields| && forall i :: 0 <= i < |lines| ==> lines[i] == LineOf(fields[i])
  {
    if fields == [] then [] else [LineOf(fields[0])] + LinesFor(fields[1..])
  }

  lemma PlainIsOk(f: Field)
    requires PlainField(f)
    ensures LineOk(LineOf(f), true) && LineOk(LineOf(f), false)
  {
    forall i | 0 <= i < |f.name| ensures TokenChar(f.name[i]) { NameBytesAre(f.name[i]); }
    forall i | 0 <= i < |f.value| ensures !ValueStop(f.value[i]) { NameBytesAre(f.value[i]); }
    if f.value != [] {
      NameBytesAre(f.value[0]);
      NameBytesAre(f.value[|f.value| - 1]);
    }
    NameBytesAre(32);
    assert Ascii(" ")[0] == 32;
  }

  lemma FieldAscii(f: Field)
    ensures LineText(LineOf(f)) == f.name + Ascii(": ") + f.value + Ascii("\r\n")
  {
    assert Ascii(": ") == [COLON] + Ascii(" ") && Ascii("\r\n") == [CR, LF];
    assert [] + Eol(true) == [CR, LF];
  }

  lemma {:induction false} FieldsAsciiIs(fields: seq<Field>)
    ensures LinesText(LinesFor(fields), true) == FieldsAscii(fields)
  {
    hide LineText, LineOf;
    if fields == [] {
      assert Ascii("\r\n") == [CR, LF];
    } else {
      FieldAscii(fields[0]);
      FieldsAsciiIs(fields[1..]);
      assert LinesFor(fields)[1..] == LinesFor(fields[1..]);
    }
  }

  lemma RequestAsciiIs(verb: seq<byte>, path: seq<byte>, digit: nat, fields: seq<Field>)
    requires digit < 10
    ensures HeadText(RequestText(NoLead, verb, path, digit, true, LinesFor(fields), true))
         == RequestAscii(verb, path, Code('0') + digit, fields)
  {
    hide LinesText, FieldsAscii, LinesFor;
    FieldsAsciiIs(fields);
    var rest := FieldsAscii(fields);
    assert Ascii(" ") == [SP] && Ascii(" HTTP/1.") == [SP] + HTTP1 && Ascii("\r\n") == [CR, LF];
    assert RequestAscii(verb, path, 0x30 + digit, fields)
        == ((verb + [SP]) + ((path + [SP]) + (HTTP1 + ([0x30 + digit] + [CR, LF])))) + rest;
  }

  /** Every request that is written in this way, with whatever behind it, is read as
      it is written, up to its last byte. */
  lemma RequestRead(verb: seq<byte>, path: seq<byte>, digit: nat, fields: seq<Field>, rest: seq<byte>, max: nat)
    requires PlainWord(verb) && PlainWord(path) && digit < 10 && |fields| <= max
    requires forall i :: 0 <= i < |fields| ==> PlainField(fields[i])
    ensures var head := RequestAscii(verb, path, Code('0') + digit, fields);
      var s, r := head + rest, FullParse(head + rest, max);
      && r.Ok? && r.next == |head| && r.value.minor == digit
      && Text(s, r.value.verb) == verb && Text(s, r.value.path) == path && |r.value.headers| == |fields|
      && forall i :: 0 <= i < |fields| ==>
           Text(s, r.value.headers[i].name) == fields[i].name && Text(s, r.value.headers[i].value) == fields[i].value
  {
    hide HeadText, FullParse, LineOk, Text;
    var t := RequestText(NoLead, verb, path, digit, true, LinesFor(fields), true);
    forall i | 0 <= i < |verb| ensures verb[i] != SP && !Control(verb[i]) { NameBytesAre(verb[i]); }
    forall i | 0 <= i < |path| ensures path[i] != SP && !Control(path[i]) { NameBytesAre(path[i]); }
    forall i | 0 <= i < |fields| ensures LineOk(LineOf(fields[i]), i == 0) { PlainIsOk(fields[i]); }
    RequestAsciiIs(verb, path, digit, fields);
    Accepted(t, rest, max);
    var s, r := HeadText(t) + rest, FullParse(HeadText(t) + rest, max);
    forall i | 0 <= i < |fields|
      ensures Text(s, r.value.headers[i].name) == fields[i].name && Text(s, r.value.headers[i].value) == fields[i].value
    {
      assert Matches(s, r.value.headers[i], t.lines[i]);
    }
  }
}
