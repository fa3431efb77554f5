/** Header fields as text (section 3.2 of RFC 7230), and how header parsing
    relates to it: printed fields are read back, and whatever is read is well
    formed. */
module HttpText {
  import opened Bytes
  import opened HttpScan
  import opened Slices

  datatype Field = Field(name: seq<byte>, value: seq<byte>)

  predicate ControlFree(s: seq<byte>) { forall i :: 0 <= i < |s| ==> !ValueStop(s[i]) }

  predicate Trimmed(s: seq<byte>) { s != [] ==> !Blank(s[0]) && !Blank(s[|s| - 1]) }

  predicate IsToken(s: seq<byte>) { s != [] && forall i :: 0 <= i < |s| ==> TokenChar(s[i]) }

  predicate FieldOk(f: Field) { IsToken(f.name) && ControlFree(f.value) && Trimmed(f.value) }

  predicate FieldsOk(fields: seq<Field>) { forall i :: 0 <= i < |fields| ==> FieldOk(fields[i]) }

  function FieldLine(f: Field): seq<byte> { f.name + [COLON, SP] + f.value + [CR, LF] }

  function FieldLines(fields: seq<Field>): seq<byte>
  {
    if fields == [] then [] else FieldLines(fields[..|fields| - 1]) + FieldLine(fields[|fields| - 1])
  }

  // ---------------------------------------------------------------------
  // Text at a position

  /** The text a pointer and a length stand for. */
  function Text(s: seq<byte>, span: Span): seq<byte>
  {
    if span.Span? && span.from <= span.to <= |s| then s[span.from..span.to] else []
  }

  function FieldOf(s: seq<byte>, h: Header): Field { Field(Text(s, h.name), Text(s, h.value)) }

  function FieldsOf(s: seq<byte>, headers: seq<Header>): (fields: seq<Field>)
    ensures |fields| == |headers|
  {
    if headers == [] then [] else [FieldOf(s, headers[0])] + FieldsOf(s, headers[1..])
  }

  // ---------------------------------------------------------------------
  // What is printed is read back

  lemma ValueReads(s: seq<byte>, pos: nat, value: seq<byte>)
    requires Holds(s, pos, value + [CR, LF]) && ControlFree(value)
    ensures ValueEnd(s, pos) == Ok(pos + |value|, pos + |value| + 2)
  {
    HoldsSplit(s, pos, value, [CR, LF]);
    forall k | pos <= k < pos + |value| ensures !ValueStop(s[k]) {
      HoldsAt(s, pos, value, k - pos);
    }
    HoldsAt(s, pos + |value|, [CR, LF], 0);
    HoldsAt(s, pos + |value|, [CR, LF], 1);
    ValueEndSkips(s, pos, pos + |value|);
  }

  lemma NameReads(s: seq<byte>, pos: nat, name: seq<byte>)
    requires Holds(s, pos, name + [COLON]) && IsToken(name)
    ensures NameEnd(s, pos) == Ok(pos + |name|, pos + |name| + 1)
    ensures TokenChar(s[pos]) && |name| > 0 && Text(s, Span(pos, pos + |name|)) == name
  {
    HoldsSplit(s, pos, name, [COLON]);
    forall k | pos <= k < pos + |name| ensures TokenChar(s[k]) {
      HoldsAt(s, pos, name, k - pos);
    }
    HoldsAt(s, pos + |name|, [COLON], 0);
    NameEndSkips(s, pos, pos + |name|);
  }

  lemma TrimmedReads(s: seq<byte>, pos: nat, value: seq<byte>)
    requires Holds(s, pos, [SP] + value + [CR, LF]) && ControlFree(value) && Trimmed(value)
    ensures SkipBlanks(s, pos) == pos + 1
    ensures TrimEnd(s, pos + 1, pos + 1 + |value|) == pos + 1 + |value|
  {
    hide Holds, ControlFree;
    var text := [SP] + value + [CR, LF];
    assert text[0] == SP && text[1] == (if value == [] then CR else value[0]);
    assert value != [] ==> text[|value|] == value[|value| - 1];
    HoldsSplit(s, pos, [SP] + value, [CR, LF]);
    HoldsAt(s, pos, text, 0);
    HoldsAt(s, pos, text, 1);
    HoldsAt(s, pos, text, |value|);
    HoldsFits(s, pos, text);
    assert SkipBlanks(s, pos + 1) == pos + 1;
  }

  lemma HoldsFits(s: seq<byte>, pos: nat, text: seq<byte>)
    requires Holds(s, pos, text)
    ensures pos + |text| <= |s| && Text(s, Span(pos, pos + |text|)) == text
  {
  }

  lemma FieldValueReads(s: seq<byte>, pos: nat, value: seq<byte>, name: Span)
    requires Holds(s, pos, [SP] + value + [CR, LF]) && ControlFree(value) && Trimmed(value)
    ensures pos < |s| && Value(s, SkipBlanks(s, pos), name)
         == Ok(Header(name, Span(pos + 1, pos + 1 + |value|)), pos + |value| + 3)
    ensures Text(s, Span(pos + 1, pos + 1 + |value|)) == value
  {
    hide ValueEnd, SkipBlanks, TrimEnd, Holds, ControlFree, Trimmed;
    TrimmedReads(s, pos, value);
    assert [SP] + value + [CR, LF] == [SP] + (value + [CR, LF]);
    HoldsSplit(s, pos, [SP], value + [CR, LF]);
    ValueReads(s, pos + 1, value);
    HoldsSplit(s, pos + 1, value, [CR, LF]);
    HoldsFits(s, pos + 1, value);
    HoldsFits(s, pos + 1, value + [CR, LF]);
  }

  lemma FieldReads(s: seq<byte>, pos: nat, f: Field, first: bool)
    requires Holds(s, pos, FieldLine(f)) && FieldOk(f)
    ensures pos < |s| && s[pos] != CR && s[pos] != LF
    ensures var r := HeaderLine(s, pos, first);
      r.Ok? && r.next == pos + |FieldLine(f)| && r.value.name.Span? && FieldOf(s, r.value) == f
  {
    hide NameEnd, Value, SkipBlanks, Holds, ControlFree, IsToken, Trimmed, Text;
    assert FieldLine(f) == (f.name + [COLON]) + ([SP] + f.value + [CR, LF]);
    HoldsSplit(s, pos, f.name + [COLON], [SP] + f.value + [CR, LF]);
    HoldsFits(s, pos, FieldLine(f));
    NameReads(s, pos, f.name);
    FieldValueReads(s, pos + |f.name| + 1, f.value, Span(pos, pos + |f.name|));
  }

  function LinesFrom(fields: seq<Field>): seq<byte>
  {
    if fields == [] then [CR, LF] else FieldLine(fields[0]) + LinesFrom(fields[1..])
  }

  lemma {:induction false} LinesFromIsFieldLines(before: seq<Field>, fields: seq<Field>)
    ensures FieldLines(before) + LinesFrom(fields) == FieldLines(before + fields) + [CR, LF]
    decreases |fields|
  {
    if fields == [] {
      assert before + fields == before;
    } else {
      var more := before + [fields[0]];
      LinesFromIsFieldLines(more, fields[1..]);
      assert more[..|more| - 1] == before && more + fields[1..] == before + fields;
      assert (FieldLines(before) + FieldLine(fields[0])) + LinesFrom(fields[1..])
          == FieldLines(before) + (FieldLine(fields[0]) + LinesFrom(fields[1..]));
    }
  }

  /** Headers were read up to next, each with a name, and they are these fields. */
  predicate ReadsAs(s: seq<byte>, r: Parse<seq<Header>>, fields: seq<Field>, next: nat)
  {
    && r.Ok? && r.next == next && FieldsOf(s, r.value) == fields
    && forall i :: 0 <= i < |r.value| ==> r.value[i].name.Span?
  }

  lemma PushReads(s: seq<byte>, h: Header, rest: Parse<seq<Header>>, fields: seq<Field>, next: nat)
    requires fields != [] && h.name.Span? && FieldOf(s, h) == fields[0] && ReadsAs(s, rest, fields[1..], next)
    ensures ReadsAs(s, Push(h, rest), fields, next)
  {
    hide FieldOf;
    assert ([h] + rest.value)[1..] == rest.value;
    assert fields == [fields[0]] + fields[1..];
  }

  lemma FieldsOkParts(fields: seq<Field>)
    requires FieldsOk(fields) && fields != []
    ensures FieldOk(fields[0]) && FieldsOk(fields[1..])
  {
  }

  lemma EmptyLineReads(s: seq<byte>, pos: nat, count: nat, max: nat)
    requires Holds(s, pos, [CR, LF])
    ensures ReadsAs(s, Headers(s, pos, count, max), [], pos + 2)
  {
    HoldsAt(s, pos, [CR, LF], 0);
    HoldsAt(s, pos, [CR, LF], 1);
  }

  lemma {:induction false} FieldsRead(s: seq<byte>, pos: nat, fields: seq<Field>, count: nat, max: nat)
    requires Holds(s, pos, LinesFrom(fields)) && FieldsOk(fields) && count + |fields| <= max
    ensures pos <= |s| && ReadsAs(s, Headers(s, pos, count, max), fields, pos + |LinesFrom(fields)|)
    decreases |fields|
  {
    hide HeaderLine, Holds, FieldLine, FieldOk, FieldsOk, FieldOf, ReadsAs, LineEnd, Headers, LinesFrom;
    HoldsFits(s, pos, LinesFrom(fields));
    LinesFromStep(fields);
    if fields == [] {
      EmptyLineReads(s, pos, count, max);
    } else {
      var f, rest := fields[0], fields[1..];
      var next := pos + |FieldLine(f)|;
      FieldsOkParts(fields);
      HoldsSplit(s, pos, FieldLine(f), LinesFrom(rest));
      FieldReads(s, pos, f, count == 0);
      FieldsRead(s, next, rest, count + 1, max);
      HeadersStep(s, pos, count, max);
      PushReads(s, HeaderLine(s, pos, count == 0).value, Headers(s, next, count + 1, max), fields,
                pos + |LinesFrom(fields)|);
    }
  }

  lemma LinesFromStep(fields: seq<Field>)
    ensures LinesFrom(fields) == if fields == [] then [CR, LF] else FieldLine(fields[0]) + LinesFrom(fields[1..])
  {
  }

  lemma HeadersStep(s: seq<byte>, pos: nat, count: nat, max: nat)
    requires pos < |s| && s[pos] != CR && s[pos] != LF && count != max && HeaderLine(s, pos, count == 0).Ok?
    ensures var line := HeaderLine(s, pos, count == 0);
      Headers(s, pos, count, max) == Push(line.value, Headers(s, line.next, count + 1, max))
  {
  }

  // ---------------------------------------------------------------------
  // What is read is well formed

  lemma {:induction false} NameIsToken(s: seq<byte>, pos: nat)
    requires pos <= |s| && NameEnd(s, pos).Ok?
    ensures forall k :: pos <= k < NameEnd(s, pos).value ==> TokenChar(s[k])
    decreases |s| - pos
  {
    if s[pos] != COLON {
      NameIsToken(s, pos + 1);
    }
  }

  lemma {:induction false} ValueIsControlFree(s: seq<byte>, pos: nat)
    requires pos <= |s| && ValueEnd(s, pos).Ok?
    ensures forall k :: pos <= k < ValueEnd(s, pos).value ==> !ValueStop(s[k])
    decreases |s| - pos
  {
    if !ValueStop(s[pos]) {
      ValueIsControlFree(s, pos + 1);
    }
  }

  lemma {:induction false} TrimEndTrims(s: seq<byte>, from: nat, end: nat)
    requires from <= end <= |s|
    ensures var e := TrimEnd(s, from, end); from < e ==> !Blank(s[e - 1])
    decreases end
  {
    if from < end && Blank(s[end - 1]) {
      TrimEndTrims(s, from, end - 1);
    }
  }

  lemma {:induction false} SkipBlanksSkips(s: seq<byte>, pos: nat)
    requires pos <= |s|
    ensures var r := SkipBlanks(s, pos); r < |s| ==> !Blank(s[r])
    decreases |s| - pos
  {
    if pos < |s| && Blank(s[pos]) {
      SkipBlanksSkips(s, pos + 1);
    }
  }

  lemma HeaderIsField(s: seq<byte>, pos: nat, first: bool)
    requires pos < |s| && HeaderLine(s, pos, first).Ok?
    ensures var h := HeaderLine(s, pos, first).value; h.name.Span? ==> FieldOk(FieldOf(s, h))
  {
    hide NameEnd, ValueEnd, SkipBlanks, TrimEnd;
    if !(!first && Blank(s[pos])) {
      NameIsToken(s, pos);
      var v := SkipBlanks(s, NameEnd(s, pos).next);
      SkipBlanksSkips(s, NameEnd(s, pos).next);
      ValueIsControlFree(s, v);
      TrimEndTrims(s, v, ValueEnd(s, v).value);
    }
  }

  lemma {:induction false} HeadersAreFields(s: seq<byte>, pos: nat, count: nat, max: nat)
    requires pos <= |s| && count <= max && Headers(s, pos, count, max).Ok?
    ensures var hs := Headers(s, pos, count, max).value;
      count + |hs| <= max && forall i :: 0 <= i < |hs| && hs[i].name.Span? ==> FieldOk(FieldOf(s, hs[i]))
    decreases |s| - pos
  {
    hide HeaderLine, FieldOk;
    if s[pos] != CR && s[pos] != LF {
      HeaderIsField(s, pos, count == 0);
      HeadersAreFields(s, HeaderLine(s, pos, count == 0).next, count + 1, max);
    }
  }

  lemma {:induction false} FieldsOfAt(s: seq<byte>, headers: seq<Header>, i: nat)
    requires i < |headers|
    ensures FieldsOf(s, headers)[i] == FieldOf(s, headers[i])
    decreases i
  {
    if i > 0 {
      FieldsOfAt(s, headers[1..], i - 1);
    }
  }
}
