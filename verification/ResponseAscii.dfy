/** What is printed for a response, written as text. */
module ResponseAscii {
  import opened Bytes
  import opened HttpText
  import opened HttpAscii
  import opened ResponseParser

  /** The number that a text of decimal digits stands for. */
  function Number(digits: seq<byte>): int
  {
    if digits == [] then 0 else 10 * Number(digits[..|digits| - 1]) + (digits[|digits| - 1] - Code('0'))
  }

  /** A number is printed in decimal digits, without a leading zero. */
  lemma {:induction false} DecimalIs(n: nat)
    ensures Number(Decimal(n)) == n && forall i :: 0 <= i < |Decimal(n)| ==> Code('0') <= Decimal(n)[i] <= Code('9')
    ensures n > 0 ==> Decimal(n)[0] != Code('0')
  {
    var d := Decimal(n);
    if n >= 10 {
      DecimalIs(n / 10);
      assert d[..|d| - 1] == Decimal(n / 10) && d[0] == Decimal(n / 10)[0];
    } else {
      assert d == [0x30 + n] && d[..0] == [];
      assert Number(d[..0]) == 0;
    }
  }

  /** A string is printed up to its first NUL, or whole. */
  lemma {:induction false} CStringIs(s: seq<byte>, rest: seq<byte>)
    requires forall i :: 0 <= i < |s| ==> s[i] != 0
    ensures CString(s) == s && CString(s + [0] + rest) == s
  {
    if s == [] {
      assert s + [0] + rest == [0] + rest;
    } else {
      CStringIs(s[1..], rest);
      assert (s + [0] + rest)[1..] == s[1..] + [0] + rest;
    }
  }

  lemma {:induction false} LinesAscii(fields: seq<Field>, rest: seq<Field>)
    ensures FieldLines(fields) + FieldsAscii(rest) == FieldsAscii(fields + rest)
    decreases |fields|
  {
    if fields == [] {
      assert fields + rest == rest;
    } else {
      var init, last := fields[..|fields| - 1], fields[|fields| - 1];
      LinesAscii(init, [last] + rest);
      assert init + ([last] + rest) == fields + rest;
      FirstAscii(last, rest);
      assert FieldLines(fields) + FieldsAscii(rest) == FieldLines(init) + (FieldLine(last) + FieldsAscii(rest));
    }
  }

  lemma FirstAscii(f: Field, rest: seq<Field>)
    ensures FieldsAscii([f] + rest) == FieldLine(f) + FieldsAscii(rest)
  {
    assert ([f] + rest)[1..] == rest;
    assert Ascii(": ") == [0x3a, 0x20] && Ascii("\r\n") == [CR, LF];
  }

  function StatusAscii(r: Reply): seq<byte>
  {
    Ascii("HTTP/1.1 ") + Decimal(r.status) + Ascii(" ") + CString(r.reason) + Ascii("\r\n")
  }

  lemma StatusAsciiIs(r: Reply)
    ensures FirstLine(r) == StatusAscii(r)
  {
    assert Ascii("HTTP/1.1 ") == [0x48, 0x54, 0x54, 0x50, 0x2f, 0x31, 0x2e] + [0x31, 0x20];
    assert Ascii(" ") == [0x20] && Ascii("\r\n") == [CR, LF];
  }

  lemma StandardAscii(bodySize: nat)
    ensures StandardFields(bodySize)
         == [Field(Ascii("Server"), Ascii("Prism")), Field(Ascii("Content-Length"), Decimal(bodySize))]
  {
    assert Ascii("Server") == SERVER && Ascii("Prism") == PRISM && Ascii("Content-Length") == CONTENT_LENGTH;
  }

  /** The head of a response is its status line, the two standard fields, and the
      handler's own fields in their order; an interim one has no fields. */
  lemma HeadIs(r: Reply)
    ensures Head(r, true) == StatusAscii(r) + Ascii("\r\n")
    ensures Head(r, false)
         == StatusAscii(r)
            + FieldsAscii([Field(Ascii("Server"), Ascii("Prism")), Field(Ascii("Content-Length"), Decimal(r.bodySize))]
                          + PrintedFields(r.headers))
    ensures |PrintedFields(r.headers)| == |r.headers| && forall i :: 0 <= i < |r.headers| ==>
      PrintedFields(r.headers)[i] == Field(CString(r.headers[i].name), CString(r.headers[i].value))
  {
    hide StatusAscii, FieldsAscii, FirstLine, FieldLines, StandardFields, Decimal;
    StatusAsciiIs(r);
    StandardAscii(r.bodySize);
    PrintedEach(r.headers);
    var fields := StandardFields(r.bodySize) + PrintedFields(r.headers);
    LinesAscii(fields, []);
    NoFieldsAscii();
    assert Ascii("\r\n") == [CR, LF] && fields + [] == fields;
    assert FirstLine(r) + FieldLines(fields) + [CR, LF] == FirstLine(r) + (FieldLines(fields) + [CR, LF]);
  }

  lemma NoFieldsAscii()
    ensures FieldsAscii([]) == Ascii("\r\n")
  {
  }

  lemma {:induction false} PrintedEach(fields: seq<Field>)
    ensures forall i :: 0 <= i < |fields| ==>
      PrintedFields(fields)[i] == Field(CString(fields[i].name), CString(fields[i].value))
    decreases |fields|
  {
    hide CString;
    if fields != [] {
      PrintedEach(fields[..|fields| - 1]);
    }
  }
}
