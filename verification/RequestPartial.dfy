/** When the request parser asks for more: exactly as long as more can help, but for
    two places where it looks late. */
module RequestPartial {
  import opened Bytes
  import opened HttpScan
  import opened RequestParser

  ghost predicate Completable(s: seq<byte>, max: nat)
  {
    exists more: seq<byte> :: FullParse(s + more, max).Ok?
  }

  /** The beginning of HTTP/1. and a digit. */
  predicate StartsVersion(v: seq<byte>)
  {
    |v| <= 8 && (if |v| <= 7 then v <= HTTP1 else v[..7] == HTTP1 && Digit(v[7]))
  }

  /** An empty method is noticed only behind the path, and a wrong version only when
      nine bytes are there. */
  predicate NoticedLate(s: seq<byte>)
  {
    && FirstLine(s).Ok?
    && var pos := FirstLine(s).next;
    && Token(s, pos).Ok?
    && var verb := Token(s, pos);
    && var path := Token(s, verb.next);
       if path.Ok? then
         verb.value > pos && path.value > verb.next && |s| - path.next < 9 && !StartsVersion(s[path.next..])
       else
         verb.value == pos && path.Partial?
  }

  // ---------------------------------------------------------------------
  // Header lines can be finished

  lemma {:induction false} ValueEndFinish(s: seq<byte>, pos: nat)
    requires pos <= |s| && ValueEnd(s, pos).Partial?
    ensures var r := ValueEnd(s + [LF], pos); r.Ok? && r.next == |s| + 1
    decreases |s| - pos
  {
    var t := s + [LF];
    if pos < |s| {
      assert t[pos] == s[pos];
      if !ValueStop(s[pos]) {
        ValueEndFinish(s, pos + 1);
      }
    }
  }

  lemma ValueFinish(s: seq<byte>, pos: nat, name: Span)
    requires pos <= |s| && Value(s, pos, name).Partial?
    ensures var r := Value(s + [LF], pos, name); r.Ok? && r.next == |s| + 1
  {
    hide ValueEnd;
    ValueEndFinish(s, pos);
  }

  lemma {:induction false} BlanksStay(s: seq<byte>, pos: nat)
    requires pos <= |s|
    ensures SkipBlanks(s + [LF], pos) == SkipBlanks(s, pos)
    decreases |s| - pos
  {
    var t := s + [LF];
    if pos < |s| && Blank(s[pos]) {
      assert t[pos] == s[pos];
      BlanksStay(s, pos + 1);
    }
  }

  lemma {:induction false} NameEndFinish(s: seq<byte>, pos: nat)
    requires pos <= |s| && NameEnd(s, pos).Partial?
    ensures NameEnd(s + [COLON, LF], pos) == Ok(|s|, |s| + 1)
    decreases |s| - pos
  {
    var t := s + [COLON, LF];
    if pos < |s| {
      assert t[pos] == s[pos];
      NameEndFinish(s, pos + 1);
    }
  }

  lemma LineFinish(s: seq<byte>, pos: nat, first: bool) returns (more: seq<byte>)
    requires pos < |s| && HeaderLine(s, pos, first).Partial?
    ensures var r := HeaderLine(s + more, pos, first); r.Ok? && r.next == |s + more|
  {
    hide NameEnd, Value, SkipBlanks;
    if !first && Blank(s[pos]) {
      more := [LF];
      ValueFinish(s, pos, Null);
    } else if NameEnd(s, pos).Partial? {
      more := [COLON, LF];
      NameEndFinish(s, pos);
      EmptyValue(s + more, |s| + 1, Span(pos, |s|));
    } else {
      more := [LF];
      var name := NameEnd(s, pos);
      NameEndAgree(s, s + more, pos);
      BlanksStay(s, name.next);
      ValueFinish(s, SkipBlanks(s, name.next), Span(pos, name.value));
    }
  }

  lemma EmptyValue(t: seq<byte>, pos: nat, name: Span)
    requires pos + 1 == |t| && t[pos] == LF
    ensures SkipBlanks(t, pos) == pos && Value(t, pos, name).Ok? && Value(t, pos, name).next == |t|
  {
  }

  /** Headers that go on can always be brought to an end. */
  lemma {:induction false} HeadersFinish(s: seq<byte>, pos: nat, count: nat, max: nat) returns (more: seq<byte>)
    requires pos <= |s| && Headers(s, pos, count, max).Partial?
    ensures Headers(s + more, pos, count, max).Ok?
    decreases |s| - pos
  {
    hide HeaderLine;
    if pos == |s| {
      more := [LF];
      assert (s + more)[pos] == LF;
    } else if s[pos] == CR || s[pos] == LF {
      more := [LF];
      assert (s + more)[pos] == s[pos] && (s + more)[pos + 1] == LF;
    } else if HeaderLine(s, pos, count == 0).Partial? {
      var line := LineFinish(s, pos, count == 0);
      more := line + [LF];
      assert s + more == (s + line) + [LF];
      HeaderLineAgree(s + line, s + more, pos, count == 0);
      LastLine(s + more, |s + line|, count + 1, max);
      assert (s + more)[pos] == s[pos];
    } else {
      var next := HeaderLine(s, pos, count == 0).next;
      more := HeadersFinish(s, next, count + 1, max);
      HeaderLineAgree(s, s + more, pos, count == 0);
      assert (s + more)[pos] == s[pos];
    }
  }

  lemma LastLine(t: seq<byte>, pos: nat, count: nat, max: nat)
    requires pos + 1 == |t| && t[pos] == LF
    ensures Headers(t, pos, count, max) == Ok([], |t|)
  {
  }

  // ---------------------------------------------------------------------
  // Request lines can be finished

  const VERSION: seq<byte> := [0x48, 0x54, 0x54, 0x50, 0x2f, 0x31, 0x2e, 0x31, 0x0a]

  lemma VersionReads(t: seq<byte>, pos: nat)
    requires pos + 9 == |t| && t[pos..pos + 7] == HTTP1 && Digit(t[pos + 7]) && t[pos + 8] == LF
    ensures VersionLine(t, pos).Ok? && VersionLine(t, pos).next == |t|
  {
  }

  lemma VersionFinish(s: seq<byte>, pos: nat) returns (more: seq<byte>)
    requires pos <= |s| && VersionLine(s, pos).Partial?
    requires |s| - pos < 9 ==> StartsVersion(s[pos..])
    ensures VersionLine(s + more, pos).Ok? && VersionLine(s + more, pos).next == |s + more|
  {
    if |s| - pos < 9 {
      var v := s[pos..];
      more := VERSION[|v|..];
      var t := s + more;
      assert t[pos..] == v + more && |t| == pos + 9;
      assert VERSION[..7] == HTTP1 && VERSION[8] == LF && Digit(VERSION[7]);
      assert t[pos..pos + 7] == (v + more)[..7] == HTTP1;
      assert t[pos + 7] == (v + more)[7] && t[pos + 8] == (v + more)[8];
      VersionReads(t, pos);
    } else {
      more := [LF];
      VersionAgree(s, s + more, pos);
      assert (s + more)[pos + 8] == s[pos + 8] && (s + more)[pos + 9] == LF;
    }
  }

  lemma {:induction false} TokenFinish(s: seq<byte>, pos: nat, b: byte, rest: seq<byte>)
    requires pos <= |s| && Token(s, pos).Partial? && b != SP && !Control(b)
    ensures Token(s + ([b, SP] + rest), pos) == Ok(|s| + 1, |s| + 2)
    decreases |s| - pos
  {
    var t := s + ([b, SP] + rest);
    if pos < |s| {
      assert t[pos] == s[pos];
      TokenFinish(s, pos + 1, b, rest);
    } else {
      assert t[pos] == b && t[pos + 1] == SP;
    }
  }

  /** A path that has not ended gets one more byte, a space and a version. */
  lemma PathFinish(s: seq<byte>, pos: nat)
    requires pos <= |s| && Token(s, pos).Partial?
    ensures var t := s + ([0x2f, SP] + VERSION);
      && Token(t, pos) == Ok(|s| + 1, |s| + 2)
      && VersionLine(t, |s| + 2).Ok? && VersionLine(t, |s| + 2).next == |t|
  {
    hide Token, VersionLine;
    var t := s + ([0x2f, SP] + VERSION);
    TokenFinish(s, pos, 0x2f, VERSION);
    assert t[|s| + 2..] == VERSION;
    assert t[|s| + 2..|s| + 9] == VERSION[..7] == HTTP1 && t[|s| + 9] == VERSION[7] && t[|s| + 10] == VERSION[8];
    VersionReads(t, |s| + 2);
  }

  lemma RequestLineFinish(s: seq<byte>, pos: nat) returns (more: seq<byte>)
    requires pos <= |s| && RequestLine(s, pos).Partial?
    requires Token(s, pos).Ok? ==>
      var verb := Token(s, pos);
      var path := Token(s, verb.next);
      if path.Ok? then |s| - path.next < 9 ==> StartsVersion(s[path.next..]) else verb.value > pos
    ensures RequestLine(s + more, pos).Ok? && RequestLine(s + more, pos).next == |s + more|
  {
    hide Token, VersionLine, StartsVersion;
    var verb := Token(s, pos);
    if verb.Partial? {
      var front := [0x47, SP];
      more := front + ([0x2f, SP] + VERSION);
      var s1, t := s + front, s + more;
      TokenFinish(s, pos, 0x47, [0x2f, SP] + VERSION);
      assert t == s1 + ([0x2f, SP] + VERSION);
      TokenNone(s1);
      PathFinish(s1, |s1|);
    } else {
      var path := Token(s, verb.next);
      if path.Partial? {
        more := [0x2f, SP] + VERSION;
        TokenAgree(s, s + more, pos);
        PathFinish(s, verb.next);
      } else {
        more := VersionFinish(s, path.next);
        TokenAgree(s, s + more, pos);
        TokenAgree(s, s + more, verb.next);
      }
    }
  }

  lemma TokenNone(s: seq<byte>)
    ensures Token(s, |s|).Partial?
  {
  }

  // ---------------------------------------------------------------------
  // Both directions

  lemma RequestFinish(s: seq<byte>, pos: nat, max: nat) returns (more: seq<byte>)
    requires pos <= |s| && RequestFrom(s, pos, max).Partial?
    requires Token(s, pos).Ok? ==>
      var verb := Token(s, pos);
      var path := Token(s, verb.next);
      if path.Ok? then |s| - path.next < 9 ==> StartsVersion(s[path.next..]) else verb.value > pos
    ensures RequestFrom(s + more, pos, max).Ok?
  {
    hide Token, RequestLine, Headers, StartsVersion;
    var line := RequestLine(s, pos);
    if line.Partial? {
      var rest := RequestLineFinish(s, pos);
      more := rest + [LF];
      assert s + more == (s + rest) + [LF];
      RequestLineAgree(s + rest, s + more, pos);
      LastLine(s + more, |s + rest|, 0, max);
    } else {
      more := HeadersFinish(s, line.next, 0, max);
      RequestLineAgree(s, s + more, pos);
    }
  }

  lemma NotLateFinish(s: seq<byte>, max: nat) returns (more: seq<byte>)
    requires FullParse(s, max).Partial? && FirstLine(s).Ok? && !NoticedLate(s)
    ensures FullParse(s + more, max).Ok?
  {
    hide Token, RequestFrom, FirstLine, StartsVersion;
    var pos := FirstLine(s).next;
    EmptyParts(s, pos, max);
    more := RequestFinish(s, pos, max);
    FirstLineAgree(s, s + more);
  }

  /** A partial result has no empty part behind it. */
  lemma EmptyParts(s: seq<byte>, pos: nat, max: nat)
    requires pos <= |s| && RequestFrom(s, pos, max).Partial?
    ensures Token(s, pos).Ok? ==>
      var verb := Token(s, pos);
      var path := Token(s, verb.next);
      && (path.Ok? ==> verb.value > pos && path.value > verb.next) && (!path.Ok? ==> path.Partial?)
  {
    hide Token, VersionLine, Headers;
  }

  lemma NothingFinish(s: seq<byte>, max: nat) returns (more: seq<byte>)
    requires FirstLine(s).Partial?
    ensures FullParse(s + more, max).Ok?
  {
    hide RequestFrom;
    var request := RequestFinish(s + [LF], |s| + 1, max) by { NoRequest(s + [LF], max); }
    more := [LF] + request;
    assert s + more == (s + [LF]) + request;
    assert FirstLine(s + more) == Ok(0, |s| + 1);
  }

  lemma NoRequest(s: seq<byte>, max: nat)
    ensures RequestFrom(s, |s|, max).Partial? && Token(s, |s|).Partial?
  {
  }

  /** Asked for more, the parser can still be given it, unless it is late. */
  lemma PartialFinish(s: seq<byte>, max: nat) returns (more: seq<byte>)
    requires FullParse(s, max).Partial? && !NoticedLate(s)
    ensures FullParse(s + more, max).Ok?
  {
    hide RequestFrom, NoticedLate, FirstLine;
    if FirstLine(s).Ok? {
      more := NotLateFinish(s, max);
    } else {
      more := NothingFinish(s, max);
    }
  }

  lemma LateIsHopeless(s: seq<byte>, t: seq<byte>, max: nat)
    requires NoticedLate(s) && s <= t
    ensures !FullParse(t, max).Ok?
  {
    hide Token, FirstLine, StartsVersion, Headers, VersionLine;
    var pos := FirstLine(s).next;
    FirstLineAgree(s, t);
    TokenAgree(s, t, pos);
    var verb := Token(s, pos);
    var path := Token(s, verb.next);
    if path.Ok? {
      TokenAgree(s, t, verb.next);
      if VersionLine(t, path.next).Ok? {
        VersionMatches(s, t, path.next);
      }
    }
  }

  lemma VersionMatches(s: seq<byte>, t: seq<byte>, pos: nat)
    requires s <= t && pos <= |s| && |s| - pos < 9 && VersionLine(t, pos).Ok?
    ensures StartsVersion(s[pos..])
  {
    var v := s[pos..];
    assert v == t[pos..][..|v|];
    if |v| <= 7 {
      assert v == t[pos..pos + 7][..|v|] == HTTP1[..|v|];
    } else {
      assert v[..7] == t[pos..pos + 7] && v[7] == t[pos + 7];
    }
  }

  /** The result is -1 or something that can still become a request, and which of the
      two can be told from the bytes: for every input and every limit on headers,
      some continuation is accepted if and only if the result is not -1 and none of
      the two errors has been made that are noticed late. */
  lemma CompletableExactly(s: seq<byte>, max: nat)
    ensures Completable(s, max) <==> !FullParse(s, max).Bad? && !NoticedLate(s)
  {
    hide FullParse, NoticedLate;
    if Completable(s, max) {
      var more: seq<byte> :| FullParse(s + more, max).Ok?;
      FullParseAgree(s, s + more, max);
      if NoticedLate(s) {
        LateIsHopeless(s, s + more, max);
      }
    }
    if FullParse(s, max).Ok? {
      assert s + [] == s;
    } else if FullParse(s, max).Partial? && !NoticedLate(s) {
      var more := PartialFinish(s, max);
    }
  }
}
