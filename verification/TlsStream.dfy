/** Cutting a byte stream into TLS records (section 6.2.1 of RFC 5246), as
    tls_consume_stream does it in src/extern/tlse.c for stream connections. */
module TlsStream {
  import opened Bytes
  import opened Slices

  const BROKEN_CONNECTION := -13

  /** What the message parser makes of one record: bytes consumed, or a negative
      error; the context behind it; and whether it has met a critical error. */
  datatype Reply<S> = Reply(consumed: int, state: S, critical: bool)

  /** A context as far as this code sees it. */
  datatype Stream<S> = Stream(state: S, critical: bool, buffer: seq<byte>)

  function RecordSize(s: seq<byte>): (n: nat)
    requires |s| >= 5
    ensures 5 <= n <= 0x1_0004
  {
    s[3] as int * 0x100 + s[4] as int + 5
  }

  predicate HasRecord(s: seq<byte>) { |s| >= 5 && RecordSize(s) <= |s| }

  /** Records handed to the parser, the context afterwards, and the first error. */
  datatype Run<S> = Run(context: Stream<S>, records: seq<seq<byte>>, error: int)

  function Before<S>(records: seq<seq<byte>>, r: Run<S>): Run<S> { r.(records := records + r.records) }

  /** All whole records at the front of s, one after the other, up to an error. */
  function Records<S>(step: (S, seq<byte>) -> Reply<S>, state: S, s: seq<byte>): Run<S>
    decreases |s|
  {
    if !HasRecord(s) then Run(Stream(state, false, s), [], 0)
    else
      var record := s[..RecordSize(s)];
      var r := step(state, record);
      if r.consumed < 0 then Run(Stream(r.state, true, []), [record], r.consumed)
      else if r.critical then Run(Stream(r.state, true, []), [record], BROKEN_CONNECTION)
      else Before([record], Records(step, r.state, s[RecordSize(s)..]))
  }

  /** One call. */
  function Consume<S>(step: (S, seq<byte>) -> Reply<S>, c: Stream<S>, data: seq<byte>): Run<S>
  {
    if c.critical then Run(c, [], BROKEN_CONNECTION)
    else if data == [] then Run(c, [], 0)
    else Records(step, c.state, c.buffer + data)
  }

  function First(a: int, b: int): int { if a != 0 then a else b }

  /** One call for each piece. */
  function ConsumeAll<S>(step: (S, seq<byte>) -> Reply<S>, c: Stream<S>, pieces: seq<seq<byte>>): Run<S>
    decreases |pieces|
  {
    if pieces == [] then Run(c, [], 0)
    else
      var a := Consume(step, c, pieces[0]);
      var b := ConsumeAll(step, a.context, pieces[1..]);
      Run(b.context, a.records + b.records, First(a.error, b.error))
  }

  /** Between calls no whole record is waiting. */
  predicate Settled<S>(c: Stream<S>) { c.critical || !HasRecord(c.buffer) }

  lemma {:induction false} RecordsSettle<S>(step: (S, seq<byte>) -> Reply<S>, state: S, s: seq<byte>)
    ensures var r := Records(step, state, s);
      Settled(r.context) && (r.context.critical <==> r.error != 0)
      && (r.error != 0 ==> r.context.buffer == [])
    decreases |s|
  {
    if HasRecord(s) {
      var n := RecordSize(s);
      var r := step(state, s[..n]);
      if r.consumed >= 0 && !r.critical {
        RecordsSettle(step, r.state, s[n..]);
      }
    }
  }

  /** Without an error no byte is lost: the records, and then what is kept, are the
      input.  Whatever is kept is less than a largest record, so that the buffer's
      length stays within 32 bits. */
  lemma {:induction false} RecordsConserve<S>(step: (S, seq<byte>) -> Reply<S>, state: S, s: seq<byte>)
    ensures var r := Records(step, state, s); r.error == 0 ==> Concat(r.records) + r.context.buffer == s
    ensures |Records(step, state, s).context.buffer| < 0x1_0004
    decreases |s|
  {
    if HasRecord(s) {
      var n := RecordSize(s);
      var r := step(state, s[..n]);
      if r.consumed >= 0 && !r.critical {
        var rest := Records(step, r.state, s[n..]);
        RecordsConserve(step, r.state, s[n..]);
        Joined(s, n, rest.records, rest.context.buffer);
      }
    }
  }

  /** A record: the type, two bytes of version, the length with its high byte first,
      and the fragment. */
  datatype Plain = Plain(kind: byte, major: byte, minor: byte, fragment: seq<byte>)

  function Text(r: Plain): seq<byte>
    requires |r.fragment| < 0x1_0000
  {
    [r.kind, r.major, r.minor, |r.fragment| / 0x100, |r.fragment| % 0x100] + r.fragment
  }

  /** Too little for the record that it is the beginning of. */
  predicate Unfinished(s: seq<byte>) { |s| < 5 || |s| < 5 + 256 * s[3] as int + s[4] as int }

  function Texts(records: seq<Plain>): (t: seq<seq<byte>>)
    requires forall r :: r in records ==> |r.fragment| < 0x1_0000
    ensures |t| == |records|
  {
    if records == [] then [] else [Text(records[0])] + Texts(records[1..])
  }

  /** What the parser is handed is the records that were sent, one after the other:
      all of them, if there is no error, and then the unfinished one is kept; and
      otherwise those up to the first with which the parser is not content. */
  lemma {:induction false} RecordsAsSent<S>(step: (S, seq<byte>) -> Reply<S>, state: S, records: seq<Plain>,
                                           tail: seq<byte>)
    requires (forall r :: r in records ==> |r.fragment| < 0x1_0000) && Unfinished(tail)
    ensures var run := Records(step, state, Concat(Texts(records)) + tail);
      && run.records <= Texts(records)
      && (run.error == 0 ==> run.records == Texts(records) && run.context.buffer == tail)
      && (run.error != 0 ==> run.records != [] && run.error < 0)
    decreases |records|
  {
    if records == [] {
      assert Concat([]) + tail == tail;
    } else {
      var first, rest := Text(records[0]), Concat(Texts(records[1..])) + tail;
      var s := Concat(Texts(records)) + tail;
      assert Texts(records)[1..] == Texts(records[1..]);
      assert s == first + rest;
      RecordFirst(records[0], rest);
      var r := step(state, first);
      RecordsAsSent(step, r.state, records[1..], tail);
      var more := Records(step, r.state, rest).records;
      assert more <= Texts(records[1..]) ==> [first] + more <= [first] + Texts(records[1..]);
    }
  }

  /** A call that brings one record, and any call after it: the parser's error, or -13
      for a critical one, and then -13 whatever comes. */
  lemma OneRecord<S>(step: (S, seq<byte>) -> Reply<S>, state: S, r: Plain, data: seq<byte>)
    requires |r.fragment| < 0x1_0000
    ensures var reply, run := step(state, Text(r)), Consume(step, Stream(state, false, []), Text(r));
      && run.records == [Text(r)] && run.context.state == reply.state && run.context.buffer == []
      && run.error == (if reply.consumed < 0 then reply.consumed else if reply.critical then -13 else 0)
      && (run.error != 0 ==> Consume(step, run.context, data) == Run(run.context, [], -13))
  {
    hide HasRecord, RecordSize, Records;
    var s, reply := Text(r), step(state, Text(r));
    assert s != [] && [] + s == s && s + [] == s;
    RecordFirst(r, []);
    hide Text;
    NoRecord();
    RecordsStep(step, state, s);
    RecordsStep(step, reply.state, []);
  }

  lemma NoRecord()
    ensures !HasRecord([])
  {
  }

  lemma RecordFirst(r: Plain, rest: seq<byte>)
    requires |r.fragment| < 0x1_0000
    ensures var s := Text(r) + rest;
      HasRecord(s) && RecordSize(s) == |Text(r)| && s[..|Text(r)|] == Text(r) && s[|Text(r)|..] == rest
  {
    var s := Text(r) + rest;
    assert s[3] == |r.fragment| / 0x100 && s[4] == |r.fragment| % 0x100;
  }

  lemma Joined(s: seq<byte>, n: nat, records: seq<seq<byte>>, kept: seq<byte>)
    requires n <= |s|
    ensures Concat(records) + kept == s[n..] ==> Concat([s[..n]] + records) + kept == s
  {
    assert ([s[..n]] + records)[1..] == records;
    if Concat(records) + kept == s[n..] {
      assert s == s[..n] + (Concat(records) + kept) == (s[..n] + Concat(records)) + kept;
    }
  }

  /** More input after a run without an error. */
  lemma {:induction false} RecordsAppend<S>(step: (S, seq<byte>) -> Reply<S>, state: S, s: seq<byte>, more: seq<byte>)
    ensures var r := Records(step, state, s);
      Records(step, state, s + more)
      == if r.error != 0 then r else Before(r.records, Records(step, r.context.state, r.context.buffer + more))
    decreases |s|
  {
    if HasRecord(s) {
      var n := RecordSize(s);
      assert (s + more)[..n] == s[..n] && (s + more)[n..] == s[n..] + more;
      var r := step(state, s[..n]);
      if r.consumed >= 0 && !r.critical {
        RecordsAppend(step, r.state, s[n..], more);
        var rest := Records(step, r.state, s[n..]);
        RecordsSettle(step, r.state, s[n..]);
        if rest.error == 0 {
          BeforeTwice([s[..n]], rest.records, Records(step, rest.context.state, rest.context.buffer + more));
        }
      }
    } else {
      BeforeNone(Records(step, state, s + more));
    }
  }

  lemma BeforeTwice<S>(a: seq<seq<byte>>, b: seq<seq<byte>>, r: Run<S>)
    ensures Before(a, Before(b, r)) == Before(a + b, r)
  {
    assert a + (b + r.records) == (a + b) + r.records;
  }

  lemma BeforeNone<S>(r: Run<S>)
    ensures Before([], r) == r
  {
    assert [] + r.records == r.records;
  }

  lemma ConsumeSettles<S>(step: (S, seq<byte>) -> Reply<S>, c: Stream<S>, data: seq<byte>)
    requires Settled(c)
    ensures Settled(Consume(step, c, data).context)
  {
    RecordsSettle(step, c.state, c.buffer + data);
  }

  /** Two calls, or one call on both pieces. */
  lemma ConsumeTwice<S>(step: (S, seq<byte>) -> Reply<S>, c: Stream<S>, a: seq<byte>, b: seq<byte>)
    requires Settled(c)
    ensures var r := Consume(step, c, a);
      var q := Consume(step, r.context, b);
      Consume(step, c, a + b) == Run(q.context, r.records + q.records, First(r.error, q.error))
  {
    hide Records;
    var r := Consume(step, c, a);
    var q := Consume(step, r.context, b);
    if c.critical || (a == [] && b == []) {
      assert a + b == a || c.critical;
    } else if a == [] {
      assert a + b == b && [] + q.records == q.records;
    } else {
      assert c.buffer + (a + b) == (c.buffer + a) + b;
      RecordsSettle(step, c.state, c.buffer + a);
      RecordsAppend(step, c.state, c.buffer + a, b);
      if b == [] {
        assert a + b == a;
      }
      assert r.records + [] == r.records;
    }
  }

  /** However the stream is cut, the parser sees the same records, the context ends
      the same, the same bytes are kept, and the first error is the same. */
  lemma {:induction false} Fragmentation<S>(step: (S, seq<byte>) -> Reply<S>, c: Stream<S>, pieces: seq<seq<byte>>)
    requires Settled(c) && !c.critical
    ensures ConsumeAll(step, c, pieces) == Consume(step, c, Concat(pieces))
  {
    FragmentationFrom(step, c, pieces);
  }

  /** After an error nothing happens any more. */
  lemma {:induction false} FragmentationFrom<S>(step: (S, seq<byte>) -> Reply<S>, c: Stream<S>, pieces: seq<seq<byte>>)
    requires Settled(c)
    ensures var all, once := ConsumeAll(step, c, pieces), Consume(step, c, Concat(pieces));
      all.context == once.context && all.records == once.records && (!c.critical ==> all.error == once.error)
    decreases |pieces|
  {
    hide Consume;
    if pieces == [] {
      ConsumeNothing(step, c);
    } else {
      ConsumeTwice(step, c, pieces[0], Concat(pieces[1..]));
      ConsumeSettles(step, c, pieces[0]);
      CriticalMeansError(step, c, pieces[0]);
      FragmentationFrom(step, Consume(step, c, pieces[0]).context, pieces[1..]);
    }
  }

  lemma ConsumeNothing<S>(step: (S, seq<byte>) -> Reply<S>, c: Stream<S>)
    ensures Consume(step, c, []) == Run(c, [], if c.critical then BROKEN_CONNECTION else 0)
  {
  }

  lemma CriticalMeansError<S>(step: (S, seq<byte>) -> Reply<S>, c: Stream<S>, data: seq<byte>)
    ensures Consume(step, c, data).context.critical ==> Consume(step, c, data).error != 0
  {
    RecordsSettle(step, c.state, c.buffer + data);
  }

  // ---------------------------------------------------------------------
  // The code

  class TLSConnection<S> {
    const step: (S, seq<byte>) -> Reply<S>
    var state: S
    var criticalError: bool
    var messageBuffer: seq<byte>
    ghost var parsed: seq<seq<byte>>

    ghost function Value(): Stream<S>
      reads this
    {
      Stream(state, criticalError, messageBuffer)
    }

    constructor (parser: (S, seq<byte>) -> Reply<S>, initial: S)
      ensures step == parser && Value() == Stream(initial, false, []) && parsed == []
    {
      step, state, criticalError, messageBuffer, parsed := parser, initial, false, [], [];
    }

    /** tls_parse_message, as an abstract step. */
    method ParseMessage(record: seq<byte>) returns (consumed: int)
      requires !criticalError
      modifies this`state, this`criticalError, this`parsed
      ensures var r := step(old(state), record);
        consumed == r.consumed && state == r.state && criticalError == r.critical
      ensures parsed == old(parsed) + [record]
    {
      var r := step(state, record);
      state, criticalError, consumed := r.state, r.critical, r.consumed;
      parsed := parsed + [record];
    }

    /** Returns the bytes taken off the front of the buffer, or the error. */
    method ConsumeStream(data: seq<byte>) returns (ret: int)
      requires Settled(Value())
      modifies this
      ensures var r := Consume(step, old(Value()), data);
        && Value() == r.context && parsed == old(parsed) + r.records && Settled(Value())
        && ret == if r.error != 0 then r.error else |Concat(r.records)|
    {
      hide Records, HasRecord, Settled;
      ghost var all := Records(step, state, messageBuffer + data);
      RecordsSettle(step, state, messageBuffer + data);
      RecordsConserve(step, state, messageBuffer + data);
      assert parsed + [] == parsed;
      if criticalError {
        return BROKEN_CONNECTION;
      }
      if |data| <= 0 {
        return 0;
      }
      messageBuffer := messageBuffer + data;
      var index, errFlag := ParseRecords();
      if errFlag != 0 {
        messageBuffer := [];
        return errFlag;
      }
      if index > 0 {
        messageBuffer := messageBuffer[index..];
      }
      ret := index;
      assert |Concat(all.records)| + |all.context.buffer| == |Concat(all.records) + all.context.buffer|;
    }

    method ParseRecords() returns (index: nat, errFlag: int)
      requires !criticalError
      modifies this`state, this`criticalError, this`parsed
      ensures index <= |messageBuffer|
      ensures var r := Records(step, old(state), messageBuffer);
        && r.context.state == state && r.context.critical == criticalError && r.error == errFlag
        && parsed == old(parsed) + r.records
        && (errFlag == 0 ==> r.context.buffer == messageBuffer[index..])
    {
      hide Records;
      index, errFlag := 0, 0;
      var left: nat := |messageBuffer|;
      ghost var done: seq<seq<byte>> := [];
      ghost var all := Records(step, state, messageBuffer);
      assert messageBuffer[0..] == messageBuffer;
      BeforeNone(all);
      assert parsed == old(parsed) + done;
      while left >= 5
        invariant index + left == |messageBuffer| && !criticalError && parsed == old(parsed) + done
        invariant Before(done, Records(step, state, messageBuffer[index..])) == all
        decreases left
      {
        ghost var s := messageBuffer[index..];
        var length := messageBuffer[index + 3] as int * 0x100 + messageBuffer[index + 4] as int + 5;
        assert length == RecordSize(s);
        if length > left {
          break;
        }
        RecordsStep(step, state, s);
        var record := messageBuffer[index..index + length];
        assert record == s[..length] && messageBuffer[index + length..] == s[length..];
        ghost var before := state;
        var consumed := ParseMessage(record);
        assert old(parsed) + done + [record] == old(parsed) + (done + [record]);
        if consumed < 0 {
          if !criticalError {
            criticalError := true;
          }
          errFlag := consumed;
          return;
        }
        index := index + length;
        left := left - length;
        if criticalError {
          errFlag := BROKEN_CONNECTION;
          return;
        }
        BeforeTwice(done, [record], Records(step, state, s[length..]));
        done := done + [record];
      }
      RecordsStep(step, state, messageBuffer[index..]);
      assert done + [] == done;
    }
  }

  lemma RecordsStep<S>(step: (S, seq<byte>) -> Reply<S>, state: S, s: seq<byte>)
    ensures !HasRecord(s) ==> Records(step, state, s) == Run(Stream(state, false, s), [], 0)
    ensures HasRecord(s) ==>
              var n := RecordSize(s);
              var r := step(state, s[..n]);
              Records(step, state, s) ==
                if r.consumed < 0 then Run(Stream(r.state, true, []), [s[..n]], r.consumed)
                else if r.critical then Run(Stream(r.state, true, []), [s[..n]], BROKEN_CONNECTION)
                else Before([s[..n]], Records(step, r.state, s[n..]))
  {
  }
}
