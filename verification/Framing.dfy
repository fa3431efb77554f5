/** Handoff messages as frames on a byte stream: the writers of
    src/phttp_hoproto_export2.cpp and src/phttp_hoproto_import2.cpp, and the
    reading loop of src/phttp_handoff_server.cpp. */
module Framing {
  import opened Bytes
  import opened Slices
  import opened Memory
  import opened Membuf

  function Pad(n: nat): (p: nat)
    ensures p < 8 && (n + p) % 8 == 0
  {
    if n % 8 == 0 then 0 else 8 - n % 8
  }

  // ---------------------------------------------------------------------
  // The writer

  /** A payload, and the bytes that malloc left between the header and it. */
  datatype Frame = Frame(padding: seq<byte>, payload: seq<byte>)

  /** Serialised messages are below 2 GB. */
  predicate Sendable(f: Frame) { |f.payload| < 0x8000_0000 && |f.padding| == Pad(|f.payload|) }

  function Header(n: nat): (s: seq<byte>)
    ensures |s| == 4
  {
    BigEndian(n, 4)
  }

  function Text(f: Frame): seq<byte> { Header(|f.payload|) + f.padding + f.payload }

  function Stream(frames: seq<Frame>): seq<byte>
  {
    if frames == [] then [] else Text(frames[0]) + Stream(frames[1..])
  }

  function Payloads(frames: seq<Frame>): (p: seq<seq<byte>>)
    ensures |p| == |frames|
  {
    if frames == [] then [] else [frames[0].payload] + Payloads(frames[1..])
  }

  // ---------------------------------------------------------------------
  // The reading loop, as written

  /** Payloads delivered and bytes kept; or a payload was taken that reaches behind
      the bytes received, and nothing more is said. */
  datatype Out = Out(delivered: seq<seq<byte>>, rest: seq<byte>) | Overrun

  function Ahead(payload: seq<byte>, o: Out): Out
  {
    if o.Out? then Out([payload] + o.delivered, o.rest) else Overrun
  }

  function LengthAt(s: seq<byte>): (n: nat)
    requires |s| >= 4
    ensures n < TWO32
  {
    FromBigEndianBound(s[..4]);
    assert Pow256(4) == TWO32;
    FromBigEndian(s[..4])
  }

  /** The test leaves the four bytes of the header out. */
  function Wanted(n: nat): nat { (n + Pad(n)) % TWO32 }

  function Read(s: seq<byte>): Out
    decreases |s|
  {
    if |s| < 4 then Out([], s)
    else
      var n := LengthAt(s);
      if |s| < Wanted(n) then Out([], s)
      else if |s| < 4 + Pad(n) + n then Overrun
      else Ahead(s[4 + Pad(n)..4 + Pad(n) + n], Read(s[4 + Pad(n) + n..]))
  }

  /** One read after the other; what is kept waits in front of the next one. */
  function ReadAll(pieces: seq<seq<byte>>): Out
  {
    if pieces == [] then Out([], [])
    else
      var before := ReadAll(pieces[..|pieces| - 1]);
      if before.Overrun? then Overrun
      else
        var o := Read(before.rest + pieces[|pieces| - 1]);
        if o.Overrun? then Overrun else Out(before.delivered + o.delivered, o.rest)
  }

  // ---------------------------------------------------------------------
  // Where a read may end

  /** How many frames the first `size` bytes of the stream hold, and how many of
      those bytes belong to the frame behind them. */
  function Whole(frames: seq<Frame>, size: nat): (k: nat)
    ensures k <= |frames|
  {
    if frames == [] || size < |Text(frames[0])| then 0 else 1 + Whole(frames[1..], size - |Text(frames[0])|)
  }

  function Left(frames: seq<Frame>, size: nat): nat
  {
    if frames == [] || size < |Text(frames[0])| then size else Left(frames[1..], size - |Text(frames[0])|)
  }

  /** A read that ends after `size` bytes does not leave, of the frame it breaks,
      as many bytes as payload and padding, or up to three more. */
  predicate SafeEnd(frames: seq<Frame>, size: nat)
  {
    var k, left := Whole(frames, size), Left(frames, size);
    k == |frames| ||
    var n := |frames[k].payload| + Pad(|frames[k].payload|);
    left < 4 || left < n || n + 3 < left
  }

  lemma LengthReads(f: Frame, s: seq<byte>)
    requires Sendable(f) && |s| >= 4 && s[..4] == Header(|f.payload|)
    ensures LengthAt(s) == |f.payload| && Wanted(|f.payload|) == |f.payload| + Pad(|f.payload|)
  {
    assert Pow256(4) == TWO32;
    BigEndianRoundTrip(|f.payload|, 4);
  }

  lemma FrameParts(f: Frame, s: seq<byte>)
    requires Sendable(f) && |s| >= |Text(f)| && s[..|Text(f)|] == Text(f)
    ensures var n := |f.payload|;
      && |Text(f)| == 4 + Pad(n) + n && s[..4] == Header(n) && s[4 + Pad(n)..4 + Pad(n) + n] == f.payload
  {
    hide Header;
    var n := |f.payload|;
    assert Text(f)[..4] == Header(n) && Text(f)[4 + Pad(n)..] == f.payload;
    assert s[..4] == s[..|Text(f)|][..4];
    assert s[4 + Pad(n)..4 + Pad(n) + n] == s[..|Text(f)|][4 + Pad(n)..];
  }

  /** The front of a stream, one frame at a time. */
  lemma {:induction false} ReadFront(frames: seq<Frame>, size: nat)
    requires (forall f :: f in frames ==> Sendable(f)) && size <= |Stream(frames)|
    ensures var k, left := Whole(frames, size), Left(frames, size);
      && left <= size
      && Read(Stream(frames)[..size])
         == if SafeEnd(frames, size) then Out(Payloads(frames)[..k], Stream(frames)[size - left..size]) else Overrun
    decreases |frames|
  {
    hide Header, LengthAt, Wanted, SafeEnd, Whole, Left, Text, Payloads, Read, Stream, Sendable;
    var s := Stream(frames)[..size];
    if frames == [] {
      assert s == [] by { EmptyStream(); }
      ReadStep(s);
      WholeNone(frames, size);
      SafeAtEnd(size);
      assert Payloads(frames)[..0] == [] && Stream(frames)[0..size] == s;
    } else {
      var f, more, t := frames[0], frames[1..], |Text(frames[0])|;
      assert f in frames;
      FirstFrame(frames);
      if size < t {
        assert s == Text(f)[..size] && Stream(frames)[0..size] == s;
        BrokenFrame(f, size);
        WholeNone(frames, size);
        SafeInFirst(frames, size);
        assert Payloads(frames)[..0] == [];
      } else {
        assert s == Text(f) + Stream(more)[..size - t];
        WholeFrame(f, Stream(more)[..size - t]);
        ReadFront(more, size - t);
        WholeStep(frames, size);
        FrontStep(frames, size, Whole(more, size - t), Left(more, size - t));
      }
    }
  }

  lemma EmptyStream()
    ensures Stream([]) == []
  {
  }

  lemma WholeFrame(f: Frame, rest: seq<byte>)
    requires Sendable(f)
    ensures Read(Text(f) + rest) == Ahead(f.payload, Read(rest))
  {
    hide Header, LengthAt, Wanted, Text, Read;
    var s := Text(f) + rest;
    assert s[..|Text(f)|] == Text(f) && s[|Text(f)|..] == rest;
    FrameParts(f, s);
    LengthReads(f, s);
    ReadStep(s);
  }

  lemma SafeAtEnd(size: nat)
    ensures SafeEnd([], size)
  {
  }

  lemma SafeInFirst(frames: seq<Frame>, size: nat)
    requires frames != [] && size < |Text(frames[0])|
    ensures var n := |frames[0].payload|;
      SafeEnd(frames, size) <==> size < 4 || size < n + Pad(n) || n + Pad(n) + 3 < size
  {
  }

  lemma BrokenFrame(f: Frame, size: nat)
    requires Sendable(f) && size < |Text(f)|
    ensures var n := |f.payload|;
      Read(Text(f)[..size]) == if size < 4 || size < n + Pad(n) then Out([], Text(f)[..size]) else Overrun
    ensures |Text(f)| == 4 + Pad(|f.payload|) + |f.payload|
  {
    hide Header, LengthAt, Wanted;
    if size >= 4 {
      assert Text(f)[..size][..4] == Header(|f.payload|);
      LengthReads(f, Text(f)[..size]);
    }
  }

  /** Every frame but an empty one has ends of a read that go wrong: the last
      four positions before its end. */
  lemma LastFourBytes(f: Frame, size: nat)
    requires Sendable(f) && size < |Text(f)|
    ensures ReadAll([Text(f)[..size]]) == Overrun <==> f.payload != [] && |Text(f)| - 4 <= size
  {
    hide Read, Text;
    var piece := Text(f)[..size];
    BrokenFrame(f, size);
    var none: seq<seq<byte>> := [];
    assert [piece][..0] == none && ReadAll(none) == Out([], []);
    assert [] + piece == piece;
  }

  lemma WholeStep(frames: seq<Frame>, size: nat)
    requires frames != [] && |Text(frames[0])| <= size <= |Stream(frames)|
    ensures var t := |Text(frames[0])|;
      && Whole(frames, size) == 1 + Whole(frames[1..], size - t) && Left(frames, size) == Left(frames[1..], size - t)
      && (SafeEnd(frames, size) <==> SafeEnd(frames[1..], size - t))
  {
    hide Text, Stream;
    var k := Whole(frames, size) - 1;
    assert k < |frames[1..]| ==> frames[1..][k] == frames[k + 1];
  }

  lemma FrontStep(frames: seq<Frame>, size: nat, k: nat, left: nat)
    requires frames != [] && |Text(frames[0])| <= size <= |Stream(frames)|
    requires k < |frames| && left <= size - |Text(frames[0])|
    ensures var t := |Text(frames[0])|;
      && Payloads(frames)[..k + 1] == [frames[0].payload] + Payloads(frames[1..])[..k]
      && Stream(frames)[size - left..size] == Stream(frames[1..])[size - t - left..size - t]
  {
    hide Text, Stream, Payloads;
    var t := |Text(frames[0])|;
    FirstFrame(frames);
    Behind(Text(frames[0]), Stream(frames[1..]), size - t - left, size - t);
    assert ([frames[0].payload] + Payloads(frames[1..]))[..k + 1] == [frames[0].payload] + Payloads(frames[1..])[..k];
  }

  lemma Behind(a: seq<byte>, b: seq<byte>, i: nat, j: nat)
    requires i <= j <= |b|
    ensures (a + b)[|a| + i..|a| + j] == b[i..j]
  {
  }

  // ---------------------------------------------------------------------
  // Any way of cutting the stream

  function Received(pieces: seq<seq<byte>>): seq<byte>
  {
    if pieces == [] then [] else Received(pieces[..|pieces| - 1]) + pieces[|pieces| - 1]
  }

  ghost predicate SafeEnds(frames: seq<Frame>, pieces: seq<seq<byte>>)
  {
    forall i: nat :: i <= |pieces| ==> SafeEnd(frames, |Received(pieces[..i])|)
  }

  /** Reading on from where a safe read left off. */
  ghost predicate ReadsOn(frames: seq<Frame>, size: nat, more: nat)
    requires size <= more <= |Stream(frames)|
  {
    var k, m := Whole(frames, size), Whole(frames, more);
    && Left(frames, size) <= size && Left(frames, more) <= more && k <= m
    && Read(Stream(frames)[size - Left(frames, size)..more])
       == if SafeEnd(frames, more) then Out(Payloads(frames)[k..m], Stream(frames)[more - Left(frames, more)..more])
          else Overrun
  }

  lemma ReadsOnFirst(frames: seq<Frame>, size: nat, more: nat)
    requires (forall f :: f in frames ==> Sendable(f)) && size <= more <= |Stream(frames)|
    requires frames == [] || size < |Text(frames[0])|
    ensures ReadsOn(frames, size, more)
  {
    hide Read, SafeEnd, Whole, Left, Stream, Payloads, Text, Sendable;
    ReadFront(frames, more);
    WholeNone(frames, size);
    LeftFits(frames, more);
    assert Payloads(frames)[0..Whole(frames, more)] == Payloads(frames)[..Whole(frames, more)];
    assert Stream(frames)[0..more] == Stream(frames)[..more];
  }

  lemma ReadsOnNext(frames: seq<Frame>, size: nat, more: nat)
    requires frames != [] && |Text(frames[0])| <= size <= more <= |Stream(frames)|
    requires var t := |Text(frames[0])|;
      |Stream(frames)| == t + |Stream(frames[1..])| && ReadsOn(frames[1..], size - t, more - t)
    ensures ReadsOn(frames, size, more)
  {
    hide Read, SafeEnd, Whole, Left, Stream, Payloads, Text;
    var t, rest := |Text(frames[0])|, frames[1..];
    FirstFrame(frames);
    WholeStep(frames, size);
    WholeStep(frames, more);
    ShiftDown(Text(frames[0]), Stream(rest), Left(frames, size), Left(frames, more), size - t, more - t);
    PayloadsBehind(frames, Whole(rest, size - t), Whole(rest, more - t));
  }

  /** Where a read leaves off does not depend on where the one before did. */
  lemma {:induction false} ReadMore(frames: seq<Frame>, size: nat, more: nat)
    requires (forall f :: f in frames ==> Sendable(f)) && size <= more <= |Stream(frames)|
    ensures ReadsOn(frames, size, more)
    decreases |frames|
  {
    hide ReadsOn, Stream, Text, Sendable;
    if frames == [] || size < |Text(frames[0])| {
      ReadsOnFirst(frames, size, more);
    } else {
      FirstFrame(frames);
      ReadMore(frames[1..], size - |Text(frames[0])|, more - |Text(frames[0])|);
      ReadsOnNext(frames, size, more);
    }
  }

  lemma ShiftDown(a: seq<byte>, b: seq<byte>, l1: nat, l2: nat, size: nat, more: nat)
    requires l1 <= size <= more <= |b| && l2 <= more
    ensures (a + b)[|a| + size - l1..|a| + more] == b[size - l1..more]
    ensures (a + b)[|a| + more - l2..|a| + more] == b[more - l2..more]
  {
    Behind(a, b, size - l1, more);
    Behind(a, b, more - l2, more);
  }

  lemma PayloadsBehind(frames: seq<Frame>, k: nat, m: nat)
    requires frames != [] && k <= m < |frames|
    ensures Payloads(frames)[k + 1..m + 1] == Payloads(frames[1..])[k..m]
  {
    hide Payloads;
    FirstFrame(frames);
    BehindOne(frames[0].payload, Payloads(frames[1..]), k, m);
  }

  lemma BehindOne(first: seq<byte>, rest: seq<seq<byte>>, k: nat, m: nat)
    requires k <= m <= |rest|
    ensures ([first] + rest)[k + 1..m + 1] == rest[k..m]
  {
  }

  lemma WholeNone(frames: seq<Frame>, size: nat)
    requires frames == [] || size < |Text(frames[0])|
    ensures Whole(frames, size) == 0 && Left(frames, size) == size
  {
  }

  lemma FirstFrame(frames: seq<Frame>)
    requires frames != []
    ensures Stream(frames) == Text(frames[0]) + Stream(frames[1..])
    ensures Payloads(frames) == [frames[0].payload] + Payloads(frames[1..])
  {
  }

  /** The loop delivers the payloads of the whole frames received so far, in order,
      and keeps the rest, if and only if no read has ended where the test goes
      wrong; a single read that does takes a payload beyond the bytes received. */
  lemma {:induction false} Delivery(frames: seq<Frame>, pieces: seq<seq<byte>>)
    requires (forall f :: f in frames ==> Sendable(f)) && Received(pieces) <= Stream(frames)
    ensures var size := |Received(pieces)|;
      && Left(frames, size) <= size
      && ReadAll(pieces) == if SafeEnds(frames, pieces)
                            then Out(Payloads(frames)[..Whole(frames, size)],
                                     Stream(frames)[size - Left(frames, size)..size])
                            else Overrun
    decreases |pieces|
  {
    hide Read, SafeEnd, Whole, Left, Stream;
    var size := |Received(pieces)|;
    if pieces == [] {
      NothingYet(frames);
      assert Payloads(frames)[..0] == [] && Stream(frames)[0..0] == [];
      assert pieces[..0] == [];
    } else {
      var before, last := pieces[..|pieces| - 1], pieces[|pieces| - 1];
      assert Received(before) <= Received(pieces);
      Delivery(frames, before);
      SafeEndsStep(frames, pieces);
      var had := |Received(before)|;
      LeftFits(frames, size);
      if SafeEnds(frames, before) {
        assert SafeEnd(frames, had) by {
          assert before[..|before|] == before;
        }
        ReadMore(frames, had, size);
        var from := had - Left(frames, had);
        assert Received(pieces) == Stream(frames)[..size];
        assert Stream(frames)[from..size] == Stream(frames)[from..had] + last by {
          assert last == Stream(frames)[had..size];
        }
        var k, m := Whole(frames, had), Whole(frames, size);
        assert Payloads(frames)[..k] + Payloads(frames)[k..m] == Payloads(frames)[..m];
      }
    }
  }

  lemma NothingYet(frames: seq<Frame>)
    ensures Whole(frames, 0) == 0 && Left(frames, 0) == 0 && SafeEnd(frames, 0)
  {
    if frames != [] {
      assert |Text(frames[0])| >= 4;
    }
  }

  lemma {:induction false} LeftFits(frames: seq<Frame>, size: nat)
    ensures Left(frames, size) <= size
    decreases |frames|
  {
    if frames != [] && size >= |Text(frames[0])| {
      LeftFits(frames[1..], size - |Text(frames[0])|);
    }
  }

  lemma SafeEndsStep(frames: seq<Frame>, pieces: seq<seq<byte>>)
    requires pieces != []
    ensures SafeEnds(frames, pieces) <==>
              SafeEnds(frames, pieces[..|pieces| - 1]) && SafeEnd(frames, |Received(pieces)|)
  {
    hide SafeEnd, Received;
    var before := pieces[..|pieces| - 1];
    assert pieces[..|pieces|] == pieces;
    if SafeEnds(frames, pieces) {
      forall i: nat | i <= |before| ensures SafeEnd(frames, |Received(before[..i])|) {
        assert before[..i] == pieces[..i];
      }
    }
    if SafeEnds(frames, before) && SafeEnd(frames, |Received(pieces)|) {
      forall i: nat | i <= |pieces| ensures SafeEnd(frames, |Received(pieces[..i])|) {
        if i < |pieces| {
          assert before[..i] == pieces[..i];
        }
      }
    }
  }

  /** Reads that end with the stream deliver everything. */
  lemma AllDelivered(frames: seq<Frame>, pieces: seq<seq<byte>>)
    requires (forall f :: f in frames ==> Sendable(f)) && Received(pieces) == Stream(frames) && SafeEnds(frames, pieces)
    ensures ReadAll(pieces) == Out(Payloads(frames), [])
  {
    Delivery(frames, pieces);
    AllWhole(frames);
    assert Payloads(frames)[..|frames|] == Payloads(frames);
  }

  lemma {:induction false} AllWhole(frames: seq<Frame>)
    ensures Whole(frames, |Stream(frames)|) == |frames| && Left(frames, |Stream(frames)|) == 0
  {
    if frames != [] {
      AllWhole(frames[1..]);
    }
  }

  // ---------------------------------------------------------------------
  // The code

  /** The two buffers handed to uv_write: the header with uninitialised padding, and
      the payload. */
  method WriteFrame(payload: seq<byte>) returns (header: seq<byte>, data: seq<byte>, ghost f: Frame)
    requires |payload| < 0x8000_0000
    ensures data == payload && |header| == 4 + Pad(|payload|) && header[..4] == Header(|payload|)
    ensures header + data == Text(f) && f.payload == payload && Sendable(f)
  {
    hide BigEndian;
    var padlen := if |payload| % 8 == 0 then 0 else 8 - |payload| % 8;
    var block := new byte[4 + padlen];
    var length := Header(|payload|);
    block[0], block[1], block[2], block[3] := length[0], length[1], length[2], length[3];
    f := Frame(block[4..], payload);
    assert block[..] == length + block[4..];
    header, data := block[..], payload;
  }

  class HandoffConnection {
    const mem: Membuf
    /** What phttp_on_handoff has been called with. */
    var handed: seq<seq<byte>>

    ghost predicate Valid()
      reads this, mem
    {
      mem.Valid()
    }

    constructor (mem: Membuf)
      requires mem.Valid()
      ensures this.mem == mem && handed == []
    {
      this.mem, handed := mem, [];
    }

    /** Room for at least 1024 bytes before every read. */
    method OnAlloc()
      requires Valid()
      modifies mem
      ensures Valid() && mem.Avail() >= 1024 && mem.Contents() == old(mem.Contents())
      ensures mem.begin == old(mem.begin) || fresh(mem.begin)
    {
      if mem.Avail() < 1024 {
        mem.Grow(4096);
      }
    }

    /** A read into the free part of the buffer, and then every frame that the test
        lets pass. */
    method OnRead(data: seq<byte>) returns (overrun: bool)
      requires Valid() && |data| <= mem.Avail()
      modifies this, mem, mem.begin
      ensures mem.begin == old(mem.begin)
      ensures var o := Read(old(mem.Contents()) + data);
        if o.Overrun? then overrun
        else !overrun && Valid() && mem.Contents() == o.rest && handed == old(handed) + o.delivered
    {
      hide Read;
      mem.Receive(data);
      var error := mem.Consume(|data|);
      var cursor;
      cursor, overrun := Deliver();
      if !overrun {
        Compact(cursor);
      }
    }

    method Deliver() returns (cursor: nat, overrun: bool)
      requires Valid()
      modifies this
      ensures var o := Read(mem.Contents());
        if o.Overrun? then overrun
        else !overrun && cursor <= mem.cur && mem.Contents()[cursor..] == o.rest && handed == old(handed) + o.delivered
    {
      hide Read;
      ghost var s := mem.Contents();
      cursor, overrun := 0, false;
      assert s[0..] == s;
      AheadNone(old(handed), Read(s));
      while true
        invariant cursor <= mem.cur && mem.Contents() == s && Valid()
        invariant Hand(handed, Read(s[cursor..])) == Hand(old(handed), Read(s))
        decreases mem.cur - cursor
      {
        ReadStep(s[cursor..]);
        if mem.cur - cursor < 4 {
          break;
        }
        var view := mem.begin[cursor..mem.cur];
        assert view == s[cursor..];
        var buflen := LengthAt(view);
        var padlen := if buflen % 8 == 0 then 0 else 8 - buflen % 8;
        if |view| < (buflen + padlen) % TWO32 {
          break;
        }
        if |view| < 4 + padlen + buflen {
          return cursor, true;
        }
        Tail(s, cursor, 4 + padlen + buflen);
        cursor := cursor + 4 + padlen;
        var payload := view[4 + padlen..4 + padlen + buflen];
        HandAhead(handed, payload, Read(view[4 + padlen + buflen..]));
        handed := handed + [payload];
        cursor := cursor + buflen;
      }
      assert handed + [] == handed;
    }

    /** The broken frame moves to the front of the buffer. */
    method Compact(cursor: nat)
      requires Valid() && cursor <= mem.cur
      modifies mem, mem.begin
      ensures Valid() && mem.begin == old(mem.begin) && mem.Contents() == old(mem.Contents())[cursor..]
    {
      var rem := mem.cur - cursor;
      MoveUp(mem.begin, 0, cursor, rem, mem.cur);
      assert old(mem.begin[cursor..mem.cur])[..rem] == old(mem.Contents())[cursor..];
      assert mem.begin[..rem] == mem.begin[0..rem];
      mem.Reset();
      var error := mem.Consume(rem);
    }
  }

  function Hand(handed: seq<seq<byte>>, o: Out): Out { if o.Out? then Out(handed + o.delivered, o.rest) else Overrun }

  lemma AheadNone(handed: seq<seq<byte>>, o: Out)
    ensures o.Out? ==> Hand([], o) == o
  {
    if o.Out? {
      assert [] + o.delivered == o.delivered;
    }
  }

  lemma HandAhead(handed: seq<seq<byte>>, payload: seq<byte>, o: Out)
    ensures Hand(handed, Ahead(payload, o)) == Hand(handed + [payload], o)
  {
    if o.Out? {
      assert handed + ([payload] + o.delivered) == (handed + [payload]) + o.delivered;
    }
  }

  lemma Tail(s: seq<byte>, i: nat, n: nat)
    requires i + n <= |s|
    ensures s[i..][n..] == s[i + n..]
  {
  }

  lemma ReadStep(s: seq<byte>)
    ensures |s| < 4 ==> Read(s) == Out([], s)
    ensures |s| >= 4 ==>
              var n := LengthAt(s);
              Read(s) == if |s| < Wanted(n) then Out([], s) else if |s| < 4 + Pad(n) + n then Overrun
                         else Ahead(s[4 + Pad(n)..4 + Pad(n) + n], Read(s[4 + Pad(n) + n..]))
  {
  }
}
