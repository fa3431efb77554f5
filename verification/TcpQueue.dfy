/** Restoring the queues of an imported TCP connection (src/tcp_export.cpp). */
module TcpQueue {
  import opened Bytes

  const INT_MAX := 0x7FFF_FFFF

  type Errno = e: int | e > 0 witness 1

  /** What send does with one chunk: it takes up to n bytes of it, possibly none,
      or it returns -1 and sets errno.  Taking none leaves errno alone. */
  datatype Answer = Taken(n: nat) | Refused(errno: Errno)

  /** Any behaviour: the answer to every call, given the chunk. */
  type Kernel = (nat, seq<byte>) -> Answer

  /** What the queue has taken, the error returned, how often send has been called
      and errno afterwards. */
  datatype Result = Result(sent: seq<byte>, error: int, calls: nat, errno: int)

  function Min(a: nat, b: nat): nat { if a < b then a else b }

  function After(sent: seq<byte>, r: Result): Result { r.(sent := sent + r.sent) }

  /** The loop: a chunk that is refused as a whole is tried again at half the size,
      down to 1024 bytes. */
  function Restore(kernel: Kernel, calls: nat, buf: seq<byte>, maxChunk: nat, errno: int): Result
    requires maxChunk > 0
    decreases |buf|, maxChunk
  {
    var chunk := buf[..Min(|buf|, maxChunk)];
    match kernel(calls, chunk)
    case Taken(n) =>
      var ret := Min(n, |chunk|);
      if ret == 0 then
        if maxChunk > 1024 then Restore(kernel, calls + 1, buf, maxChunk / 2, errno)
        else Result([], errno, calls + 1, errno)
      else if ret == |buf| then Result(buf, 0, calls + 1, errno)
      else After(buf[..ret], Restore(kernel, calls + 1, buf[ret..], maxChunk, errno))
    case Refused(e) =>
      if maxChunk > 1024 then Restore(kernel, calls + 1, buf, maxChunk / 2, e)
      else Result([], e, calls + 1, e)
  }

  lemma RestoreStep(kernel: Kernel, calls: nat, buf: seq<byte>, maxChunk: nat, errno: int)
    requires maxChunk > 0
    ensures var chunk := buf[..Min(|buf|, maxChunk)];
      Restore(kernel, calls, buf, maxChunk, errno) ==
        match kernel(calls, chunk)
        case Taken(n) => (
          var ret := Min(n, |chunk|);
          if ret == 0 then
            (if maxChunk > 1024 then Restore(kernel, calls + 1, buf, maxChunk / 2, errno)
             else Result([], errno, calls + 1, errno))
          else if ret == |buf| then Result(buf, 0, calls + 1, errno)
          else After(buf[..ret], Restore(kernel, calls + 1, buf[ret..], maxChunk, errno)))
        case Refused(e) =>
          if maxChunk > 1024 then Restore(kernel, calls + 1, buf, maxChunk / 2, e)
          else Result([], e, calls + 1, e)
  {
  }

  /** What has been taken is the front of the buffer; all of it means success; and
      success means all of it, unless errno was 0 and is reported as it was. */
  lemma {:induction false} RestoreSends(kernel: Kernel, calls: nat, buf: seq<byte>, maxChunk: nat, errno: int)
    requires maxChunk > 0 && buf != []
    ensures var r := Restore(kernel, calls, buf, maxChunk, errno);
      && r.sent <= buf && (r.sent == buf ==> r.error == 0)
      && (errno != 0 ==> r.errno != 0 && (r.error == 0 ==> r.sent == buf))
      && (r.error != 0 ==> r.error == r.errno)
    decreases |buf|, maxChunk
  {
    hide Restore;
    RestoreStep(kernel, calls, buf, maxChunk, errno);
    var chunk := buf[..Min(|buf|, maxChunk)];
    match kernel(calls, chunk) {
      case Taken(n) =>
        var ret := Min(n, |chunk|);
        if ret == 0 {
          if maxChunk > 1024 {
            RestoreSends(kernel, calls + 1, buf, maxChunk / 2, errno);
          }
        } else if ret < |buf| {
          RestoreSends(kernel, calls + 1, buf[ret..], maxChunk, errno);
          PrefixAfter(buf, ret, Restore(kernel, calls + 1, buf[ret..], maxChunk, errno).sent);
        }
      case Refused(e) =>
        if maxChunk > 1024 {
          RestoreSends(kernel, calls + 1, buf, maxChunk / 2, e);
        }
    }
  }

  lemma PrefixAfter(buf: seq<byte>, n: nat, sent: seq<byte>)
    requires n <= |buf| && sent <= buf[n..]
    ensures buf[..n] + sent <= buf && (buf[..n] + sent == buf <==> sent == buf[n..])
  {
    assert buf == buf[..n] + buf[n..];
    if buf[..n] + sent == buf {
      assert |sent| == |buf[n..]|;
    }
  }

  /** A kernel that takes nothing and sets no error. */
  function Silent(): Kernel { (calls: nat, chunk: seq<byte>) => Taken(0) }

  lemma {:induction false} SilentResult(calls: nat, buf: seq<byte>, maxChunk: nat, errno: int)
    requires maxChunk > 0
    ensures var r := Restore(Silent(), calls, buf, maxChunk, errno); r.sent == [] && r.error == errno
    decreases maxChunk
  {
    if maxChunk > 1024 {
      SilentResult(calls + 1, buf, maxChunk / 2, errno);
    }
  }

  /** Success is everything sent, whatever send does, exactly when errno is not 0
      at the call. */
  lemma SuccessMeansSent(buf: seq<byte>, errno: int)
    requires buf != []
    ensures errno != 0 <==> forall kernel: Kernel ::
              var r := Restore(kernel, 0, buf, |buf|, errno); r.error == 0 <==> r.sent == buf
  {
    if errno != 0 {
      forall kernel: Kernel
        ensures var r := Restore(kernel, 0, buf, |buf|, errno); r.error == 0 <==> r.sent == buf
      {
        RestoreSends(kernel, 0, buf, |buf|, errno);
      }
    } else {
      SilentResult(0, buf, |buf|, errno);
      assert Restore(Silent(), 0, buf, |buf|, errno).sent != buf;
    }
  }

  /** The condition on send itself: as long as it takes something of every chunk
      that is not empty or sets errno, errno may be anything. */
  lemma {:induction false} NeverSilent(kernel: Kernel, calls: nat, buf: seq<byte>, maxChunk: nat, errno: int)
    requires maxChunk > 0 && buf != []
    requires forall i: nat, chunk: seq<byte> :: chunk != [] ==> kernel(i, chunk) != Taken(0)
    ensures var r := Restore(kernel, calls, buf, maxChunk, errno); r.error == 0 <==> r.sent == buf
    decreases |buf|, maxChunk
  {
    hide Restore;
    RestoreSends(kernel, calls, buf, maxChunk, errno);
    RestoreStep(kernel, calls, buf, maxChunk, errno);
    var chunk := buf[..Min(|buf|, maxChunk)];
    assert kernel(calls, chunk) != Taken(0);
    match kernel(calls, chunk) {
      case Taken(n) =>
        var ret := Min(n, |chunk|);
        if ret < |buf| {
          NeverSilent(kernel, calls + 1, buf[ret..], maxChunk, errno);
          RestoreSends(kernel, calls + 1, buf[ret..], maxChunk, errno);
          PrefixAfter(buf, ret, Restore(kernel, calls + 1, buf[ret..], maxChunk, errno).sent);
        }
      case Refused(e) =>
        if maxChunk > 1024 {
          NeverSilent(kernel, calls + 1, buf, maxChunk / 2, e);
        }
    }
  }

  /** Chunks of at most 1024 bytes are enough: a send that takes something of each
      of those makes every restoration succeed, whatever it does with longer ones. */
  lemma {:induction false} SmallChunksSuffice(kernel: Kernel, calls: nat, buf: seq<byte>, maxChunk: nat, errno: int)
    requires maxChunk > 0 && buf != []
    requires forall i: nat, chunk: seq<byte> ::
               0 < |chunk| <= 1024 ==> kernel(i, chunk).Taken? && kernel(i, chunk).n > 0
    ensures var r := Restore(kernel, calls, buf, maxChunk, errno); r.error == 0 && r.sent == buf
    decreases |buf|, maxChunk
  {
    hide Restore;
    RestoreStep(kernel, calls, buf, maxChunk, errno);
    var chunk := buf[..Min(|buf|, maxChunk)];
    assert 0 < |chunk| && (maxChunk <= 1024 ==> kernel(calls, chunk).Taken? && kernel(calls, chunk).n > 0);
    match kernel(calls, chunk) {
      case Taken(n) =>
        var ret := Min(n, |chunk|);
        if ret == 0 {
          SmallChunksSuffice(kernel, calls + 1, buf, maxChunk / 2, errno);
        } else if ret < |buf| {
          SmallChunksSuffice(kernel, calls + 1, buf[ret..], maxChunk, errno);
        }
      case Refused(e) =>
        SmallChunksSuffice(kernel, calls + 1, buf, maxChunk / 2, e);
    }
  }

  /** And they are needed: a chunk of at most 1024 bytes that is refused is not tried
      again, and its error is reported. */
  lemma SmallRefusalIsFinal(kernel: Kernel, calls: nat, buf: seq<byte>, maxChunk: nat, errno: int)
    requires 0 < maxChunk <= 1024 && kernel(calls, buf[..Min(|buf|, maxChunk)]).Refused?
    ensures var e := kernel(calls, buf[..Min(|buf|, maxChunk)]).errno;
      Restore(kernel, calls, buf, maxChunk, errno) == Result([], e, calls + 1, e)
  {
    RestoreStep(kernel, calls, buf, maxChunk, errno);
  }

  // ---------------------------------------------------------------------
  // The code

  datatype Queue = NoQueue | RecvQueue | SendQueue

  /** A socket, in repair mode or not: what has been put into the receive queue,
      into the send queue as sent already, and behind that as still to be sent. */
  class Socket {
    const kernel: Kernel
    var calls: nat
    var errno: int
    var repair: bool
    var selected: Queue
    var received: seq<byte>
    var sent: seq<byte>
    var unsent: seq<byte>

    constructor (kernel: Kernel, errno: int)
      ensures this.kernel == kernel && this.errno == errno && calls == 0 && repair && selected == NoQueue
      ensures received == [] && sent == [] && unsent == []
    {
      this.kernel, this.errno, calls, repair, selected := kernel, errno, 0, true, NoQueue;
      received, sent, unsent := [], [], [];
    }

    ghost predicate Appended(received0: seq<byte>, sent0: seq<byte>, unsent0: seq<byte>, data: seq<byte>)
      reads this
    {
      && received == (if repair && selected == RecvQueue then received0 + data else received0)
      && sent == (if repair && selected == SendQueue then sent0 + data else sent0)
      && unsent == (if !repair then unsent0 + data else unsent0)
    }

    method Send(chunk: seq<byte>) returns (ret: int)
      requires repair ==> selected != NoQueue
      modifies this`calls, this`errno, this`received, this`sent, this`unsent
      ensures calls == old(calls) + 1 && ret <= |chunk|
      ensures match kernel(old(calls), chunk)
              case Taken(n) => ret == Min(n, |chunk|) && errno == old(errno)
              case Refused(e) => ret == -1 && errno == e
      ensures Appended(old(received), old(sent), old(unsent), if ret > 0 then chunk[..ret] else [])
    {
      var answer := kernel(calls, chunk);
      calls := calls + 1;
      match answer {
        case Taken(n) =>
          ret := Min(n, |chunk|);
        case Refused(e) =>
          errno := e;
          ret := -1;
      }
      var taken := if ret > 0 then chunk[..ret] else [];
      if !repair {
        unsent := unsent + taken;
      } else if selected == RecvQueue {
        received := received + taken;
      } else {
        sent := sent + taken;
      }
    }

    /** The same, on top of data appended before. */
    method SendMore(chunk: seq<byte>, ghost received0: seq<byte>, ghost sent0: seq<byte>, ghost unsent0: seq<byte>,
                    ghost data: seq<byte>) returns (ret: int)
      requires (repair ==> selected != NoQueue) && Appended(received0, sent0, unsent0, data)
      modifies this`calls, this`errno, this`received, this`sent, this`unsent
      ensures calls == old(calls) + 1 && ret <= |chunk|
      ensures match kernel(old(calls), chunk)
              case Taken(n) => ret == Min(n, |chunk|) && errno == old(errno)
              case Refused(e) => ret == -1 && errno == e
      ensures Appended(received0, sent0, unsent0, if ret > 0 then data + chunk[..ret] else data)
    {
      ret := Send(chunk);
      ghost var taken := if ret > 0 then chunk[..ret] else [];
      Joins(received0, data, taken);
      Joins(sent0, data, taken);
      Joins(unsent0, data, taken);
    }

    /** __send_queue: ends because every turn either sends something or halves the
        chunk. */
    method SendAll(buf: seq<byte>) returns (error: int)
      requires 0 < |buf| <= INT_MAX && (repair ==> selected != NoQueue)
      modifies this`calls, this`errno, this`received, this`sent, this`unsent
      ensures var r := Restore(kernel, old(calls), buf, |buf|, old(errno));
        && error == r.error && calls == r.calls && errno == r.errno
        && Appended(old(received), old(sent), old(unsent), r.sent)
    {
      hide Restore, Appended, After;
      var off, len, maxChunk := 0, |buf|, |buf|;
      ghost var all := Restore(kernel, calls, buf, |buf|, errno);
      assert buf[0..] == buf && buf[..0] == [];
      AfterNone(all);
      StartsEmpty();
      while true
        invariant 0 <= off && 0 < len && off + len == |buf| && maxChunk > 0
        invariant After(buf[..off], Restore(kernel, calls, buf[off..], maxChunk, errno)) == all
        invariant Appended(old(received), old(sent), old(unsent), buf[..off])
        decreases len, maxChunk
      {
        var chunk := len;
        if chunk > maxChunk {
          chunk := maxChunk;
        }
        ghost var had, errno0 := calls, errno;
        Cuts(buf, off, chunk);
        var ret := SendMore(buf[off..off + chunk], old(received), old(sent), old(unsent), buf[..off]);
        if ret <= 0 {
          TookNothing(kernel, had, buf, off, maxChunk, errno0, errno);
          if maxChunk > 1024 {
            maxChunk := maxChunk / 2;
            continue;
          }
          error := errno;
          return;
        }
        TookSome(kernel, had, buf, off, maxChunk, errno, ret);
        CutsTaken(buf, off, chunk, ret);
        off := off + ret;
        len := len - ret;
        if len == 0 {
          assert buf[..off] == buf;
          break;
        }
      }
      error := 0;
    }

    /** setsockopt(TCP_REPAIR_QUEUE), which may fail, and then the loop.  The first
        result is its errno, 0 when it succeeds. */
    method RestoreQueue(queue: Queue, buf: seq<byte>, refusal: int) returns (error: int)
      requires repair && queue != NoQueue && 0 < |buf| <= INT_MAX && refusal >= 0
      modifies this`selected, this`calls, this`errno, this`received, this`sent, this`unsent
      ensures refusal != 0 ==>
                error == refusal == errno && received == old(received) && sent == old(sent) && unsent == old(unsent)
      ensures refusal == 0 ==>
                var r := Restore(kernel, old(calls), buf, |buf|, old(errno));
                && error == r.error && calls == r.calls && errno == r.errno && selected == queue
                && Appended(old(received), old(sent), old(unsent), r.sent)
    {
      hide Restore;
      if refusal != 0 {
        errno := refusal;
        return errno;
      }
      selected := queue;
      error := SendAll(buf);
    }

    /** tcp_set_queue for the receive queue. */
    method SetRecvQueue(recvq: seq<byte>, refusal: int) returns (error: int)
      requires repair && |recvq| <= INT_MAX && refusal >= 0
      modifies this`selected, this`calls, this`errno, this`received, this`sent, this`unsent
      ensures sent == old(sent) && unsent == old(unsent) && old(received) <= received <= old(received) + recvq
      ensures received == old(received) + recvq && (recvq == [] || refusal == 0) ==> error == 0
      ensures error == 0 && old(errno) != 0 ==> received == old(received) + recvq
    {
      hide Restore;
      if |recvq| == 0 {
        assert old(received) + recvq == old(received);
        return 0;
      }
      RestoreSends(kernel, calls, recvq, |recvq|, errno);
      error := RestoreQueue(RecvQueue, recvq, refusal);
      Front(old(received), Restore(kernel, old(calls), recvq, |recvq|, old(errno)).sent, recvq);
    }

    /** tcp_set_queue for the send queue: what has been sent but not acknowledged is
        put back in repair mode, what has not been sent is sent out of it.  Success
        means that the two parts are the whole queue in order, unless errno was 0. */
    method SetSendQueue(sendq: seq<byte>, unsentLen: nat, refusal: int) returns (error: int)
      requires repair && |sendq| <= INT_MAX && unsentLen <= |sendq| && refusal >= 0
      requires sent == [] && unsent == []
      modifies this
      ensures received == old(received)
      ensures sent <= sendq[..|sendq| - unsentLen] && unsent <= sendq[|sendq| - unsentLen..]
      ensures old(errno) != 0 && unsent != [] ==> sent == sendq[..|sendq| - unsentLen]
      ensures old(errno) != 0 && error == 0 ==>
                sent == sendq[..|sendq| - unsentLen] && unsent == sendq[|sendq| - unsentLen..] && sent + unsent == sendq
      ensures error == 0 ==> repair
      ensures sent + unsent == sendq && (unsentLen == |sendq| || refusal == 0) ==> error == 0
    {
      hide Restore;
      var ulen := unsentLen;
      var len := |sendq| - ulen;
      assert sendq[..len] + sendq[len..] == sendq;
      if len > 0 {
        RestoreSends(kernel, calls, sendq[..len], len, errno);
        Front([], Restore(kernel, calls, sendq[..len], len, errno).sent, sendq[..len]);
        error := RestoreQueue(SendQueue, sendq[..len], refusal);
        if error != 0 {
          return;
        }
      }
      if ulen > 0 {
        repair := false;
        RestoreSends(kernel, calls, sendq[len..], ulen, errno);
        Front([], Restore(kernel, calls, sendq[len..], ulen, errno).sent, sendq[len..]);
        error := SendAll(sendq[len..]);
        if error != 0 {
          return;
        }
        repair := true;
      }
      error := 0;
    }

    lemma StartsEmpty()
      ensures Appended(received, sent, unsent, [])
    {
    }
  }

  lemma TookNothing(kernel: Kernel, calls: nat, buf: seq<byte>, off: nat, maxChunk: nat, errno: int, errno': int)
    requires off < |buf| && maxChunk > 0
    requires var chunk := buf[off..][..Min(|buf| - off, maxChunk)];
      match kernel(calls, chunk) case Taken(n) => Min(n, |chunk|) == 0 && errno' == errno case Refused(e) => errno' == e
    ensures After(buf[..off], Restore(kernel, calls, buf[off..], maxChunk, errno))
         == if maxChunk > 1024 then After(buf[..off], Restore(kernel, calls + 1, buf[off..], maxChunk / 2, errno'))
            else Result(buf[..off], errno', calls + 1, errno')
  {
    hide Restore;
    RestoreStep(kernel, calls, buf[off..], maxChunk, errno);
    assert buf[..off] + [] == buf[..off];
  }

  lemma TookSome(kernel: Kernel, calls: nat, buf: seq<byte>, off: nat, maxChunk: nat, errno: int, ret: nat)
    requires off < |buf| && maxChunk > 0 && ret > 0
    requires var chunk := buf[off..][..Min(|buf| - off, maxChunk)];
      kernel(calls, chunk).Taken? && ret == Min(kernel(calls, chunk).n, |chunk|)
    ensures After(buf[..off], Restore(kernel, calls, buf[off..], maxChunk, errno))
         == if off + ret == |buf| then Result(buf, 0, calls + 1, errno)
            else After(buf[..off + ret], Restore(kernel, calls + 1, buf[off + ret..], maxChunk, errno))
  {
    hide Restore;
    var left := buf[off..];
    RestoreStep(kernel, calls, left, maxChunk, errno);
    CutsTaken(buf, off, |left|, ret);
    if ret == |left| {
      assert buf[..off] + left == buf;
    } else {
      AfterTwice(buf[..off], left[..ret], Restore(kernel, calls + 1, left[ret..], maxChunk, errno));
    }
  }

  lemma Cuts(buf: seq<byte>, off: nat, chunk: nat)
    requires off + chunk <= |buf|
    ensures buf[off..off + chunk] == buf[off..][..chunk]
  {
  }

  lemma CutsTaken(buf: seq<byte>, off: nat, chunk: nat, ret: nat)
    requires off + chunk <= |buf| && ret <= chunk
    ensures buf[off..off + chunk][..ret] == buf[off..][..ret]
    ensures buf[..off] + buf[off..][..ret] == buf[..off + ret] && buf[off..][ret..] == buf[off + ret..]
  {
  }

  lemma Joins(base: seq<byte>, data: seq<byte>, taken: seq<byte>)
    ensures (base + data) + taken == base + (data + taken)
    ensures taken == [] ==> data + taken == data && (base + data) + taken == base + data
    ensures base + [] == base
  {
  }

  /** A front of the data on top of what was there. */
  lemma Front(base: seq<byte>, taken: seq<byte>, data: seq<byte>)
    requires taken <= data
    ensures base <= base + taken <= base + data && (base + taken == base + data <==> taken == data)
    ensures base == [] ==> base + taken == taken && base + data == data
  {
    if base + taken == base + data {
      assert |taken| == |data|;
    }
  }

  lemma AfterNone(r: Result)
    ensures After([], r) == r
  {
    assert [] + r.sent == r.sent;
  }

  lemma AfterTwice(a: seq<byte>, b: seq<byte>, r: Result)
    ensures After(a, After(b, r)) == After(a + b, r)
  {
    assert a + (b + r.sent) == (a + b) + r.sent;
  }
}
