/** The Prism switch: the rule table, the five configuration requests, and the
    rewriting of TCP packets. */
module Switch {
  import opened Bytes
  import opened Checksum

  datatype Key = Key(addr: u32, port: u16)

  datatype Endpoint = Endpoint(addr: u32, port: u16, mac: seq<byte>)

  datatype Rule = Rule(virtualAddr: u32, virtualPort: u16, owner: Endpoint, locked: byte)

  type Table = map<Key, Rule>

  datatype Request =
    | Add(key: Key, virtualAddr: u32, virtualPort: u16, newOwner: Endpoint, lock: byte)
    | Delete(key: Key)
    | Chown(key: Key, newOwner: Endpoint, unlock: byte)
    | Lock(key: Key)
    | Unlock(key: Key)

  const ENOENT := 2
  const EEXIST := 17

  // ---------------------------------------------------------------------
  // What one request does to the table

  function LockBit(locked: byte): byte { if locked == 0 then 1 else 0 }

  function UnlockBit(locked: byte): byte { if locked == 1 then 0 else 1 }

  function Status(rules: Table, req: Request): int
  {
    if req.Add? then (if req.key in rules then -EEXIST else 0)
    else (if req.key in rules then 0 else -ENOENT)
  }

  function Applied(rules: Table, req: Request): Table
  {
    if Status(rules, req) != 0 then rules else
    match req
    case Add(k, va, vp, owner, lock) => rules[k := Rule(va, vp, owner, lock)]
    case Delete(k) => rules - {k}
    case Chown(k, owner, unlock) =>
      rules[k := rules[k].(owner := owner,
                          locked := if unlock != 0 then UnlockBit(rules[k].locked) else rules[k].locked)]
    case Lock(k) => rules[k := rules[k].(locked := LockBit(rules[k].locked))]
    case Unlock(k) => rules[k := rules[k].(locked := UnlockBit(rules[k].locked))]
  }

  /** What each request does, in numbers: to a rule that is there, or is not. */
  lemma EffectsAre(rules: Table, k: Key, va: u32, vp: u16, owner: Endpoint, flag: byte)
    ensures k in rules ==>
      && Status(rules, Add(k, va, vp, owner, flag)) == -17
      && Applied(rules, Add(k, va, vp, owner, flag)) == rules
    ensures k !in rules ==>
      && Status(rules, Add(k, va, vp, owner, flag)) == 0
      && Applied(rules, Add(k, va, vp, owner, flag)) == rules[k := Rule(va, vp, owner, flag)]
      && forall req: Request :: req.key == k && !req.Add? ==> Status(rules, req) == -2 && Applied(rules, req) == rules
    ensures k in rules ==>
      var rule, lock := rules[k], rules[k].locked;
      && Applied(rules, Delete(k)) == rules - {k}
      && Applied(rules, Lock(k)) == rules[k := rule.(locked := if lock == 0 then 1 else 0)]
      && Applied(rules, Unlock(k)) == rules[k := rule.(locked := if lock == 1 then 0 else 1)]
      && Applied(rules, Chown(k, owner, 0)) == rules[k := rule.(owner := owner)]
      && var chowned := Applied(rules, Chown(k, owner, flag));
      && (flag != 0 ==> chowned == rules[k := rule.(owner := owner, locked := if lock == 1 then 0 else 1)])
  {
  }

  /** The datagram sent back: addresses are swapped and the UDP checksum is
      adjusted for the handler's status, but the status field of the payload is
      left as the client sent it. */
  datatype Reply = Reply(req: Request, status: u16)

  class PrismSwitch {
    var rules: Table

    constructor ()
      ensures rules == map[]
    {
      rules := map[];
    }

    method HandleAdd(key: Key, virtualAddr: u32, virtualPort: u16, newOwner: Endpoint, lock: byte) returns (error: int)
      modifies this
      ensures rules == Applied(old(rules), Add(key, virtualAddr, virtualPort, newOwner, lock))
      ensures error == Status(old(rules), Add(key, virtualAddr, virtualPort, newOwner, lock))
    {
      if key in rules {
        return -EEXIST;
      }
      var value := Rule(virtualAddr, virtualPort, newOwner, lock);
      rules := rules[key := value];
      return 0;
    }

    method HandleDelete(key: Key) returns (error: int)
      modifies this
      ensures rules == Applied(old(rules), Delete(key))
      ensures error == Status(old(rules), Delete(key))
    {
      if key !in rules {
        return -ENOENT;
      }
      rules := map k | k in rules && k != key :: rules[k];
      return 0;
    }

    method HandleChown(key: Key, newOwner: Endpoint, unlock: byte) returns (error: int)
      modifies this
      ensures rules == Applied(old(rules), Chown(key, newOwner, unlock))
      ensures error == Status(old(rules), Chown(key, newOwner, unlock))
    {
      if key !in rules {
        return -ENOENT;
      }
      var value := rules[key];
      value := value.(owner := newOwner);
      if unlock != 0 {
        value := value.(locked := if value.locked == 1 then 0 else 1);
      }
      rules := rules[key := value];
      return 0;
    }

    method HandleLock(key: Key) returns (error: int)
      modifies this
      ensures rules == Applied(old(rules), Lock(key))
      ensures error == Status(old(rules), Lock(key))
    {
      if key !in rules {
        return -ENOENT;
      }
      var value := rules[key];
      value := value.(locked := if value.locked == 0 then 1 else 0);
      rules := rules[key := value];
      return 0;
    }

    method HandleUnlock(key: Key) returns (error: int)
      modifies this
      ensures rules == Applied(old(rules), Unlock(key))
      ensures error == Status(old(rules), Unlock(key))
    {
      if key !in rules {
        return -ENOENT;
      }
      var value := rules[key];
      value := value.(locked := if value.locked == 1 then 0 else 1);
      rules := rules[key := value];
      return 0;
    }

    /** configure_switch.  The reply does not tell a failed request from an
        applied one: no handler returns a positive value, so the reply is
        always sent, and its status is the one in the request. */
    method Configure(req: Request, status: u16) returns (reply: Reply, error: int)
      modifies this
      ensures rules == Applied(old(rules), req)
      ensures error == Status(old(rules), req)
      ensures reply == Reply(req, status)
    {
      match req {
        case Add(k, va, vp, owner, lock) => error := HandleAdd(k, va, vp, owner, lock);
        case Delete(k) => error := HandleDelete(k);
        case Chown(k, owner, unlock) => error := HandleChown(k, owner, unlock);
        case Lock(k) => error := HandleLock(k);
        case Unlock(k) => error := HandleUnlock(k);
      }
      reply := Reply(req, status);
    }
  }

  // ---------------------------------------------------------------------
  // Whole request histories

  function After(rules: Table, history: seq<Request>): Table
    decreases |history|
  {
    if history == [] then rules
    else Applied(After(rules, history[..|history| - 1]), history[|history| - 1])
  }

  /** The owner named by the last CHOWN of the flow, or else the default. */
  function LastOwner(k: Key, first: Endpoint, history: seq<Request>): Endpoint
    decreases |history|
  {
    if history == [] then first else
    var last := history[|history| - 1];
    if last.Chown? && last.key == k then last.newOwner
    else LastOwner(k, first, history[..|history| - 1])
  }

  predicate Toggles(k: Key, req: Request)
  {
    req.key == k && (req.Lock? || req.Unlock? || (req.Chown? && req.unlock != 0))
  }

  function CountToggles(k: Key, history: seq<Request>): nat
    decreases |history|
  {
    if history == [] then 0 else
    CountToggles(k, history[..|history| - 1]) + if Toggles(k, history[|history| - 1]) then 1 else 0
  }

  ghost predicate NoDelete(k: Key, history: seq<Request>)
  {
    forall i :: 0 <= i < |history| ==> history[i] != Delete(k)
  }

  /** From a rule's ADD on, and until its DELETE, every request history leaves
      the virtual address alone, sets the owner to that of the last CHOWN, and
      leaves the flow locked exactly when ADD's lock bit plus the number of
      LOCK, UNLOCK and CHOWN(unlock) datagrams applied is odd. */
  lemma {:induction false} RuleLifetime(rules: Table, add: Request, history: seq<Request>)
    requires add.Add? && add.key !in rules && NoDelete(add.key, history)
    ensures var k := add.key;
      && var after := After(Applied(rules, add), history);
      && k in after
      && after[k].virtualAddr == add.virtualAddr
      && after[k].virtualPort == add.virtualPort
      && after[k].owner == LastOwner(k, add.newOwner, history)
      && (add.lock <= 1 ==> after[k].locked == (add.lock + CountToggles(k, history)) % 2)
    decreases |history|
  {
    if history != [] {
      var init := history[..|history| - 1];
      assert history[|history| - 1] != Delete(add.key);
      assert NoDelete(add.key, init) by {
        forall i | 0 <= i < |init| ensures init[i] != Delete(add.key) { assert init[i] == history[i]; }
      }
      RuleLifetime(rules, add, init);
    }
  }

  /** Requests for other flows never disturb a flow's rule. */
  lemma {:induction false} OtherFlowsUntouched(rules: Table, k: Key, history: seq<Request>)
    requires forall i :: 0 <= i < |history| ==> history[i].key != k
    ensures k in After(rules, history) <==> k in rules
    ensures k in rules ==> After(rules, history)[k] == rules[k]
    decreases |history|
  {
    if history != [] {
      var init := history[..|history| - 1];
      assert forall i :: 0 <= i < |init| ==> init[i] == history[i];
      OtherFlowsUntouched(rules, k, init);
    }
  }

  /** A lock request that is applied twice, because its reply was late and the
      client's timer fired, leaves the flow unlocked; so does any even number
      of applications, and only an even number. */
  lemma {:induction false} RetransmittedLock(rules: Table, k: Key, times: nat)
    requires k in rules && rules[k].locked == 0
    ensures var after := After(rules, seq(times, _ => Lock(k)));
      k in after && (after[k].locked == 1 <==> times % 2 == 1) && after[k].locked <= 1
    decreases times
  {
    if times > 0 {
      var history := seq(times, _ => Lock(k));
      assert history[..times - 1] == seq(times - 1, _ => Lock(k));
      RetransmittedLock(rules, k, times - 1);
    }
  }

  // ---------------------------------------------------------------------
  // Packets

  const IPPROTO_TCP := 6

  /** The fields of an Ethernet/IPv4/TCP frame that the switch reads or writes;
      the remaining 16-bit words are kept as the checksums see them. */
  datatype Headers = Headers(
    ethDst: seq<byte>,
    versionWord: u16, ipMiddle: seq<u16>, ttl: byte, proto: byte, ipCsum: u16, ipSrc: u32, ipDst: u32,
    tcpLength: u16, tcpSrc: u16, tcpDst: u16, tcpMiddle: seq<u16>, tcpCsum: u16, tcpRest: seq<u16>)

  function IpWords(h: Headers): seq<u16>
  {
    [h.versionWord] + h.ipMiddle
    + [h.ttl + 0x100 * h.proto, h.ipCsum, LowHalf(h.ipSrc), HighHalf(h.ipSrc), LowHalf(h.ipDst), HighHalf(h.ipDst)]
  }

  /** Pseudo-header and segment. */
  function TcpWords(h: Headers): seq<u16>
  {
    [LowHalf(h.ipSrc), HighHalf(h.ipSrc), LowHalf(h.ipDst), HighHalf(h.ipDst), 0x100 * h.proto, h.tcpLength]
    + [h.tcpSrc, h.tcpDst] + h.tcpMiddle + [h.tcpCsum] + h.tcpRest
  }

  predicate HasFiveWordHeader(h: Headers) { h.versionWord % 16 == 5 }

  predicate SwitchedByPrism(h: Headers) { HasFiveWordHeader(h) && h.proto == IPPROTO_TCP }

  datatype Verdict = Drop | Pass(h: Headers)

  function ToPeer(h: Headers, rule: Rule): Headers
  {
    h.(ipCsum := ReplaceAddr(h.ipCsum, h.ipSrc, rule.virtualAddr),
       tcpCsum := ReplacePort(ReplaceAddr(h.tcpCsum, h.ipSrc, rule.virtualAddr), h.tcpSrc, rule.virtualPort),
       tcpSrc := rule.virtualPort, ipSrc := rule.virtualAddr)
  }

  function ToOwner(h: Headers, rule: Rule): Headers
  {
    h.(ethDst := rule.owner.mac,
       ipCsum := ReplaceAddr(h.ipCsum, h.ipDst, rule.owner.addr),
       tcpCsum := ReplacePort(ReplaceAddr(h.tcpCsum, h.ipDst, rule.owner.addr), h.tcpDst, rule.owner.port),
       tcpDst := rule.owner.port, ipDst := rule.owner.addr)
  }

  function PeerKeyOfDst(h: Headers): Key { Key(h.ipDst, h.tcpDst) }

  function PeerKeyOfSrc(h: Headers): Key { Key(h.ipSrc, h.tcpSrc) }

  function Switched(rules: Table, h: Headers): Verdict
  {
    if !SwitchedByPrism(h) then Pass(h)
    else if PeerKeyOfDst(h) in rules then
      var rule := rules[PeerKeyOfDst(h)];
      if rule.locked != 0 then Drop else Pass(ToPeer(h, rule))
    else if PeerKeyOfSrc(h) in rules then
      var rule := rules[PeerKeyOfSrc(h)];
      if rule.locked == 1 then Drop else Pass(ToOwner(h, rule))
    else Pass(h)
  }

  class PacketContext {
    var hdr: Headers
    var matched: bool
    var abort: bool

    constructor (h: Headers)
      ensures hdr == h && !matched && !abort
    {
      hdr, matched, abort := h, false, false;
    }

    method OutLookup(rules: Table)
      requires !matched && !abort
      modifies this
      ensures matched == (PeerKeyOfDst(old(hdr)) in rules && rules[PeerKeyOfDst(old(hdr))].locked == 0)
      ensures abort == (PeerKeyOfDst(old(hdr)) in rules && rules[PeerKeyOfDst(old(hdr))].locked != 0)
      ensures hdr == if matched then ToPeer(old(hdr), rules[PeerKeyOfDst(old(hdr))]) else old(hdr)
    {
      var key := Key(hdr.ipDst, hdr.tcpDst);
      if key !in rules {
        return;
      }
      var val := rules[key];
      if val.locked != 0 {
        abort := true;
        return;
      }
      var ipCsum := Csum16Sub(hdr.ipCsum, Not16(HighHalf(hdr.ipSrc)));
      ipCsum := Csum16Sub(ipCsum, Not16(LowHalf(hdr.ipSrc)));
      ipCsum := Csum16Add(ipCsum, Not16(HighHalf(val.virtualAddr)));
      ipCsum := Csum16Add(ipCsum, Not16(LowHalf(val.virtualAddr)));
      hdr := hdr.(ipCsum := ipCsum);

      var tcpCsum := Csum16Sub(hdr.tcpCsum, Not16(HighHalf(hdr.ipSrc)));
      tcpCsum := Csum16Sub(tcpCsum, Not16(LowHalf(hdr.ipSrc)));
      tcpCsum := Csum16Add(tcpCsum, Not16(HighHalf(val.virtualAddr)));
      tcpCsum := Csum16Add(tcpCsum, Not16(LowHalf(val.virtualAddr)));
      tcpCsum := Csum16Sub(tcpCsum, Not16(hdr.tcpSrc));
      tcpCsum := Csum16Add(tcpCsum, Not16(val.virtualPort));
      hdr := hdr.(tcpCsum := tcpCsum);

      hdr := hdr.(tcpSrc := val.virtualPort);
      hdr := hdr.(ipSrc := val.virtualAddr);
      matched := true;
    }

    method InLookup(rules: Table)
      requires !matched && !abort
      modifies this
      ensures matched == (PeerKeyOfSrc(old(hdr)) in rules && rules[PeerKeyOfSrc(old(hdr))].locked != 1)
      ensures abort == (PeerKeyOfSrc(old(hdr)) in rules && rules[PeerKeyOfSrc(old(hdr))].locked == 1)
      ensures hdr == if matched then ToOwner(old(hdr), rules[PeerKeyOfSrc(old(hdr))]) else old(hdr)
    {
      var key := Key(hdr.ipSrc, hdr.tcpSrc);
      if key !in rules {
        return;
      }
      var val := rules[key];
      if val.locked == 1 {
        abort := true;
        return;
      }
      hdr := hdr.(ethDst := val.owner.mac);

      var ipCsum := Csum16Sub(hdr.ipCsum, Not16(HighHalf(hdr.ipDst)));
      ipCsum := Csum16Sub(ipCsum, Not16(LowHalf(hdr.ipDst)));
      ipCsum := Csum16Add(ipCsum, Not16(HighHalf(val.owner.addr)));
      ipCsum := Csum16Add(ipCsum, Not16(LowHalf(val.owner.addr)));
      hdr := hdr.(ipCsum := ipCsum);

      var tcpCsum := Csum16Sub(hdr.tcpCsum, Not16(HighHalf(hdr.ipDst)));
      tcpCsum := Csum16Sub(tcpCsum, Not16(LowHalf(hdr.ipDst)));
      tcpCsum := Csum16Add(tcpCsum, Not16(HighHalf(val.owner.addr)));
      tcpCsum := Csum16Add(tcpCsum, Not16(LowHalf(val.owner.addr)));
      tcpCsum := Csum16Sub(tcpCsum, Not16(hdr.tcpDst));
      tcpCsum := Csum16Add(tcpCsum, Not16(val.owner.port));
      hdr := hdr.(tcpCsum := tcpCsum);

      hdr := hdr.(ipDst := val.owner.addr);
      hdr := hdr.(tcpDst := val.owner.port);
      matched := true;
    }

    /** The TCP part of vale_lookup; a packet that is not dropped goes on to
        the layer-2 lookup with the headers left here. */
    method Lookup(rules: Table) returns (verdict: Verdict)
      requires !matched && !abort
      modifies this
      ensures verdict == Switched(rules, old(hdr))
    {
      if hdr.versionWord % 16 != 5 {
        return Pass(hdr);
      }
      if hdr.proto == IPPROTO_TCP {
        OutLookup(rules);
        if matched {
          return Pass(hdr);
        }
        if abort {
          return Drop;
        }
        InLookup(rules);
        if abort {
          return Drop;
        }
      }
      return Pass(hdr);
    }
  }

  // ---------------------------------------------------------------------
  // Checksums survive the rewriting

  lemma IpSum(h: Headers)
    ensures Sum(IpWords(h)) == h.versionWord + Sum(h.ipMiddle) + h.ttl + 0x100 * h.proto + h.ipCsum
                               + LowHalf(h.ipSrc) + HighHalf(h.ipSrc) + LowHalf(h.ipDst) + HighHalf(h.ipDst)
  {
    var tail := [h.ttl + 0x100 * h.proto, h.ipCsum,
                 LowHalf(h.ipSrc), HighHalf(h.ipSrc), LowHalf(h.ipDst), HighHalf(h.ipDst)];
    assert IpWords(h)[1..] == h.ipMiddle + tail;
    SumAppend(h.ipMiddle, tail);
    SumOf2(tail[..2]);
    SumOf4(tail[2..]);
    assert tail == tail[..2] + tail[2..];
    SumAppend(tail[..2], tail[2..]);
  }

  lemma SumOf2(w: seq<u16>)
    requires |w| == 2
    ensures Sum(w) == w[0] as int + w[1] as int
  {
    assert w == [w[0]] + [w[1]];
    SumAppend([w[0]], [w[1]]);
  }

  lemma SumOf4(w: seq<u16>)
    requires |w| == 4
    ensures Sum(w) == w[0] as int + w[1] as int + w[2] as int + w[3] as int
  {
    SumOf2(w[..2]);
    SumOf2(w[2..]);
    assert w == w[..2] + w[2..];
    SumAppend(w[..2], w[2..]);
  }

  lemma TcpSum(h: Headers)
    ensures Sum(TcpWords(h)) == LowHalf(h.ipSrc) + HighHalf(h.ipSrc) + LowHalf(h.ipDst) + HighHalf(h.ipDst)
                                + 0x100 * h.proto + h.tcpLength + h.tcpSrc + h.tcpDst
                                + Sum(h.tcpMiddle) + h.tcpCsum + Sum(h.tcpRest)
  {
    var addrs := [LowHalf(h.ipSrc), HighHalf(h.ipSrc), LowHalf(h.ipDst), HighHalf(h.ipDst)];
    var ports := [0x100 * h.proto, h.tcpLength, h.tcpSrc, h.tcpDst];
    var tail := [h.tcpCsum] + h.tcpRest;
    assert TcpWords(h) == addrs + (ports + (h.tcpMiddle + tail));
    SumOf4(addrs);
    SumOf4(ports);
    SumAppend(addrs, ports + (h.tcpMiddle + tail));
    SumAppend(ports, h.tcpMiddle + tail);
    SumAppend(h.tcpMiddle, tail);
    assert tail[1..] == h.tcpRest;
  }

  lemma SameVerdict(words': seq<u16>, words: seq<u16>, part': int, part: int)
    requires Sum(words') - part' == Sum(words) - part && part' % 0xFFFF == part % 0xFFFF
    requires Sum(words) > 0 && Sum(words') > 0
    ensures Verifies(words') <==> Verifies(words)
  {
    CongruentSum(part', part, Sum(words) - part);
    VerifiesMeansZero(words);
    VerifiesMeansZero(words');
  }

  lemma IpChecksumKept(h: Headers, h': Headers, from: u32, to: u32)
    requires HasFiveWordHeader(h)
    requires h' == h.(ipCsum := h'.ipCsum, ipSrc := h'.ipSrc, ipDst := h'.ipDst,
                      ethDst := h'.ethDst, tcpCsum := h'.tcpCsum, tcpSrc := h'.tcpSrc, tcpDst := h'.tcpDst)
    requires h'.ipCsum == ReplaceAddr(h.ipCsum, from, to)
    requires (from == h.ipSrc && to == h'.ipSrc && h'.ipDst == h.ipDst)
          || (from == h.ipDst && to == h'.ipDst && h'.ipSrc == h.ipSrc)
    ensures Verifies(IpWords(h')) <==> Verifies(IpWords(h))
  {
    hide HighHalf, LowHalf, ReplaceAddr, Sum, Verifies, IpWords;
    IpSum(h);
    IpSum(h');
    ReplaceAddrCongruence(h.ipCsum, from, to);
    SameVerdict(IpWords(h'), IpWords(h),
                h'.ipCsum + HighHalf(to) + LowHalf(to), h.ipCsum + HighHalf(from) + LowHalf(from));
  }

  lemma TcpChecksumKept(h: Headers, h': Headers, from: u32, to: u32, fromPort: u16, toPort: u16)
    requires h.proto == IPPROTO_TCP
    requires h' == h.(ipCsum := h'.ipCsum, ipSrc := h'.ipSrc, ipDst := h'.ipDst,
                      ethDst := h'.ethDst, tcpCsum := h'.tcpCsum, tcpSrc := h'.tcpSrc, tcpDst := h'.tcpDst)
    requires h'.tcpCsum == ReplacePort(ReplaceAddr(h.tcpCsum, from, to), fromPort, toPort)
    requires (from == h.ipSrc && to == h'.ipSrc && fromPort == h.tcpSrc && toPort == h'.tcpSrc
              && h'.ipDst == h.ipDst && h'.tcpDst == h.tcpDst)
          || (from == h.ipDst && to == h'.ipDst && fromPort == h.tcpDst && toPort == h'.tcpDst
              && h'.ipSrc == h.ipSrc && h'.tcpSrc == h.tcpSrc)
    ensures Verifies(TcpWords(h')) <==> Verifies(TcpWords(h))
  {
    hide HighHalf, LowHalf, ReplaceAddr, ReplacePort, Sum, Verifies, TcpWords;
    TcpSum(h);
    TcpSum(h');
    ReplaceBothCongruence(h.tcpCsum, from, to, fromPort, toPort);
    SameVerdict(TcpWords(h'), TcpWords(h), h'.tcpCsum + HighHalf(to) + LowHalf(to) + toPort,
                h.tcpCsum + HighHalf(from) + LowHalf(from) + fromPort);
  }

  /** The incremental update of section 3 of RFC 1624: whatever the rules, a
      packet that is let through has valid IP and TCP checksums exactly when it
      had them on arrival. */
  lemma ChecksumsSurvive(rules: Table, h: Headers)
    requires Switched(rules, h).Pass?
    ensures var h' := Switched(rules, h).h;
      && (Verifies(IpWords(h')) <==> Verifies(IpWords(h)))
      && (Verifies(TcpWords(h')) <==> Verifies(TcpWords(h)))
  {
    var h' := Switched(rules, h).h;
    if SwitchedByPrism(h) && PeerKeyOfDst(h) in rules {
      var rule := rules[PeerKeyOfDst(h)];
      IpChecksumKept(h, h', h.ipSrc, rule.virtualAddr);
      TcpChecksumKept(h, h', h.ipSrc, rule.virtualAddr, h.tcpSrc, rule.virtualPort);
    } else if SwitchedByPrism(h) && PeerKeyOfSrc(h) in rules {
      var rule := rules[PeerKeyOfSrc(h)];
      IpChecksumKept(h, h', h.ipDst, rule.owner.addr);
      TcpChecksumKept(h, h', h.ipDst, rule.owner.addr, h.tcpDst, rule.owner.port);
    }
  }

  // ---------------------------------------------------------------------
  // What becomes of a packet

  /** Exactly which packets are dropped: of the TCP packets with a header of five
      words, those whose destination has a locked rule, and those whose destination
      has no rule and whose source has one with a lock of 1. */
  lemma DroppedExactly(rules: Table, h: Headers)
    ensures var dst, src := Key(h.ipDst, h.tcpDst), Key(h.ipSrc, h.tcpSrc);
      Switched(rules, h) == Drop <==>
        && h.versionWord % 16 == 5 && h.proto == 6
        && if dst in rules then rules[dst].locked != 0 else src in rules && rules[src].locked == 1
  {
  }

  /** What matches no rule, and what is not TCP, leaves as it came; of the rest,
      what leaves has a new source, or a new destination and Ethernet address, and
      new checksums, and nothing else about it is new. */
  lemma ChangedExactly(rules: Table, h: Headers)
    requires Switched(rules, h).Pass?
    ensures var dst, src, h' := Key(h.ipDst, h.tcpDst), Key(h.ipSrc, h.tcpSrc), Switched(rules, h).h;
      if h.versionWord % 16 != 5 || h.proto != 6 || (dst !in rules && src !in rules) then h' == h
      else if dst in rules then
        h' == h.(ipSrc := rules[dst].virtualAddr, tcpSrc := rules[dst].virtualPort,
                 ipCsum := h'.ipCsum, tcpCsum := h'.tcpCsum)
      else
        var owner := rules[src].owner;
        h' == h.(ethDst := owner.mac, ipDst := owner.addr, tcpDst := owner.port,
                 ipCsum := h'.ipCsum, tcpCsum := h'.tcpCsum)
  {
  }

  // ---------------------------------------------------------------------
  // What the switch forwards during the lifetime of a rule

  /** Between a rule's ADD and its DELETE, a packet forwarded towards the peer
      leaves with the virtual address of the ADD, and a packet forwarded from
      the peer (to a destination that is not itself a peer of the table) goes
      to the owner named last. */
  lemma ForwardedDuringLifetime(rules: Table, add: Request, history: seq<Request>, h: Headers)
    requires add.Add? && add.key !in rules && NoDelete(add.key, history)
    requires SwitchedByPrism(h)
    ensures var verdict := Switched(After(Applied(rules, add), history), h);
      verdict.Pass? ==>
        && (PeerKeyOfDst(h) == add.key ==>
              verdict.h.ipSrc == add.virtualAddr && verdict.h.tcpSrc == add.virtualPort
              && PeerKeyOfDst(verdict.h) == add.key)
        && (PeerKeyOfSrc(h) == add.key && PeerKeyOfDst(h) !in After(Applied(rules, add), history) ==>
              var owner := LastOwner(add.key, add.newOwner, history);
              verdict.h.ethDst == owner.mac && verdict.h.ipDst == owner.addr && verdict.h.tcpDst == owner.port
              && PeerKeyOfSrc(verdict.h) == add.key)
  {
    RuleLifetime(rules, add, history);
  }

  /** While a rule is locked, nothing of its flow gets through in either direction. */
  lemma LockedFlowIsSilent(rules: Table, k: Key, h: Headers)
    requires k in rules && rules[k].locked == 1 && SwitchedByPrism(h)
    requires PeerKeyOfDst(h) == k || (PeerKeyOfSrc(h) == k && PeerKeyOfDst(h) !in rules)
    ensures Switched(rules, h) == Drop
  {
  }
}
