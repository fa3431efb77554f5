/** The handoff protocol: any number of servers and flows, one switch, and every
    interleaving of their callbacks.

    A flow is named by its peer's address and port.  The steps are the libuv
    callbacks of the exporter, the importer and the close path, the switch's
    processing of a configuration datagram, the arrival of a reply, and the
    passage of the peer's packets.

    The hypotheses are written into the guards of `Enabled`:
      - of the datagrams that the client sends again until it is answered, a LOCK,
        an UNLOCK or a CHOWN is processed once, and a DELETE not again when its
        flow has come back with a rule (`Apply`); after the answer has been
        received, none is,
      - a reply is received only for a datagram that was processed (`Ack`),
      - the link from the switch to a server keeps the order of packets: what the
        switch lets through is received before any answer that it sends later, and
        so in the same step (`PeerSends`),
      - the rule table has room,
      - a peer's address and port are those of at most one connection at a time,
        whichever server it goes to; they come back only when no rule is left for
        them, and are not the address and port of a server (`Accept`). */
module Handoff {
  import opened Bytes
  import opened Options
  import opened Switch

  type ServerId = nat
  type SocketId = nat
  type MessageId = nat
  type RequestId = nat

  /** What tcp_export captures; `received` stands for everything the peer has
      sent that the connection's state depends on. */
  datatype TcpState = TcpState(peer: Key, selfAddr: u32, selfPort: u16, received: seq<byte>)

  datatype Phase =
    | Reading                                                  // uv_read_start is in force
    | Locking(dest: ServerId, rid: RequestId)                  // ADD or LOCK queued
    | Exporting(dest: ServerId, snapshot: TcpState)            // exported, uv_close issued
    | AwaitRealClose(dest: ServerId, snapshot: TcpState)       // waiting for the kernel to close
    | Owning(rid: RequestId)                                   // imported, CHOWN queued
    | Closing                                                  // uv_close issued, no export
    | AwaitRealCloseImported

  datatype Socket = Socket(server: ServerId, imported: bool, phase: Phase, tcp: TcpState)

  datatype Message = Message(dest: ServerId, tcp: TcpState)

  datatype Pending = Pending(req: Request, callback: Option<SocketId>, applied: bool)

  datatype Place = InSocket(sid: SocketId) | InMessage(mid: MessageId)

  /** History of an open flow, which no server and no switch stores: the server
      the peer connected to, what the switch has let through from the peer, and
      the record that took over the connection last. */
  datatype Flow = Flow(dialed: ServerId, delivered: seq<byte>, place: Place)

  datatype State = State(
    servers: seq<Endpoint>,
    rules: Table,
    sockets: map<SocketId, Socket>,
    messages: map<MessageId, Message>,
    pending: map<RequestId, Pending>,
    flows: map<Key, Flow>,               // the open flows
    deleting: map<Key, RequestId>,       // the DELETE issued last for a closed flow
    strays: nat)                         // packets of open flows that found no connection

  datatype Event =
    | Accept(sid: SocketId, key: Key, server: ServerId)
    | StartHandoff(sid: SocketId, rid: RequestId, dest: ServerId)
    | Apply(rid: RequestId)
    | Ack(rid: RequestId)
    | AfterClose(sid: SocketId)
    | AfterRealClose(sid: SocketId, mid: MessageId)
    | Import(mid: MessageId, sid: SocketId, rid: RequestId)
    | Forward(mid: MessageId, mid': MessageId, dest: ServerId)
    | StartClose(sid: SocketId)
    | AfterCloseImported(sid: SocketId)
    | AfterRealCloseImported(sid: SocketId, rid: RequestId)
    | AfterClosePlain(sid: SocketId)
    | PeerSends(h: Headers, data: seq<byte>)

  function Init(servers: seq<Endpoint>): State
  {
    State(servers, map[], map[], map[], map[], map[], map[], 0)
  }

  predicate IsServer(servers: seq<Endpoint>, k: Key)
  {
    exists i :: 0 <= i < |servers| && servers[i].addr == k.addr && servers[i].port == k.port
  }

  predicate Live(sock: Socket) { !sock.phase.Exporting? && !sock.phase.AwaitRealClose? }

  /** What the switch may process again. */
  predicate Repeatable(rules: Table, req: Request)
  {
    req.Add? || (req.Delete? && req.key !in rules)
  }

  predicate Enabled(s: State, e: Event)
  {
    match e
    case Accept(sid, k, server) =>
      sid !in s.sockets && server < |s.servers| && k !in s.rules && k !in s.flows && !IsServer(s.servers, k)
    case StartHandoff(sid, rid, dest) =>
      sid in s.sockets && s.sockets[sid].phase.Reading? && s.sockets[sid].server < |s.servers|
      && rid !in s.pending && dest < |s.servers|
    case Apply(rid) => rid in s.pending && (!s.pending[rid].applied || Repeatable(s.rules, s.pending[rid].req))
    case Ack(rid) => rid in s.pending && s.pending[rid].applied
    case AfterClose(sid) => sid in s.sockets && s.sockets[sid].phase.Exporting?
    case AfterRealClose(sid, mid) => sid in s.sockets && s.sockets[sid].phase.AwaitRealClose? && mid !in s.messages
    case Import(mid, sid, rid) =>
      mid in s.messages && s.messages[mid].dest < |s.servers| && sid !in s.sockets && rid !in s.pending
    case Forward(mid, mid', dest) => mid in s.messages && mid' !in s.messages && dest < |s.servers|
    case StartClose(sid) => sid in s.sockets && s.sockets[sid].phase.Reading?
    case AfterCloseImported(sid) => sid in s.sockets && s.sockets[sid].imported && s.sockets[sid].phase.Closing?
    case AfterRealCloseImported(sid, rid) =>
      sid in s.sockets && s.sockets[sid].phase.AwaitRealCloseImported? && rid !in s.pending
    case AfterClosePlain(sid) => sid in s.sockets && !s.sockets[sid].imported && s.sockets[sid].phase.Closing?
    case PeerSends(h, data) =>
      && SwitchedByPrism(h) && PeerKeyOfSrc(h) in s.flows
      && s.flows[PeerKeyOfSrc(h)].dialed < |s.servers|
      && var target := s.servers[s.flows[PeerKeyOfSrc(h)].dialed];
      h.ipDst == target.addr && h.tcpDst == target.port
  }

  function SetPhase(s: State, sid: SocketId, phase: Phase): State
    requires sid in s.sockets
  {
    s.(sockets := s.sockets[sid := s.sockets[sid].(phase := phase)])
  }

  function MoveTo(s: State, k: Key, place: Place): State
  {
    if k in s.flows then s.(flows := s.flows[k := s.flows[k].(place := place)]) else s
  }

  /** after_configure_switch for ADD and LOCK, after_change_owner for CHOWN. */
  function Callback(s: State, req: Request, sid: SocketId): State
    requires sid in s.sockets
  {
    var sock := s.sockets[sid];
    if req.Chown? then SetPhase(s, sid, Reading)
    else if sock.phase.Locking? then SetPhase(s, sid, Exporting(sock.phase.dest, sock.tcp))
    else s
  }

  /** The sockets a packet of flow `k` addressed to `addr:port` can belong to. */
  function Receivers(s: State, k: Key, addr: u32, port: u16): set<SocketId>
  {
    set i | i in s.sockets && s.sockets[i].tcp.peer == k && Live(s.sockets[i])
            && s.sockets[i].tcp.selfAddr == addr && s.sockets[i].tcp.selfPort == port
  }

  function Receive(sock: Socket, data: seq<byte>): Socket
  {
    sock.(tcp := sock.tcp.(received := sock.tcp.received + data))
  }

  function Next(s: State, e: Event): State
    requires Enabled(s, e)
  {
    match e
    case Accept(sid, k, server) =>
      var self := s.servers[server];
      s.(sockets := s.sockets[sid := Socket(server, false, Reading, TcpState(k, self.addr, self.port, []))],
         flows := s.flows[k := Flow(server, [], InSocket(sid))])
    case StartHandoff(sid, rid, dest) =>
      var sock := s.sockets[sid];
      var self := s.servers[sock.server];
      var req := if sock.imported then Lock(sock.tcp.peer) else Add(sock.tcp.peer, self.addr, self.port, self, 1);
      SetPhase(s, sid, Locking(dest, rid)).(pending := s.pending[rid := Pending(req, Some(sid), false)])
    case Apply(rid) =>
      s.(rules := Applied(s.rules, s.pending[rid].req),
         pending := s.pending[rid := s.pending[rid].(applied := true)])
    case Ack(rid) =>
      var p := s.pending[rid];
      var s' := s.(pending := s.pending - {rid});
      if p.callback.Some? && p.callback.value in s'.sockets then Callback(s', p.req, p.callback.value) else s'
    case AfterClose(sid) =>
      SetPhase(s, sid, AwaitRealClose(s.sockets[sid].phase.dest, s.sockets[sid].phase.snapshot))
    case AfterRealClose(sid, mid) =>
      var phase := s.sockets[sid].phase;
      MoveTo(s, phase.snapshot.peer, InMessage(mid)).(
        sockets := s.sockets - {sid}, messages := s.messages[mid := Message(phase.dest, phase.snapshot)])
    case Import(mid, sid, rid) =>
      var m := s.messages[mid];
      var self := s.servers[m.dest];
      var tcp := m.tcp.(selfAddr := self.addr, selfPort := self.port);
      MoveTo(s, tcp.peer, InSocket(sid)).(
        messages := s.messages - {mid},
        sockets := s.sockets[sid := Socket(m.dest, true, Owning(rid), tcp)],
        pending := s.pending[rid := Pending(Chown(tcp.peer, self, 1), Some(sid), false)])
    case Forward(mid, mid', dest) =>
      MoveTo(s, s.messages[mid].tcp.peer, InMessage(mid')).(
        messages := (s.messages - {mid})[mid' := Message(dest, s.messages[mid].tcp)])
    case StartClose(sid) => SetPhase(s, sid, Closing)
    case AfterCloseImported(sid) => SetPhase(s, sid, AwaitRealCloseImported)
    case AfterRealCloseImported(sid, rid) =>
      var k := s.sockets[sid].tcp.peer;
      s.(sockets := s.sockets - {sid}, flows := s.flows - {k}, deleting := s.deleting[k := rid],
         pending := s.pending[rid := Pending(Delete(k), None, false)])
    case AfterClosePlain(sid) =>
      s.(sockets := s.sockets - {sid}, flows := s.flows - {s.sockets[sid].tcp.peer})
    case PeerSends(h, data) =>
      var k := PeerKeyOfSrc(h);
      match Switched(s.rules, h)
      case Drop => s
      case Pass(h') =>
        var to := Receivers(s, k, h'.ipDst, h'.tcpDst);
        var s' := s.(flows := s.flows[k := s.flows[k].(delivered := s.flows[k].delivered + data)]);
        if to == {} then s'.(strays := s.strays + 1)
        else s'.(sockets := map i | i in s.sockets :: if i in to then Receive(s.sockets[i], data) else s.sockets[i])
  }

  // ---------------------------------------------------------------------
  // Runs

  /** The states a run goes through, if each event is enabled when it occurs. */
  function Run(s: State, events: seq<Event>): Option<State>
    decreases |events|
  {
    if events == [] then Some(s)
    else if Enabled(s, events[0]) then Run(Next(s, events[0]), events[1..])
    else None
  }

  // ---------------------------------------------------------------------
  // The invariant, flow by flow

  /** Everything in the system that concerns one flow. */
  datatype View = View(
    rule: Option<Rule>, flow: Option<Flow>, sockets: map<SocketId, Socket>, messages: map<MessageId, Message>,
    pending: map<RequestId, Pending>, deleting: Option<RequestId>)

  function At<K, V>(m: map<K, V>, k: K): Option<V> { if k in m then Some(m[k]) else None }

  /** The records of one flow. */
  function Select<V>(m: map<nat, V>, keyOf: V -> Key, k: Key): map<nat, V>
  {
    map i | i in m && keyOf(m[i]) == k :: m[i]
  }

  function SocketKey(sock: Socket): Key { sock.tcp.peer }

  function MessageKey(m: Message): Key { m.tcp.peer }

  function PendingKey(p: Pending): Key { p.req.key }

  function ViewOf(s: State, k: Key): View
  {
    View(At(s.rules, k), At(s.flows, k), Select(s.sockets, SocketKey, k), Select(s.messages, MessageKey, k),
         Select(s.pending, PendingKey, k), At(s.deleting, k))
  }

  ghost predicate RuleIs(rule: Option<Rule>, owner: Endpoint, locked: byte)
  {
    rule.Some? && rule.value.owner == owner && rule.value.locked == locked
  }

  ghost predicate LockedRule(rule: Option<Rule>) { rule.Some? && rule.value.locked == 1 }

  /** How each phase of a socket relates to the switch's rule for its flow. */
  ghost predicate SocketOk(servers: seq<Endpoint>, k: Key, v: View, sid: SocketId, sock: Socket, flow: Flow)
  {
    && sock.server < |servers|
    && var self := servers[sock.server];
    && sock.tcp == TcpState(k, self.addr, self.port, flow.delivered)
    && (!sock.imported ==> sock.server == flow.dialed)
    && match sock.phase
       case Reading => if sock.imported then RuleIs(v.rule, self, 0) else v.rule.None?
       case Closing => if sock.imported then RuleIs(v.rule, self, 0) else v.rule.None?
       case AwaitRealCloseImported => sock.imported && RuleIs(v.rule, self, 0)
       case Locking(dest, rid) =>
         && dest < |servers| && rid in v.pending && v.pending[rid].callback == Some(sid)
         && var p := v.pending[rid];
         if sock.imported then p.req == Lock(k) && RuleIs(v.rule, self, if p.applied then 1 else 0)
         else p.req == Add(k, self.addr, self.port, self, 1)
              && if p.applied then LockedRule(v.rule) else v.rule.None?
       case Exporting(dest, snap) => dest < |servers| && snap == sock.tcp && LockedRule(v.rule)
       case AwaitRealClose(dest, snap) => dest < |servers| && snap == sock.tcp && LockedRule(v.rule)
       case Owning(rid) =>
         && sock.imported && rid in v.pending && v.pending[rid].callback == Some(sid)
         && v.pending[rid].req == Chown(k, self, 1)
         && if v.pending[rid].applied then RuleIs(v.rule, self, 0) else LockedRule(v.rule)
  }

  ghost predicate MessageOk(servers: seq<Endpoint>, k: Key, v: View, m: Message, flow: Flow)
  {
    m.dest < |servers| && m.tcp.peer == k && LockedRule(v.rule) && m.tcp.received == flow.delivered
  }

  ghost predicate WaitsFor(sock: Socket, rid: RequestId)
  {
    (sock.phase.Locking? || sock.phase.Owning?) && sock.phase.rid == rid
  }

  ghost predicate PendingOk(v: View, rid: RequestId, p: Pending)
  {
    match p.callback
    case Some(sid) =>
      v.flow.Some? && v.flow.value.place == InSocket(sid) && sid in v.sockets && WaitsFor(v.sockets[sid], rid)
    case None => p.req.Delete? && (!p.applied ==> v.rule.Some? && v.flow.None? && v.deleting == Some(rid))
  }

  /** A closed flow leaves nothing behind but a rule whose DELETE is under way. */
  ghost predicate ClosedOk(k: Key, v: View)
  {
    && v.sockets == map[] && v.messages == map[]
    && (v.rule.Some? ==>
          && v.deleting.Some? && v.deleting.value in v.pending
          && v.pending[v.deleting.value] == Pending(Delete(k), None, false))
  }

  /** An open flow is held by exactly one record. */
  ghost predicate OpenOk(servers: seq<Endpoint>, k: Key, v: View, flow: Flow)
  {
    && flow.dialed < |servers|
    && (v.rule.Some? ==>
          && v.rule.value.virtualAddr == servers[flow.dialed].addr
          && v.rule.value.virtualPort == servers[flow.dialed].port)
    && match flow.place
       case InSocket(sid) =>
         v.messages == map[] && v.sockets.Keys == {sid} && SocketOk(servers, k, v, sid, v.sockets[sid], flow)
       case InMessage(mid) =>
         v.sockets == map[] && v.messages.Keys == {mid} && MessageOk(servers, k, v, v.messages[mid], flow)
  }

  ghost predicate FlowInv(servers: seq<Endpoint>, k: Key, v: View)
  {
    && (v.rule.Some? || v.flow.Some? ==> !IsServer(servers, k))
    && (forall r :: r in v.pending ==> PendingOk(v, r, v.pending[r]))
    && if v.flow.Some? then OpenOk(servers, k, v, v.flow.value) else ClosedOk(k, v)
  }

  ghost predicate Inv(s: State)
  {
    s.strays == 0 && forall k :: FlowInv(s.servers, k, ViewOf(s, k))
  }

  lemma InitInv(servers: seq<Endpoint>)
    ensures Inv(Init(servers))
  {
  }

  // ---------------------------------------------------------------------
  // Every step keeps the invariant

  lemma SelectPut<V>(m: map<nat, V>, keyOf: V -> Key, i: nat, x: V)
    requires i in m ==> keyOf(m[i]) == keyOf(x)
    ensures forall k :: Select(m[i := x], keyOf, k)
                     == if keyOf(x) == k then Select(m, keyOf, k)[i := x] else Select(m, keyOf, k)
  {
  }

  lemma SelectDrop<V>(m: map<nat, V>, keyOf: V -> Key, i: nat)
    requires i in m
    ensures forall k :: Select(m - {i}, keyOf, k)
                     == if keyOf(m[i]) == k then Select(m, keyOf, k) - {i} else Select(m, keyOf, k)
  {
  }

  /** A socket on record is the holder of its flow. */
  lemma SocketHolds(s: State, sid: SocketId)
    requires Inv(s) && sid in s.sockets
    ensures var k := s.sockets[sid].tcp.peer; var v := ViewOf(s, k);
      && FlowInv(s.servers, k, v)
      && v.flow.Some? && v.flow.value.place == InSocket(sid)
      && v.sockets == map[sid := s.sockets[sid]] && v.messages == map[]
  {
    var k := s.sockets[sid].tcp.peer;
    assert FlowInv(s.servers, k, ViewOf(s, k));
    assert sid in ViewOf(s, k).sockets;
  }

  /** So is a message in flight. */
  lemma MessageHolds(s: State, mid: MessageId)
    requires Inv(s) && mid in s.messages
    ensures var k := s.messages[mid].tcp.peer; var v := ViewOf(s, k);
      && FlowInv(s.servers, k, v)
      && v.flow.Some? && v.flow.value.place == InMessage(mid)
      && v.messages == map[mid := s.messages[mid]] && v.sockets == map[]
  {
    var k := s.messages[mid].tcp.peer;
    assert FlowInv(s.servers, k, ViewOf(s, k));
    assert mid in ViewOf(s, k).messages;
  }

  lemma OneFlowChanged(s: State, s': State, k: Key)
    requires Inv(s) && s'.servers == s.servers && s'.strays == s.strays
    requires FlowInv(s.servers, k, ViewOf(s', k))
    requires forall j :: j != k ==> ViewOf(s', j) == ViewOf(s, j)
    ensures Inv(s')
  {
  }

  lemma AcceptInv(s: State, sid: SocketId, k: Key, server: ServerId)
    requires Inv(s) && Enabled(s, Accept(sid, k, server))
    ensures Inv(Next(s, Accept(sid, k, server)))
  {
    var s' := Next(s, Accept(sid, k, server));
    SelectPut(s.sockets, SocketKey, sid, s'.sockets[sid]);
    var v := ViewOf(s, k);
    assert FlowInv(s.servers, k, v);
    assert ViewOf(s', k) == v.(flow := Some(s'.flows[k]), sockets := map[sid := s'.sockets[sid]]);
    OneFlowChanged(s, s', k);
  }

  lemma StartHandoffView(s: State, sid: SocketId, rid: RequestId, dest: ServerId)
    requires Enabled(s, StartHandoff(sid, rid, dest))
    ensures var s', k := Next(s, StartHandoff(sid, rid, dest)), s.sockets[sid].tcp.peer;
      && ViewOf(s', k) == ViewOf(s, k).(sockets := ViewOf(s, k).sockets[sid := s'.sockets[sid]],
                                        pending := ViewOf(s, k).pending[rid := s'.pending[rid]])
      && forall j :: j != k ==> ViewOf(s', j) == ViewOf(s, j)
  {
    hide Select;
    var s' := Next(s, StartHandoff(sid, rid, dest));
    SelectPut(s.sockets, SocketKey, sid, s'.sockets[sid]);
    SelectPut(s.pending, PendingKey, rid, s'.pending[rid]);
  }

  lemma StartHandoffLocal(servers: seq<Endpoint>, k: Key, v: View, sid: SocketId, rid: RequestId, dest: ServerId,
                          v': View)
    requires FlowInv(servers, k, v) && v.flow.Some? && v.flow.value.place == InSocket(sid)
    requires rid !in v.pending && dest < |servers| && v.sockets[sid].phase.Reading?
    requires var sock := v.sockets[sid]; var self := servers[sock.server];
      var req := if sock.imported then Lock(k) else Add(k, self.addr, self.port, self, 1);
      v' == v.(sockets := map[sid := sock.(phase := Locking(dest, rid))],
               pending := v.pending[rid := Pending(req, Some(sid), false)])
    ensures FlowInv(servers, k, v')
  {
  }

  lemma StartHandoffInv(s: State, sid: SocketId, rid: RequestId, dest: ServerId)
    requires Inv(s) && Enabled(s, StartHandoff(sid, rid, dest))
    ensures Inv(Next(s, StartHandoff(sid, rid, dest)))
  {
    var s', k := Next(s, StartHandoff(sid, rid, dest)), s.sockets[sid].tcp.peer;
    StartHandoffView(s, sid, rid, dest);
    SocketHolds(s, sid);
    StartHandoffLocal(s.servers, k, ViewOf(s, k), sid, rid, dest, ViewOf(s', k));
    OneFlowChanged(s, s', k);
  }

  lemma ApplyView(s: State, rid: RequestId)
    requires Enabled(s, Apply(rid))
    ensures var s', k, v := Next(s, Apply(rid)), s.pending[rid].req.key, ViewOf(s, s.pending[rid].req.key);
      && ViewOf(s', k) == v.(rule := At(Applied(s.rules, s.pending[rid].req), k),
                             pending := v.pending[rid := s.pending[rid].(applied := true)])
      && forall j :: j != k ==> ViewOf(s', j) == ViewOf(s, j)
  {
    hide Select;
    SelectPut(s.pending, PendingKey, rid, s.pending[rid].(applied := true));
  }

  lemma ApplyLocal(servers: seq<Endpoint>, k: Key, v: View, rid: RequestId, rules: Table, v': View)
    requires FlowInv(servers, k, v) && rid in v.pending && v.pending[rid].req.key == k && !v.pending[rid].applied
    requires v.rule == At(rules, k)
    requires v' == v.(rule := At(Applied(rules, v.pending[rid].req), k),
                      pending := v.pending[rid := v.pending[rid].(applied := true)])
    ensures FlowInv(servers, k, v')
  {
  }

  /** What may be processed again does nothing. */
  lemma AppliedAgain(s: State, rid: RequestId)
    requires Inv(s) && Enabled(s, Apply(rid)) && s.pending[rid].applied
    ensures Next(s, Apply(rid)) == s
  {
    var k := s.pending[rid].req.key;
    assert FlowInv(s.servers, k, ViewOf(s, k));
    PendingSeen(s, rid);
    assert s.pending[rid := s.pending[rid]] == s.pending;
  }

  lemma ApplyInv(s: State, rid: RequestId)
    requires Inv(s) && Enabled(s, Apply(rid))
    ensures Inv(Next(s, Apply(rid)))
  {
    hide FlowInv, Applied, Select;
    if s.pending[rid].applied {
      AppliedAgain(s, rid);
      return;
    }
    var s', k := Next(s, Apply(rid)), s.pending[rid].req.key;
    assert FlowInv(s.servers, k, ViewOf(s, k));
    PendingSeen(s, rid);
    ApplyView(s, rid);
    ApplyLocal(s.servers, k, ViewOf(s, k), rid, s.rules, ViewOf(s', k));
    OneFlowChanged(s, s', k);
  }

  lemma PendingSeen(s: State, rid: RequestId)
    requires rid in s.pending
    ensures var v := ViewOf(s, s.pending[rid].req.key); rid in v.pending && v.pending[rid] == s.pending[rid]
  {
  }

  /** The socket a reply is for is still there, waiting for that very reply. */
  lemma CallbackFindsSocket(s: State, rid: RequestId)
    requires Inv(s) && rid in s.pending && s.pending[rid].callback.Some?
    ensures var p := s.pending[rid];
      && p.callback.value in s.sockets
      && s.sockets[p.callback.value].tcp.peer == p.req.key
      && WaitsFor(s.sockets[p.callback.value], rid)
      && (p.req.Chown? <==> s.sockets[p.callback.value].phase.Owning?)
  {
    var k := s.pending[rid].req.key;
    assert FlowInv(s.servers, k, ViewOf(s, k));
    assert rid in ViewOf(s, k).pending;
  }

  lemma AckView(s: State, rid: RequestId, sid: SocketId)
    requires Enabled(s, Ack(rid)) && s.pending[rid].callback == Some(sid) && sid in s.sockets
    requires s.sockets[sid].tcp.peer == s.pending[rid].req.key
    requires s.pending[rid].req.Chown? || s.sockets[sid].phase.Locking?
    ensures var s', k, sock := Next(s, Ack(rid)), s.pending[rid].req.key, s.sockets[sid];
      var phase := if s.pending[rid].req.Chown? then Reading else Exporting(sock.phase.dest, sock.tcp);
      && ViewOf(s', k) == ViewOf(s, k).(sockets := ViewOf(s, k).sockets[sid := sock.(phase := phase)],
                                        pending := ViewOf(s, k).pending - {rid})
      && forall j :: j != k ==> ViewOf(s', j) == ViewOf(s, j)
  {
    hide Select;
    var s' := Next(s, Ack(rid));
    SelectDrop(s.pending, PendingKey, rid);
    SelectPut(s.sockets, SocketKey, sid, s'.sockets[sid]);
  }

  lemma AckLocal(servers: seq<Endpoint>, k: Key, v: View, rid: RequestId, sid: SocketId, v': View)
    requires FlowInv(servers, k, v) && rid in v.pending && v.pending[rid].applied
    requires v.pending[rid].callback == Some(sid)
    requires var sock := v.sockets[sid];
      var phase := if v.pending[rid].req.Chown? then Reading else Exporting(sock.phase.dest, sock.tcp);
      v' == v.(sockets := map[sid := sock.(phase := phase)], pending := v.pending - {rid})
    ensures FlowInv(servers, k, v')
  {
  }

  lemma AckDeleteView(s: State, rid: RequestId)
    requires Enabled(s, Ack(rid)) && s.pending[rid].callback.None?
    ensures var s', k := Next(s, Ack(rid)), s.pending[rid].req.key;
      && ViewOf(s', k) == ViewOf(s, k).(pending := ViewOf(s, k).pending - {rid})
      && forall j :: j != k ==> ViewOf(s', j) == ViewOf(s, j)
  {
    hide Select;
    SelectDrop(s.pending, PendingKey, rid);
  }

  lemma AckDeleteLocal(servers: seq<Endpoint>, k: Key, v: View, rid: RequestId, v': View)
    requires FlowInv(servers, k, v) && rid in v.pending && v.pending[rid].applied && v.pending[rid].callback.None?
    requires v' == v.(pending := v.pending - {rid})
    ensures FlowInv(servers, k, v')
  {
  }

  lemma AckDeleteInv(s: State, rid: RequestId)
    requires Inv(s) && Enabled(s, Ack(rid)) && s.pending[rid].callback.None?
    ensures Inv(Next(s, Ack(rid)))
  {
    hide FlowInv, ViewOf;
    var s', k := Next(s, Ack(rid)), s.pending[rid].req.key;
    assert FlowInv(s.servers, k, ViewOf(s, k));
    PendingSeen(s, rid);
    AckDeleteView(s, rid);
    AckDeleteLocal(s.servers, k, ViewOf(s, k), rid, ViewOf(s', k));
    OneFlowChanged(s, s', k);
  }

  lemma AckInv(s: State, rid: RequestId)
    requires Inv(s) && Enabled(s, Ack(rid))
    ensures Inv(Next(s, Ack(rid)))
  {
    if s.pending[rid].callback.None? {
      AckDeleteInv(s, rid);
    } else {
      AckSomeInv(s, rid);
    }
  }

  lemma AckSomeInv(s: State, rid: RequestId)
    requires Inv(s) && Enabled(s, Ack(rid)) && s.pending[rid].callback.Some?
    ensures Inv(Next(s, Ack(rid)))
  {
    hide FlowInv, ViewOf, Inv;
    var s', k, sid := Next(s, Ack(rid)), s.pending[rid].req.key, s.pending[rid].callback.value;
    CallbackFindsSocket(s, rid);
    SocketHolds(s, sid);
    PendingSeen(s, rid);
    AckView(s, rid, sid);
    AckLocal(s.servers, k, ViewOf(s, k), rid, sid, ViewOf(s', k));
    OneFlowChanged(s, s', k);
  }

  lemma PhaseView(s: State, e: Event)
    requires (e.AfterClose? || e.StartClose? || e.AfterCloseImported?) && Enabled(s, e)
    ensures var s', k := Next(s, e), s.sockets[e.sid].tcp.peer;
      && ViewOf(s', k) == ViewOf(s, k).(sockets := ViewOf(s, k).sockets[e.sid := s'.sockets[e.sid]])
      && forall j :: j != k ==> ViewOf(s', j) == ViewOf(s, j)
  {
    hide Select;
    SelectPut(s.sockets, SocketKey, e.sid, Next(s, e).sockets[e.sid]);
  }

  lemma PhaseLocal(servers: seq<Endpoint>, k: Key, v: View, sid: SocketId, phase: Phase, v': View)
    requires FlowInv(servers, k, v) && v.flow.Some? && v.flow.value.place == InSocket(sid)
    requires match v.sockets[sid].phase
             case Exporting(dest, snap) => phase == AwaitRealClose(dest, snap)
             case Reading => phase == Closing
             case Closing => v.sockets[sid].imported && phase == AwaitRealCloseImported
             case _ => false
    requires v' == v.(sockets := map[sid := v.sockets[sid].(phase := phase)])
    ensures FlowInv(servers, k, v')
  {
  }

  /** The close callbacks that only move a socket to its next phase. */
  lemma PhaseInv(s: State, e: Event)
    requires Inv(s) && (e.AfterClose? || e.StartClose? || e.AfterCloseImported?) && Enabled(s, e)
    ensures Inv(Next(s, e))
  {
    hide FlowInv, ViewOf, Inv;
    var s', k := Next(s, e), s.sockets[e.sid].tcp.peer;
    PhaseView(s, e);
    SocketHolds(s, e.sid);
    PhaseLocal(s.servers, k, ViewOf(s, k), e.sid, s'.sockets[e.sid].phase, ViewOf(s', k));
    OneFlowChanged(s, s', k);
  }

  lemma AfterRealCloseView(s: State, sid: SocketId, mid: MessageId)
    requires Enabled(s, AfterRealClose(sid, mid))
    requires var k := s.sockets[sid].tcp.peer; s.sockets[sid].phase.snapshot.peer == k && k in s.flows
    ensures var s', k := Next(s, AfterRealClose(sid, mid)), s.sockets[sid].tcp.peer;
      var v := ViewOf(s, k);
      && ViewOf(s', k) == v.(flow := Some(s.flows[k].(place := InMessage(mid))), sockets := v.sockets - {sid},
                             messages := v.messages[mid := s'.messages[mid]])
      && forall j :: j != k ==> ViewOf(s', j) == ViewOf(s, j)
  {
    hide Select;
    SelectDrop(s.sockets, SocketKey, sid);
    SelectPut(s.messages, MessageKey, mid, Next(s, AfterRealClose(sid, mid)).messages[mid]);
  }

  lemma AfterRealCloseLocal(servers: seq<Endpoint>, k: Key, v: View, sid: SocketId, mid: MessageId, v': View)
    requires FlowInv(servers, k, v) && v.flow.Some? && v.flow.value.place == InSocket(sid)
    requires v.sockets[sid].phase.AwaitRealClose?
    requires var phase := v.sockets[sid].phase;
      v' == v.(flow := Some(v.flow.value.(place := InMessage(mid))), sockets := map[],
               messages := map[mid := Message(phase.dest, phase.snapshot)])
    ensures FlowInv(servers, k, v')
  {
  }

  /** What a socket waits to send is the state of its own flow. */
  lemma SnapshotIsOwn(s: State, sid: SocketId)
    requires Inv(s) && sid in s.sockets && s.sockets[sid].phase.AwaitRealClose?
    ensures s.sockets[sid].phase.snapshot.peer == s.sockets[sid].tcp.peer && s.sockets[sid].tcp.peer in s.flows
  {
    SocketHolds(s, sid);
  }

  lemma AfterRealCloseInv(s: State, sid: SocketId, mid: MessageId)
    requires Inv(s) && Enabled(s, AfterRealClose(sid, mid))
    ensures Inv(Next(s, AfterRealClose(sid, mid)))
  {
    hide FlowInv, ViewOf, Inv;
    var s', k := Next(s, AfterRealClose(sid, mid)), s.sockets[sid].tcp.peer;
    SocketHolds(s, sid);
    SnapshotIsOwn(s, sid);
    AfterRealCloseView(s, sid, mid);
    FlowSeen(s, k);
    AfterRealCloseLocal(s.servers, k, ViewOf(s, k), sid, mid, ViewOf(s', k));
    OneFlowChanged(s, s', k);
  }

  lemma FlowSeen(s: State, k: Key)
    ensures ViewOf(s, k).flow == At(s.flows, k) && ViewOf(s, k).rule == At(s.rules, k)
  {
  }

  lemma ImportView(s: State, mid: MessageId, sid: SocketId, rid: RequestId)
    requires Enabled(s, Import(mid, sid, rid)) && s.messages[mid].tcp.peer in s.flows
    ensures var s', k := Next(s, Import(mid, sid, rid)), s.messages[mid].tcp.peer;
      var v := ViewOf(s, k);
      && ViewOf(s', k) == v.(flow := Some(s.flows[k].(place := InSocket(sid))),
                             sockets := v.sockets[sid := s'.sockets[sid]],
                             messages := v.messages - {mid}, pending := v.pending[rid := s'.pending[rid]])
      && forall j :: j != k ==> ViewOf(s', j) == ViewOf(s, j)
  {
    hide Select;
    var s' := Next(s, Import(mid, sid, rid));
    SelectDrop(s.messages, MessageKey, mid);
    SelectPut(s.sockets, SocketKey, sid, s'.sockets[sid]);
    SelectPut(s.pending, PendingKey, rid, s'.pending[rid]);
  }

  lemma ImportLocal(servers: seq<Endpoint>, k: Key, v: View, mid: MessageId, sid: SocketId, rid: RequestId, v': View)
    requires FlowInv(servers, k, v) && v.flow.Some? && v.flow.value.place == InMessage(mid) && rid !in v.pending
    requires var m := v.messages[mid];
      var self := servers[m.dest];
      var tcp := m.tcp.(selfAddr := self.addr, selfPort := self.port);
      v' == v.(flow := Some(v.flow.value.(place := InSocket(sid))), messages := map[],
               sockets := map[sid := Socket(m.dest, true, Owning(rid), tcp)],
               pending := v.pending[rid := Pending(Chown(k, self, 1), Some(sid), false)])
    ensures FlowInv(servers, k, v')
  {
  }

  lemma ImportInv(s: State, mid: MessageId, sid: SocketId, rid: RequestId)
    requires Inv(s) && Enabled(s, Import(mid, sid, rid))
    ensures Inv(Next(s, Import(mid, sid, rid)))
  {
    var s', k := Next(s, Import(mid, sid, rid)), s.messages[mid].tcp.peer;
    MessageHolds(s, mid);
    ImportView(s, mid, sid, rid);
    ImportLocal(s.servers, k, ViewOf(s, k), mid, sid, rid, ViewOf(s', k));
    OneFlowChanged(s, s', k);
  }

  lemma ForwardView(s: State, mid: MessageId, mid': MessageId, dest: ServerId)
    requires Enabled(s, Forward(mid, mid', dest)) && s.messages[mid].tcp.peer in s.flows
    requires ViewOf(s, s.messages[mid].tcp.peer).messages == map[mid := s.messages[mid]]
    ensures var s', k := Next(s, Forward(mid, mid', dest)), s.messages[mid].tcp.peer;
      && ViewOf(s', k) == ViewOf(s, k).(flow := Some(s.flows[k].(place := InMessage(mid'))),
                                        messages := map[mid' := Message(dest, s.messages[mid].tcp)])
      && forall j :: j != k ==> ViewOf(s', j) == ViewOf(s, j)
  {
    hide Select;
    SelectDrop(s.messages, MessageKey, mid);
    SelectPut(s.messages - {mid}, MessageKey, mid', Message(dest, s.messages[mid].tcp));
  }

  lemma ForwardLocal(servers: seq<Endpoint>, k: Key, v: View, mid: MessageId, mid': MessageId, dest: ServerId, v': View)
    requires FlowInv(servers, k, v) && v.flow.Some? && v.flow.value.place == InMessage(mid) && dest < |servers|
    requires v' == v.(flow := Some(v.flow.value.(place := InMessage(mid'))),
                      messages := map[mid' := Message(dest, v.messages[mid].tcp)])
    ensures FlowInv(servers, k, v')
  {
  }

  lemma ForwardInv(s: State, mid: MessageId, mid': MessageId, dest: ServerId)
    requires Inv(s) && Enabled(s, Forward(mid, mid', dest))
    ensures Inv(Next(s, Forward(mid, mid', dest)))
  {
    hide FlowInv, ViewOf, Inv;
    var s', k := Next(s, Forward(mid, mid', dest)), s.messages[mid].tcp.peer;
    MessageHolds(s, mid);
    FlowSeen(s, k);
    ForwardView(s, mid, mid', dest);
    ForwardLocal(s.servers, k, ViewOf(s, k), mid, mid', dest, ViewOf(s', k));
    OneFlowChanged(s, s', k);
  }

  lemma ClosedView(s: State, sid: SocketId, rid: RequestId)
    requires Enabled(s, AfterRealCloseImported(sid, rid))
    requires ViewOf(s, s.sockets[sid].tcp.peer).sockets == map[sid := s.sockets[sid]]
    ensures var s', k := Next(s, AfterRealCloseImported(sid, rid)), s.sockets[sid].tcp.peer;
      && ViewOf(s', k) == ViewOf(s, k).(flow := None, sockets := map[], deleting := Some(rid),
                                        pending := ViewOf(s, k).pending[rid := Pending(Delete(k), None, false)])
      && forall j :: j != k ==> ViewOf(s', j) == ViewOf(s, j)
  {
    hide Select;
    SelectDrop(s.sockets, SocketKey, sid);
    SelectPut(s.pending, PendingKey, rid, Pending(Delete(s.sockets[sid].tcp.peer), None, false));
  }

  lemma ClosedLocal(servers: seq<Endpoint>, k: Key, v: View, sid: SocketId, rid: RequestId, v': View)
    requires FlowInv(servers, k, v) && v.flow.Some? && v.flow.value.place == InSocket(sid) && rid !in v.pending
    requires v.sockets[sid].phase.AwaitRealCloseImported?
    requires v' == v.(flow := None, sockets := map[], deleting := Some(rid),
                      pending := v.pending[rid := Pending(Delete(k), None, false)])
    ensures FlowInv(servers, k, v')
  {
  }

  lemma AfterRealCloseImportedInv(s: State, sid: SocketId, rid: RequestId)
    requires Inv(s) && Enabled(s, AfterRealCloseImported(sid, rid))
    ensures Inv(Next(s, AfterRealCloseImported(sid, rid)))
  {
    hide FlowInv, ViewOf, Inv;
    var s', k := Next(s, AfterRealCloseImported(sid, rid)), s.sockets[sid].tcp.peer;
    SocketHolds(s, sid);
    NotPending(s, k, rid);
    ClosedView(s, sid, rid);
    ClosedLocal(s.servers, k, ViewOf(s, k), sid, rid, ViewOf(s', k));
    OneFlowChanged(s, s', k);
  }

  lemma NotPending(s: State, k: Key, rid: RequestId)
    requires rid !in s.pending
    ensures rid !in ViewOf(s, k).pending
  {
  }

  lemma PlainView(s: State, sid: SocketId)
    requires Enabled(s, AfterClosePlain(sid))
    requires ViewOf(s, s.sockets[sid].tcp.peer).sockets == map[sid := s.sockets[sid]]
    ensures var s', k := Next(s, AfterClosePlain(sid)), s.sockets[sid].tcp.peer;
      && ViewOf(s', k) == ViewOf(s, k).(flow := None, sockets := map[])
      && forall j :: j != k ==> ViewOf(s', j) == ViewOf(s, j)
  {
    hide Select;
    SelectDrop(s.sockets, SocketKey, sid);
  }

  lemma PlainLocal(servers: seq<Endpoint>, k: Key, v: View, sid: SocketId, v': View)
    requires FlowInv(servers, k, v) && v.flow.Some? && v.flow.value.place == InSocket(sid)
    requires v.sockets[sid].phase.Closing? && !v.sockets[sid].imported
    requires v' == v.(flow := None, sockets := map[])
    ensures FlowInv(servers, k, v')
  {
  }

  lemma AfterClosePlainInv(s: State, sid: SocketId)
    requires Inv(s) && Enabled(s, AfterClosePlain(sid))
    ensures Inv(Next(s, AfterClosePlain(sid)))
  {
    hide FlowInv, ViewOf, Inv;
    var s', k := Next(s, AfterClosePlain(sid)), s.sockets[sid].tcp.peer;
    SocketHolds(s, sid);
    PlainView(s, sid);
    PlainLocal(s.servers, k, ViewOf(s, k), sid, ViewOf(s', k));
    OneFlowChanged(s, s', k);
  }

  /** The sockets and messages on record for a flow. */
  lemma RecordsAre(s: State, k: Key)
    requires Inv(s)
    ensures forall i ::
      i in s.sockets && s.sockets[i].tcp.peer == k <==> k in s.flows && s.flows[k].place == InSocket(i)
    ensures forall m ::
      m in s.messages && s.messages[m].tcp.peer == k <==> k in s.flows && s.flows[k].place == InMessage(m)
  {
    var v := ViewOf(s, k);
    assert FlowInv(s.servers, k, v);
    assert forall i :: i in s.sockets && s.sockets[i].tcp.peer == k <==> i in v.sockets;
    assert forall m :: m in s.messages && s.messages[m].tcp.peer == k <==> m in v.messages;
  }

  lemma FlowHolds(s: State, k: Key)
    requires Inv(s)
    ensures FlowInv(s.servers, k, ViewOf(s, k))
  {
  }

  /** Where the switch sends a packet of an open flow, its connection is. */
  lemma PassedPacketFindsHolder(s: State, h: Headers)
    requires Inv(s) && Enabled(s, PeerSends(h, [])) && Switched(s.rules, h).Pass?
    ensures var k := PeerKeyOfSrc(h);
      && s.flows[k].place.InSocket?
      && Receivers(s, k, Switched(s.rules, h).h.ipDst, Switched(s.rules, h).h.tcpDst) == {s.flows[k].place.sid}
  {
    hide ViewOf, Inv;
    var k, dst := PeerKeyOfSrc(h), PeerKeyOfDst(h);
    var h' := Switched(s.rules, h).h;
    FlowSeen(s, k);
    FlowHolds(s, k);
    RecordsAre(s, k);
    assert dst !in s.rules by {
      FlowSeen(s, dst);
      FlowHolds(s, dst);
      assert IsServer(s.servers, dst);
    }
    var to := Receivers(s, k, h'.ipDst, h'.tcpDst);
    assert s.flows[k].place.InSocket?;
    var sid := s.flows[k].place.sid;
    SocketHolds(s, sid);
    assert sid in to;
  }

  lemma PassedPacket(s: State, h: Headers, data: seq<byte>)
    requires Inv(s) && Enabled(s, PeerSends(h, data)) && Switched(s.rules, h).Pass?
    ensures var k := PeerKeyOfSrc(h);
      && s.flows[k].place.InSocket? && s.flows[k].place.sid in s.sockets
      && var sid := s.flows[k].place.sid;
      && s.sockets[sid].tcp.peer == k && Live(s.sockets[sid])
      && Next(s, PeerSends(h, data)) == s.(
           sockets := s.sockets[sid := Receive(s.sockets[sid], data)],
           flows := s.flows[k := s.flows[k].(delivered := s.flows[k].delivered + data)])
  {
    hide FlowInv, ViewOf, Inv, Switched;
    PassedPacketFindsHolder(s, h);
    var k := PeerKeyOfSrc(h);
    var sid := s.flows[k].place.sid;
    var to := Receivers(s, k, Switched(s.rules, h).h.ipDst, Switched(s.rules, h).h.tcpDst);
    assert sid in to;
    assert s.sockets[sid := Receive(s.sockets[sid], data)]
        == map i | i in s.sockets :: if i in to then Receive(s.sockets[i], data) else s.sockets[i];
  }

  lemma PassedView(s: State, h: Headers, data: seq<byte>, k: Key, sid: SocketId)
    requires Inv(s) && Enabled(s, PeerSends(h, data)) && Switched(s.rules, h).Pass?
    requires k == PeerKeyOfSrc(h) && s.flows[k].place == InSocket(sid)
    ensures sid in s.sockets && s.sockets[sid].tcp.peer == k && Live(s.sockets[sid])
    ensures var s', v := Next(s, PeerSends(h, data)), ViewOf(s, k);
      && s'.servers == s.servers && s'.strays == s.strays
      && ViewOf(s', k) == v.(flow := Some(s.flows[k].(delivered := s.flows[k].delivered + data)),
                             sockets := map[sid := Receive(s.sockets[sid], data)])
      && forall j :: j != k ==> ViewOf(s', j) == ViewOf(s, j)
  {
    hide Select;
    PassedPacket(s, h, data);
    SocketHolds(s, sid);
    SelectPut(s.sockets, SocketKey, sid, Receive(s.sockets[sid], data));
  }

  lemma ReceiveLocal(servers: seq<Endpoint>, k: Key, v: View, sid: SocketId, data: seq<byte>, v': View)
    requires FlowInv(servers, k, v) && v.flow.Some? && v.flow.value.place == InSocket(sid) && Live(v.sockets[sid])
    requires v' == v.(flow := Some(v.flow.value.(delivered := v.flow.value.delivered + data)),
                      sockets := map[sid := Receive(v.sockets[sid], data)])
    ensures FlowInv(servers, k, v')
  {
  }

  lemma PeerSendsInv(s: State, h: Headers, data: seq<byte>)
    requires Inv(s) && Enabled(s, PeerSends(h, data))
    ensures Inv(Next(s, PeerSends(h, data)))
  {
    if Switched(s.rules, h).Pass? {
      var k := PeerKeyOfSrc(h);
      PassedPacketFindsHolder(s, h);
      var sid := s.flows[k].place.sid;
      PassedView(s, h, data, k, sid);
      SocketHolds(s, sid);
      ReceiveLocal(s.servers, k, ViewOf(s, k), sid, data, ViewOf(Next(s, PeerSends(h, data)), k));
      OneFlowChanged(s, Next(s, PeerSends(h, data)), k);
    }
  }

  lemma NextInv(s: State, e: Event)
    requires Inv(s) && Enabled(s, e)
    ensures Inv(Next(s, e))
  {
    match e
    case Accept(sid, k, server) => AcceptInv(s, sid, k, server);
    case StartHandoff(sid, rid, dest) => StartHandoffInv(s, sid, rid, dest);
    case Apply(rid) => ApplyInv(s, rid);
    case Ack(rid) => AckInv(s, rid);
    case AfterClose(_) => PhaseInv(s, e);
    case AfterRealClose(sid, mid) => AfterRealCloseInv(s, sid, mid);
    case Import(mid, sid, rid) => ImportInv(s, mid, sid, rid);
    case Forward(mid, mid', dest) => ForwardInv(s, mid, mid', dest);
    case StartClose(_) => PhaseInv(s, e);
    case AfterCloseImported(_) => PhaseInv(s, e);
    case AfterRealCloseImported(sid, rid) => AfterRealCloseImportedInv(s, sid, rid);
    case AfterClosePlain(sid) => AfterClosePlainInv(s, sid);
    case PeerSends(h, data) => PeerSendsInv(s, h, data);
  }

  lemma {:induction false} RunInv(s: State, events: seq<Event>)
    requires Inv(s)
    ensures Run(s, events).Some? ==> Inv(Run(s, events).value)
    decreases |events|
  {
    if events != [] && Enabled(s, events[0]) {
      NextInv(s, events[0]);
      RunInv(Next(s, events[0]), events[1..]);
    }
  }

  ghost predicate Reachable(servers: seq<Endpoint>, s: State)
  {
    exists events :: Run(Init(servers), events) == Some(s)
  }

  lemma ReachableInv(servers: seq<Endpoint>, s: State)
    requires Reachable(servers, s)
    ensures Inv(s)
  {
    var events :| Run(Init(servers), events) == Some(s);
    InitInv(servers);
    RunInv(Init(servers), events);
  }

  // ---------------------------------------------------------------------
  // What holds in every run

  datatype Holder = LiveSocket(sid: SocketId) | Snapshot(sid: SocketId) | InFlight(mid: MessageId)

  /** Everything that holds the TCP state of a flow. */
  function Holders(s: State, k: Key): set<Holder>
  {
    (set i | i in s.sockets && s.sockets[i].tcp.peer == k :: if Live(s.sockets[i]) then LiveSocket(i) else Snapshot(i))
    + (set m | m in s.messages && s.messages[m].tcp.peer == k :: InFlight(m))
  }

  function HeldState(s: State, holder: Holder): Option<TcpState>
  {
    match holder
    case LiveSocket(i) => if i in s.sockets then Some(s.sockets[i].tcp) else None
    case Snapshot(i) =>
      if i in s.sockets && (s.sockets[i].phase.Exporting? || s.sockets[i].phase.AwaitRealClose?)
      then Some(s.sockets[i].phase.snapshot) else None
    case InFlight(m) => if m in s.messages then Some(s.messages[m].tcp) else None
  }

  lemma HoldersAre(s: State, k: Key)
    requires Inv(s)
    ensures Holders(s, k) ==
      if k !in s.flows then {} else
      match s.flows[k].place
      case InMessage(m) => {InFlight(m)}
      case InSocket(i) => if i in s.sockets && Live(s.sockets[i]) then {LiveSocket(i)} else {Snapshot(i)}
    ensures k in s.flows && s.flows[k].place.InSocket? ==>
      s.flows[k].place.sid in s.sockets && s.sockets[s.flows[k].place.sid].tcp.peer == k
    ensures k in s.flows && s.flows[k].place.InMessage? ==>
      s.flows[k].place.mid in s.messages && s.messages[s.flows[k].place.mid].tcp.peer == k
  {
    hide FlowInv, ViewOf, Inv;
    RecordsAre(s, k);
  }

  lemma HolderHasAll(s: State, k: Key, x: Holder)
    requires Inv(s) && k in s.flows && x in Holders(s, k)
    ensures HeldState(s, x).Some? && HeldState(s, x).value.peer == k
    ensures HeldState(s, x).value.received == s.flows[k].delivered
  {
    hide ViewOf, Inv, Holders;
    HoldersAre(s, k);
    FlowSeen(s, k);
    match s.flows[k].place
    case InSocket(i) => SocketHolds(s, i);
    case InMessage(m) => MessageHolds(s, m);
  }

  /** In every run, an open flow has exactly one holder and a closed one none;
      and what the holder has is all that the switch let through. */
  lemma ExactlyOneHolder(servers: seq<Endpoint>, s: State, k: Key)
    requires Reachable(servers, s)
    ensures |Holders(s, k)| == if k in s.flows then 1 else 0
    ensures forall x :: x in Holders(s, k) ==>
      k in s.flows && HeldState(s, x).Some? && HeldState(s, x).value.peer == k
      && HeldState(s, x).value.received == s.flows[k].delivered
  {
    ReachableInv(servers, s);
    HoldersAre(s, k);
    forall x | x in Holders(s, k)
      ensures HeldState(s, x).Some? && HeldState(s, x).value.peer == k
      ensures HeldState(s, x).value.received == s.flows[k].delivered
    {
      HolderHasAll(s, k, x);
    }
  }

  /** From the export snapshot until the switch has applied the importer's
      CHOWN. */
  predicate Detached(s: State, k: Key)
  {
    && k in s.flows
    && match s.flows[k].place
       case InMessage(_) => true
       case InSocket(sid) =>
         && sid in s.sockets
         && match s.sockets[sid].phase
            case Exporting(_, _) => true
            case AwaitRealClose(_, _) => true
            case Owning(rid) => rid in s.pending && !s.pending[rid].applied
            case _ => false
  }

  /** In every run, while a flow is detached its rule is in the table and
      locked, and the switch drops every packet of it: those sent to the peer,
      and those the peer sends to a server. */
  lemma DetachedIsSilent(servers: seq<Endpoint>, s: State, k: Key, h: Headers)
    requires Reachable(servers, s) && Detached(s, k) && SwitchedByPrism(h)
    requires PeerKeyOfDst(h) == k || (PeerKeyOfSrc(h) == k && IsServer(s.servers, PeerKeyOfDst(h)))
    ensures k in s.rules && s.rules[k].locked == 1
    ensures Switched(s.rules, h) == Drop
  {
    ReachableInv(servers, s);
    assert FlowInv(s.servers, k, ViewOf(s, k));
    var dst := PeerKeyOfDst(h);
    assert FlowInv(s.servers, dst, ViewOf(s, dst));
    if s.flows[k].place.InSocket? {
      assert s.flows[k].place.sid in ViewOf(s, k).sockets;
    }
    LockedFlowIsSilent(s.rules, k, h);
  }

  /** In every run, a packet of an open flow that the switch lets through comes
      to the server whose live socket holds the connection, and to no other. */
  lemma PacketsReachTheHolder(servers: seq<Endpoint>, s: State, h: Headers, data: seq<byte>)
    requires Reachable(servers, s) && Enabled(s, PeerSends(h, data)) && Switched(s.rules, h).Pass?
    ensures s.strays == 0 && Next(s, PeerSends(h, data)).strays == 0
    ensures var h', k := Switched(s.rules, h).h, PeerKeyOfSrc(h);
      exists sid :: Holders(s, k) == {LiveSocket(sid)} && sid in s.sockets
        && s.sockets[sid].tcp.selfAddr == h'.ipDst && s.sockets[sid].tcp.selfPort == h'.tcpDst
        && Next(s, PeerSends(h, data)).sockets == s.sockets[sid := Receive(s.sockets[sid], data)]
  {
    ReachableInv(servers, s);
    PassedPacket(s, h, data);
    PassedPacketFindsHolder(s, h);
    HoldersAre(s, PeerKeyOfSrc(h));
    var sid := s.flows[PeerKeyOfSrc(h)].place.sid;
    assert sid in Receivers(s, PeerKeyOfSrc(h), Switched(s.rules, h).h.ipDst, Switched(s.rules, h).h.tcpDst);
  }

  /** In every run, whatever reaches the peer from a live socket of its flow
      bears the address and port that the peer connected to. */
  lemma PeerSeesDialedAddress(servers: seq<Endpoint>, s: State, sid: SocketId, h: Headers)
    requires Reachable(servers, s) && sid in s.sockets && SwitchedByPrism(h)
    requires h.ipSrc == s.sockets[sid].tcp.selfAddr && h.tcpSrc == s.sockets[sid].tcp.selfPort
    requires PeerKeyOfDst(h) == s.sockets[sid].tcp.peer
    ensures Switched(s.rules, h).Pass? ==>
      var k, h' := s.sockets[sid].tcp.peer, Switched(s.rules, h).h;
      k in s.flows && s.flows[k].dialed < |s.servers|
      && h'.ipSrc == s.servers[s.flows[k].dialed].addr && h'.tcpSrc == s.servers[s.flows[k].dialed].port
  {
    ReachableInv(servers, s);
    SocketHolds(s, sid);
    var src := PeerKeyOfSrc(h);
    assert FlowInv(s.servers, src, ViewOf(s, src));
    assert IsServer(s.servers, src);
  }

  /** In every run, the switch can carry out each request that reaches it, so
      the acknowledgement, which never reports an error, is true. */
  lemma RequestsNeverFail(servers: seq<Endpoint>, s: State, rid: RequestId)
    requires Reachable(servers, s) && rid in s.pending && !s.pending[rid].applied
    ensures Status(s.rules, s.pending[rid].req) == 0
    ensures Applied(s.rules, s.pending[rid].req) != s.rules
  {
    ReachableInv(servers, s);
    var k := s.pending[rid].req.key;
    assert FlowInv(s.servers, k, ViewOf(s, k));
    assert rid in ViewOf(s, k).pending;
  }

  /** In every run, a rule is in the table only for an open flow, or for a
      closed one whose DELETE has been sent. */
  lemma RulesDoNotLeak(servers: seq<Endpoint>, s: State, k: Key)
    requires Reachable(servers, s) && k in s.rules && k !in s.flows
    ensures exists r :: r in s.pending && s.pending[r] == Pending(Delete(k), None, false)
  {
    ReachableInv(servers, s);
    assert FlowInv(s.servers, k, ViewOf(s, k));
    assert s.deleting[k] in s.pending;
  }

  /** The client sends a request again until it is acknowledged.  In every run,
      doing what an applied request says once more is harmless exactly for an
      ADD, and for a DELETE whose flow has not come back; a LOCK done twice
      opens the flow that is being exported, and a CHOWN done twice shuts the
      flow that was just imported. */
  lemma RetransmissionHarmless(servers: seq<Endpoint>, s: State, rid: RequestId)
    requires Reachable(servers, s) && rid in s.pending && s.pending[rid].applied
    ensures var req := s.pending[rid].req;
      && (Applied(s.rules, req) == s.rules <==> Repeatable(s.rules, req))
      && (req.Lock? ==> LockedRule(At(s.rules, req.key)) && Applied(s.rules, req)[req.key].locked == 0)
      && (req.Chown? ==> req.key in s.rules && s.rules[req.key].locked == 0
                         && LockedRule(At(Applied(s.rules, req), req.key)))
  {
    ReachableInv(servers, s);
    var k := s.pending[rid].req.key;
    assert FlowInv(s.servers, k, ViewOf(s, k));
    assert rid in ViewOf(s, k).pending;
    if s.pending[rid].callback.Some? {
      CallbackFindsSocket(s, rid);
      SocketHolds(s, s.pending[rid].callback.value);
    }
    assert k in Applied(s.rules, s.pending[rid].req) && Applied(s.rules, s.pending[rid].req)[k] != s.rules[k]
      ==> Applied(s.rules, s.pending[rid].req) != s.rules;
  }
}
