/** What every handoff can still come to: from each state that a run reaches,
    a few enabled callbacks bring the connection back to a server that reads it,
    or remove it together with its rule, whatever the other flows are doing.  With
    the same means, runs in which a request that is sent twice does harm. */
module HandoffLiveness {
  import opened Bytes
  import opened Options
  import opened Switch
  import opened Handoff

  // ---------------------------------------------------------------------
  // Runs put together

  ghost predicate Leads(s: State, s': State)
  {
    exists events :: Run(s, events) == Some(s')
  }

  lemma {:induction false} RunAppend(s: State, first: seq<Event>, rest: seq<Event>)
    requires Run(s, first).Some?
    ensures Run(s, first + rest) == Run(Run(s, first).value, rest)
    decreases |first|
  {
    hide Next, Enabled;
    if first == [] {
      assert first + rest == rest;
    } else {
      assert (first + rest)[1..] == first[1..] + rest;
      RunAppend(Next(s, first[0]), first[1..], rest);
    }
  }

  lemma LeadsNowhere(s: State)
    ensures Leads(s, s)
  {
    assert Run(s, []) == Some(s);
  }

  lemma LeadsOn(s: State, s': State, e: Event)
    requires Leads(s, s') && Enabled(s', e)
    ensures Leads(s, Next(s', e))
  {
    hide Next, Enabled;
    var events :| Run(s, events) == Some(s');
    RunAppend(s, events, [e]);
    assert [e][1..] == [];
    assert Run(s', [e]) == Run(Next(s', e), []);
    assert Run(s, events + [e]) == Some(Next(s', e));
  }

  lemma LeadsFar(s: State, s1: State, s2: State)
    requires Leads(s, s1) && Leads(s1, s2)
    ensures Leads(s, s2)
  {
    var first :| Run(s, first) == Some(s1);
    var rest :| Run(s1, rest) == Some(s2);
    RunAppend(s, first, rest);
  }

  /** Numbers that no record bears yet. */
  lemma {:induction false} Unused(used: set<nat>) returns (n: nat)
    ensures n !in used
    ensures forall x :: x in used ==> x < n
    decreases |used|
  {
    if used == {} {
      n := 0;
    } else {
      var x :| x in used;
      var m := Unused(used - {x});
      n := if m <= x then x + 1 else m;
      assert forall y :: y in used ==> y == x || y in used - {x};
    }
  }

  // ---------------------------------------------------------------------
  // Back to a reader

  /** The steps of its own that a flow is away from being read. */
  function Distance(v: View): nat
  {
    if v.flow.None? then 0 else
    match v.flow.value.place
    case InMessage(_) => 3
    case InSocket(sid) =>
      if sid !in v.sockets then 0 else
      match v.sockets[sid].phase
      case Locking(_, rid) => if rid in v.pending && v.pending[rid].applied then 6 else 7
      case Exporting(_, _) => 5
      case AwaitRealClose(_, _) => 4
      case Owning(rid) => if rid in v.pending && v.pending[rid].applied then 1 else 2
      case _ => 0
  }

  /** The server that reads the connection or is to read it next. */
  function Target(v: View): ServerId
  {
    if v.flow.None? then 0 else
    match v.flow.value.place
    case InMessage(mid) => if mid in v.messages then v.messages[mid].dest else 0
    case InSocket(sid) =>
      if sid !in v.sockets then 0 else
      match v.sockets[sid].phase
      case Locking(dest, _) => dest
      case Exporting(dest, _) => dest
      case AwaitRealClose(dest, _) => dest
      case _ => v.sockets[sid].server
  }

  /** A connection that its server is closing for good. */
  predicate BeingClosed(v: View)
  {
    && v.flow.Some? && v.flow.value.place.InSocket? && v.flow.value.place.sid in v.sockets
    && var phase := v.sockets[v.flow.value.place.sid].phase;
       phase.Closing? || phase.AwaitRealCloseImported?
  }

  /** A flow in the state it had, but for who holds it. */
  predicate SameConnection(v: View, v': View)
  {
    v.flow.Some? && v'.flow.Some? && v'.flow.value.(place := v.flow.value.place) == v.flow.value
  }

  /** One step of a flow that no other flow notices. */
  ghost predicate OwnStep(s: State, e: Event, k: Key)
  {
    && Enabled(s, e)
    && var s' := Next(s, e);
       Inv(s') && s'.servers == s.servers && forall j :: j != k ==> ViewOf(s', j) == ViewOf(s, j)
  }

  /** What a flow's own steps keep, and how much nearer they come. */
  ghost predicate Nearer(s: State, e: Event, k: Key)
  {
    && OwnStep(s, e, k)
    && SameConnection(ViewOf(s, k), ViewOf(Next(s, e), k))
    && Distance(ViewOf(Next(s, e), k)) == Distance(ViewOf(s, k)) - 1
    && !BeingClosed(ViewOf(Next(s, e), k))
    && (k in s.rules ==> k in Next(s, e).rules)
    && Target(ViewOf(Next(s, e), k)) == Target(ViewOf(s, k))
  }

  /** What its own steps leave of the servers and of the rules. */
  lemma ApplyStays(s: State, rid: RequestId)
    requires Enabled(s, Apply(rid))
    ensures var s' := Next(s, Apply(rid));
      s'.servers == s.servers && (!s.pending[rid].req.Delete? ==> s.rules.Keys <= s'.rules.Keys)
  {
  }

  lemma AckStays(s: State, rid: RequestId)
    requires Enabled(s, Ack(rid))
    ensures Next(s, Ack(rid)).servers == s.servers && Next(s, Ack(rid)).rules == s.rules
  {
  }

  lemma AfterRealCloseStays(s: State, sid: SocketId, mid: MessageId)
    requires Enabled(s, AfterRealClose(sid, mid))
    ensures var s', phase := Next(s, AfterRealClose(sid, mid)), s.sockets[sid].phase;
      && s'.servers == s.servers && s'.rules == s.rules
      && mid in s'.messages && s'.messages[mid] == Message(phase.dest, phase.snapshot)
  {
  }

  /** The record that holds a flow, and the request it waits for. */
  lemma HolderSeen(s: State, k: Key)
    requires Inv(s) && k in s.flows
    ensures var v := ViewOf(s, k);
      && v.flow == Some(s.flows[k])
      && match s.flows[k].place
         case InMessage(mid) => mid in s.messages && s.messages[mid].tcp.peer == k && v.sockets == map[]
         case InSocket(sid) =>
           && sid in s.sockets && s.sockets[sid].tcp.peer == k
           && v.messages == map[] && v.sockets == map[sid := s.sockets[sid]]
           && var phase := s.sockets[sid].phase;
              phase.Locking? || phase.Owning? ==>
                && phase.rid in s.pending && s.pending[phase.rid].req.key == k
                && s.pending[phase.rid].callback == Some(sid) && !s.pending[phase.rid].req.Delete?
                && (phase.Owning? <==> s.pending[phase.rid].req.Chown?)
  {
    HoldersAre(s, k);
    match s.flows[k].place
    case InMessage(mid) => MessageHolds(s, mid);
    case InSocket(sid) => SocketHolds(s, sid);
  }

  lemma ApplyNearer(s: State, k: Key, sid: SocketId)
    requires Inv(s) && k in s.flows && s.flows[k].place == InSocket(sid) && sid in s.sockets
    requires s.sockets[sid].phase.Locking? || s.sockets[sid].phase.Owning?
    requires var rid := s.sockets[sid].phase.rid; rid in s.pending && !s.pending[rid].applied
    ensures Nearer(s, Apply(s.sockets[sid].phase.rid), k)
  {
    hide FlowInv, ViewOf, Inv, Next;
    var rid := s.sockets[sid].phase.rid;
    HolderSeen(s, k);
    PendingSeen(s, rid);
    NextInv(s, Apply(rid));
    ApplyStays(s, rid);
    ApplyView(s, rid);
  }

  lemma AckNearer(s: State, k: Key, sid: SocketId)
    requires Inv(s) && k in s.flows && s.flows[k].place == InSocket(sid) && sid in s.sockets
    requires s.sockets[sid].phase.Locking? || s.sockets[sid].phase.Owning?
    requires var rid := s.sockets[sid].phase.rid; rid in s.pending && s.pending[rid].applied
    ensures Nearer(s, Ack(s.sockets[sid].phase.rid), k)
  {
    hide FlowInv, ViewOf, Inv, Next;
    var rid := s.sockets[sid].phase.rid;
    HolderSeen(s, k);
    PendingSeen(s, rid);
    NextInv(s, Ack(rid));
    AckStays(s, rid);
    AckView(s, rid, sid);
  }

  lemma AfterCloseNearer(s: State, k: Key, sid: SocketId)
    requires Inv(s) && k in s.flows && s.flows[k].place == InSocket(sid) && sid in s.sockets
    requires s.sockets[sid].phase.Exporting?
    ensures Nearer(s, AfterClose(sid), k)
  {
    hide FlowInv, ViewOf, Inv;
    HolderSeen(s, k);
    NextInv(s, AfterClose(sid));
    PhaseView(s, AfterClose(sid));
  }

  lemma AfterRealCloseNearer(s: State, k: Key, sid: SocketId, mid: MessageId)
    requires Inv(s) && k in s.flows && s.flows[k].place == InSocket(sid) && sid in s.sockets
    requires s.sockets[sid].phase.AwaitRealClose? && mid !in s.messages
    ensures Nearer(s, AfterRealClose(sid, mid), k)
  {
    hide FlowInv, ViewOf, Inv, Next;
    HolderSeen(s, k);
    SnapshotIsOwn(s, sid);
    NextInv(s, AfterRealClose(sid, mid));
    AfterRealCloseStays(s, sid, mid);
    AfterRealCloseView(s, sid, mid);
  }

  lemma ImportNearer(s: State, k: Key, mid: MessageId, sid: SocketId, rid: RequestId)
    requires Inv(s) && k in s.flows && s.flows[k].place == InMessage(mid)
    requires mid in s.messages && sid !in s.sockets && rid !in s.pending
    ensures Enabled(s, Import(mid, sid, rid)) && Nearer(s, Import(mid, sid, rid), k)
  {
    hide ViewOf, Inv;
    HolderSeen(s, k);
    MessageHolds(s, mid);
    hide FlowInv;
    NextInv(s, Import(mid, sid, rid));
    ImportView(s, mid, sid, rid);
  }

  /** Unless it is being closed, a flow that is not read can always take a step
      of its own towards it. */
  lemma CanComeNearer(s: State, k: Key) returns (e: Event)
    requires Inv(s) && k in s.flows && Distance(ViewOf(s, k)) > 0
    ensures Nearer(s, e, k)
  {
    hide FlowInv, ViewOf, Inv, Next, Nearer;
    HolderSeen(s, k);
    match s.flows[k].place
    case InMessage(mid) =>
      var sid := Unused(s.sockets.Keys);
      var rid := Unused(s.pending.Keys);
      e := Import(mid, sid, rid);
      ImportNearer(s, k, mid, sid, rid);
    case InSocket(sid) =>
      match s.sockets[sid].phase
      case Exporting(_, _) =>
        e := AfterClose(sid);
        AfterCloseNearer(s, k, sid);
      case AwaitRealClose(_, _) =>
        var mid := Unused(s.messages.Keys);
        e := AfterRealClose(sid, mid);
        AfterRealCloseNearer(s, k, sid, mid);
      case Locking(_, rid) =>
        e := if s.pending[rid].applied then Ack(rid) else Apply(rid);
        if s.pending[rid].applied { AckNearer(s, k, sid); } else { ApplyNearer(s, k, sid); }
      case Owning(rid) =>
        e := if s.pending[rid].applied then Ack(rid) else Apply(rid);
        if s.pending[rid].applied { AckNearer(s, k, sid); } else { ApplyNearer(s, k, sid); }
      case _ => assert false;
  }

  /** What the steps of one flow leave alone. */
  ghost predicate OthersUntouched(s: State, s': State, k: Key)
  {
    s'.servers == s.servers && forall j :: j != k ==> ViewOf(s', j) == ViewOf(s, j)
  }

  /** The state that its own steps lead to, at any distance from being read. */
  lemma {:induction false} ComesTo(s: State, k: Key, distance: nat) returns (s': State)
    requires Inv(s) && k in s.flows && distance <= Distance(ViewOf(s, k)) && !BeingClosed(ViewOf(s, k))
    ensures Leads(s, s') && Inv(s') && OthersUntouched(s, s', k)
    ensures k in s'.flows && SameConnection(ViewOf(s, k), ViewOf(s', k))
    ensures Distance(ViewOf(s', k)) == distance && !BeingClosed(ViewOf(s', k))
    ensures (k in s.rules ==> k in s'.rules) && Target(ViewOf(s', k)) == Target(ViewOf(s, k))
    decreases Distance(ViewOf(s, k))
  {
    hide FlowInv, ViewOf, Inv, Next, Leads, Distance, BeingClosed, Target;
    LeadsNowhere(s);
    s' := s;
    FlowSeen(s, k);
    if distance < Distance(ViewOf(s, k)) {
      var e := CanComeNearer(s, k);
      var s1 := Next(s, e);
      LeadsOn(s, s, e);
      FlowSeen(s1, k);
      s' := ComesTo(s1, k, distance);
      LeadsFar(s, s1, s');
    }
  }

  /** A live socket that reads has the flow, with all that the switch let
      through, and the switch, if it has a rule, sends the packets there. */
  ghost predicate Attended(s: State, k: Key)
  {
    && k in s.flows && s.flows[k].place.InSocket?
    && var sid := s.flows[k].place.sid;
    && sid in s.sockets && Holders(s, k) == {LiveSocket(sid)}
    && s.sockets[sid].phase.Reading? && s.sockets[sid].tcp.received == s.flows[k].delivered
    && s.sockets[sid].server < |s.servers|
    && (k in s.rules ==> s.rules[k].locked == 0 && s.rules[k].owner == s.servers[s.sockets[sid].server])
  }

  lemma AtHome(s: State, k: Key)
    requires Inv(s) && k in s.flows && Distance(ViewOf(s, k)) == 0 && !BeingClosed(ViewOf(s, k))
    ensures Attended(s, k) && s.sockets[s.flows[k].place.sid].server == Target(ViewOf(s, k))
  {
    HolderSeen(s, k);
    HoldersAre(s, k);
    FlowSeen(s, k);
    assert FlowInv(s.servers, k, ViewOf(s, k));
  }

  /** From every state that a run reaches, an open flow that is not being
      closed can come back to a server that reads it and whose packets the
      switch lets through: by enabled steps of its own, which lose nothing of
      what the peer has sent and which no other flow notices. */
  lemma HandoffCompletes(servers: seq<Endpoint>, s: State, k: Key)
    requires Reachable(servers, s) && k in s.flows && !BeingClosed(ViewOf(s, k))
    ensures exists s' :: Leads(s, s') && Attended(s', k) && OthersUntouched(s, s', k)
                         && s'.flows[k].delivered == s.flows[k].delivered && s'.flows[k].dialed == s.flows[k].dialed
                         && s'.sockets[s'.flows[k].place.sid].server == Target(ViewOf(s, k))
  {
    hide FlowInv, ViewOf, Inv, Next, Leads, Distance, BeingClosed, Attended, Holders, Target;
    ReachableInv(servers, s);
    var s' := ComesTo(s, k, 0);
    AtHome(s', k);
    FlowSeen(s, k);
    FlowSeen(s', k);
  }

  // ---------------------------------------------------------------------
  // A connection that is read works

  lemma ServersHaveNoRule(s: State, k: Key)
    requires Inv(s) && IsServer(s.servers, k)
    ensures k !in s.rules
  {
    FlowHolds(s, k);
  }

  /** In every run, what the peer sends on a flow that is read passes the switch and
      is received, and nothing else happens. */
  lemma AttendedHears(servers: seq<Endpoint>, s: State, h: Headers, data: seq<byte>)
    requires Reachable(servers, s) && Enabled(s, PeerSends(h, data)) && Attended(s, PeerKeyOfSrc(h))
    ensures var k, s' := PeerKeyOfSrc(h), Next(s, PeerSends(h, data));
      var sid := s.flows[k].place.sid;
      && s'.flows == s.flows[k := s.flows[k].(delivered := s.flows[k].delivered + data)]
      && s'.sockets == s.sockets[sid := Receive(s.sockets[sid], data)]
      && s' == s.(flows := s'.flows, sockets := s'.sockets)
  {
    hide Inv, Holders, Next;
    ReachableInv(servers, s);
    var dst := PeerKeyOfDst(h);
    assert IsServer(s.servers, dst);
    ServersHaveNoRule(s, dst);
    DroppedExactly(s.rules, h);
    PassedPacket(s, h, data);
  }

  /** And in every run, what its socket sends to the peer passes too. */
  lemma AttendedSpeaks(servers: seq<Endpoint>, s: State, k: Key, h: Headers)
    requires Reachable(servers, s) && Attended(s, k) && PeerKeyOfDst(h) == k
    requires var sock := s.sockets[s.flows[k].place.sid]; h.ipSrc == sock.tcp.selfAddr && h.tcpSrc == sock.tcp.selfPort
    ensures Switched(s.rules, h).Pass?
  {
    hide Holders, Switched;
    ReachableInv(servers, s);
    var sid := s.flows[k].place.sid;
    HolderSeen(s, k);
    SocketHolds(s, sid);
    var src := PeerKeyOfSrc(h);
    assert IsServer(s.servers, src);
    ServersHaveNoRule(s, src);
    DroppedExactly(s.rules, h);
  }

  // ---------------------------------------------------------------------
  // Away for good

  predicate Gone(s: State, k: Key) { k !in s.flows && k !in s.rules }

  /** The DELETE of a closed flow is still to be applied. */
  lemma DeleteGoesThrough(s: State, k: Key) returns (s': State)
    requires Inv(s) && k !in s.flows
    ensures Leads(s, s') && Inv(s') && OthersUntouched(s, s', k) && Gone(s', k)
  {
    hide ViewOf, Inv, Next, Leads;
    LeadsNowhere(s);
    s' := s;
    if k in s.rules {
      var rid := DeletePending(s, k);
      PendingSeen(s, rid);
      NextInv(s, Apply(rid));
      ApplyStays(s, rid);
      ApplyView(s, rid);
      LeadsOn(s, s, Apply(rid));
      s' := Next(s, Apply(rid));
      FlowSeen(s, k);
      FlowSeen(s', k);
    }
  }

  lemma DeletePending(s: State, k: Key) returns (rid: RequestId)
    requires Inv(s) && k !in s.flows && k in s.rules
    ensures rid in s.pending && s.pending[rid] == Pending(Delete(k), None, false)
  {
    assert FlowInv(s.servers, k, ViewOf(s, k));
    rid := s.deleting[k];
  }

  /** The flow of a connection as it was accepted has no rule to delete. */
  lemma PlainCloses(s: State, k: Key, sid: SocketId)
    requires Inv(s) && k in s.flows && s.flows[k].place == InSocket(sid) && sid in s.sockets
    requires s.sockets[sid].phase.Closing? && !s.sockets[sid].imported
    ensures OwnStep(s, AfterClosePlain(sid), k) && k !in Next(s, AfterClosePlain(sid)).flows
  {
    hide FlowInv, ViewOf, Inv;
    HolderSeen(s, k);
    NextInv(s, AfterClosePlain(sid));
    PlainView(s, sid);
  }

  lemma ImportedCloses(s: State, k: Key, sid: SocketId, rid: RequestId)
    requires Inv(s) && k in s.flows && s.flows[k].place == InSocket(sid) && sid in s.sockets
    requires s.sockets[sid].phase.AwaitRealCloseImported? && rid !in s.pending
    ensures OwnStep(s, AfterRealCloseImported(sid, rid), k) && k !in Next(s, AfterRealCloseImported(sid, rid)).flows
  {
    hide FlowInv, ViewOf, Inv;
    HolderSeen(s, k);
    NextInv(s, AfterRealCloseImported(sid, rid));
    ClosedView(s, sid, rid);
  }

  /** The callbacks that move a socket on its way out. */
  lemma ClosePhase(s: State, k: Key, e: Event)
    requires Inv(s) && (e.StartClose? || e.AfterCloseImported?) && Enabled(s, e)
    requires k in s.flows && s.flows[k].place == InSocket(e.sid)
    ensures var s' := Next(s, e);
      && OwnStep(s, e, k) && k in s'.flows && s'.flows[k].place == InSocket(e.sid)
      && var phase := if e.StartClose? then Closing else AwaitRealCloseImported;
         s'.sockets == s.sockets[e.sid := s.sockets[e.sid].(phase := phase)]
  {
    hide FlowInv, ViewOf, Inv;
    HolderSeen(s, k);
    NextInv(s, e);
    PhaseView(s, e);
  }

  function StepsToClose(phase: Phase): nat { if phase.Reading? then 3 else if phase.Closing? then 2 else 1 }

  /** Its own steps take a connection that reads or closes out of the system. */
  lemma {:induction false} Closes(s: State, k: Key) returns (s': State)
    requires Inv(s) && k in s.flows && Distance(ViewOf(s, k)) == 0
    ensures Leads(s, s') && Inv(s') && OthersUntouched(s, s', k) && Gone(s', k)
    decreases match s.flows[k].place
              case InSocket(sid) => if sid in s.sockets then StepsToClose(s.sockets[sid].phase) else 0
              case _ => 0
  {
    hide FlowInv, ViewOf, Inv, Next, Leads;
    HolderSeen(s, k);
    var sid := s.flows[k].place.sid;
    var sock := s.sockets[sid];
    var e: Event;
    LeadsNowhere(s);
    if sock.phase.Reading? || (sock.phase.Closing? && sock.imported) {
      e := if sock.phase.Reading? then StartClose(sid) else AfterCloseImported(sid);
      ClosePhase(s, k, e);
      HolderSeen(Next(s, e), k);
      s' := Closes(Next(s, e), k);
    } else {
      if sock.phase.Closing? {
        e := AfterClosePlain(sid);
        PlainCloses(s, k, sid);
      } else {
        var rid := Unused(s.pending.Keys);
        e := AfterRealCloseImported(sid, rid);
        ImportedCloses(s, k, sid, rid);
      }
      s' := DeleteGoesThrough(Next(s, e), k);
    }
    LeadsOn(s, s, e);
    LeadsFar(s, Next(s, e), s');
  }

  /** From every state that a run reaches, a flow's own steps can remove the
      flow and its rule, so that the peer's address and port may come back. */
  lemma FlowCanEnd(servers: seq<Endpoint>, s: State, k: Key)
    requires Reachable(servers, s)
    ensures exists s' :: Leads(s, s') && Gone(s', k) && OthersUntouched(s, s', k)
  {
    hide FlowInv, ViewOf, Inv, Next, Leads, Distance, BeingClosed, Gone;
    ReachableInv(servers, s);
    if k !in s.flows {
      var s' := DeleteGoesThrough(s, k);
    } else if BeingClosed(ViewOf(s, k)) {
      ClosingIsHome(ViewOf(s, k));
      var s' := Closes(s, k);
    } else {
      var s1 := ComesTo(s, k, 0);
      var s' := Closes(s1, k);
      LeadsFar(s, s1, s');
    }
  }

  lemma ClosingIsHome(v: View)
    requires BeingClosed(v)
    ensures Distance(v) == 0
  {
  }

  // ---------------------------------------------------------------------
  // What a request sent twice can do

  lemma LeadsReaches(servers: seq<Endpoint>, s: State)
    requires Leads(Init(servers), s)
    ensures Reachable(servers, s)
  {
  }

  /** A connection whose first handoff has begun. */
  lemma FirstHandoff(servers: seq<Endpoint>, k: Key) returns (s: State)
    requires |servers| > 0 && !IsServer(servers, k)
    ensures Leads(Init(servers), s) && Inv(s) && s.servers == servers
    ensures k in s.flows && Distance(ViewOf(s, k)) == 7 && !BeingClosed(ViewOf(s, k))
  {
    hide Leads, Inv, ViewOf;
    s := Init(servers);
    LeadsNowhere(s);
    LeadsOn(Init(servers), s, Accept(0, k, 0));
    s := Next(s, Accept(0, k, 0));
    LeadsOn(Init(servers), s, StartHandoff(0, 0, 0));
    s := Next(s, StartHandoff(0, 0, 0));
    assert s.pending == map[0 := Pending(Add(k, servers[0].addr, servers[0].port, servers[0], 1), Some(0), false)];
    assert s.flows[k].place == InSocket(0) && s.sockets[0].phase == Locking(0, 0);
    hide Next;
    LeadsReaches(servers, s);
    ReachableInv(servers, s);
    HolderSeen(s, k);
    PendingSeen(s, 0);
  }

  /** A run comes to a flow whose snapshot is taken. */
  lemma DetachedIsReached(servers: seq<Endpoint>, k: Key)
    requires |servers| > 0 && !IsServer(servers, k)
    ensures exists s :: Reachable(servers, s) && Detached(s, k) && k in s.rules
  {
    hide Leads, Inv, ViewOf, FlowInv;
    var s0 := FirstHandoff(servers, k);
    var s := ComesTo(s0, k, 5);
    LeadsFar(Init(servers), s0, s);
    LeadsReaches(servers, s);
    HolderSeen(s, k);
    LockedWhileDetached(s, k);
  }

  lemma LockedWhileDetached(s: State, k: Key)
    requires Inv(s) && Detached(s, k)
    ensures LockedRule(At(s.rules, k))
  {
    assert FlowInv(s.servers, k, ViewOf(s, k));
    if s.flows[k].place.InSocket? {
      assert s.flows[k].place.sid in ViewOf(s, k).sockets;
    }
  }

  /** A run comes to a CHOWN that is applied and not yet acknowledged.  If the
      client sends it again, the switch shuts the flow that was imported. */
  lemma ChownTwiceShuts(servers: seq<Endpoint>, k: Key)
    requires |servers| > 0 && !IsServer(servers, k)
    ensures exists s, rid ::
      && Reachable(servers, s) && rid in s.pending && s.pending[rid].applied
      && s.pending[rid].req.Chown? && s.pending[rid].req.key == k
      && k in s.rules && s.rules[k].locked == 0
      && LockedRule(At(Applied(s.rules, s.pending[rid].req), k))
  {
    hide Leads, Inv, ViewOf, FlowInv, Reachable, Applied;
    var s0 := FirstHandoff(servers, k);
    var s := ComesTo(s0, k, 1);
    LeadsFar(Init(servers), s0, s);
    LeadsReaches(servers, s);
    HolderSeen(s, k);
    var rid := s.sockets[s.flows[k].place.sid].phase.rid;
    PendingSeen(s, rid);
    RetransmissionHarmless(servers, s, rid);
  }

  lemma LockKeepsRule(rules: Table, k: Key)
    ensures k in Applied(rules, Lock(k)) <==> k in rules
  {
  }

  /** A run comes to a LOCK that is applied and not yet acknowledged.  If the
      client sends it again, the switch opens the flow about to be exported. */
  lemma LockTwiceOpens(servers: seq<Endpoint>, k: Key)
    requires |servers| > 0 && !IsServer(servers, k)
    ensures exists s, rid ::
      && Reachable(servers, s) && rid in s.pending && s.pending[rid].applied && s.pending[rid].req == Lock(k)
      && k in s.rules && s.rules[k].locked == 1
      && k in Applied(s.rules, Lock(k)) && Applied(s.rules, Lock(k))[k].locked == 0
  {
    hide Leads, Inv, ViewOf, FlowInv, Reachable, Applied;
    var s0 := FirstHandoff(servers, k);
    var s1 := ComesTo(s0, k, 5);
    LeadsFar(Init(servers), s0, s1);
    HolderSeen(s1, k);
    LockedWhileDetached(s1, k);
    var s2 := ComesTo(s1, k, 0);
    LeadsFar(Init(servers), s1, s2);
    var s, rid := SecondLock(servers, s2, k);
    RetransmissionHarmless(servers, s, rid);
    LockKeepsRule(s.rules, k);
  }

  /** A connection that has been handed off before asks for LOCK. */
  lemma SecondLock(servers: seq<Endpoint>, s: State, k: Key) returns (s': State, rid: RequestId)
    requires Leads(Init(servers), s) && Inv(s) && s.servers == servers && |servers| > 0
    requires k in s.flows && k in s.rules && Distance(ViewOf(s, k)) == 0 && !BeingClosed(ViewOf(s, k))
    ensures Reachable(servers, s')
    ensures rid in s'.pending && s'.pending[rid].applied && s'.pending[rid].req == Lock(k)
  {
    hide Leads, Inv, ViewOf, FlowInv, Applied;
    HolderSeen(s, k);
    AtHome(s, k);
    RuleMeansImported(s, k);
    var sid := s.flows[k].place.sid;
    rid := Unused(s.pending.Keys);
    LeadsOn(Init(servers), s, StartHandoff(sid, rid, 0));
    s' := Next(s, StartHandoff(sid, rid, 0));
    LeadsOn(Init(servers), s', Apply(rid));
    s' := Next(s', Apply(rid));
    LeadsReaches(servers, s');
  }

  lemma RuleMeansImported(s: State, k: Key)
    requires Inv(s) && Attended(s, k) && k in s.rules
    ensures s.sockets[s.flows[k].place.sid].imported
  {
    HolderSeen(s, k);
    assert FlowInv(s.servers, k, ViewOf(s, k));
  }
}
