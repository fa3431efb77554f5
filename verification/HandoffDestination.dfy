/** Where a handoff goes: what the callbacks were asked for, against what the
    records then say, over every run. */
module HandoffDestination {
  import opened Bytes
  import opened Options
  import opened Switch
  import opened Handoff
  import opened HandoffLiveness

  /** The server that a peer connected to, and the one its connection was sent to
      last, if it was sent at all. */
  datatype Wish = Wish(dialed: ServerId, dest: Option<ServerId>)

  /** The flow that an event is about. */
  function Subject(s: State, e: Event): Key
    requires Enabled(s, e)
  {
    match e
    case Accept(_, k, _) => k
    case StartHandoff(sid, _, _) => s.sockets[sid].tcp.peer
    case Apply(rid) => s.pending[rid].req.key
    case Ack(rid) => s.pending[rid].req.key
    case AfterClose(sid) => s.sockets[sid].tcp.peer
    case AfterRealClose(sid, _) => s.sockets[sid].tcp.peer
    case Import(mid, _, _) => s.messages[mid].tcp.peer
    case Forward(mid, _, _) => s.messages[mid].tcp.peer
    case StartClose(sid) => s.sockets[sid].tcp.peer
    case AfterCloseImported(sid) => s.sockets[sid].tcp.peer
    case AfterRealCloseImported(sid, _) => s.sockets[sid].tcp.peer
    case AfterClosePlain(sid) => s.sockets[sid].tcp.peer
    case PeerSends(h, _) => PeerKeyOfSrc(h)
  }

  /** What an event asks for, in its own arguments. */
  function Wished(w: Wish, e: Event): Wish
  {
    match e
    case Accept(_, _, server) => Wish(server, None)
    case StartHandoff(_, _, dest) => w.(dest := Some(dest))
    case Forward(_, _, dest) => w.(dest := Some(dest))
    case _ => w
  }

  /** What was asked for last for flow k, over a run. */
  function LastWish(s: State, events: seq<Event>, k: Key, w: Wish): Wish
    requires Run(s, events).Some?
    decreases |events|
  {
    if events == [] then w
    else LastWish(Next(s, events[0]), events[1..], k, if Subject(s, events[0]) == k then Wished(w, events[0]) else w)
  }

  /** The record that holds a flow is where it was asked to be, or on its way
      there. */
  ghost predicate Heads(v: View, w: Wish)
  {
    v.flow.Some? ==>
      && v.flow.value.dialed == w.dialed
      && match v.flow.value.place
         case InMessage(mid) => mid in v.messages && w.dest == Some(v.messages[mid].dest)
         case InSocket(sid) => sid in v.sockets && SocketHeads(v.sockets[sid], w)
  }

  predicate SocketHeads(sock: Socket, w: Wish)
  {
    match sock.phase
    case Locking(dest, _) => w.dest == Some(dest)
    case Exporting(dest, _) => w.dest == Some(dest)
    case AwaitRealClose(dest, _) => w.dest == Some(dest)
    case _ => if sock.imported then w.dest == Some(sock.server) else w == Wish(sock.server, None)
  }

  // ---------------------------------------------------------------------
  // One step

  lemma AcceptView(s: State, sid: SocketId, k: Key, server: ServerId)
    requires Enabled(s, Accept(sid, k, server))
    ensures var s', v := Next(s, Accept(sid, k, server)), ViewOf(s, k);
      && s'.sockets[sid].server == server && !s'.sockets[sid].imported && s'.sockets[sid].phase == Reading
      && ViewOf(s', k) == v.(flow := Some(Flow(server, [], InSocket(sid))),
                             sockets := v.sockets[sid := s'.sockets[sid]])
      && forall j :: j != k ==> ViewOf(s', j) == ViewOf(s, j)
  {
    hide Select;
    SelectPut(s.sockets, SocketKey, sid, Next(s, Accept(sid, k, server)).sockets[sid]);
  }

  lemma AcceptHeads(s: State, e: Event, j: Key, w: Wish)
    requires Inv(s) && e.Accept? && Enabled(s, e) && Heads(ViewOf(s, j), w)
    ensures Heads(ViewOf(Next(s, e), j), if Subject(s, e) == j then Wished(w, e) else w)
  {
    hide ViewOf, Inv, Next;
    AcceptView(s, e.sid, e.key, e.server);
  }

  lemma StartHandoffHeads(s: State, e: Event, j: Key, w: Wish)
    requires Inv(s) && e.StartHandoff? && Enabled(s, e) && Heads(ViewOf(s, j), w)
    ensures Heads(ViewOf(Next(s, e), j), if Subject(s, e) == j then Wished(w, e) else w)
  {
    hide ViewOf, Inv, FlowInv;
    StartHandoffView(s, e.sid, e.rid, e.dest);
    SocketHolds(s, e.sid);
  }

  lemma ApplyHeads(s: State, e: Event, j: Key, w: Wish)
    requires Inv(s) && e.Apply? && Enabled(s, e) && Heads(ViewOf(s, j), w)
    ensures Heads(ViewOf(Next(s, e), j), w)
  {
    hide ViewOf, Inv, Next, Applied;
    ApplyView(s, e.rid);
  }

  lemma AckHeads(s: State, e: Event, j: Key, w: Wish)
    requires Inv(s) && e.Ack? && Enabled(s, e) && Heads(ViewOf(s, j), w)
    ensures Heads(ViewOf(Next(s, e), j), w)
  {
    hide ViewOf, Inv, Next, FlowInv;
    var p := s.pending[e.rid];
    if p.callback.Some? {
      CallbackFindsSocket(s, e.rid);
      SocketHolds(s, p.callback.value);
      if p.req.Chown? {
        OwningIsImported(s, p.callback.value);
      }
      AckView(s, e.rid, p.callback.value);
    } else {
      AckDeleteView(s, e.rid);
    }
  }

  lemma OwningIsImported(s: State, sid: SocketId)
    requires Inv(s) && sid in s.sockets && s.sockets[sid].phase.Owning?
    ensures s.sockets[sid].imported
  {
    SocketHolds(s, sid);
  }

  lemma PhaseHeads(s: State, e: Event, j: Key, w: Wish)
    requires Inv(s) && (e.AfterClose? || e.StartClose? || e.AfterCloseImported?) && Enabled(s, e)
    requires Heads(ViewOf(s, j), w)
    ensures Heads(ViewOf(Next(s, e), j), w)
  {
    hide ViewOf, Inv, FlowInv;
    PhaseView(s, e);
    SocketHolds(s, e.sid);
  }

  lemma AfterRealCloseHeads(s: State, e: Event, j: Key, w: Wish)
    requires Inv(s) && e.AfterRealClose? && Enabled(s, e) && Heads(ViewOf(s, j), w)
    ensures Heads(ViewOf(Next(s, e), j), w)
  {
    hide ViewOf, Inv, FlowInv;
    SocketHolds(s, e.sid);
    SnapshotIsOwn(s, e.sid);
    AfterRealCloseView(s, e.sid, e.mid);
    FlowSeen(s, s.sockets[e.sid].tcp.peer);
  }

  lemma ImportHeads(s: State, e: Event, j: Key, w: Wish)
    requires Inv(s) && e.Import? && Enabled(s, e) && Heads(ViewOf(s, j), w)
    ensures Heads(ViewOf(Next(s, e), j), w)
  {
    hide ViewOf, Inv, FlowInv;
    MessageHolds(s, e.mid);
    FlowSeen(s, s.messages[e.mid].tcp.peer);
    ImportView(s, e.mid, e.sid, e.rid);
  }

  lemma ForwardHeads(s: State, e: Event, j: Key, w: Wish)
    requires Inv(s) && e.Forward? && Enabled(s, e) && Heads(ViewOf(s, j), w)
    ensures Heads(ViewOf(Next(s, e), j), if Subject(s, e) == j then Wished(w, e) else w)
  {
    hide ViewOf, Inv, FlowInv;
    MessageHolds(s, e.mid);
    FlowSeen(s, s.messages[e.mid].tcp.peer);
    ForwardView(s, e.mid, e.mid', e.dest);
  }

  lemma GoneHeads(s: State, e: Event, j: Key, w: Wish)
    requires Inv(s) && (e.AfterRealCloseImported? || e.AfterClosePlain?) && Enabled(s, e) && Heads(ViewOf(s, j), w)
    ensures Heads(ViewOf(Next(s, e), j), w)
  {
    hide ViewOf, Inv, FlowInv, Next;
    SocketHolds(s, e.sid);
    if e.AfterClosePlain? {
      PlainView(s, e.sid);
    } else {
      ClosedView(s, e.sid, e.rid);
    }
  }

  lemma PeerSendsHeads(s: State, e: Event, j: Key, w: Wish)
    requires Inv(s) && e.PeerSends? && Enabled(s, e) && Heads(ViewOf(s, j), w)
    ensures Heads(ViewOf(Next(s, e), j), w)
  {
    hide ViewOf, Inv, FlowInv, Switched;
    if Switched(s.rules, e.h).Pass? {
      var k := PeerKeyOfSrc(e.h);
      PassedPacketFindsHolder(s, e.h);
      var sid := s.flows[k].place.sid;
      PassedView(s, e.h, e.data, k, sid);
      SocketHolds(s, sid);
      FlowSeen(s, k);
    }
  }

  lemma NextHeads(s: State, e: Event, j: Key, w: Wish)
    requires Inv(s) && Enabled(s, e) && Heads(ViewOf(s, j), w)
    ensures Heads(ViewOf(Next(s, e), j), if Subject(s, e) == j then Wished(w, e) else w)
  {
    hide Heads, Inv, ViewOf, Next;
    match e
    case Accept(_, _, _) => AcceptHeads(s, e, j, w);
    case StartHandoff(_, _, _) => StartHandoffHeads(s, e, j, w);
    case Apply(_) => ApplyHeads(s, e, j, w);
    case Ack(_) => AckHeads(s, e, j, w);
    case AfterClose(_) => PhaseHeads(s, e, j, w);
    case AfterRealClose(_, _) => AfterRealCloseHeads(s, e, j, w);
    case Import(_, _, _) => ImportHeads(s, e, j, w);
    case Forward(_, _, _) => ForwardHeads(s, e, j, w);
    case StartClose(_) => PhaseHeads(s, e, j, w);
    case AfterCloseImported(_) => PhaseHeads(s, e, j, w);
    case AfterRealCloseImported(_, _) => GoneHeads(s, e, j, w);
    case AfterClosePlain(_) => GoneHeads(s, e, j, w);
    case PeerSends(_, _) => PeerSendsHeads(s, e, j, w);
  }

  // ---------------------------------------------------------------------
  // Whole runs

  lemma {:induction false} RunHeads(s: State, events: seq<Event>, k: Key, w: Wish)
    requires Inv(s) && Heads(ViewOf(s, k), w) && Run(s, events).Some?
    ensures Heads(ViewOf(Run(s, events).value, k), LastWish(s, events, k, w))
    decreases |events|
  {
    hide Heads, Inv, ViewOf, Next, Enabled, Wished, Subject;
    if events != [] {
      NextHeads(s, events[0], k, w);
      NextInv(s, events[0]);
      RunHeads(Next(s, events[0]), events[1..], k, if Subject(s, events[0]) == k then Wished(w, events[0]) else w);
    }
  }

  /** In every run, whatever record holds an open flow stands for the last
      request for it: a message and a record that is being exported are on the
      way to the server that was named last, by a handoff or by a forward; a
      socket that was imported is at that server; and one that was never handed
      off is at the server that the peer connected to. */
  lemma GoesWhereAsked(servers: seq<Endpoint>, events: seq<Event>, k: Key)
    requires Run(Init(servers), events).Some? && k in Run(Init(servers), events).value.flows
    ensures var s, w := Run(Init(servers), events).value, LastWish(Init(servers), events, k, Wish(0, None));
      && s.flows[k].dialed == w.dialed
      && match s.flows[k].place
         case InMessage(mid) => mid in s.messages && w.dest == Some(s.messages[mid].dest)
         case InSocket(sid) => sid in s.sockets && SocketHeads(s.sockets[sid], w)
  {
    InitInv(servers);
    RunInv(Init(servers), events);
    RunHeads(Init(servers), events, k, Wish(0, None));
    hide Inv, ViewOf, FlowInv, Run, Heads;
    HeadsSeen(Run(Init(servers), events).value, k, LastWish(Init(servers), events, k, Wish(0, None)));
  }

  /** No event of a run hands flow k off, sends it on or opens it anew. */
  predicate LeftAlone(s: State, events: seq<Event>, k: Key)
    requires Run(s, events).Some?
    decreases |events|
  {
    events != [] ==>
      && (Subject(s, events[0]) == k ==> !events[0].Accept? && !events[0].StartHandoff? && !events[0].Forward?)
      && LeftAlone(Next(s, events[0]), events[1..], k)
  }

  lemma {:induction false} NoNewWish(s: State, events: seq<Event>, k: Key, w: Wish)
    requires Run(s, events).Some? && LeftAlone(s, events, k)
    ensures LastWish(s, events, k, w) == w
    decreases |events|
  {
    hide Next, Enabled, Subject;
    if events != [] {
      NoNewWish(Next(s, events[0]), events[1..], k, w);
    }
  }

  /** A socket that is leaving for a server, or was imported there. */
  predicate BoundFor(sock: Socket, server: ServerId)
  {
    match sock.phase
    case Locking(dest, _) => dest == server
    case Exporting(dest, _) => dest == server
    case AwaitRealClose(dest, _) => dest == server
    case _ => sock.imported && sock.server == server
  }

  /** From the handoff of any reachable state on, as long as the flow is not handed
      off, sent on or opened again: while it is under way it is on the way to the
      server that was asked for, and once it is imported it is there. */
  lemma HandoffGoesToDest(servers: seq<Endpoint>, s: State, sid: SocketId, rid: RequestId, dest: ServerId,
                          events: seq<Event>)
    requires Reachable(servers, s) && Enabled(s, StartHandoff(sid, rid, dest))
    requires var s1, k := Next(s, StartHandoff(sid, rid, dest)), s.sockets[sid].tcp.peer;
      Run(s1, events).Some? && LeftAlone(s1, events, k) && k in Run(s1, events).value.flows
    ensures var k := s.sockets[sid].tcp.peer;
      var s' := Run(Next(s, StartHandoff(sid, rid, dest)), events).value;
      match s'.flows[k].place
      case InMessage(mid) => mid in s'.messages && s'.messages[mid].dest == dest
      case InSocket(i) => i in s'.sockets && BoundFor(s'.sockets[i], dest)
  {
    hide Inv, ViewOf, FlowInv, Next, Wished, Subject, Heads;
    var k, e := s.sockets[sid].tcp.peer, StartHandoff(sid, rid, dest);
    ReachableInv(servers, s);
    var w := SomeWish(servers, s, k);
    NextHeads(s, e, k, w);
    NextInv(s, e);
    var s1 := Next(s, e);
    WishOfHandoff(s, e, w);
    var w1 := Wish(w.dialed, Some(dest));
    RunHeads(s1, events, k, w1);
    NoNewWish(s1, events, k, w1);
    RunInv(s1, events);
    HeadsSeen(Run(s1, events).value, k, w1);
  }

  lemma WishOfHandoff(s: State, e: Event, w: Wish)
    requires e.StartHandoff? && Enabled(s, e)
    ensures Subject(s, e) == s.sockets[e.sid].tcp.peer && Wished(w, e) == Wish(w.dialed, Some(e.dest))
  {
  }

  lemma SomeWish(servers: seq<Endpoint>, s: State, k: Key) returns (w: Wish)
    requires Reachable(servers, s)
    ensures Heads(ViewOf(s, k), w)
  {
    var events :| Run(Init(servers), events) == Some(s);
    InitInv(servers);
    RunHeads(Init(servers), events, k, Wish(0, None));
    w := LastWish(Init(servers), events, k, Wish(0, None));
  }

  lemma HeadsSeen(s: State, k: Key, w: Wish)
    requires Inv(s) && k in s.flows && Heads(ViewOf(s, k), w)
    ensures s.flows[k].dialed == w.dialed
    ensures match s.flows[k].place
      case InMessage(mid) => mid in s.messages && w.dest == Some(s.messages[mid].dest)
      case InSocket(sid) => sid in s.sockets && SocketHeads(s.sockets[sid], w)
  {
    hide Inv, ViewOf, FlowInv;
    HolderSeen(s, k);
    if s.flows[k].place.InMessage? {
      MessageHolds(s, s.flows[k].place.mid);
    }
  }

  /** The flow is read at a server, with all that had reached it before, and the
      other flows are as they were. */
  ghost predicate ReadAt(s: State, s': State, k: Key, server: ServerId)
  {
    && k in s.flows && Attended(s', k) && s'.sockets[s'.flows[k].place.sid].server == server
    && s'.flows[k].delivered == s.flows[k].delivered && OthersUntouched(s, s', k)
  }

  /** And it can get there: from the handoff on, enabled events of the flow alone
      bring it to the server that was asked for, which reads it. */
  lemma HandoffReaches(servers: seq<Endpoint>, s: State, sid: SocketId, rid: RequestId, dest: ServerId)
    requires Reachable(servers, s) && Enabled(s, StartHandoff(sid, rid, dest))
    ensures exists s' ::
      Leads(Next(s, StartHandoff(sid, rid, dest)), s') && ReadAt(s, s', s.sockets[sid].tcp.peer, dest)
  {
    hide Inv, FlowInv, Next, Leads, Attended, Distance, BeingClosed;
    var e, k := StartHandoff(sid, rid, dest), s.sockets[sid].tcp.peer;
    ReachableInv(servers, s);
    ReachableOn(servers, s, e);
    HandoffBegun(s, sid, rid, dest);
    hide ViewOf;
    HandoffCompletes(servers, Next(s, e), k);
  }

  lemma ReachableOn(servers: seq<Endpoint>, s: State, e: Event)
    requires Reachable(servers, s) && Enabled(s, e)
    ensures Reachable(servers, Next(s, e))
  {
    hide Next, Enabled;
    LeadsOn(Init(servers), s, e);
  }

  lemma HandoffBegun(s: State, sid: SocketId, rid: RequestId, dest: ServerId)
    requires Inv(s) && Enabled(s, StartHandoff(sid, rid, dest))
    ensures var k, s' := s.sockets[sid].tcp.peer, Next(s, StartHandoff(sid, rid, dest));
      && k in s.flows && k in s'.flows && s'.flows[k] == s.flows[k] && OthersUntouched(s, s', k)
      && !BeingClosed(ViewOf(s', k)) && Target(ViewOf(s', k)) == dest
  {
    hide ViewOf, Inv, FlowInv;
    SocketHolds(s, sid);
    FlowSeen(s, s.sockets[sid].tcp.peer);
    StartHandoffView(s, sid, rid, dest);
  }
}
