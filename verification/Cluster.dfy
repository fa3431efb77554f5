/** The callbacks of src/phttp_hoproto_export2.cpp, import2.cpp and close2.cpp,
    with the records they change, as one object.  Each method is proved to make
    exactly the step that `Handoff.Next` describes, and therefore to keep the
    invariant from which the whole-run theorems follow. */
module Cluster {
  import opened Bytes
  import opened Options
  import opened Switch
  import opened Handoff

  /** A record is erased. */
  function Removed<V>(records: map<nat, V>, id: nat): (r: map<nat, V>)
    ensures r == records - {id}
  {
    map i | i in records && i != id :: records[i]
  }

  /** What the callback of a reply changes. */
  lemma AckChanges(s: State, rid: RequestId)
    requires Inv(s) && Enabled(s, Ack(rid))
    ensures var p, s' := s.pending[rid], Next(s, Ack(rid));
      match p.callback
      case None => s' == s.(pending := s.pending - {rid})
      case Some(sid) =>
        && sid in s.sockets && (!p.req.Chown? ==> s.sockets[sid].phase.Locking?)
        && var sock := s.sockets[sid];
        && var phase := if p.req.Chown? then Reading else Exporting(sock.phase.dest, sock.tcp);
           s' == s.(pending := s.pending - {rid}, sockets := s.sockets[sid := sock.(phase := phase)])
  {
    hide FlowInv, ViewOf, Inv;
    if s.pending[rid].callback.Some? {
      CallbackFindsSocket(s, rid);
    }
  }

  lemma RealCloseChanges(s: State, sid: SocketId, rid: RequestId)
    requires Enabled(s, Event.AfterRealCloseImported(sid, rid))
    ensures var k := s.sockets[sid].tcp.peer;
      Next(s, Event.AfterRealCloseImported(sid, rid))
      == s.(sockets := s.sockets - {sid}, flows := s.flows - {k}, deleting := s.deleting[k := rid],
            pending := s.pending[rid := Pending(Delete(k), None, false)])
  {
  }

  class Cluster {
    const servers: seq<Endpoint>
    var switch: PrismSwitch
    var sockets: map<SocketId, Socket>
    var messages: map<MessageId, Message>
    var pending: map<RequestId, Pending>
    ghost var flows: map<Key, Flow>
    ghost var deleting: map<Key, RequestId>
    ghost var strays: nat

    ghost function Value(): State
      reads this, switch
    {
      State(servers, switch.rules, sockets, messages, pending, flows, deleting, strays)
    }

    constructor (servers: seq<Endpoint>)
      ensures Value() == Init(servers) && Inv(Value()) && fresh(switch)
    {
      this.servers := servers;
      switch := new PrismSwitch();
      sockets, messages, pending := map[], map[], map[];
      flows, deleting, strays := map[], map[], 0;
      new;
      InitInv(servers);
    }

    /** prism_switch_client_queue_task: the request is kept until its reply. */
    method QueueTask(req: Request, callback: Option<SocketId>, rid: RequestId)
      requires rid !in pending
      modifies this`pending
      ensures pending == old(pending)[rid := Pending(req, callback, false)]
    {
      pending := pending[rid := Pending(req, callback, false)];
    }

    method PhttpStartHandoff(sid: SocketId, rid: RequestId, dest: ServerId)
      requires Inv(Value()) && Enabled(Value(), StartHandoff(sid, rid, dest))
      modifies this
      ensures Value() == Next(old(Value()), StartHandoff(sid, rid, dest)) && Inv(Value())
      ensures switch == old(switch)
    {
      hide FlowInv, ViewOf, Inv, Switched, Receivers, Applied, MoveTo;
      NextInv(Value(), StartHandoff(sid, rid, dest));
      var hcs := sockets[sid];
      sockets := sockets[sid := hcs.(phase := Locking(dest, rid))];
      if hcs.imported {
        QueueTask(Lock(hcs.tcp.peer), Some(sid), rid);
      } else {
        var self := servers[hcs.server];
        QueueTask(Add(hcs.tcp.peer, self.addr, self.port, self, 1), Some(sid), rid);
      }
    }

    /** The datagram arrives at the switch. */
    method Configure(rid: RequestId)
      requires Inv(Value()) && Enabled(Value(), Apply(rid))
      modifies this, switch
      ensures Value() == Next(old(Value()), Apply(rid)) && Inv(Value())
      ensures switch == old(switch)
    {
      hide FlowInv, ViewOf, Inv, Switched, Receivers, Applied, MoveTo;
      NextInv(Value(), Apply(rid));
      var reply, error := switch.Configure(pending[rid].req, 0);
      pending := pending[rid := pending[rid].(applied := true)];
    }

    /** after_configure_switch: export, keep the snapshot, close the socket. */
    method AfterConfigureSwitch(sid: SocketId)
      requires sid in sockets && sockets[sid].phase.Locking?
      modifies this`sockets
      ensures sockets == old(sockets)[sid := old(sockets[sid]).(
                phase := Exporting(old(sockets[sid]).phase.dest, old(sockets[sid]).tcp))]
    {
      var hcs := sockets[sid];
      var exportData := hcs.tcp;
      sockets := sockets[sid := hcs.(phase := Exporting(hcs.phase.dest, exportData))];
    }

    /** after_change_owner: start reading and answer the peer. */
    method AfterChangeOwner(sid: SocketId)
      requires sid in sockets
      modifies this`sockets
      ensures sockets == old(sockets)[sid := old(sockets[sid]).(phase := Reading)]
    {
      sockets := sockets[sid := sockets[sid].(phase := Reading)];
    }

    /** on_recv of the switch client: run the callback and drop the request. */
    method OnRecv(rid: RequestId)
      requires Inv(Value()) && Enabled(Value(), Ack(rid))
      modifies this
      ensures Value() == Next(old(Value()), Ack(rid)) && Inv(Value())
      ensures switch == old(switch)
    {
      hide FlowInv, ViewOf, Inv, Next, Removed;
      NextInv(Value(), Ack(rid));
      AckChanges(Value(), rid);
      var conf := pending[rid];
      pending := Removed(pending, rid);
      if conf.callback.Some? {
        if conf.req.Chown? {
          AfterChangeOwner(conf.callback.value);
        } else {
          AfterConfigureSwitch(conf.callback.value);
        }
      }
    }

    method AfterClose(sid: SocketId)
      requires Inv(Value()) && Enabled(Value(), Event.AfterClose(sid))
      modifies this
      ensures Value() == Next(old(Value()), Event.AfterClose(sid)) && Inv(Value())
      ensures switch == old(switch)
    {
      hide FlowInv, ViewOf, Inv, Switched, Receivers, Applied, MoveTo;
      NextInv(Value(), Event.AfterClose(sid));
      var hcs := sockets[sid];
      sockets := sockets[sid := hcs.(phase := AwaitRealClose(hcs.phase.dest, hcs.phase.snapshot))];
    }

    /** after_real_close: the snapshot goes out to the chosen server, and
        nothing of the flow stays behind. */
    method AfterRealClose(sid: SocketId, mid: MessageId)
      requires Inv(Value()) && Enabled(Value(), Event.AfterRealClose(sid, mid))
      modifies this
      ensures Value() == Next(old(Value()), Event.AfterRealClose(sid, mid)) && Inv(Value())
      ensures switch == old(switch)
    {
      hide FlowInv, ViewOf, Inv, Switched, Receivers, Applied, Removed;
      NextInv(Value(), Event.AfterRealClose(sid, mid));
      var hcs := sockets[sid];
      messages := messages[mid := Message(hcs.phase.dest, hcs.phase.snapshot)];
      sockets := Removed(sockets, sid);
      flows := MoveTo(old(Value()), hcs.phase.snapshot.peer, InMessage(mid)).flows;
    }

    /** continue_import and start_change_owner. */
    method ContinueImport(mid: MessageId, sid: SocketId, rid: RequestId)
      requires Inv(Value()) && Enabled(Value(), Import(mid, sid, rid))
      modifies this
      ensures Value() == Next(old(Value()), Import(mid, sid, rid)) && switch == old(switch)
    {
      var req := messages[mid];
      messages := Removed(messages, mid);
      var self := servers[req.dest];
      var tcp := req.tcp;
      tcp := tcp.(selfAddr := self.addr);
      tcp := tcp.(selfPort := self.port);
      sockets := sockets[sid := Socket(req.dest, true, Owning(rid), tcp)];
      flows := MoveTo(old(Value()), tcp.peer, InSocket(sid)).flows;
      QueueTask(Chown(tcp.peer, self, 1), Some(sid), rid);
    }

    method ForwardProtoStates(mid: MessageId, mid': MessageId, dest: ServerId)
      requires Inv(Value()) && Enabled(Value(), Forward(mid, mid', dest))
      modifies this
      ensures Value() == Next(old(Value()), Forward(mid, mid', dest)) && switch == old(switch)
    {
      var req := messages[mid];
      messages := Removed(messages, mid);
      messages := messages[mid' := Message(dest, req.tcp)];
      flows := MoveTo(old(Value()), req.tcp.peer, InMessage(mid')).flows;
    }

    /** phttp_on_handoff, for a message whose request the application answered
        with `status`: up to 500 the connection is imported, 600 passes it on. */
    method PhttpOnHandoff(mid: MessageId, status: nat, dest: ServerId, mid': MessageId, sid: SocketId, rid: RequestId)
      requires status <= 500 || status == 600
      requires Inv(Value())
      requires Enabled(Value(), if status <= 500 then Import(mid, sid, rid) else Forward(mid, mid', dest))
      modifies this
      ensures Value() == Next(old(Value()), if status <= 500 then Import(mid, sid, rid) else Forward(mid, mid', dest))
      ensures Inv(Value()) && switch == old(switch)
    {
      hide FlowInv, ViewOf, Inv, Switched, Receivers, Applied, MoveTo;
      NextInv(Value(), if status <= 500 then Import(mid, sid, rid) else Forward(mid, mid', dest));
      if status <= 500 {
        ContinueImport(mid, sid, rid);
      } else {
        ForwardProtoStates(mid, mid', dest);
      }
    }

    method PhttpStartClose(sid: SocketId)
      requires Inv(Value()) && Enabled(Value(), StartClose(sid))
      modifies this
      ensures Value() == Next(old(Value()), StartClose(sid)) && Inv(Value())
      ensures switch == old(switch)
    {
      hide FlowInv, ViewOf, Inv, Switched, Receivers, Applied, MoveTo;
      NextInv(Value(), StartClose(sid));
      sockets := sockets[sid := sockets[sid].(phase := Closing)];
    }

    method AfterCloseImported(sid: SocketId)
      requires Inv(Value()) && Enabled(Value(), Event.AfterCloseImported(sid))
      modifies this
      ensures Value() == Next(old(Value()), Event.AfterCloseImported(sid)) && Inv(Value())
      ensures switch == old(switch)
    {
      hide FlowInv, ViewOf, Inv, Switched, Receivers, Applied, MoveTo;
      NextInv(Value(), Event.AfterCloseImported(sid));
      sockets := sockets[sid := sockets[sid].(phase := AwaitRealCloseImported)];
    }

    /** after_real_close_imported: the rule goes, and nobody waits for the reply. */
    method AfterRealCloseImported(sid: SocketId, rid: RequestId)
      requires Inv(Value()) && Enabled(Value(), Event.AfterRealCloseImported(sid, rid))
      modifies this
      ensures Value() == Next(old(Value()), Event.AfterRealCloseImported(sid, rid)) && Inv(Value())
      ensures switch == old(switch)
    {
      hide FlowInv, ViewOf, Inv, Next, Removed;
      NextInv(Value(), Event.AfterRealCloseImported(sid, rid));
      RealCloseChanges(Value(), sid, rid);
      var k := sockets[sid].tcp.peer;
      QueueTask(Delete(k), None, rid);
      sockets := Removed(sockets, sid);
      flows, deleting := flows - {k}, deleting[k := rid];
    }
  }
}
