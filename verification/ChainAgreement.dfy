/** When the servers of the replicated key-value store come to agree: exactly if no
    two workers write different values to a path. */
module ChainAgreement {
  import opened Bytes
  import opened Options
  import opened KvsRepl

  function Lookup(db: Store, path: Path): Option<Value> { if path in db then Some(db[path]) else None }

  /** No PUT is on its way to a server. */
  ghost predicate Quiet(c: Chain)
  {
    forall w: nat, i: nat :: i < c.n ==> Link(c, w, i) == []
  }

  lemma {:induction false} QuietHistories(n: nat, c: Chain, worker: nat, server: nat)
    requires Reachable(n, c) && c.failures == 0 && Quiet(c) && server < c.n
    ensures Of(worker, HistoryOf(c, server)) == Of(worker, HistoryOf(c, 0))
    decreases server
  {
    hide Reachable, Of, Subsequence, Link, HistoryOf;
    if server > 0 {
      ChainLag(n, c, worker, server - 1);
      assert Link(c, worker, server) == [];
      QuietHistories(n, c, worker, server - 1);
    }
  }

  /** A run leads from one state to another. */
  ghost predicate Leads(c: Chain, d: Chain)
  {
    exists events :: Run(c, events) == Some(d)
  }

  lemma {:induction false} RunAppend(c: Chain, first: seq<Event>, rest: seq<Event>)
    requires Run(c, first).Some?
    ensures Run(c, first + rest) == Run(Run(c, first).value, rest)
    decreases |first|
  {
    if first == [] {
      assert first + rest == rest;
    } else {
      assert (first + rest)[1..] == first[1..] + rest;
      RunAppend(Next(c, first[0]), first[1..], rest);
    }
  }

  lemma LeadsOn(c: Chain, d: Chain, e: Event)
    requires Leads(c, d) && Enabled(d, e)
    ensures Leads(c, Next(d, e))
  {
    var events :| Run(c, events) == Some(d);
    RunAppend(c, events, [e]);
    assert [e][1..] == [];
    assert Run(d, [e]) == Run(Next(d, e), []);
    assert Run(c, events + [e]) == Some(Next(d, e));
  }

  /** A PUT that is alone on its worker's links goes down the rest of the chain
      and is acknowledged. */
  lemma {:induction false} Travel(start: Chain, c: Chain, w: nat, i: nat, put: Put) returns (c': Chain)
    requires Leads(start, c)
    requires i < c.n && put.body != []
    requires forall j: nat :: i <= j < c.n ==> Link(c, w, j) == if j == i then [put] else []
    ensures Leads(start, c')
    ensures c'.n == c.n && c'.submitted == c.submitted && c'.failures == c.failures
    ensures c'.answers == c.answers[put.id := 200]
    ensures forall v: nat, j: nat :: Link(c', v, j) == if v == w && i <= j < c.n then [] else Link(c, v, j)
    ensures forall j: nat :: HistoryOf(c', j) == if i <= j < c.n then HistoryOf(c, j) + [put] else HistoryOf(c, j)
    decreases c.n - i
  {
    hide Next, Link, HistoryOf, StoreOf, Leads;
    assert Link(c, w, i) == [put];
    assert Enabled(c, Deliver(w, i, DbOk));
    c' := Next(c, Deliver(w, i, DbOk));
    DeliverFrame(c, w, i, DbOk);
    Delivered(c, w, i, DbOk);
    LeadsOn(start, c, Deliver(w, i, DbOk));
    if i + 1 < c.n {
      c' := Travel(start, c', w, i + 1, put);
    }
  }

  /** Two more PUTs through different workers, both applied by the head only. */
  lemma BothAtHead(start: Chain, before: Chain, p: Put, q: Put) returns (c: Chain)
    requires Leads(start, before) && Quiet(before) && before.n >= 2
    requires p.id !in before.submitted && q.id !in before.submitted && p.id != q.id
    requires p.worker != q.worker && p.body != [] && q.body != []
    ensures Leads(start, c) && c.n == before.n && c.failures == before.failures && c.answers == before.answers
    ensures c.submitted == before.submitted[p.id := p][q.id := q]
    ensures forall j: nat :: HistoryOf(c, j) == HistoryOf(before, j) + if j == 0 then [p, q] else []
    ensures forall v: nat, j: nat :: j < c.n ==>
      Link(c, v, j) == if (v, j) == (p.worker, 1) then [p] else if (v, j) == (q.worker, 1) then [q] else []
  {
    hide Next, Link, HistoryOf, StoreOf, Leads;
    var head: nat := 0;
    assert Link(before, p.worker, head) == [] && Link(before, q.worker, head) == [];
    LeadsOn(start, before, Submit(p));
    SubmitFrame(before, p);
    c := Next(before, Submit(p));
    LeadsOn(start, c, Submit(q));
    SubmitFrame(c, q);
    c := Next(c, Submit(q));
    c := HeadApplies(start, c, p);
    c := HeadApplies(start, c, q);
  }

  /** The head applies the one PUT on its link and passes it on. */
  lemma HeadApplies(start: Chain, before: Chain, put: Put) returns (c: Chain)
    requires Leads(start, before) && before.n >= 2 && put.body != []
    requires Link(before, put.worker, 0) == [put]
    ensures Leads(start, c) && c.n == before.n && c.failures == before.failures && c.answers == before.answers
    ensures c.submitted == before.submitted
    ensures forall j: nat :: HistoryOf(c, j) == if j == 0 then HistoryOf(before, j) + [put] else HistoryOf(before, j)
    ensures forall v: nat, j: nat ::
      Link(c, v, j) == if (v, j) == (put.worker, 0) then [] else
                       if (v, j) == (put.worker, 1) then Link(before, v, j) + [put] else Link(before, v, j)
  {
    hide Next, Link, HistoryOf, StoreOf, Leads;
    LeadsOn(start, before, Deliver(put.worker, 0, DbOk));
    DeliverFrame(before, put.worker, 0, DbOk);
    Delivered(before, put.worker, 0, DbOk);
    c := Next(before, Deliver(put.worker, 0, DbOk));
  }

  lemma StartFrame(n: nat)
    ensures Leads(Start(n), Start(n))
    ensures forall j: nat :: HistoryOf(Start(n), j) == []
    ensures forall v: nat, j: nat :: Link(Start(n), v, j) == []
  {
    assert Run(Start(n), []) == Some(Start(n));
  }

  /** What the head keeps for good, and every other server differently. */
  ghost predicate Diverged(c: Chain, path: Path, head: Value, others: Value)
  {
    && Lookup(StoreOf(c, 0), path) == Some(head)
    && forall i: nat :: 0 < i < c.n ==> Lookup(StoreOf(c, i), path) == Some(others)
  }

  lemma LeadsReaches(n: nat, c: Chain)
    requires Leads(Start(n), c)
    ensures Reachable(n, c)
  {
  }

  lemma LastRead(c: Chain, server: nat, before: seq<Put>, last: Put)
    requires Inv(c) && server < c.n && HistoryOf(c, server) == before + [last]
    ensures Lookup(StoreOf(c, server), last.path) == Some(last.body)
  {
    assert HistoryOk(c, server);
    ReplayNext(before, last);
  }

  /** PUTs that nobody else interferes with, served one after the other. */
  lemma {:induction false} AllServed(n: nat, puts: map<nat, Put>) returns (c: Chain)
    requires n > 0 && Numbered(puts)
    ensures Leads(Start(n), c) && Quiet(c) && c.n == n && c.failures == 0 && c.submitted == puts
    decreases |puts|
  {
    hide Next, Link, HistoryOf, StoreOf, Leads;
    if puts == map[] {
      c := Start(n);
      StartFrame(n);
    } else {
      var id :| id in puts;
      assert puts == (puts - {id})[id := puts[id]];
      c := AllServed(n, puts - {id});
      c := OneServed(Start(n), c, puts[id]);
    }
  }

  lemma OneServed(start: Chain, before: Chain, put: Put) returns (c: Chain)
    requires Leads(start, before) && Quiet(before) && before.n > 0 && put.id !in before.submitted
    ensures Leads(start, c) && Quiet(c) && c.n == before.n && c.failures == before.failures
    ensures c.submitted == before.submitted[put.id := put]
  {
    hide Next, Link, HistoryOf, StoreOf, Leads;
    var head: nat := 0;
    assert Link(before, put.worker, head) == [];
    LeadsOn(start, before, Submit(put));
    SubmitFrame(before, put);
    c := Next(before, Submit(put));
    if put.body == [] {
      LeadsOn(start, c, Deliver(put.worker, 0, DbOk));
      DeliverFrame(c, put.worker, 0, DbOk);
      c := Next(c, Deliver(put.worker, 0, DbOk));
    } else {
      c := Travel(start, c, put.worker, 0, put);
    }
  }

  /** Each PUT is recorded under its own number. */
  predicate Numbered(puts: map<nat, Put>)
  {
    forall id :: id in puts ==> puts[id].id == id
  }

  /** Two PUTs that write different values to a path, through different workers. */
  predicate Rivals(p: Put, q: Put, path: Path)
  {
    p.path == path == q.path && p.body != [] && q.body != [] && p.body != q.body && p.worker != q.worker
  }

  ghost predicate Conflict(puts: map<nat, Put>, path: Path)
  {
    exists i, j :: i in puts && j in puts && Rivals(puts[i], puts[j], path)
  }

  ghost predicate Agree(c: Chain, path: Path)
  {
    forall i: nat :: i < c.n ==> Lookup(StoreOf(c, i), path) == Lookup(StoreOf(c, 0), path)
  }

  /** Every PUT was acknowledged or refused without a failure, and none is on
      its way. */
  ghost predicate Settled(n: nat, c: Chain, puts: map<nat, Put>)
  {
    Reachable(n, c) && Quiet(c) && c.failures == 0 && c.submitted == puts
  }

  /** Whatever else is submitted, two rivals can both be acknowledged and leave
      the head with the one value and every other server with the other. */
  lemma StoresDiverge(n: nat, puts: map<nat, Put>, i: nat, j: nat, path: Path)
    requires n >= 2 && Numbered(puts) && i in puts && j in puts && Rivals(puts[i], puts[j], path)
    ensures exists c ::
      && Settled(n, c, puts) && c.n == n
      && i in c.answers && c.answers[i] == 200 && j in c.answers && c.answers[j] == 200
      && Diverged(c, path, puts[j].body, puts[i].body)
  {
    hide Next, Link, HistoryOf, StoreOf, Leads, Replay, Reachable;
    var p, q := puts[i], puts[j];
    var others: map<nat, Put> := puts - {i, j};
    var c0 := AllServed(n, others);
    var all: map<nat, Put> := others[p.id := p][q.id := q];
    assert all == puts;
    var c1 := BothAtHead(Start(n), c0, p, q);
    var c2 := Travel(Start(n), c1, q.worker, 1, q);
    var c := Travel(Start(n), c2, p.worker, 1, p);
    LeadsReaches(n, c);
    ReachableInv(n, c);
    hide Inv;
    forall k: nat | k < n ensures Lookup(StoreOf(c, k), path) == Some(if k == 0 then q.body else p.body) {
      var had := HistoryOf(c0, k);
      if k == 0 {
        assert HistoryOf(c, k) == had + [p, q] == (had + [p]) + [q];
        LastRead(c, k, had + [p], q);
      } else {
        LastRead(c, k, had + [] + [q], p);
      }
    }
  }

  lemma DivergedDisagree(c: Chain, path: Path, head: Value, others: Value)
    requires Diverged(c, path, head, others) && c.n >= 2 && head != others
    ensures !Agree(c, path)
  {
    var successor: nat := 1;
    assert Lookup(StoreOf(c, successor), path) == Some(others);
  }

  /** The worker that wrote a path last decides what is read. */
  lemma {:induction false} LastWorkerDecides(puts: seq<Put>, path: Path)
    requires LastPut(puts, path) >= 0
    ensures var last := puts[LastPut(puts, path)];
      Lookup(Replay(Of(last.worker, puts)), path) == Lookup(Replay(puts), path) == Some(last.body)
    decreases |puts|
  {
    var init, last := puts[..|puts| - 1], puts[|puts| - 1];
    if last.path == path {
      ReplayNext(Of(last.worker, init), last);
    } else {
      LastWorkerDecides(init, path);
      var w := init[LastPut(init, path)].worker;
      ReplayNext(Of(w, init), last);
    }
  }

  /** What nobody has written, no worker has. */
  lemma {:induction false} NobodyWrote(puts: seq<Put>, path: Path, worker: nat)
    requires LastPut(puts, path) < 0
    ensures Lookup(Replay(Of(worker, puts)), path) == None
    decreases |puts|
  {
    if puts != [] {
      var init, last := puts[..|puts| - 1], puts[|puts| - 1];
      NobodyWrote(init, path, worker);
      ReplayNext(Of(worker, init), last);
    }
  }

  /** Two histories in which each worker has the same PUTs in the same order. */
  ghost predicate SameByWorker(a: seq<Put>, b: seq<Put>)
  {
    forall w: nat :: Of(w, a) == Of(w, b)
  }

  lemma HistoriesAgree(a: seq<Put>, b: seq<Put>, path: Path)
    requires SameByWorker(a, b)
    requires forall p, q :: p in a && q in b ==> !Rivals(p, q, path)
    requires (forall p :: p in a ==> p.body != []) && (forall q :: q in b ==> q.body != [])
    ensures Lookup(Replay(a), path) == Lookup(Replay(b), path)
  {
    hide Of, Replay;
    var k, m := LastPut(a, path), LastPut(b, path);
    ReplayIsLastPut(a, path);
    ReplayIsLastPut(b, path);
    if k >= 0 {
      LastWorkerDecides(a, path);
      if m < 0 { NobodyWrote(b, path, a[k].worker); }
    }
    if m >= 0 {
      LastWorkerDecides(b, path);
      if k < 0 { NobodyWrote(a, path, b[m].worker); }
    }
    if k >= 0 && m >= 0 {
      assert !Rivals(a[k], b[m], path);
    }
  }

  /** In every run without failed writes and once no PUT is on its way, all
      servers answer alike for a path without rivals. */
  lemma StoresAgree(n: nat, c: Chain, path: Path, server: nat)
    requires Settled(n, c, c.submitted) && server < c.n && !Conflict(c.submitted, path)
    ensures Lookup(StoreOf(c, server), path) == Lookup(StoreOf(c, 0), path)
  {
    hide Of, Replay, Quiet, Reachable, PairOk, LinkOk, HistoryOf, StoreOf, Rivals, LastPut;
    ReachableInv(n, c);
    var head: nat := 0;
    var a, b := HistoryOf(c, server), HistoryOf(c, head);
    assert HistoryOk(c, server) && HistoryOk(c, head);
    forall w: nat ensures Of(w, a) == Of(w, b) {
      QuietHistories(n, c, w, server);
    }
    forall p, q | p in a && q in b ensures !Rivals(p, q, path) {
      assert Submitted(c, p) && Submitted(c, q);
    }
    HistoriesAgree(a, b, path);
  }

  lemma {:induction false} RunKeepsLength(c: Chain, events: seq<Event>)
    ensures Run(c, events).Some? ==> Run(c, events).value.n == c.n
    decreases |events|
  {
    if events != [] && Enabled(c, events[0]) {
      RunKeepsLength(Next(c, events[0]), events[1..]);
    }
  }

  lemma ReachableLength(n: nat, c: Chain)
    requires Reachable(n, c)
    ensures c.n == n
  {
    var events :| Run(Start(n), events) == Some(c);
    RunKeepsLength(Start(n), events);
  }

  /** So the servers of a chain agree on a path after every run of the submitted
      PUTs if and only if there are no rivals among these, or no second server. */
  lemma AgreementExactly(n: nat, puts: map<nat, Put>, path: Path)
    requires Numbered(puts)
    ensures (forall c :: Settled(n, c, puts) ==> Agree(c, path)) <==> n < 2 || !Conflict(puts, path)
  {
    hide Settled, StoreOf, Rivals;
    if n < 2 || !Conflict(puts, path) {
      forall c | Settled(n, c, puts) ensures Agree(c, path) {
        SettledParts(n, c, puts);
        forall i: nat | i < c.n ensures Lookup(StoreOf(c, i), path) == Lookup(StoreOf(c, 0), path) {
          if n >= 2 {
            StoresAgree(n, c, path, i);
          }
        }
      }
    } else {
      var i, j :| i in puts && j in puts && Rivals(puts[i], puts[j], path);
      StoresDiverge(n, puts, i, j, path);
      var c :| Settled(n, c, puts) && c.n == n && Diverged(c, path, puts[j].body, puts[i].body);
      RivalsDiffer(puts[i], puts[j], path);
      DivergedDisagree(c, path, puts[j].body, puts[i].body);
    }
  }

  lemma SettledParts(n: nat, c: Chain, puts: map<nat, Put>)
    requires Settled(n, c, puts)
    ensures Settled(n, c, c.submitted) && c.submitted == puts && c.n == n
  {
    ReachableLength(n, c);
  }

  lemma RivalsDiffer(p: Put, q: Put, path: Path)
    requires Rivals(p, q, path)
    ensures p.body != q.body
  {
  }
}
