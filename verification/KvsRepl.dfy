/** The replicated key-value store of src/apps/kvs-repl: a proxy, and a chain of
    servers each of which applies a PUT before it passes it on. */
module KvsRepl {
  import opened Bytes
  import opened Options

  type Path = seq<byte>
  type Value = seq<byte>
  type Store = map<Path, Value>

  datatype Request = Request(verb: string, path: Path, body: Value)

  /** A status of 600 asks for a handoff to `dest`; which connection of a pool
      that is, is an index. */
  datatype Dest = NoDest | Pool(index: nat) | NextServer

  datatype Response = Response(status: nat, dest: Dest, body: Value)

  /** What the database library reports for one call. */
  datatype DbStatus = DbOk | DbNotFound | DbError

  predicate StartsWith(s: string, prefix: string)
  {
    |s| >= |prefix| && s[..|prefix|] == prefix
  }

  function Answer(status: nat): Response { Response(status, NoDest, []) }

  // ---------------------------------------------------------------------
  // One server

  /** The reply to a handed-off request. */
  function Served(db: Store, hasNext: bool, req: Request, db_: DbStatus): Response
  {
    if StartsWith(req.verb, "GET") then
      if db_.DbError? then Answer(500)
      else if req.path !in db then Answer(404)
      else Response(200, NoDest, db[req.path])
    else if StartsWith(req.verb, "PUT") then
      if req.body == [] then Answer(400)
      else if !db_.DbOk? then Answer(500)
      else if hasNext then Response(600, NextServer, []) else Answer(200)
    else if StartsWith(req.verb, "DELETE") then
      if !db_.DbOk? then Answer(500) else Answer(204)
    else Answer(405)
  }

  function Stored(db: Store, req: Request, db_: DbStatus): Store
  {
    if StartsWith(req.verb, "GET") || !db_.DbOk? then db
    else if StartsWith(req.verb, "PUT") then (if req.body == [] then db else db[req.path := req.body])
    else if StartsWith(req.verb, "DELETE") then db - {req.path}
    else db
  }

  function Erased(db: Store, path: Path): (r: Store)
    ensures r == db - {path}
  {
    map k | k in db && k != path :: db[k]
  }

  lemma RoundRobin(k: nat, n: nat)
    requires k < n
    ensures (k + 1) % n == if k + 1 == n then 0 else k + 1
  {
  }

  class Backend {
    var db: Store
    var rrFactor: nat
    const nconnection: nat
    const hasNext: bool

    predicate Valid()
      reads this
    {
      rrFactor < nconnection
    }

    constructor (nconnection: nat, hasNext: bool)
      requires nconnection > 0
      ensures Valid() && db == map[] && rrFactor == 0 && this.nconnection == nconnection && this.hasNext == hasNext
    {
      db, rrFactor := map[], 0;
      this.nconnection, this.hasNext := nconnection, hasNext;
    }

    /** kvs_backend_request_handler.  A request that comes straight from a
        client is handed to the proxy, round robin over the connection pool. */
    method Handle(req: Request, imported: bool, outcome: DbStatus) returns (res: Response)
      requires Valid()
      modifies this
      ensures Valid()
      ensures !imported ==> res == Response(600, Pool(old(rrFactor)), []) && db == old(db)
                            && rrFactor == (old(rrFactor) + 1) % nconnection
      ensures imported ==> res == Served(old(db), hasNext, req, outcome) && db == Stored(old(db), req, outcome)
                           && rrFactor == old(rrFactor)
    {
      hide StartsWith;
      if !imported {
        RoundRobin(rrFactor, nconnection);
        res := Response(600, Pool(rrFactor), []);
        rrFactor := rrFactor + 1;
        if rrFactor == nconnection {
          rrFactor := 0;
        }
        return;
      }
      if StartsWith(req.verb, "GET") {
        if outcome.DbError? {
          return Answer(500);
        }
        if req.path !in db {
          return Answer(404);
        }
        return Response(200, NoDest, db[req.path]);
      }
      if StartsWith(req.verb, "PUT") {
        if req.body == [] {
          return Answer(400);
        }
        if !outcome.DbOk? {
          return Answer(500);
        }
        db := db[req.path := req.body];
        if hasNext {
          return Response(600, NextServer, []);
        }
        return Answer(200);
      }
      if StartsWith(req.verb, "DELETE") {
        if !outcome.DbOk? {
          return Answer(500);
        }
        db := Erased(db, req.path);
        return Answer(204);
      }
      return Answer(405);
    }
  }

  lemma PutIsPut(verb: string)
    requires StartsWith(verb, "PUT")
    ensures !StartsWith(verb, "GET") && !StartsWith(verb, "DELETE")
  {
    assert verb[0] == verb[..3][0] == 'P';
    assert "GET"[0] == 'G' && "DELETE"[0] == 'D';
  }

  /** kvs_proxy_request_handler: GETs go round the servers, PUTs to the head of
      the chain.  Any other method leaves the response as it was initialised. */
  class Proxy {
    var rrFactor: nat
    const nbackends: nat

    predicate Valid()
      reads this
    {
      rrFactor < nbackends
    }

    constructor (nbackends: nat)
      requires nbackends > 0
      ensures Valid() && rrFactor == 0 && this.nbackends == nbackends
    {
      rrFactor := 0;
      this.nbackends := nbackends;
    }

    method Handle(req: Request, init: Response) returns (res: Response)
      requires Valid()
      modifies this
      ensures Valid()
      ensures StartsWith(req.verb, "GET") ==>
        res == init.(status := 600, dest := Pool(old(rrFactor))) && rrFactor == (old(rrFactor) + 1) % nbackends
      ensures !StartsWith(req.verb, "GET") ==> rrFactor == old(rrFactor)
      ensures StartsWith(req.verb, "PUT") ==> res == init.(status := 600, dest := Pool(0))
      ensures !StartsWith(req.verb, "GET") && !StartsWith(req.verb, "PUT") ==> res == init
    {
      hide StartsWith;
      if StartsWith(req.verb, "PUT") {
        PutIsPut(req.verb);
      }
      RoundRobin(rrFactor, nbackends);
      res := init;
      if StartsWith(req.verb, "GET") {
        res := res.(status := 600);
        res := res.(dest := Pool(rrFactor));
        rrFactor := rrFactor + 1;
        if rrFactor == nbackends {
          rrFactor := 0;
        }
        return;
      }
      if StartsWith(req.verb, "PUT") {
        res := res.(status := 600);
        res := res.(dest := Pool(0));
        return;
      }
    }
  }

  // ---------------------------------------------------------------------
  // The chain

  /** A PUT on its way: `worker` is the thread that carries it on every server,
      since each thread connects to the one with its own number. */
  datatype Put = Put(id: nat, worker: nat, path: Path, body: Value)

  datatype Chain = Chain(
    n: nat,                                    // the number of servers
    stores: map<nat, Store>,
    history: map<nat, seq<Put>>,               // the PUTs each server has applied
    links: map<(nat, nat), seq<Put>>,          // (worker, server): handoffs not yet read
    answers: map<nat, nat>,                    // PUT id to status
    submitted: map<nat, Put>,                  // the PUTs of the clients, by id
    failures: nat)                             // database writes that failed

  datatype Event =
    | Submit(put: Put)                              // the proxy hands a client's PUT to the head
    | Deliver(worker: nat, server: nat, outcome: DbStatus)

  function Start(n: nat): Chain
  {
    Chain(n, map[], map[], map[], map[], map[], 0)
  }

  function Link(c: Chain, worker: nat, server: nat): seq<Put>
  {
    if (worker, server) in c.links then c.links[(worker, server)] else []
  }

  function HistoryOf(c: Chain, server: nat): seq<Put>
  {
    if server in c.history then c.history[server] else []
  }

  function StoreOf(c: Chain, server: nat): Store
  {
    if server in c.stores then c.stores[server] else map[]
  }

  predicate Enabled(c: Chain, e: Event)
  {
    match e
    case Submit(put) => c.n > 0 && put.id !in c.submitted
    case Deliver(worker, server, _) => server < c.n && Link(c, worker, server) != []
  }

  function AsRequest(put: Put): Request { Request("PUT", put.path, put.body) }

  /** What the response of one server does to the chain. */
  function Next(c: Chain, e: Event): Chain
    requires Enabled(c, e)
  {
    match e
    case Submit(put) =>
      c.(links := c.links[(put.worker, 0) := Link(c, put.worker, 0) + [put]], submitted := c.submitted[put.id := put])
    case Deliver(worker, server, outcome) =>
      var put := Link(c, worker, server)[0];
      var res := Served(StoreOf(c, server), server + 1 < c.n, AsRequest(put), outcome);
      var c1 := c.(links := c.links[(worker, server) := Link(c, worker, server)[1..]],
                   stores := c.stores[server := Stored(StoreOf(c, server), AsRequest(put), outcome)]);
      var c2 := if res.status == 500 then c1.(failures := c1.failures + 1)
                else if res.status == 400 then c1
                else c1.(history := c1.history[server := HistoryOf(c1, server) + [put]]);
      if res.status == 600 then c2.(links := c2.links[(worker, server + 1) := Link(c2, worker, server + 1) + [put]])
      else c2.(answers := c2.answers[put.id := res.status])
  }

  function Run(c: Chain, events: seq<Event>): Option<Chain>
    decreases |events|
  {
    if events == [] then Some(c)
    else if Enabled(c, events[0]) then Run(Next(c, events[0]), events[1..])
    else None
  }

  ghost predicate Reachable(n: nat, c: Chain)
  {
    exists events :: Run(Start(n), events) == Some(c)
  }

  /** The PUTs of one worker. */
  function Of(worker: nat, puts: seq<Put>): seq<Put>
  {
    if puts == [] then [] else
    var init, last := Of(worker, puts[..|puts| - 1]), puts[|puts| - 1];
    if last.worker == worker then init + [last] else init
  }

  predicate Subsequence(a: seq<Put>, b: seq<Put>)
  {
    if a == [] then true
    else if b == [] then false
    else if a[0] == b[0] then Subsequence(a[1..], b[1..])
    else Subsequence(a, b[1..])
  }

  function Replay(puts: seq<Put>): Store
  {
    if puts == [] then map[] else
    var last := puts[|puts| - 1];
    Replay(puts[..|puts| - 1])[last.path := last.body]
  }

  lemma OfOne(worker: nat, puts: seq<Put>, put: Put)
    ensures Of(worker, puts + [put]) == if put.worker == worker then Of(worker, puts) + [put] else Of(worker, puts)
  {
    assert (puts + [put])[..|puts|] == puts;
  }

  lemma {:induction false} SubsequenceBoth(a: seq<Put>, b: seq<Put>, x: Put)
    requires Subsequence(a, b)
    ensures Subsequence(a + [x], b + [x])
    decreases |b|
  {
    if b == [] {
      assert a + [x] == [x] && b + [x] == [x];
      assert [x][1..] == [];
    } else {
      assert (b + [x])[1..] == b[1..] + [x];
      if a == [] {
        SubsequenceBoth(a, b[1..], x);
        if b[0] == x { assert (a + [x])[1..] == []; }
      } else {
        assert (a + [x])[1..] == a[1..] + [x];
        SubsequenceBoth(if a[0] == b[0] then a[1..] else a, b[1..], x);
      }
    }
  }

  lemma {:induction false} SubsequenceTail(a: seq<Put>, b: seq<Put>)
    requires a != [] && Subsequence(a, b)
    ensures Subsequence(a[1..], b)
  {
    if a[0] == b[0] {
      if |a| > 1 && a[1] == b[0] {
        SubsequenceTail(a[1..], b[1..]);
      }
    } else {
      SubsequenceTail(a, b[1..]);
      if |a| > 1 && a[1] == b[0] {
        SubsequenceTail(a[1..], b[1..]);
      }
    }
  }

  lemma {:induction false} SubsequenceDrop(a: seq<Put>, x: Put, c: seq<Put>, b: seq<Put>)
    requires Subsequence(a + [x] + c, b)
    ensures Subsequence(a + c, b)
    decreases |b|
  {
    if a == [] {
      assert a + [x] + c == [x] + c && ([x] + c)[1..] == c && a + c == c;
      SubsequenceTail(a + [x] + c, b);
    } else {
      assert (a + [x] + c)[1..] == a[1..] + [x] + c && (a + c)[1..] == a[1..] + c;
      if a[0] == b[0] {
        SubsequenceDrop(a[1..], x, c, b[1..]);
      } else {
        SubsequenceDrop(a, x, c, b[1..]);
      }
    }
  }

  // ---------------------------------------------------------------------
  // The invariant

  /** What a server has applied for a worker, and what is about to reach it. */
  function Received(c: Chain, worker: nat, server: nat): seq<Put>
  {
    Of(worker, HistoryOf(c, server)) + Link(c, worker, server)
  }

  ghost predicate PairOk(c: Chain, worker: nat, server: nat)
  {
    var up := Of(worker, HistoryOf(c, server));
    var down := Received(c, worker, server + 1);
    Subsequence(down, up) && (c.failures == 0 ==> down == up)
  }

  /** A PUT is as its client submitted it. */
  predicate Submitted(c: Chain, put: Put) { put.id in c.submitted && c.submitted[put.id] == put }

  ghost predicate HistoryOk(c: Chain, server: nat)
  {
    && (forall p :: p in HistoryOf(c, server) ==> Submitted(c, p) && p.body != [])
    && StoreOf(c, server) == Replay(HistoryOf(c, server))
  }

  ghost predicate LinkOk(c: Chain, worker: nat, server: nat)
  {
    forall p :: p in Link(c, worker, server) ==>
      && p.worker == worker
      && Submitted(c, p)
      && (server > 0 ==> p.body != [])
      && (forall j :: 0 <= j < server ==> p in HistoryOf(c, j))
  }

  ghost predicate AppliedEverywhere(c: Chain, id: nat)
  {
    id in c.submitted && forall j :: 0 <= j < c.n ==> c.submitted[id] in HistoryOf(c, j)
  }

  ghost predicate Inv(c: Chain)
  {
    && (forall i: nat, w: nat :: i + 1 < c.n ==> PairOk(c, w, i))
    && (forall i: nat, w: nat :: i < c.n ==> LinkOk(c, w, i))
    && (forall i: nat :: i < c.n ==> HistoryOk(c, i))
    && (forall id :: id in c.answers && c.answers[id] == 200 ==> AppliedEverywhere(c, id))
  }

  lemma StartInv(n: nat)
    ensures Inv(Start(n))
  {
    var c := Start(n);
    forall i: nat, w: nat | i + 1 < n ensures PairOk(c, w, i) {
      assert HistoryOf(c, i) == [] && HistoryOf(c, i + 1) == [] && Link(c, w, i + 1) == [];
    }
  }

  lemma SubmitFrame(c: Chain, put: Put)
    requires Enabled(c, Submit(put))
    ensures var c' := Next(c, Submit(put));
      && c'.n == c.n && c'.submitted == c.submitted[put.id := put]
      && c'.answers == c.answers && c'.failures == c.failures
      && (forall j: nat :: HistoryOf(c', j) == HistoryOf(c, j) && StoreOf(c', j) == StoreOf(c, j))
      && (forall v: nat, j: nat ::
            Link(c', v, j) == if (v, j) == (put.worker, 0) then Link(c, put.worker, 0) + [put] else Link(c, v, j))
  {
  }

  lemma SubmitInv(c: Chain, put: Put)
    requires Inv(c) && Enabled(c, Submit(put))
    ensures Inv(Next(c, Submit(put)))
  {
    hide Of, Subsequence, Replay, Next, Link, HistoryOf, StoreOf;
    var c' := Next(c, Submit(put));
    SubmitFrame(c, put);
    assert forall p :: Submitted(c, p) ==> Submitted(c', p);
    forall i: nat, w: nat | i + 1 < c.n ensures PairOk(c', w, i) {
      assert PairOk(c, w, i);
    }
    forall i: nat, w: nat | i < c.n ensures LinkOk(c', w, i) {
      assert LinkOk(c, w, i);
    }
    forall i: nat | i < c.n ensures HistoryOk(c', i) {
      assert HistoryOk(c, i);
    }
  }

  /** Histories only grow. */
  lemma KeepApplied(c: Chain, c': Chain, id: nat)
    requires c'.n == c.n && c'.submitted == c.submitted && AppliedEverywhere(c, id)
    requires forall j, p :: 0 <= j < c.n && p in HistoryOf(c, j) ==> p in HistoryOf(c', j)
    ensures AppliedEverywhere(c', id)
  {
  }

  lemma ReplayNext(puts: seq<Put>, put: Put)
    ensures Replay(puts + [put]) == Replay(puts)[put.path := put.body]
  {
    assert (puts + [put])[..|puts|] == puts;
  }

  lemma PutServed(db: Store, hasNext: bool, put: Put, outcome: DbStatus)
    ensures Served(db, hasNext, AsRequest(put), outcome) ==
      if put.body == [] then Answer(400) else if !outcome.DbOk? then Answer(500)
      else if hasNext then Response(600, NextServer, []) else Answer(200)
    ensures Stored(db, AsRequest(put), outcome) ==
      if put.body != [] && outcome.DbOk? then db[put.path := put.body] else db
  {
    assert "PUT"[..3] == "PUT";
    assert "PUT"[0] == 'P' && "GET"[0] == 'G';
  }

  /** Whether a server applies a PUT. */
  predicate Kept(put: Put, outcome: DbStatus) { put.body != [] && outcome.DbOk? }

  /** The links, the histories and the answers after a delivery. */
  lemma Delivered(c: Chain, w: nat, i: nat, outcome: DbStatus)
    requires Enabled(c, Deliver(w, i, outcome))
    ensures var c', put := Next(c, Deliver(w, i, outcome)), Link(c, w, i)[0];
      var taken := c.links[(w, i) := Link(c, w, i)[1..]];
      && c'.n == c.n && c'.submitted == c.submitted
      && (Kept(put, outcome) ==>
            && c'.history == c.history[i := HistoryOf(c, i) + [put]]
            && c'.stores == c.stores[i := StoreOf(c, i)[put.path := put.body]]
            && c'.links == (if i + 1 < c.n then taken[(w, i + 1) := Link(c, w, i + 1) + [put]] else taken)
            && c'.answers == (if i + 1 < c.n then c.answers else c.answers[put.id := 200])
            && c'.failures == c.failures)
      && (!Kept(put, outcome) ==>
            && c'.history == c.history && c'.stores == c.stores[i := StoreOf(c, i)] && c'.links == taken
            && c'.answers == c.answers[put.id := if put.body == [] then 400 else 500]
            && c'.failures == if put.body == [] then c.failures else c.failures + 1)
  {
    hide Served, Stored, StartsWith, StoreOf;
    PutServed(StoreOf(c, i), i + 1 < c.n, Link(c, w, i)[0], outcome);
  }

  /** What a delivery means for each server and each link. */
  lemma DeliverFrame(c: Chain, w: nat, i: nat, outcome: DbStatus)
    requires Enabled(c, Deliver(w, i, outcome))
    ensures var c' := Next(c, Deliver(w, i, outcome));
      var put := Link(c, w, i)[0];
      var kept := Kept(put, outcome);
      && c'.n == c.n && c'.submitted == c.submitted
      && (forall j: nat :: HistoryOf(c', j) == if j == i && kept then HistoryOf(c, i) + [put] else HistoryOf(c, j))
      && (forall j: nat ::
            StoreOf(c', j) == if j == i && kept then StoreOf(c, i)[put.path := put.body] else StoreOf(c, j))
      && (forall v: nat, j: nat :: Link(c', v, j) ==
            if (v, j) == (w, i) then Link(c, w, i)[1..]
            else if (v, j) == (w, i + 1) && kept && i + 1 < c.n then Link(c, w, i + 1) + [put]
            else Link(c, v, j))
      && (forall id :: id in c'.answers && c'.answers[id] == 200 ==>
            (id == put.id && kept && i + 1 == c.n) || (id in c.answers && c.answers[id] == 200))
      && c'.failures == if put.body == [] || kept then c.failures else c.failures + 1
  {
    Delivered(c, w, i, outcome);
    hide Next;
  }

  /** The link a delivery takes from: what it carries is already received, or
      is dropped because the write failed. */
  lemma TakenFrom(up: seq<Put>, applied: seq<Put>, put: Put, rest: seq<Put>, link: seq<Put>)
    requires link == [put] + rest && Subsequence(applied + link, up)
    ensures (applied + [put]) + rest == applied + link
    ensures Subsequence(applied + rest, up)
  {
    hide Subsequence;
    assert applied + link == applied + [put] + rest;
    SubsequenceDrop(applied, put, rest, up);
  }

  /** Upstream, in between and downstream of one worker, before and after. */
  lemma PairKept(up: seq<Put>, applied: seq<Put>, link: seq<Put>, put: Put)
    requires Subsequence(applied + link, up)
    ensures Subsequence(applied + (link + [put]), up + [put])
    ensures applied + link == up ==> applied + (link + [put]) == up + [put]
  {
    hide Subsequence;
    SubsequenceBoth(applied + link, up, put);
    assert applied + (link + [put]) == (applied + link) + [put];
  }

  lemma DeliverPairs(c: Chain, w: nat, i: nat, outcome: DbStatus, v: nat, j: nat)
    requires Inv(c) && Enabled(c, Deliver(w, i, outcome)) && j + 1 < c.n
    ensures PairOk(Next(c, Deliver(w, i, outcome)), v, j)
  {
    hide Next, Link, HistoryOf, StoreOf, Of, Subsequence, LinkOk, HistoryOk, AppliedEverywhere;
    var c', put := Next(c, Deliver(w, i, outcome)), Link(c, w, i)[0];
    DeliverFrame(c, w, i, outcome);
    OfOne(v, HistoryOf(c, i), put);
    LinkHead(c, w, i);
    assert PairOk(c, v, j);
    hide Inv;
    var up, applied, link := Of(v, HistoryOf(c, j)), Of(v, HistoryOf(c, j + 1)), Link(c, v, j + 1);
    if v == w && j + 1 == i {
      TakenFrom(up, applied, put, link[1..], link);
    } else if v == w && j == i && Kept(put, outcome) {
      PairKept(up, applied, link, put);
    }
  }

  lemma LinkHead(c: Chain, w: nat, i: nat)
    requires Inv(c) && i < c.n && Link(c, w, i) != []
    ensures var put := Link(c, w, i)[0];
      && put.worker == w && Submitted(c, put) && (i > 0 ==> put.body != [])
      && forall j :: 0 <= j < i ==> put in HistoryOf(c, j)
  {
    assert LinkOk(c, w, i);
    assert Link(c, w, i)[0] in Link(c, w, i);
  }

  lemma DeliverLinks(c: Chain, w: nat, i: nat, outcome: DbStatus, v: nat, j: nat)
    requires Inv(c) && Enabled(c, Deliver(w, i, outcome)) && j < c.n
    ensures LinkOk(Next(c, Deliver(w, i, outcome)), v, j)
  {
    hide Next, Link, HistoryOf, StoreOf, PairOk, HistoryOk, AppliedEverywhere;
    var c', put := Next(c, Deliver(w, i, outcome)), Link(c, w, i)[0];
    DeliverFrame(c, w, i, outcome);
    LinkHead(c, w, i);
    assert LinkOk(c, v, j);
    forall p | p in Link(c', v, j)
      ensures p.worker == v && Submitted(c', p) && (j > 0 ==> p.body != [])
      ensures forall k :: 0 <= k < j ==> p in HistoryOf(c', k)
    {
      if p !in Link(c, v, j) {
        assert p == put && (v, j) == (w, i + 1);
      }
    }
  }

  lemma DeliverAnswers(c: Chain, w: nat, i: nat, outcome: DbStatus, id: nat)
    requires Inv(c) && Enabled(c, Deliver(w, i, outcome))
    requires var c' := Next(c, Deliver(w, i, outcome)); id in c'.answers && c'.answers[id] == 200
    ensures AppliedEverywhere(Next(c, Deliver(w, i, outcome)), id)
  {
    hide Next, Link, HistoryOf, StoreOf, PairOk, LinkOk, HistoryOk;
    var c', put := Next(c, Deliver(w, i, outcome)), Link(c, w, i)[0];
    DeliverFrame(c, w, i, outcome);
    if id in c.answers && c.answers[id] == 200 {
      KeepApplied(c, c', id);
    } else {
      LinkHead(c, w, i);
      assert forall j :: 0 <= j < c.n ==> put in HistoryOf(c', j);
    }
  }

  lemma DeliverHistory(c: Chain, w: nat, i: nat, outcome: DbStatus, j: nat)
    requires Inv(c) && Enabled(c, Deliver(w, i, outcome)) && j < c.n
    ensures HistoryOk(Next(c, Deliver(w, i, outcome)), j)
  {
    hide Next, Link, HistoryOf, StoreOf, PairOk, LinkOk, Replay, AppliedEverywhere;
    DeliverFrame(c, w, i, outcome);
    LinkHead(c, w, i);
    assert HistoryOk(c, j);
    ReplayNext(HistoryOf(c, i), Link(c, w, i)[0]);
  }

  lemma DeliverInv(c: Chain, w: nat, i: nat, outcome: DbStatus)
    requires Inv(c) && Enabled(c, Deliver(w, i, outcome))
    ensures Inv(Next(c, Deliver(w, i, outcome)))
  {
    hide Link, HistoryOf, StoreOf, PairOk, LinkOk, HistoryOk, AppliedEverywhere, Served, Stored;
    var c' := Next(c, Deliver(w, i, outcome));
    assert c'.n == c.n;
    forall j: nat, v: nat | j + 1 < c.n ensures PairOk(c', v, j) { DeliverPairs(c, w, i, outcome, v, j); }
    forall j: nat, v: nat | j < c.n ensures LinkOk(c', v, j) { DeliverLinks(c, w, i, outcome, v, j); }
    forall j: nat | j < c.n ensures HistoryOk(c', j) { DeliverHistory(c, w, i, outcome, j); }
    forall id | id in c'.answers && c'.answers[id] == 200 ensures AppliedEverywhere(c', id) {
      DeliverAnswers(c, w, i, outcome, id);
    }
  }

  lemma {:induction false} RunInv(c: Chain, events: seq<Event>)
    requires Inv(c)
    ensures Run(c, events).Some? ==> Inv(Run(c, events).value)
    decreases |events|
  {
    if events != [] && Enabled(c, events[0]) {
      match events[0] {
        case Submit(put) => SubmitInv(c, put);
        case Deliver(w, i, outcome) => DeliverInv(c, w, i, outcome);
      }
      RunInv(Next(c, events[0]), events[1..]);
    }
  }

  lemma ReachableInv(n: nat, c: Chain)
    requires Reachable(n, c)
    ensures Inv(c)
  {
    var events :| Run(Start(n), events) == Some(c);
    StartInv(n);
    RunInv(Start(n), events);
  }

  // ---------------------------------------------------------------------
  // What holds in every run

  lemma {:induction false} OfAll(worker: nat, puts: seq<Put>)
    requires forall p :: p in puts ==> p.worker == worker
    ensures Of(worker, puts) == puts
  {
    if puts != [] {
      OfAll(worker, puts[..|puts| - 1]);
      assert puts == puts[..|puts| - 1] + [puts[|puts| - 1]];
    }
  }

  /** In every run, worker by worker: a server has applied what its successor
      has applied followed by what is on its way there, except that a PUT is
      missing further down when some write failed. */
  lemma ChainLag(n: nat, c: Chain, worker: nat, server: nat)
    requires Reachable(n, c) && server + 1 < c.n
    ensures Subsequence(Of(worker, HistoryOf(c, server + 1)) + Link(c, worker, server + 1),
                        Of(worker, HistoryOf(c, server)))
    ensures c.failures == 0 ==>
      Of(worker, HistoryOf(c, server)) == Of(worker, HistoryOf(c, server + 1)) + Link(c, worker, server + 1)
  {
    ReachableInv(n, c);
    assert PairOk(c, worker, server);
  }

  /** With one worker and no failed write this is so for the whole history, and
      a server's database is its successor's with the PUTs in flight applied. */
  lemma SingleWorkerLag(n: nat, c: Chain, worker: nat, server: nat)
    requires Reachable(n, c) && server + 1 < c.n && c.failures == 0
    requires forall i: nat, p :: i < c.n && p in HistoryOf(c, i) ==> p.worker == worker
    ensures HistoryOf(c, server) == HistoryOf(c, server + 1) + Link(c, worker, server + 1)
    ensures StoreOf(c, server + 1) == Replay(HistoryOf(c, server + 1))
    ensures StoreOf(c, server) == Replay(HistoryOf(c, server + 1) + Link(c, worker, server + 1))
  {
    ReachableInv(n, c);
    assert HistoryOk(c, server) && HistoryOk(c, server + 1);
    ChainLag(n, c, worker, server);
    OfAll(worker, HistoryOf(c, server));
    OfAll(worker, HistoryOf(c, server + 1));
  }

  /** So what a server further down has applied, those before it have too, in
      the same order. */
  lemma {:induction false} Prefixes(n: nat, c: Chain, worker: nat, up: nat, down: nat)
    requires Reachable(n, c) && up <= down < c.n && c.failures == 0
    requires forall i: nat, p :: i < c.n && p in HistoryOf(c, i) ==> p.worker == worker
    ensures HistoryOf(c, down) <= HistoryOf(c, up)
    decreases down - up
  {
    if up < down {
      SingleWorkerLag(n, c, worker, up);
      Prefixes(n, c, worker, up + 1, down);
    }
  }

  /** In every run, failed writes or not and however many workers: a PUT that
      was answered with 200 has been applied by every server of the chain, with
      the path and the value that its client submitted. */
  lemma AcknowledgedMeansReplicated(n: nat, c: Chain, id: nat)
    requires Reachable(n, c) && id in c.answers && c.answers[id] == 200
    ensures id in c.submitted && forall j :: 0 <= j < c.n ==> c.submitted[id] in HistoryOf(c, j)
  {
    ReachableInv(n, c);
    assert AppliedEverywhere(c, id);
  }

  /** The position of the last PUT of a path, or -1. */
  function LastPut(puts: seq<Put>, path: Path): (k: int)
    ensures -1 <= k < |puts|
    ensures k >= 0 ==> puts[k].path == path
    ensures forall m :: k < m < |puts| ==> puts[m].path != path
    decreases |puts|
  {
    if puts == [] then -1
    else if puts[|puts| - 1].path == path then |puts| - 1
    else LastPut(puts[..|puts| - 1], path)
  }

  lemma {:induction false} ReplayIsLastPut(puts: seq<Put>, path: Path)
    ensures path in Replay(puts) <==> LastPut(puts, path) >= 0
    ensures path in Replay(puts) ==> Replay(puts)[path] == puts[LastPut(puts, path)].body
    decreases |puts|
  {
    if puts != [] {
      ReplayIsLastPut(puts[..|puts| - 1], path);
    }
  }

  /** In every run, a handed-off GET to a server returns what the last PUT of
      that path in its own history wrote, and 404 if there is none. */
  lemma GetReadsHistory(n: nat, c: Chain, server: nat, path: Path)
    requires Reachable(n, c) && server < c.n
    ensures var res := Served(StoreOf(c, server), server + 1 < c.n, Request("GET", path, []), DbOk);
      var k := LastPut(HistoryOf(c, server), path);
      res == if k >= 0 then Response(200, NoDest, HistoryOf(c, server)[k].body) else Answer(404)
  {
    ReachableInv(n, c);
    assert HistoryOk(c, server);
    assert "GET"[..3] == "GET";
    ReplayIsLastPut(HistoryOf(c, server), path);
  }

  // ---------------------------------------------------------------------
  // One server, request by request

  /** The verbs by their letters; anything may follow them. */
  predicate Begins(verb: string, letters: string) { letters <= verb }

  lemma BeginsIs(verb: string, letters: string)
    ensures Begins(verb, letters) <==> StartsWith(verb, letters)
  {
  }

  lemma VerbsDiffer(verb: string)
    ensures !(Begins(verb, "GET") && Begins(verb, "PUT")) && !(Begins(verb, "GET") && Begins(verb, "DELETE"))
    ensures !(Begins(verb, "PUT") && Begins(verb, "DELETE"))
  {
    assert "GET"[0] == 'G' && "PUT"[0] == 'P' && "DELETE"[0] == 'D';
  }

  /** What a server answers and keeps, by what it is asked: a GET changes nothing; a
      PUT without a body, a method that is none of the three and whatever the database
      fails to do change nothing and are refused; and the rest is done. */
  lemma Answers(db: Store, hasNext: bool, req: Request, outcome: DbStatus)
    ensures var res, db' := Served(db, hasNext, req, outcome), Stored(db, req, outcome);
      && (Begins(req.verb, "GET") ==>
            db' == db && res.status == if outcome.DbError? then 500 else if req.path in db then 200 else 404)
      && (Begins(req.verb, "GET") && res.status == 200 ==> req.path in db && res.body == db[req.path])
      && (Begins(req.verb, "PUT") && req.body == [] ==> db' == db && res.status == 400)
      && (Begins(req.verb, "PUT") && req.body != [] ==>
            if outcome.DbOk? then db' == db[req.path := req.body] && res.status == if hasNext then 600 else 200
            else db' == db && res.status == 500)
      && (Begins(req.verb, "DELETE") ==>
            if outcome.DbOk? then db' == db - {req.path} && res.status == 204 else db' == db && res.status == 500)
      && (!Begins(req.verb, "GET") && !Begins(req.verb, "PUT") && !Begins(req.verb, "DELETE") ==>
            db' == db && res.status == 405)
  {
    hide StartsWith, Begins;
    BeginsIs(req.verb, "GET");
    BeginsIs(req.verb, "PUT");
    BeginsIs(req.verb, "DELETE");
    VerbsDiffer(req.verb);
  }

  /** A GET of a path after one more request that the database carries out: the body
      of a PUT of that path, nothing after a DELETE of it, and otherwise what it was
      before. */
  lemma GetAfter(db: Store, hasNext: bool, req: Request, path: Path)
    ensures var get := Request("GET", path, []);
      Served(Stored(db, req, DbOk), hasNext, get, DbOk)
      == if req.path == path && Begins(req.verb, "PUT") && req.body != [] then Response(200, NoDest, req.body)
         else if req.path == path && Begins(req.verb, "DELETE") then Response(404, NoDest, [])
         else Served(db, hasNext, get, DbOk)
  {
    hide StartsWith, Begins;
    BeginsIs(req.verb, "GET");
    BeginsIs(req.verb, "PUT");
    BeginsIs(req.verb, "DELETE");
    VerbsDiffer(req.verb);
    GetIsGet();
  }

  lemma GetIsGet()
    ensures StartsWith("GET", "GET")
  {
  }
}
