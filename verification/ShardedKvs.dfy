/** The sharded key-value store of src/apps/kvs: a proxy that chooses a back end by
    the hash of the path, and back ends that hold the pieces of one map. */
module ShardedKvs {
  import opened Bytes
  import opened KvsRepl
  import Jhash

  /** The proxy's assertion allows five back ends. */
  const MAX_BACKENDS := 5

  function Shard(path: Path, n: nat): (i: nat)
    requires n > 0
    ensures i < n
  {
    Jhash.Hash(path, 0) % n
  }

  /** Every path is stored where it hashes to, and nowhere else. */
  predicate Placed(stores: seq<Store>)
  {
    forall i: nat, path :: i < |stores| && path in stores[i] ==> Shard(path, |stores|) == i
  }

  /** The one map that the pieces make up. */
  function Union(stores: seq<Store>): Store
  {
    if stores == [] then map[] else Union(stores[..|stores| - 1]) + stores[|stores| - 1]
  }

  lemma {:induction false} UnionAt(stores: seq<Store>, i: nat, path: Path)
    requires i < |stores| && path in stores[i]
    requires forall j: nat :: i < j < |stores| ==> path !in stores[j]
    ensures path in Union(stores) && Union(stores)[path] == stores[i][path]
  {
    var last := |stores| - 1;
    if i < last {
      var init := stores[..last];
      assert init[i] == stores[i];
      assert forall j: nat :: j < last ==> init[j] == stores[j];
      UnionAt(init, i, path);
    }
  }

  lemma {:induction false} UnionFrom(stores: seq<Store>, path: Path) returns (i: nat)
    requires path in Union(stores)
    ensures i < |stores| && path in stores[i]
  {
    var last := |stores| - 1;
    if path in stores[last] {
      i := last;
    } else {
      i := UnionFrom(stores[..last], path);
    }
  }

  /** The owner of a path answers for the whole. */
  lemma OwnerAnswers(stores: seq<Store>, path: Path)
    requires Placed(stores) && stores != []
    ensures var s := stores[Shard(path, |stores|)];
      (path in Union(stores) <==> path in s) && (path in s ==> Union(stores)[path] == s[path])
  {
    hide Shard, Union;
    var i := Shard(path, |stores|);
    if path in stores[i] {
      UnionAt(stores, i, path);
    } else if path in Union(stores) {
      var j := UnionFrom(stores, path);
    }
  }

  // ---------------------------------------------------------------------
  // One request

  function ShardStep(stores: seq<Store>, req: Request, outcome: DbStatus): seq<Store>
    requires stores != []
  {
    var i := Shard(req.path, |stores|);
    stores[i := Stored(stores[i], req, outcome)]
  }

  function ShardReply(stores: seq<Store>, req: Request, outcome: DbStatus): Response
    requires stores != []
  {
    Served(stores[Shard(req.path, |stores|)], false, req, outcome)
  }

  lemma StoredElsewhere(db: Store, req: Request, outcome: DbStatus, path: Path)
    requires path != req.path
    ensures path in Stored(db, req, outcome) <==> path in db
    ensures path in db ==> Stored(db, req, outcome)[path] == db[path]
  {
  }

  lemma StoredSame(a: Store, b: Store, req: Request, outcome: DbStatus)
    requires (req.path in a <==> req.path in b) && (req.path in a ==> a[req.path] == b[req.path])
    ensures req.path in Stored(a, req, outcome) <==> req.path in Stored(b, req, outcome)
    ensures req.path in Stored(a, req, outcome) ==>
      Stored(a, req, outcome)[req.path] == Stored(b, req, outcome)[req.path]
    ensures Served(a, false, req, outcome) == Served(b, false, req, outcome)
  {
  }

  lemma StepPlaced(stores: seq<Store>, req: Request, outcome: DbStatus)
    requires Placed(stores) && stores != []
    ensures Placed(ShardStep(stores, req, outcome))
  {
    hide Shard, Stored;
    var next := ShardStep(stores, req, outcome);
    forall i: nat, path | i < |next| && path in next[i] ensures Shard(path, |next|) == i {
      if path != req.path {
        StoredElsewhere(stores[Shard(req.path, |stores|)], req, outcome, path);
        assert path in stores[i];
      }
    }
  }

  lemma StepAt(stores: seq<Store>, req: Request, outcome: DbStatus, path: Path)
    requires Placed(stores) && stores != []
    ensures var u, v := Union(ShardStep(stores, req, outcome)), Stored(Union(stores), req, outcome);
      (path in u <==> path in v) && (path in u ==> u[path] == v[path])
  {
    hide Shard, Stored, Union;
    var next := ShardStep(stores, req, outcome);
    StepPlaced(stores, req, outcome);
    OwnerAnswers(stores, path);
    OwnerAnswers(next, path);
    var i := Shard(req.path, |stores|);
    if path == req.path {
      StoredSame(stores[i], Union(stores), req, outcome);
    } else {
      StoredElsewhere(stores[i], req, outcome, path);
      StoredElsewhere(Union(stores), req, outcome, path);
    }
  }

  /** A request does to the union what it does to a single map, and is answered as
      if there were only that map. */
  lemma StepRefines(stores: seq<Store>, req: Request, outcome: DbStatus)
    requires Placed(stores) && stores != []
    ensures Union(ShardStep(stores, req, outcome)) == Stored(Union(stores), req, outcome)
    ensures ShardReply(stores, req, outcome) == Served(Union(stores), false, req, outcome)
  {
    hide Shard, Stored, Union, Served, ShardStep, Placed;
    forall path: Path
      ensures var u, v := Union(ShardStep(stores, req, outcome)), Stored(Union(stores), req, outcome);
        (path in u <==> path in v) && (path in u ==> u[path] == v[path])
    {
      StepAt(stores, req, outcome, path);
    }
    OwnerAnswers(stores, req.path);
    StoredSame(stores[Shard(req.path, |stores|)], Union(stores), req, outcome);
  }

  // ---------------------------------------------------------------------
  // Any history of requests

  /** A request and what the database library reports for it. */
  datatype Call = Call(req: Request, outcome: DbStatus)

  function Empty(n: nat): (stores: seq<Store>)
    ensures |stores| == n && forall i :: 0 <= i < n ==> stores[i] == map[]
  {
    if n == 0 then [] else Empty(n - 1) + [map[]]
  }

  function ShardedAfter(n: nat, history: seq<Call>): (stores: seq<Store>)
    requires n > 0
    ensures |stores| == n
  {
    if history == [] then Empty(n)
    else
      var call := history[|history| - 1];
      ShardStep(ShardedAfter(n, history[..|history| - 1]), call.req, call.outcome)
  }

  function SingleAfter(history: seq<Call>): Store
  {
    if history == [] then map[]
    else
      var call := history[|history| - 1];
      Stored(SingleAfter(history[..|history| - 1]), call.req, call.outcome)
  }

  lemma {:induction false} EmptyUnion(stores: seq<Store>)
    requires forall i :: 0 <= i < |stores| ==> stores[i] == map[]
    ensures Union(stores) == map[]
  {
    if stores != [] {
      EmptyUnion(stores[..|stores| - 1]);
    }
  }

  lemma EmptyPlaced(n: nat)
    ensures Placed(Empty(n)) && Union(Empty(n)) == map[]
  {
    hide Shard, Empty, Union;
    EmptyUnion(Empty(n));
  }

  lemma {:induction false} ShardedRefinesSingle(n: nat, history: seq<Call>)
    requires n > 0
    ensures Placed(ShardedAfter(n, history)) && Union(ShardedAfter(n, history)) == SingleAfter(history)
  {
    hide Placed, Union, ShardStep, Stored;
    if history == [] {
      EmptyPlaced(n);
    } else {
      var before, call := history[..|history| - 1], history[|history| - 1];
      ShardedRefinesSingle(n, before);
      StepPlaced(ShardedAfter(n, before), call.req, call.outcome);
      StepRefines(ShardedAfter(n, before), call.req, call.outcome);
    }
  }

  /** Whether a call wrote the path: a PUT with a body, or a DELETE, that the
      database carried out. */
  predicate Wrote(call: Call, path: Path)
  {
    && call.req.path == path && call.outcome.DbOk? && !StartsWith(call.req.verb, "GET")
    && ((StartsWith(call.req.verb, "PUT") && call.req.body != []) || StartsWith(call.req.verb, "DELETE"))
  }

  predicate IsPut(call: Call) { StartsWith(call.req.verb, "PUT") }

  /** The position of the last call that wrote the path, or -1. */
  function LastWrite(history: seq<Call>, path: Path): (k: int)
    ensures -1 <= k < |history|
    ensures k >= 0 ==> Wrote(history[k], path)
    ensures forall j :: k < j < |history| ==> !Wrote(history[j], path)
  {
    if history == [] then -1
    else if Wrote(history[|history| - 1], path) then |history| - 1
    else LastWrite(history[..|history| - 1], path)
  }

  lemma {:induction false} SingleIsLastWrite(history: seq<Call>, path: Path)
    ensures var k := LastWrite(history, path);
      && (path in SingleAfter(history) <==> k >= 0 && IsPut(history[k]))
      && (path in SingleAfter(history) ==> SingleAfter(history)[path] == history[k].req.body)
  {
    hide SingleAfter, LastWrite, Wrote, IsPut, Stored;
    if history == [] {
      NoHistory(path);
    } else {
      var before, call := history[..|history| - 1], history[|history| - 1];
      SingleIsLastWrite(before, path);
      OneMore(history, path);
      if call.req.path == path {
        StoredHere(SingleAfter(before), call);
      } else {
        StoredElsewhere(SingleAfter(before), call.req, call.outcome, path);
        WroteElsewhere(call, path);
      }
    }
  }

  lemma NoHistory(path: Path)
    ensures SingleAfter([]) == map[] && LastWrite([], path) == -1
  {
  }

  lemma OneMore(history: seq<Call>, path: Path)
    requires history != []
    ensures var before, call := history[..|history| - 1], history[|history| - 1];
      && SingleAfter(history) == Stored(SingleAfter(before), call.req, call.outcome)
      && LastWrite(history, path) == if Wrote(call, path) then |history| - 1 else LastWrite(before, path)
  {
    hide Stored, Wrote;
  }

  lemma WroteElsewhere(call: Call, path: Path)
    requires call.req.path != path
    ensures !Wrote(call, path)
  {
  }

  /** What a call does to its own path. */
  lemma StoredHere(db: Store, call: Call)
    ensures var path, db' := call.req.path, Stored(db, call.req, call.outcome);
      if Wrote(call, path) then
        (path in db' <==> IsPut(call)) && (path in db' ==> db'[path] == call.req.body)
      else
        (path in db' <==> path in db) && (path in db' ==> db'[path] == db[path])
  {
    hide StartsWith;
    if StartsWith(call.req.verb, "PUT") {
      PutIsPut(call.req.verb);
    }
  }

  /** After any history, over any number of back ends, a GET that the database
      carries out returns the last PUT of its path that no DELETE follows, or that
      there is none. */
  lemma GetReturnsLastPut(n: nat, history: seq<Call>, req: Request, outcome: DbStatus)
    requires n > 0 && StartsWith(req.verb, "GET") && !outcome.DbError?
    ensures var k := LastWrite(history, req.path);
      ShardReply(ShardedAfter(n, history), req, outcome)
      == if k >= 0 && IsPut(history[k]) then Response(200, NoDest, history[k].req.body) else Answer(404)
  {
    hide ShardedAfter, SingleAfter, LastWrite, Union, Placed;
    ShardedRefinesSingle(n, history);
    StepRefines(ShardedAfter(n, history), req, outcome);
    SingleIsLastWrite(history, req.path);
  }

  // ---------------------------------------------------------------------
  // The code

  class Proxy {
    const nbackends: nat

    constructor (nbackends: nat)
      ensures this.nbackends == nbackends
    {
      this.nbackends := nbackends;
    }

    /** kvs_proxy_request_handler, for a path at an address in memory: equal paths go
        to the same back end wherever the request buffer puts them. */
    method Handle(mem: seq<byte>, at: nat, size: nat) returns (res: Response)
      requires at + size <= |mem| && |mem| % 4 == 0 && 1 <= nbackends <= MAX_BACKENDS
      ensures res == Response(600, Pool(Shard(mem[at..at + size], nbackends)), [])
      ensures res.dest.index <= 4
    {
      var hash := Jhash.JenkinsHash(mem, at, size, 0);
      hash := hash % nbackends;
      assert 0 <= hash <= 4;
      res := Response(600, Pool(hash), []);
    }
  }

  predicate Distinct(backends: seq<Backend>)
  {
    forall i, j :: 0 <= i < j < |backends| ==> backends[i] != backends[j]
  }

  ghost predicate Ready(backends: seq<Backend>)
    reads backends
  {
    forall b :: b in backends ==> b.Valid() && !b.hasNext
  }

  ghost function StoresOf(backends: seq<Backend>): (stores: seq<Store>)
    reads backends
    ensures |stores| == |backends| && forall i :: 0 <= i < |backends| ==> stores[i] == backends[i].db
  {
    if backends == [] then [] else StoresOf(backends[..|backends| - 1]) + [backends[|backends| - 1].db]
  }

  /** A request on its way: the proxy's choice, the handoff, and the back end's
      answer to the imported request. */
  method Serve(proxy: Proxy, backends: seq<Backend>, mem: seq<byte>, at: nat, req: Request, outcome: DbStatus)
    returns (res: Response)
    requires at + |req.path| <= |mem| && |mem| % 4 == 0 && mem[at..at + |req.path|] == req.path
    requires 1 <= |backends| == proxy.nbackends <= MAX_BACKENDS && Distinct(backends) && Ready(backends)
    modifies backends
    ensures Ready(backends) && StoresOf(backends) == ShardStep(old(StoresOf(backends)), req, outcome)
    ensures res == ShardReply(old(StoresOf(backends)), req, outcome)
  {
    hide Shard, Stored, Served;
    ghost var before := StoresOf(backends);
    var handoff := proxy.Handle(mem, at, |req.path|);
    var i := handoff.dest.index;
    res := backends[i].Handle(req, true, outcome);
    assert forall j :: 0 <= j < |backends| && j != i ==> backends[j].db == before[j];
  }
}
