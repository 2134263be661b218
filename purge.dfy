/** `purge.py`: the `DatabaseCleaner` that connects to the five stores,
    empties each of them and closes the connections, reporting which
    stores could not be cleaned. */
module Purge {
  import opened Common

  // ---------------------------------------------------------------------
  // The five stores, in the order of the `connections` dict
  // ---------------------------------------------------------------------

  datatype Db = Postgres | Mongo | Neo4j | Elastic | Redis

  const Databases: seq<Db> := [Postgres, Mongo, Neo4j, Elastic, Redis]

  /** The position of a store among the keys of `connections`. */
  function Slot(d: Db): (i: nat)
    ensures i < |Databases| && Databases[i] == d
  {
    match d
    case Postgres => 0
    case Mongo => 1
    case Neo4j => 2
    case Elastic => 3
    case Redis => 4
  }

  // ---------------------------------------------------------------------
  // Connection settings
  // ---------------------------------------------------------------------

  /** `es_host` in `connect_all`: `http://` is put in front of a host that
      names neither scheme. */
  function NormalizeHost(host: string): (r: string)
  {
    if StartsWith(host, "http://") || StartsWith(host, "https://") then host else "http://" + host
  }

  /** The normalised host always names a scheme, keeps a host that already
      names one, prefixes any other, and normalising again changes nothing. */
  lemma NormalizeHostSpec(host: string)
    ensures StartsWith(NormalizeHost(host), "http://") || StartsWith(NormalizeHost(host), "https://")
    ensures StartsWith(host, "http://") || StartsWith(host, "https://") ==> NormalizeHost(host) == host
    ensures !(StartsWith(host, "http://") || StartsWith(host, "https://")) ==> NormalizeHost(host) == "http://" + host
    ensures NormalizeHost(NormalizeHost(host)) == NormalizeHost(host)
  {
    var r := NormalizeHost(host);
    if !(StartsWith(host, "http://") || StartsWith(host, "https://")) {
      assert r[..|"http://"|] == "http://";
    }
  }

  /** `es_auth`: the (user, password) pair when the section configures
      both, otherwise no authentication at all. */
  function EsAuth(section: map<string, string>): (auth: Option<(string, string)>)
    ensures auth.Some? <==> "user" in section && "password" in section
    ensures auth.Some? ==> auth.value == (section["user"], section["password"])
  {
    if "user" in section && "password" in section then Some((section["user"], section["password"])) else None
  }

  /** `mongo_auth`: the username and the password are each passed when
      configured, independently of the other. */
  function MongoAuth(section: map<string, string>): (auth: map<string, string>)
    ensures "username" in auth <==> "username" in section
    ensures "password" in auth <==> "password" in section
    ensures auth.Keys <= {"username", "password"}
    ensures forall k :: k in auth ==> k in section && auth[k] == section[k]
  {
    var u := if "username" in section then map["username" := section["username"]] else map[];
    if "password" in section then u["password" := section["password"]] else u
  }

  // ---------------------------------------------------------------------
  // Index listings
  // ---------------------------------------------------------------------

  function IsUserIndex(name: string): bool
  {
    !StartsWith(name, ".")
  }

  function IsSystemIndex(name: string): bool
  {
    StartsWith(name, ".")
  }

  /** `user_indices` in `clean_elasticsearch`: the indices whose name does
      not start with a dot, in listing order; system indices are never
      deleted. */
  function UserIndices(indices: seq<string>): (r: seq<string>)
    ensures forall x :: x in r <==> x in indices && !StartsWith(x, ".")
  {
    Filter(indices, IsUserIndex)
  }

  /** What stays after the indices in `gone` are deleted. */
  function Remaining(indices: seq<string>, gone: seq<string>): seq<string>
  {
    Filter(indices, (x: string) => x !in gone)
  }

  /** `indices.delete(index=x)`. */
  function Deleted(indices: seq<string>, x: string): seq<string>
  {
    Filter(indices, (y: string) => y != x)
  }

  /** Nothing deleted yet. */
  lemma RemainingNone(indices: seq<string>)
    ensures Remaining(indices, []) == indices
  {
    FilterAll(indices, (x: string) => x !in []);
  }

  /** Deleting one more index removes it from what stays. */
  lemma {:induction false} RemainingStep(indices: seq<string>, gone: seq<string>, x: string)
    ensures Deleted(Remaining(indices, gone), x) == Remaining(indices, gone + [x])
  {
    var ne := (y: string) => y != x;
    if indices != [] {
      var h, t := indices[0], indices[1..];
      var head := if h !in gone then [h] else [];
      assert Remaining(indices, gone) == head + Remaining(t, gone);
      FilterConcat(head, Remaining(t, gone), ne);
      assert [h][1..] == [];
      assert Filter(head, ne) == if h !in gone + [x] then [h] else [];
      RemainingStep(t, gone, x);
    }
  }

  /** Deleting every user index leaves exactly the system indices, in
      listing order. */
  lemma RemainingAfterUser(indices: seq<string>)
    ensures Remaining(indices, UserIndices(indices)) == Filter(indices, IsSystemIndex)
  {
    var user := UserIndices(indices);
    FilterAgree(indices, (x: string) => x !in user, IsSystemIndex);
  }

  // ---------------------------------------------------------------------
  // What the stores hold
  // ---------------------------------------------------------------------

  /** A base table of the `public` schema and its row count. */
  datatype Table = Table(name: string, rows: nat)

  /** A collection and its document count. */
  datatype Collection = Collection(name: string, count: nat)

  /** The contents of the five stores; a node count stands for the graph,
      since `DETACH DELETE` removes the relationships with the nodes. */
  datatype Stores = Stores(tables: seq<Table>, collections: seq<Collection>, nodes: nat,
                           indices: seq<string>, keys: nat)

  /** `TRUNCATE ... CASCADE` of every table: the tables stay, empty. */
  function Truncated(tables: seq<Table>): (r: seq<Table>)
    ensures |r| == |tables|
    ensures forall i :: 0 <= i < |r| ==> r[i] == Table(tables[i].name, 0)
  {
    seq(|tables|, i requires 0 <= i < |tables| => Table(tables[i].name, 0))
  }

  /** `delete_many({})` on every collection: the collections stay, empty. */
  function Emptied(cols: seq<Collection>): (r: seq<Collection>)
    ensures |r| == |cols|
    ensures forall i :: 0 <= i < |r| ==> r[i] == Collection(cols[i].name, 0)
  {
    seq(|cols|, i requires 0 <= i < |cols| => Collection(cols[i].name, 0))
  }

  /** The stores after a successful clean of `d`. */
  function CleanOne(s: Stores, d: Db): Stores
  {
    match d
    case Postgres => s.(tables := Truncated(s.tables))
    case Mongo => s.(collections := Emptied(s.collections))
    case Neo4j => s.(nodes := 0)
    case Elastic => s.(indices := Remaining(s.indices, UserIndices(s.indices)))
    case Redis => s.(keys := 0)
  }

  /** The outcome of each cleaner: the ones whose store raises fail. */
  function Results(failing: set<Db>): (r: seq<bool>)
    ensures |r| == |Databases|
    ensures forall i :: 0 <= i < |r| ==> (r[i] <==> Databases[i] !in failing)
  {
    seq(|Databases|, i requires 0 <= i < |Databases| => Databases[i] !in failing)
  }

  /** The stores after the cleaner of `d` ran. */
  function CleanStep(s: Stores, d: Db, failing: set<Db>): Stores
  {
    if d in failing then s else CleanOne(s, d)
  }

  /** The stores after the five cleaners ran in order: every store whose
      cleaner succeeded is emptied, the others are as they were. */
  function CleanedStores(s: Stores, failing: set<Db>): Stores
  {
    CleanStep(CleanStep(CleanStep(CleanStep(CleanStep(s, Postgres, failing), Mongo, failing), Neo4j, failing),
                        Elastic, failing), Redis, failing)
  }

  /** A store whose cleaner succeeded holds nothing any more but its table
      and collection names and its system indices; one whose cleaner
      failed is untouched. */
  lemma CleanedStoresSpec(s: Stores, failing: set<Db>)
    ensures var c := CleanedStores(s, failing);
      && (c.tables == if Postgres in failing then s.tables else Truncated(s.tables))
      && (c.collections == if Mongo in failing then s.collections else Emptied(s.collections))
      && (c.nodes == if Neo4j in failing then s.nodes else 0)
      && (Elastic in failing ==> c.indices == s.indices)
      && (Elastic !in failing ==> c.indices == Filter(s.indices, IsSystemIndex))
      && (Elastic !in failing ==> forall x :: x in c.indices <==> x in s.indices && StartsWith(x, "."))
      && (c.keys == if Redis in failing then s.keys else 0)
  {
    RemainingAfterUser(s.indices);
  }

  /** Cleaning what was already cleaned changes nothing. */
  lemma CleanedStoresTwice(s: Stores, failing: set<Db>)
    ensures CleanedStores(CleanedStores(s, failing), failing) == CleanedStores(s, failing)
  {
    var c := CleanedStores(s, failing);
    var c2 := CleanedStores(c, failing);
    CleanedStoresSpec(s, failing);
    CleanedStoresSpec(c, failing);
    if Elastic !in failing {
      var sys := Filter(s.indices, IsSystemIndex);
      FilterAll(sys, IsSystemIndex);
      assert c2.indices == c.indices;
    }
    assert c2.tables == c.tables;
    assert c2.collections == c.collections;
  }

  /** The stores whose cleaner failed, in the order of the `results` dict. */
  function Failed(results: seq<bool>): (failed: seq<Db>)
    requires |results| == |Databases|
  {
    FailedFrom(results, 0)
  }

  function FailedFrom(results: seq<bool>, i: nat): (failed: seq<Db>)
    requires |results| == |Databases| && i <= |Databases|
    ensures forall k :: 0 <= k < |failed| ==> i <= Slot(failed[k])
    ensures forall k, l :: 0 <= k < l < |failed| ==> Slot(failed[k]) < Slot(failed[l])
    ensures forall d :: d in failed <==> i <= Slot(d) && !results[Slot(d)]
    decreases |Databases| - i
  {
    if i == |Databases| then []
    else
      var rest := FailedFrom(results, i + 1);
      SlotOf(i);
      (if results[i] then [] else [Databases[i]]) + rest
  }

  /** `failed`: a store is listed exactly when its cleaner failed, the
      stores appear in postgres, mongo, neo4j, elastic, redis order, each
      once, and the list is empty exactly when `all(results.values())`. */
  lemma FailedSpec(results: seq<bool>)
    requires |results| == |Databases|
    ensures forall d :: d in Failed(results) <==> !results[Slot(d)]
    ensures forall k, l :: 0 <= k < l < |Failed(results)| ==> Slot(Failed(results)[k]) < Slot(Failed(results)[l])
    ensures Failed(results) == [] <==> forall i :: 0 <= i < |results| ==> results[i]
  {
    var failed := Failed(results);
    if failed == [] {
      forall i | 0 <= i < |results|
        ensures results[i]
      {
        SlotOf(i);
      }
    } else {
      assert !results[Slot(failed[0])];
    }
  }

  lemma SlotOf(i: nat)
    requires i < |Databases|
    ensures Slot(Databases[i]) == i
  {
    if i == 0 {} else if i == 1 {} else if i == 2 {} else if i == 3 {} else {}
  }

  // ---------------------------------------------------------------------
  // Connections
  // ---------------------------------------------------------------------

  /** A client object; `open` until its `close` succeeds. */
  datatype Conn = Conn(open: bool)

  /** The Elasticsearch and Redis clients are stored in `connections`
      before their `ping`; the other three are stored only once their
      constructor returned. */
  predicate StoredBeforeCheck(d: Db)
  {
    d == Elastic || d == Redis
  }

  /** The first store, in connection order, whose connect step raises;
      `|Databases|` when none does. */
  function FirstUnreachable(unreachable: set<Db>): (k: nat)
    ensures k <= |Databases|
    ensures k == |Databases| <==> unreachable == {}
    ensures k < |Databases| ==> Databases[k] in unreachable
    ensures forall i :: 0 <= i < k ==> Databases[i] !in unreachable
  {
    var k := ValidPrefix(Databases, (d: Db) => d !in unreachable);
    if k == |Databases| then
      assert forall d :: d !in unreachable by {
        forall d ensures d !in unreachable {
          assert Databases[Slot(d)] == d;
        }
      }
      k
    else k
  }

  /** The slots after the first `n` stores have been connected. */
  function OpenedUpTo(conns: seq<Option<Conn>>, n: nat): (r: seq<Option<Conn>>)
    requires |conns| == |Databases|
    ensures |r| == |Databases|
    ensures forall i :: 0 <= i < |r| ==> r[i] == if i < n then Some(Conn(true)) else conns[i]
  {
    seq(|Databases|, i requires 0 <= i < |Databases| => if i < n then Some(Conn(true)) else conns[i])
  }

  /** The slots when `connect_all` stops: every store before the first
      unreachable one is connected, that one too when its client was
      stored before its check failed, and the later slots keep what they
      held. */
  function Opened(conns: seq<Option<Conn>>, unreachable: set<Db>): seq<Option<Conn>>
    requires |conns| == |Databases|
  {
    var k := FirstUnreachable(unreachable);
    if k < |Databases| && StoredBeforeCheck(Databases[k]) then OpenedUpTo(conns, k + 1) else OpenedUpTo(conns, k)
  }

  /** One slot after `close_all_connections`: `None` is skipped, a close
      that raises leaves the client as it was, any other client is closed. */
  function CloseSlot(c: Option<Conn>, d: Db, closeFails: set<Db>): Option<Conn>
  {
    if c.None? || d in closeFails then c else Some(Conn(false))
  }

  function Closed(conns: seq<Option<Conn>>, closeFails: set<Db>): (r: seq<Option<Conn>>)
    requires |conns| == |Databases|
    ensures |r| == |Databases|
    ensures forall i :: 0 <= i < |r| ==> r[i] == CloseSlot(conns[i], Databases[i], closeFails)
  {
    seq(|Databases|, i requires 0 <= i < |Databases| => CloseSlot(conns[i], Databases[i], closeFails))
  }

  /** After closing, no slot holds a client it did not hold before, and
      every client left open is one whose own close raised: a failing
      close does not stop the others. */
  lemma ClosedSpec(conns: seq<Option<Conn>>, closeFails: set<Db>)
    requires |conns| == |Databases|
    ensures var r := Closed(conns, closeFails);
      && (forall i :: 0 <= i < |r| ==> (r[i].None? <==> conns[i].None?))
      && (forall i :: 0 <= i < |r| && r[i].Some? && r[i].value.open ==>
            Databases[i] in closeFails && conns[i] == r[i])
      && (forall i :: 0 <= i < |r| && conns[i].Some? && Databases[i] !in closeFails ==> r[i] == Some(Conn(false)))
  {
  }

  // ---------------------------------------------------------------------
  // The cleaner
  // ---------------------------------------------------------------------

  /** `DatabaseCleaner`. The environment is fixed: the stores whose connect
      step raises (`unreachable`), the stores whose calls raise once
      connected (`failing`), and the clients whose `close` raises. Only
      PostgreSQL's `connect` and the Elasticsearch and Redis pings contact
      their server during `connect_all`; `MongoClient(...)` and
      `GraphDatabase.driver(...)` do not, so for MongoDB and Neo4j
      `unreachable` means that the constructor itself raises (a bad
      argument, a missing configuration key), and a server that is down is
      a store in `failing`, seen by its cleaner's first call. */
  class DatabaseCleaner {
    /** `self.connections`, one slot per store in `Databases` order. */
    var connections: seq<Option<Conn>>
    var stores: Stores
    const unreachable: set<Db>
    const failing: set<Db>
    const closeFails: set<Db>

    predicate Valid()
      reads this
    {
      |connections| == |Databases|
    }

    /** `__init__`: every slot starts as `None`. */
    constructor (stores0: Stores, unreachable0: set<Db>, failing0: set<Db>, closeFails0: set<Db>)
      ensures Valid()
      ensures connections == [None, None, None, None, None]
      ensures stores == stores0 && unreachable == unreachable0 && failing == failing0 && closeFails == closeFails0
    {
      connections := [None, None, None, None, None];
      stores := stores0;
      unreachable := unreachable0;
      failing := failing0;
      closeFails := closeFails0;
    }

    /** One store's block in `connect_all`; `ok` is false when it raises. */
    method Connect(i: nat) returns (ok: bool)
      requires Valid() && i < |Databases|
      modifies this
      ensures Valid() && stores == old(stores)
      ensures ok <==> Databases[i] !in unreachable
      ensures connections ==
        if ok || StoredBeforeCheck(Databases[i]) then old(connections)[i := Some(Conn(true))] else old(connections)
    {
      ok := Databases[i] !in unreachable;
      if ok || StoredBeforeCheck(Databases[i]) {
        connections := connections[i := Some(Conn(true))];
      }
    }

    /** `connect_all`: the stores are connected in order; the first one
        that raises closes every client stored so far and makes the result
        `False`. */
    method ConnectAll() returns (ok: bool)
      requires Valid()
      modifies this
      ensures Valid() && stores == old(stores)
      ensures ok <==> unreachable == {}
      ensures ok ==> connections == [Some(Conn(true)), Some(Conn(true)), Some(Conn(true)), Some(Conn(true)), Some(Conn(true))]
      ensures !ok ==> connections == Closed(Opened(old(connections), unreachable), closeFails)
    {
      ghost var start := connections;
      ghost var k := FirstUnreachable(unreachable);
      ok := Connect(0);
      if ok { ok := Connect(1); }
      if ok { ok := Connect(2); }
      if ok { ok := Connect(3); }
      if ok { ok := Connect(4); }
      assert connections == Opened(start, unreachable);
      if !ok {
        CloseAllConnections();
      }
    }

    /** `close_all_connections`: every slot in order; `None` is skipped and
        a close that raises is logged and passed over. */
    method CloseAllConnections()
      requires Valid()
      modifies this
      ensures Valid() && stores == old(stores)
      ensures connections == Closed(old(connections), closeFails)
    {
      ghost var start := connections;
      var i := 0;
      while i < |Databases|
        invariant i <= |Databases| && |connections| == |Databases|
        invariant stores == old(stores)
        invariant forall j :: 0 <= j < |Databases| ==>
          connections[j] == if j < i then CloseSlot(start[j], Databases[j], closeFails) else start[j]
      {
        var c := connections[i];
        if c.Some? && Databases[i] !in closeFails {
          connections := connections[i := Some(Conn(false))];
        }
        i := i + 1;
      }
    }

    /** `clean_postgres`: when the store answers, every listed table is
        truncated; with no table it returns `True` straight away. */
    method CleanPostgres() returns (ok: bool)
      requires Valid() && connections[Slot(Postgres)].Some?
      modifies this
      ensures connections == old(connections)
      ensures ok <==> Postgres !in failing
      ensures stores == if ok then CleanOne(old(stores), Postgres) else old(stores)
    {
      if Postgres in failing {
        return false;
      }
      if stores.tables == [] {
        return true;
      }
      var i := 0;
      ghost var tables := stores.tables;
      while i < |stores.tables|
        invariant i <= |stores.tables| == |tables|
        invariant stores == old(stores).(tables := stores.tables)
        invariant connections == old(connections)
        invariant forall j :: 0 <= j < |tables| ==> stores.tables[j] == if j < i then Table(tables[j].name, 0) else tables[j]
      {
        stores := stores.(tables := stores.tables[i := Table(stores.tables[i].name, 0)]);
        i := i + 1;
      }
      ok := true;
    }

    /** `clean_mongodb`: when the store answers, every collection is
        emptied; with no collection it returns `True` straight away. */
    method CleanMongo() returns (ok: bool)
      requires Valid() && connections[Slot(Mongo)].Some?
      modifies this
      ensures connections == old(connections)
      ensures ok <==> Mongo !in failing
      ensures stores == if ok then CleanOne(old(stores), Mongo) else old(stores)
    {
      if Mongo in failing {
        return false;
      }
      if stores.collections == [] {
        return true;
      }
      var i := 0;
      ghost var cols := stores.collections;
      while i < |stores.collections|
        invariant i <= |stores.collections| == |cols|
        invariant stores == old(stores).(collections := stores.collections)
        invariant connections == old(connections)
        invariant forall j :: 0 <= j < |cols| ==>
          stores.collections[j] == if j < i then Collection(cols[j].name, 0) else cols[j]
      {
        stores := stores.(collections := stores.collections[i := Collection(stores.collections[i].name, 0)]);
        i := i + 1;
      }
      ok := true;
    }

    /** `clean_neo4j`: `DETACH DELETE` of every node, unless the count is
        already zero. */
    method CleanNeo4j() returns (ok: bool)
      requires Valid() && connections[Slot(Neo4j)].Some?
      modifies this
      ensures connections == old(connections)
      ensures ok <==> Neo4j !in failing
      ensures stores == if ok then CleanOne(old(stores), Neo4j) else old(stores)
    {
      if Neo4j in failing {
        return false;
      }
      if stores.nodes == 0 {
        return true;
      }
      stores := stores.(nodes := 0);
      ok := true;
    }

    /** `clean_elasticsearch`: each user index is deleted in listing order;
        with no user index it returns `True` straight away. */
    method CleanElastic() returns (ok: bool)
      requires Valid() && connections[Slot(Elastic)].Some?
      modifies this
      ensures connections == old(connections)
      ensures ok <==> Elastic !in failing
      ensures stores == if ok then CleanOne(old(stores), Elastic) else old(stores)
    {
      if Elastic in failing {
        return false;
      }
      var user := UserIndices(stores.indices);
      ghost var indices := stores.indices;
      RemainingNone(indices);
      if user == [] {
        return true;
      }
      var i := 0;
      assert user[..0] == [];
      while i < |user|
        invariant i <= |user|
        invariant stores == old(stores).(indices := Remaining(indices, user[..i]))
        invariant connections == old(connections)
      {
        RemainingStep(indices, user[..i], user[i]);
        assert user[..i] + [user[i]] == user[..i + 1];
        stores := stores.(indices := Deleted(stores.indices, user[i]));
        i := i + 1;
      }
      assert user[..i] == user;
      ok := true;
    }

    /** `clean_redis`: `FLUSHDB`, unless `DBSIZE` is already zero. */
    method CleanRedis() returns (ok: bool)
      requires Valid() && connections[Slot(Redis)].Some?
      modifies this
      ensures connections == old(connections)
      ensures ok <==> Redis !in failing
      ensures stores == if ok then CleanOne(old(stores), Redis) else old(stores)
    {
      if Redis in failing {
        return false;
      }
      if stores.keys == 0 {
        return true;
      }
      stores := stores.(keys := 0);
      ok := true;
    }

    /** `clean_all_databases`: nothing is cleaned when `connect_all` fails;
        otherwise all five cleaners run whatever the earlier ones returned,
        the connections are closed, and the result is `True` exactly when
        every cleaner succeeded. `failed` is the list the error line
        reports. */
    method CleanAllDatabases() returns (ok: bool, failed: seq<Db>)
      requires Valid()
      modifies this
      ensures Valid()
      ensures unreachable != {} ==>
        && !ok && failed == [] && stores == old(stores)
        && connections == Closed(Opened(old(connections), unreachable), closeFails)
      ensures unreachable == {} ==>
        && stores == CleanedStores(old(stores), failing)
        && connections == Closed([Some(Conn(true)), Some(Conn(true)), Some(Conn(true)), Some(Conn(true)), Some(Conn(true))], closeFails)
        && failed == Failed(Results(failing))
        && (ok <==> failed == [])
    {
      var connected := ConnectAll();
      if !connected {
        return false, [];
      }
      var results := CleanEach();
      CloseAllConnections();
      failed := Failed(results);
      FailedSpec(results);
      ok := results[0] && results[1] && results[2] && results[3] && results[4];
    }

    /** The `results` dict: the five cleaners called in order, each whatever
        the earlier ones returned. */
    method CleanEach() returns (results: seq<bool>)
      requires Valid()
      requires forall i :: 0 <= i < |Databases| ==> connections[i].Some?
      modifies this
      ensures connections == old(connections)
      ensures results == Results(failing)
      ensures stores == CleanedStores(old(stores), failing)
    {
      ghost var s0 := stores;
      var pg := CleanPostgres();
      ghost var s1 := stores;
      assert s1 == CleanStep(s0, Postgres, failing);
      var mongo := CleanMongo();
      ghost var s2 := stores;
      assert s2 == CleanStep(s1, Mongo, failing);
      var neo := CleanNeo4j();
      ghost var s3 := stores;
      assert s3 == CleanStep(s2, Neo4j, failing);
      var es := CleanElastic();
      ghost var s4 := stores;
      assert s4 == CleanStep(s3, Elastic, failing);
      var rd := CleanRedis();
      assert stores == CleanStep(s4, Redis, failing);
      results := [pg, mongo, neo, es, rd];
      assert forall i :: 0 <= i < |Databases| ==> results[i] == Results(failing)[i];
    }
  }
}
