/** The session-type cache (`sync/redis/create_redis.py`) and its lookups
    (`SessionTypeSearch`, defined identically in `create_redis.py` and
    `lab1/session_type_search.py`): each session type becomes a hash
    `session_type:{id}` and its id joins the set
    `index:session_type:name:{lower-case name}`. */
module SessionTypes {
  import opened Common
  import opened RedisStore

  /** One row of `SELECT session_type_id, name FROM Session_Types`. */
  datatype SessionTypeRow = SessionTypeRow(id: int, name: Option<string>)

  /** HSET refuses a `None` name. */
  predicate Storable(row: SessionTypeRow)
  {
    row.name.Some?
  }

  predicate AllStorable(rows: seq<SessionTypeRow>)
  {
    forall i :: 0 <= i < |rows| ==> Storable(rows[i])
  }

  const TypePrefix: string := "session_type:"
  const IndexPrefix: string := "index:session_type:"
  const NamePrefix: string := "index:session_type:name:"

  function TypeKey(id: string): string
  {
    TypePrefix + id
  }

  function NameKey(v: string): string
  {
    NamePrefix + v
  }

  function TypeHash(row: SessionTypeRow): Hash
    requires Storable(row)
  {
    map["id" := IntToString(row.id), "name" := row.name.value]
  }

  // ---------------------------------------------------------------------
  // The rebuild
  // ---------------------------------------------------------------------

  /** HSET of the hash, then SADD of the id to the name index. */
  function WriteType(s: Snapshot, row: SessionTypeRow): Snapshot
    requires Storable(row)
  {
    var id := IntToString(row.id);
    WithMember(WithFields(s, TypeKey(id), TypeHash(row)), NameKey(Lower(row.name.value)), id)
  }

  function WriteTypes(s: Snapshot, rows: seq<SessionTypeRow>): Snapshot
    requires AllStorable(rows)
  {
    if rows == [] then s
    else
      assert AllStorable(rows[..|rows| - 1]);
      WriteType(WriteTypes(s, rows[..|rows| - 1]), rows[|rows| - 1])
  }

  /** How many leading rows HSET accepts before the first that raises. */
  function StorablePrefix(rows: seq<SessionTypeRow>): (n: nat)
    ensures n <= |rows|
    ensures AllStorable(rows[..n])
    ensures n < |rows| ==> !Storable(rows[n])
  {
    if rows == [] || !Storable(rows[0]) then 0
    else
      var n := 1 + StorablePrefix(rows[1..]);
      assert forall i :: 1 <= i < n ==> rows[..n][i] == rows[1..][..n - 1][i - 1];
      n
  }

  function Cleared(s: Snapshot): Snapshot
  {
    ClearPrefix(ClearPrefix(s, TypePrefix), IndexPrefix)
  }

  /** The key space after `sync_session_types_to_redis`. */
  function Synced(s: Snapshot, rows: seq<SessionTypeRow>): Snapshot
  {
    WriteTypes(Cleared(s), rows[..StorablePrefix(rows)])
  }

  lemma {:induction false} StorablePrefixStops(rows: seq<SessionTypeRow>, i: nat)
    requires i < |rows| && AllStorable(rows[..i]) && !Storable(rows[i])
    ensures StorablePrefix(rows) == i
  {
    if i > 0 {
      assert rows[..i][0] == rows[0];
      assert rows[1..][i - 1] == rows[i];
      var tail := rows[1..][..i - 1];
      assert AllStorable(tail) by {
        forall j | 0 <= j < i - 1 ensures Storable(tail[j]) {
          assert tail[j] == rows[..i][j + 1];
        }
      }
      StorablePrefixStops(rows[1..], i - 1);
    }
  }

  lemma {:induction false} StorablePrefixAll(rows: seq<SessionTypeRow>)
    requires AllStorable(rows)
    ensures StorablePrefix(rows) == |rows|
  {
    if rows != [] {
      assert Storable(rows[0]);
      assert AllStorable(rows[1..]) by {
        forall j | 0 <= j < |rows| - 1 ensures Storable(rows[1..][j]) {
          assert rows[1..][j] == rows[j + 1];
        }
      }
      StorablePrefixAll(rows[1..]);
    }
  }

  lemma AllStorableNext(rows: seq<SessionTypeRow>, i: nat)
    requires i < |rows| && AllStorable(rows[..i]) && Storable(rows[i])
    ensures AllStorable(rows[..i + 1]) && rows[..i + 1][..i] == rows[..i]
  {
    var next := rows[..i + 1];
    forall j | 0 <= j < i + 1 ensures Storable(next[j]) {
      if j < i {
        assert next[j] == rows[..i][j];
      }
    }
  }

  /** `sync_session_types_to_redis`, with the `fetchall()` rows as input. */
  method SyncSessionTypesToRedis(r: Redis, rows: seq<SessionTypeRow>) returns (ok: bool)
    modifies r
    ensures r.State() == Synced(old(r.State()), rows)
    ensures ok <==> AllStorable(rows)
  {
    DeleteMatching(r, TypePrefix);
    DeleteMatching(r, IndexPrefix);
    ghost var c := r.State();
    var i := 0;
    while i < |rows|
      invariant 0 <= i <= |rows|
      invariant AllStorable(rows[..i])
      invariant r.State() == WriteTypes(c, rows[..i])
    {
      var row := rows[i];
      if !Storable(row) {
        StorablePrefixStops(rows, i);
        return false;
      }
      AllStorableNext(rows, i);
      var id := IntToString(row.id);
      r.HSet(TypeKey(id), TypeHash(row));
      r.SAdd(NameKey(Lower(row.name.value)), id);
      i := i + 1;
    }
    assert rows[..i] == rows;
    StorablePrefixAll(rows);
    return true;
  }

  // ---------------------------------------------------------------------
  // Lookups (`SessionTypeSearch`)
  // ---------------------------------------------------------------------

  /** `get_by_id`: the hash `session_type:{id}`, `{}` when missing. */
  function GetById(s: Snapshot, id: int): Hash
  {
    HashAt(s, TypeKey(IntToString(id)))
  }

  /** `get_by_name`: one hash per member of the index set of the lower-cased
      name, keyed by the member id. */
  function GetByName(s: Snapshot, name: string): (r: map<string, Hash>)
    ensures r.Keys == MembersAt(s, NameKey(Lower(name)))
    ensures forall id :: id in r ==> r[id] == HashAt(s, TypeKey(id))
    ensures MembersAt(s, NameKey(Lower(name))) == {} ==> r == map[]
  {
    FetchAll(s, TypePrefix, MembersAt(s, NameKey(Lower(name))))
  }

  /** The lookup ignores the casing of its argument. */
  lemma GetByNameIgnoresCase(s: Snapshot, name: string)
    ensures GetByName(s, name) == GetByName(s, Lower(name))
  {
    LowerIdempotent(name);
  }

  // ---------------------------------------------------------------------
  // Properties of the rebuild
  // ---------------------------------------------------------------------

  lemma KeyShapes(x: string, v: string)
    ensures StartsWith(TypeKey(x), TypePrefix) && !StartsWith(TypeKey(x), IndexPrefix)
    ensures StartsWith(NameKey(v), IndexPrefix) && !StartsWith(NameKey(v), TypePrefix)
    ensures TypeKey(x)[|TypePrefix|..] == x && NameKey(v)[|NamePrefix|..] == v
  {
    assert TypeKey(x)[..|TypePrefix|] == TypePrefix;
    assert NameKey(v) == IndexPrefix + ("name:" + v);
    assert NameKey(v)[..|IndexPrefix|] == IndexPrefix;
    assert TypeKey(x)[0] != IndexPrefix[0];
    assert NameKey(v)[0] != TypePrefix[0];
  }

  lemma NameKeyInjective(a: string, b: string)
    requires NameKey(a) == NameKey(b)
    ensures a == b
  {
    KeyShapes("", a);
    KeyShapes("", b);
  }

  lemma TypeKeyInjective(a: string, b: string)
    requires TypeKey(a) == TypeKey(b)
    ensures a == b
  {
    KeyShapes(a, "");
    KeyShapes(b, "");
  }

  predicate OutsideTypeKeys(k: string)
  {
    !StartsWith(k, TypePrefix) && !StartsWith(k, IndexPrefix)
  }

  /** The last row with a given id, if any. */
  function LastWith(rows: seq<SessionTypeRow>, id: int): (r: Option<SessionTypeRow>)
    ensures r.Some? ==> r.value in rows && r.value.id == id
    ensures r.None? ==> forall i :: 0 <= i < |rows| ==> rows[i].id != id
  {
    if rows == [] then None
    else if rows[|rows| - 1].id == id then Some(rows[|rows| - 1])
    else
      var r := LastWith(rows[..|rows| - 1], id);
      assert forall i :: 0 <= i < |rows| - 1 ==> rows[..|rows| - 1][i] == rows[i];
      r
  }

  /** The ids of the rows whose lower-cased name is `v`. */
  function NamedIds(rows: seq<SessionTypeRow>, v: string): (ids: set<string>)
    requires AllStorable(rows)
    ensures forall m :: m in ids <==>
      exists i :: 0 <= i < |rows| && Lower(rows[i].name.value) == v && IntToString(rows[i].id) == m
  {
    if rows == [] then {}
    else
      var init := rows[..|rows| - 1];
      var last := rows[|rows| - 1];
      assert AllStorable(init);
      assert forall i :: 0 <= i < |init| ==> init[i] == rows[i];
      NamedIds(init, v) + (if Lower(last.name.value) == v then {IntToString(last.id)} else {})
  }

  lemma {:induction false} WriteTypesFrame(c: Snapshot, rows: seq<SessionTypeRow>, k: string)
    requires AllStorable(rows) && OutsideTypeKeys(k)
    ensures var r := WriteTypes(c, rows);
      && (k in r.hashes <==> k in c.hashes) && HashAt(r, k) == HashAt(c, k)
      && (k in r.sets <==> k in c.sets) && MembersAt(r, k) == MembersAt(c, k)
    decreases |rows|
  {
    if rows != [] {
      var init := rows[..|rows| - 1];
      var last := rows[|rows| - 1];
      assert AllStorable(init);
      WriteTypesFrame(c, init, k);
      KeyShapes(IntToString(last.id), Lower(last.name.value));
    }
  }

  lemma {:induction false} WriteTypesHash(c: Snapshot, rows: seq<SessionTypeRow>, id: int)
    requires AllStorable(rows)
    requires TypeKey(IntToString(id)) !in c.hashes
    ensures HashAt(WriteTypes(c, rows), TypeKey(IntToString(id))) ==
      if LastWith(rows, id).Some? then TypeHash(LastWith(rows, id).value) else map[]
    decreases |rows|
  {
    if rows != [] {
      var init := rows[..|rows| - 1];
      var last := rows[|rows| - 1];
      assert AllStorable(init);
      WriteTypesHash(c, init, id);
      if last.id != id && TypeKey(IntToString(last.id)) == TypeKey(IntToString(id)) {
        TypeKeyInjective(IntToString(last.id), IntToString(id));
        IntToStringInjective(last.id, id);
      }
    }
  }

  lemma {:induction false} WriteTypesIndex(c: Snapshot, rows: seq<SessionTypeRow>, v: string)
    requires AllStorable(rows)
    requires NameKey(v) !in c.sets
    ensures MembersAt(WriteTypes(c, rows), NameKey(v)) == NamedIds(rows, v)
    decreases |rows|
  {
    if rows != [] {
      var init := rows[..|rows| - 1];
      var last := rows[|rows| - 1];
      assert AllStorable(init);
      WriteTypesIndex(c, init, v);
      if Lower(last.name.value) != v && NameKey(Lower(last.name.value)) == NameKey(v) {
        NameKeyInjective(Lower(last.name.value), v);
      }
    }
  }

  /** The rebuild deletes and writes only `session_type:*` and
      `index:session_type:*` keys. */
  lemma SyncLeavesOtherKeys(s: Snapshot, rows: seq<SessionTypeRow>, k: string)
    requires OutsideTypeKeys(k)
    ensures var t := Synced(s, rows);
      && HashAt(t, k) == HashAt(s, k) && MembersAt(t, k) == MembersAt(s, k)
      && (k in KeySpace(t) <==> k in KeySpace(s))
  {
    var c := Cleared(s);
    WriteTypesFrame(c, rows[..StorablePrefix(rows)], k);
  }

  /** After the rebuild, `get_by_id` returns `{id, name}` of the last stored
      row with that id, and `{}` when there is none. */
  lemma GetByIdAfterSync(s: Snapshot, rows: seq<SessionTypeRow>, id: int)
    ensures var last := LastWith(rows[..StorablePrefix(rows)], id);
      GetById(Synced(s, rows), id) == if last.Some? then TypeHash(last.value) else map[]
  {
    KeyShapes(IntToString(id), "");
    var c := Cleared(s);
    assert TypeKey(IntToString(id)) !in KeySpace(c);
    WriteTypesHash(c, rows[..StorablePrefix(rows)], id);
  }

  /** After the rebuild, `get_by_name` with any casing of a name returns
      one hash for each id of a stored row with that name, whatever the
      casing the row used. */
  lemma GetByNameAfterSync(s: Snapshot, rows: seq<SessionTypeRow>, name: string)
    ensures var stored := rows[..StorablePrefix(rows)];
      var r := GetByName(Synced(s, rows), name);
      && (forall m :: m in r <==> exists i :: 0 <= i < |stored| && Lower(stored[i].name.value) == Lower(name) && IntToString(stored[i].id) == m)
      && (forall id: int :: IntToString(id) in r ==> LastWith(stored, id).Some? && r[IntToString(id)] == TypeHash(LastWith(stored, id).value))
  {
    var stored := rows[..StorablePrefix(rows)];
    var c := Cleared(s);
    KeyShapes("", Lower(name));
    assert NameKey(Lower(name)) !in KeySpace(c);
    WriteTypesIndex(c, stored, Lower(name));
    forall id: int | IntToString(id) in GetByName(Synced(s, rows), name)
      ensures LastWith(stored, id).Some?
      ensures GetByName(Synced(s, rows), name)[IntToString(id)] == TypeHash(LastWith(stored, id).value)
    {
      var i :| 0 <= i < |stored| && Lower(stored[i].name.value) == Lower(name) && IntToString(stored[i].id) == IntToString(id);
      IntToStringInjective(stored[i].id, id);
      GetByIdAfterSync(s, rows, id);
    }
  }
}
