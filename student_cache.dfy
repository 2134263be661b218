/** The student cache (`redis_sync.py`): every student row becomes a hash
    `student:{id}` plus membership of its id in index sets
    `index:student:{kind}:{value}`, rebuilt from scratch on each run; the
    searches read the index sets back. */
module StudentCache {
  import opened Common
  import opened RedisStore

  /** One row of `SELECT s.id, s.name, s.age, s.mail, g.name AS group_name
      FROM Students s JOIN St_group g ...`; NULL columns are `None`. */
  datatype StudentRow = StudentRow(
    id: int,
    name: Option<string>,
    age: Option<int>,
    mail: Option<string>,
    groupName: Option<string>)

  /** redis-py refuses `None` as a hash value, so HSET succeeds only for a
      row whose columns are all present. */
  predicate Storable(row: StudentRow)
  {
    row.name.Some? && row.age.Some? && row.mail.Some? && row.groupName.Some?
  }

  /** The index families; each has its own key prefix. */
  datatype IndexKind = ByName | ByEmail | ByGroup | BySearch

  function KindText(kind: IndexKind): string
  {
    match kind
    case ByName => "name"
    case ByEmail => "email"
    case ByGroup => "group"
    case BySearch => "search"
  }

  const StudentPrefix: string := "student:"
  const IndexPrefix: string := "index:student:"

  /** `index:student:{kind}:`, the prefix every key of one family has. */
  function KindPrefix(kind: IndexKind): string
  {
    IndexPrefix + KindText(kind) + ":"
  }

  function StudentKey(id: string): string
  {
    StudentPrefix + id
  }

  function IndexKey(kind: IndexKind, v: string): string
  {
    KindPrefix(kind) + v
  }

  /** The id as Redis stores it: the decimal text of the integer. */
  function IdText(row: StudentRow): string
  {
    IntToString(row.id)
  }

  /** The hash written for a row. */
  function RowHash(row: StudentRow): Hash
    requires Storable(row)
  {
    map["id" := IdText(row), "name" := row.name.value, "age" := IntToString(row.age.value),
        "mail" := row.mail.value, "group" := row.groupName.value]
  }

  /** `f"{name} {mail} {group_name}".lower().split()`. */
  function SearchTerms(row: StudentRow): seq<string>
    requires Storable(row)
  {
    Split(Lower(row.name.value + " " + row.mail.value + " " + row.groupName.value))
  }

  /** The values under which a row's id is indexed in each family; the
      e-mail family only when the address is non-empty (`if mail:`). */
  function Values(row: StudentRow, kind: IndexKind): set<string>
    requires Storable(row)
  {
    match kind
    case ByName => {Lower(row.name.value)}
    case ByEmail => if row.mail.value != "" then {Lower(row.mail.value)} else {}
    case ByGroup => {Lower(row.groupName.value)}
    case BySearch => set t | t in SearchTerms(row)
  }

  // ---------------------------------------------------------------------
  // The rebuild as a function of the old key space and the rows
  // ---------------------------------------------------------------------

  /** Every index key a row adds its id to. */
  function IndexKeysOf(row: StudentRow): set<string>
    requires Storable(row)
  {
    (set v | v in Values(row, ByName) :: IndexKey(ByName, v)) +
    (set v | v in Values(row, ByEmail) :: IndexKey(ByEmail, v)) +
    (set v | v in Values(row, ByGroup) :: IndexKey(ByGroup, v)) +
    (set v | v in Values(row, BySearch) :: IndexKey(BySearch, v))
  }

  /** `for term in search_terms: r.sadd(f"index:student:search:{term}", id)`. */
  function AddTerms(s: Snapshot, terms: seq<string>, id: string): (r: Snapshot)
  {
    if terms == [] then s
    else
      var init := terms[..|terms| - 1];
      var last := terms[|terms| - 1];
      assert forall t :: t in terms <==> t in init || t == last;
      WithMember(AddTerms(s, init, id), IndexKey(BySearch, last), id)
  }

  /** The SADDs of one row's id to its name, e-mail and group index sets. */
  function AddFieldIndexes(s: Snapshot, row: StudentRow): Snapshot
    requires Storable(row)
  {
    var id := IdText(row);
    var s2 := WithMember(s, IndexKey(ByName, Lower(row.name.value)), id);
    var s3 := if row.mail.value != "" then WithMember(s2, IndexKey(ByEmail, Lower(row.mail.value)), id) else s2;
    WithMember(s3, IndexKey(ByGroup, Lower(row.groupName.value)), id)
  }

  /** The writes of one row, in the order the script issues them. */
  function WriteRow(s: Snapshot, row: StudentRow): Snapshot
    requires Storable(row)
  {
    var id := IdText(row);
    var s1 := WithFields(s, StudentKey(id), RowHash(row));
    AddTerms(AddFieldIndexes(s1, row), SearchTerms(row), id)
  }

  predicate AllStorable(rows: seq<StudentRow>)
  {
    forall i :: 0 <= i < |rows| ==> Storable(rows[i])
  }

  function WriteRows(s: Snapshot, rows: seq<StudentRow>): Snapshot
    requires AllStorable(rows)
  {
    if rows == [] then s
    else
      assert AllStorable(rows[..|rows| - 1]);
      WriteRow(WriteRows(s, rows[..|rows| - 1]), rows[|rows| - 1])
  }

  /** How many leading rows HSET accepts before the first that raises. */
  function StorablePrefix(rows: seq<StudentRow>): (n: nat)
    ensures n <= |rows|
    ensures AllStorable(rows[..n])
    ensures n < |rows| ==> !Storable(rows[n])
  {
    if rows == [] || !Storable(rows[0]) then 0
    else 1 + StorablePrefix(rows[1..])
  }

  lemma {:induction false} StorablePrefixStops(rows: seq<StudentRow>, i: nat)
    requires i < |rows| && AllStorable(rows[..i]) && !Storable(rows[i])
    ensures StorablePrefix(rows) == i
  {
    if i > 0 {
      assert rows[..i][0] == rows[0];
      assert rows[1..][i - 1] == rows[i];
      var tail := rows[1..][..i - 1];
      assert AllStorable(tail) by {
        forall j | 0 <= j < i - 1 ensures Storable(tail[j]) {
          assert tail[j] == rows[..i][j + 1];
        }
      }
      StorablePrefixStops(rows[1..], i - 1);
    }
  }

  lemma AllStorableNext(rows: seq<StudentRow>, i: nat)
    requires i < |rows| && AllStorable(rows[..i]) && Storable(rows[i])
    ensures AllStorable(rows[..i + 1]) && rows[..i + 1][..i] == rows[..i]
  {
    var next := rows[..i + 1];
    forall j | 0 <= j < i + 1 ensures Storable(next[j]) {
      if j < i {
        assert next[j] == rows[..i][j];
      }
    }
  }

  lemma {:induction false} StorablePrefixAll(rows: seq<StudentRow>)
    requires AllStorable(rows)
    ensures StorablePrefix(rows) == |rows|
  {
    if rows != [] {
      assert Storable(rows[0]);
      assert AllStorable(rows[1..]) by {
        forall j | 0 <= j < |rows| - 1 ensures Storable(rows[1..][j]) {
          assert rows[1..][j] == rows[j + 1];
        }
      }
      StorablePrefixAll(rows[1..]);
    }
  }

  /** Both families of student keys deleted. */
  function Cleared(s: Snapshot): Snapshot
  {
    ClearPrefix(ClearPrefix(s, StudentPrefix), IndexPrefix)
  }

  /** The key space after `sync_students_to_redis`: the student keys
      cleared, then the rows written up to the first that raises. */
  function Synced(s: Snapshot, rows: seq<StudentRow>): Snapshot
  {
    WriteRows(Cleared(s), rows[..StorablePrefix(rows)])
  }

  /** The writes of one row: HSET of the hash, then SADD of the id to each
      of its index sets. */
  method WriteStudent(r: Redis, row: StudentRow)
    requires Storable(row)
    modifies r
    ensures r.State() == WriteRow(old(r.State()), row)
  {
    var id := IntToString(row.id);
    r.HSet(StudentKey(id), RowHash(row));
    r.SAdd(IndexKey(ByName, Lower(row.name.value)), id);
    if row.mail.value != "" {
      r.SAdd(IndexKey(ByEmail, Lower(row.mail.value)), id);
    }
    r.SAdd(IndexKey(ByGroup, Lower(row.groupName.value)), id);
    var terms := SearchTerms(row);
    ghost var s4 := r.State();
    var j := 0;
    while j < |terms|
      invariant 0 <= j <= |terms|
      invariant r.State() == AddTerms(s4, terms[..j], id)
    {
      assert terms[..j + 1][..j] == terms[..j];
      r.SAdd(IndexKey(BySearch, terms[j]), id);
      j := j + 1;
    }
    assert terms[..j] == terms;
  }

  /** `sync_students_to_redis`, with the `fetchall()` rows as input; it
      succeeds exactly when every row is storable, and an error leaves the
      writes made before it. */
  method SyncStudentsToRedis(r: Redis, rows: seq<StudentRow>) returns (ok: bool)
    modifies r
    ensures r.State() == Synced(old(r.State()), rows)
    ensures ok <==> AllStorable(rows)
  {
    DeleteMatching(r, StudentPrefix);
    DeleteMatching(r, IndexPrefix);
    ghost var c := r.State();
    var i := 0;
    while i < |rows|
      invariant 0 <= i <= |rows|
      invariant AllStorable(rows[..i])
      invariant r.State() == WriteRows(c, rows[..i])
    {
      if !Storable(rows[i]) {
        StorablePrefixStops(rows, i);
        return false;
      }
      AllStorableNext(rows, i);
      WriteStudent(r, rows[i]);
      i := i + 1;
    }
    assert rows[..i] == rows;
    StorablePrefixAll(rows);
    return true;
  }

  // ---------------------------------------------------------------------
  // Key shapes
  // ---------------------------------------------------------------------

  lemma StudentKeyShape(x: string)
    ensures StartsWith(StudentKey(x), StudentPrefix) && !StartsWith(StudentKey(x), IndexPrefix)
    ensures StudentKey(x)[|StudentPrefix|..] == x
  {
    assert StudentKey(x)[..|StudentPrefix|] == StudentPrefix;
    assert StudentKey(x)[0] != IndexPrefix[0];
  }

  lemma IndexKeyShape(kind: IndexKind, v: string)
    ensures StartsWith(IndexKey(kind, v), IndexPrefix) && !StartsWith(IndexKey(kind, v), StudentPrefix)
    ensures StartsWith(IndexKey(kind, v), KindPrefix(kind))
    ensures IndexKey(kind, v)[|KindPrefix(kind)|..] == v
  {
    var k := IndexKey(kind, v);
    assert k == IndexPrefix + (KindText(kind) + ":" + v);
    assert k[..|IndexPrefix|] == IndexPrefix;
    assert k[..|KindPrefix(kind)|] == KindPrefix(kind);
    assert k[0] != StudentPrefix[0];
  }

  /** The four families have distinct prefixes. */
  lemma KindOfIndexKey(kind: IndexKind, other: IndexKind, v: string)
    requires StartsWith(IndexKey(kind, v), KindPrefix(other))
    ensures kind == other
  {
    var k := IndexKey(kind, v);
    assert k[14] == KindText(kind)[0];
    assert KindPrefix(other)[14] == KindText(other)[0];
    assert k[..|KindPrefix(other)|][14] == k[14];
  }

  // ---------------------------------------------------------------------
  // What the writes of one row do
  // ---------------------------------------------------------------------

  function SearchKeys(terms: seq<string>): set<string>
  {
    set t | t in terms :: IndexKey(BySearch, t)
  }

  lemma {:induction false} AddTermsEffect(s: Snapshot, terms: seq<string>, id: string)
    ensures AddTerms(s, terms, id).hashes == s.hashes
    ensures AddTerms(s, terms, id).sets.Keys == s.sets.Keys + SearchKeys(terms)
    ensures forall k :: MembersAt(AddTerms(s, terms, id), k) ==
                        MembersAt(s, k) + (if k in SearchKeys(terms) then {id} else {})
    decreases |terms|
  {
    if terms != [] {
      var init := terms[..|terms| - 1];
      var last := terms[|terms| - 1];
      assert terms == init + [last];
      assert SearchKeys(terms) == SearchKeys(init) + {IndexKey(BySearch, last)};
      AddTermsEffect(s, init, id);
    }
  }

  function FieldKeys(row: StudentRow): set<string>
    requires Storable(row)
  {
    (set v | v in Values(row, ByName) :: IndexKey(ByName, v)) +
    (set v | v in Values(row, ByEmail) :: IndexKey(ByEmail, v)) +
    (set v | v in Values(row, ByGroup) :: IndexKey(ByGroup, v))
  }

  lemma AddFieldIndexesEffect(s: Snapshot, row: StudentRow)
    requires Storable(row)
    ensures AddFieldIndexes(s, row).hashes == s.hashes
    ensures AddFieldIndexes(s, row).sets.Keys == s.sets.Keys + FieldKeys(row)
    ensures forall k :: MembersAt(AddFieldIndexes(s, row), k) ==
                        MembersAt(s, k) + (if k in FieldKeys(row) then {IdText(row)} else {})
  {
    FieldKeysListed(row);
    if row.mail.value != "" {
      AddFieldIndexesWithMail(s, row);
    } else {
      AddFieldIndexesNoMail(s, row);
    }
  }

  lemma AddFieldIndexesWithMail(s: Snapshot, row: StudentRow)
    requires Storable(row) && row.mail.value != ""
    ensures var K := {IndexKey(ByName, Lower(row.name.value)), IndexKey(ByEmail, Lower(row.mail.value)),
                      IndexKey(ByGroup, Lower(row.groupName.value))};
      && AddFieldIndexes(s, row).hashes == s.hashes
      && AddFieldIndexes(s, row).sets.Keys == s.sets.Keys + K
      && forall k :: MembersAt(AddFieldIndexes(s, row), k) == MembersAt(s, k) + (if k in K then {IdText(row)} else {})
  {
    var id := IdText(row);
    var s2 := WithMember(s, IndexKey(ByName, Lower(row.name.value)), id);
    var s3 := WithMember(s2, IndexKey(ByEmail, Lower(row.mail.value)), id);
    WithMemberEffect(s, IndexKey(ByName, Lower(row.name.value)), id);
    WithMemberEffect(s2, IndexKey(ByEmail, Lower(row.mail.value)), id);
    WithMemberEffect(s3, IndexKey(ByGroup, Lower(row.groupName.value)), id);
  }

  lemma AddFieldIndexesNoMail(s: Snapshot, row: StudentRow)
    requires Storable(row) && row.mail.value == ""
    ensures var K := {IndexKey(ByName, Lower(row.name.value)), IndexKey(ByGroup, Lower(row.groupName.value))};
      && AddFieldIndexes(s, row).hashes == s.hashes
      && AddFieldIndexes(s, row).sets.Keys == s.sets.Keys + K
      && forall k :: MembersAt(AddFieldIndexes(s, row), k) == MembersAt(s, k) + (if k in K then {IdText(row)} else {})
  {
    var id := IdText(row);
    var s2 := WithMember(s, IndexKey(ByName, Lower(row.name.value)), id);
    WithMemberEffect(s, IndexKey(ByName, Lower(row.name.value)), id);
    WithMemberEffect(s2, IndexKey(ByGroup, Lower(row.groupName.value)), id);
  }

  lemma FieldKeysListed(row: StudentRow)
    requires Storable(row)
    ensures FieldKeys(row) == {IndexKey(ByName, Lower(row.name.value))}
                            + (if row.mail.value != "" then {IndexKey(ByEmail, Lower(row.mail.value))} else {})
                            + {IndexKey(ByGroup, Lower(row.groupName.value))}
  {
    assert (set v | v in Values(row, ByName) :: IndexKey(ByName, v)) == {IndexKey(ByName, Lower(row.name.value))};
    assert (set v | v in Values(row, ByGroup) :: IndexKey(ByGroup, v)) == {IndexKey(ByGroup, Lower(row.groupName.value))};
    assert (set v | v in Values(row, ByEmail) :: IndexKey(ByEmail, v)) ==
      if row.mail.value != "" then {IndexKey(ByEmail, Lower(row.mail.value))} else {};
  }

  lemma IndexKeysSplit(row: StudentRow)
    requires Storable(row)
    ensures IndexKeysOf(row) == FieldKeys(row) + SearchKeys(SearchTerms(row))
  {
    assert SearchKeys(SearchTerms(row)) == set v | v in Values(row, BySearch) :: IndexKey(BySearch, v);
  }

  /** One row sets its hash (merged into what was there) and adds its id to
      exactly the index sets `IndexKeysOf(row)`; no other key changes. */
  lemma WriteRowHashes(s: Snapshot, row: StudentRow)
    requires Storable(row)
    ensures var r := WriteRow(s, row);
      && r.hashes.Keys == s.hashes.Keys + {StudentKey(IdText(row))}
      && HashAt(r, StudentKey(IdText(row))) == HashAt(s, StudentKey(IdText(row))) + RowHash(row)
      && (forall k :: k != StudentKey(IdText(row)) ==> HashAt(r, k) == HashAt(s, k))
  {
    var s1 := WithFields(s, StudentKey(IdText(row)), RowHash(row));
    assert WriteRow(s, row).hashes == s1.hashes by {
      AddFieldIndexesEffect(s1, row);
      AddTermsEffect(AddFieldIndexes(s1, row), SearchTerms(row), IdText(row));
    }
  }

  lemma WriteRowSets(s: Snapshot, row: StudentRow)
    requires Storable(row)
    ensures var r := WriteRow(s, row);
      && r.sets.Keys == s.sets.Keys + IndexKeysOf(row)
      && (forall k :: MembersAt(r, k) == MembersAt(s, k) + (if k in IndexKeysOf(row) then {IdText(row)} else {}))
  {
    var s1 := WithFields(s, StudentKey(IdText(row)), RowHash(row));
    AddFieldIndexesEffect(s1, row);
    AddTermsEffect(AddFieldIndexes(s1, row), SearchTerms(row), IdText(row));
    IndexKeysSplit(row);
    assert s1.sets == s.sets;
  }

  /** Every key a row indexes lies in the index family, never among the
      hashes. */
  lemma IndexKeysOfShape(row: StudentRow)
    requires Storable(row)
    ensures forall k :: k in IndexKeysOf(row) ==> StartsWith(k, IndexPrefix) && !StartsWith(k, StudentPrefix)
  {
    forall kind, v ensures StartsWith(IndexKey(kind, v), IndexPrefix) && !StartsWith(IndexKey(kind, v), StudentPrefix) {
      IndexKeyShape(kind, v);
    }
  }

  // ---------------------------------------------------------------------
  // What a sequence of rows writes
  // ---------------------------------------------------------------------

  /** The last row with a given id, if any. */
  function LastWith(rows: seq<StudentRow>, id: int): (r: Option<StudentRow>)
    ensures r.Some? ==> r.value in rows && r.value.id == id
    ensures r.None? ==> forall i :: 0 <= i < |rows| ==> rows[i].id != id
  {
    if rows == [] then None
    else if rows[|rows| - 1].id == id then Some(rows[|rows| - 1])
    else
      var r := LastWith(rows[..|rows| - 1], id);
      assert forall i :: 0 <= i < |rows| - 1 ==> rows[..|rows| - 1][i] == rows[i];
      r
  }

  /** The ids indexed under key `k` by the rows. */
  function Indexed(rows: seq<StudentRow>, k: string): (ids: set<string>)
    requires AllStorable(rows)
    ensures forall m :: m in ids <==> exists i :: 0 <= i < |rows| && k in IndexKeysOf(rows[i]) && IdText(rows[i]) == m
  {
    if rows == [] then {}
    else
      var init := rows[..|rows| - 1];
      var last := rows[|rows| - 1];
      assert AllStorable(init);
      var prev := Indexed(init, k);
      assert forall i :: 0 <= i < |init| ==> init[i] == rows[i];
      prev + (if k in IndexKeysOf(last) then {IdText(last)} else {})
  }

  lemma MergeSameFields(m: Hash, h: Hash)
    requires m.Keys <= h.Keys
    ensures m + h == h
  {
  }

  /** Rows leave every key outside the two student families alone. */
  lemma {:induction false} WriteRowsFrame(c: Snapshot, rows: seq<StudentRow>, k: string)
    requires AllStorable(rows)
    requires !StartsWith(k, StudentPrefix) && !StartsWith(k, IndexPrefix)
    ensures var r := WriteRows(c, rows);
      && (k in r.hashes <==> k in c.hashes) && HashAt(r, k) == HashAt(c, k)
      && (k in r.sets <==> k in c.sets) && MembersAt(r, k) == MembersAt(c, k)
    decreases |rows|
  {
    if rows != [] {
      var init := rows[..|rows| - 1];
      var last := rows[|rows| - 1];
      assert AllStorable(init);
      WriteRowsFrame(c, init, k);
      var prev := WriteRows(c, init);
      WriteRowHashes(prev, last);
      WriteRowSets(prev, last);
      StudentKeyShape(IdText(last));
      IndexKeysOfShape(last);
    }
  }

  /** The hash of a student is the one written by the last row with its id
      (HSET of the same five fields overwrites all of them). */
  lemma {:induction false} WriteRowsHash(c: Snapshot, rows: seq<StudentRow>, id: int)
    requires AllStorable(rows)
    requires StudentKey(IntToString(id)) !in c.hashes
    ensures HashAt(WriteRows(c, rows), StudentKey(IntToString(id))) ==
      if LastWith(rows, id).Some? then RowHash(LastWith(rows, id).value) else map[]
    decreases |rows|
  {
    if rows != [] {
      var init := rows[..|rows| - 1];
      var last := rows[|rows| - 1];
      assert AllStorable(init);
      WriteRowsHash(c, init, id);
      var prev := WriteRows(c, init);
      WriteRowHashes(prev, last);
      var key := StudentKey(IntToString(id));
      if last.id == id {
        var before := HashAt(prev, key);
        if LastWith(init, id).Some? {
          assert before.Keys == RowHash(last).Keys;
        }
        MergeSameFields(before, RowHash(last));
      } else {
        StudentKeyShape(IdText(last));
        StudentKeyShape(IntToString(id));
        if StudentKey(IdText(last)) == key {
          IntToStringInjective(last.id, id);
        }
      }
    }
  }

  /** An index set holds exactly the ids of the rows that index that key,
      and exists exactly when it has a member. */
  lemma {:induction false} WriteRowsIndex(c: Snapshot, rows: seq<StudentRow>, k: string)
    requires AllStorable(rows)
    requires StartsWith(k, IndexPrefix) && k !in c.sets && k !in c.hashes
    ensures var r := WriteRows(c, rows);
      && MembersAt(r, k) == Indexed(rows, k)
      && (k in KeySpace(r) <==> Indexed(rows, k) != {})
    decreases |rows|
  {
    if rows != [] {
      var init := rows[..|rows| - 1];
      var last := rows[|rows| - 1];
      assert AllStorable(init);
      WriteRowsIndex(c, init, k);
      var prev := WriteRows(c, init);
      WriteRowHashes(prev, last);
      WriteRowSets(prev, last);
      StudentKeyShape(IdText(last));
    }
  }

  // ---------------------------------------------------------------------
  // Properties of the rebuild
  // ---------------------------------------------------------------------

  predicate OutsideStudentKeys(k: string)
  {
    !StartsWith(k, StudentPrefix) && !StartsWith(k, IndexPrefix)
  }

  /** `a` and `b` hold the same value under every key outside the two
      student families. */
  ghost predicate AgreeOutside(a: Snapshot, b: Snapshot)
  {
    forall k :: OutsideStudentKeys(k) ==>
      && (k in a.hashes <==> k in b.hashes) && HashAt(a, k) == HashAt(b, k)
      && (k in a.sets <==> k in b.sets) && MembersAt(a, k) == MembersAt(b, k)
  }

  lemma ClearedFacts(s: Snapshot)
    ensures AgreeOutside(Cleared(s), s)
    ensures forall k :: !OutsideStudentKeys(k) ==> k !in Cleared(s).hashes && k !in Cleared(s).sets
  {
    var a := ClearPrefix(s, StudentPrefix);
    var c := Cleared(s);
    forall k | OutsideStudentKeys(k)
      ensures (k in c.hashes <==> k in s.hashes) && (k in c.sets <==> k in s.sets)
    {
      assert k !in KeysWithPrefix(s, StudentPrefix);
      assert k !in KeysWithPrefix(a, IndexPrefix);
    }
  }

  /** The rebuild deletes and writes only `student:*` and
      `index:student:*` keys. */
  lemma SyncLeavesOtherKeys(s: Snapshot, rows: seq<StudentRow>)
    ensures AgreeOutside(Synced(s, rows), s)
  {
    var n := StorablePrefix(rows);
    ClearedFacts(s);
    forall k | OutsideStudentKeys(k)
      ensures var t := Synced(s, rows);
        && (k in t.hashes <==> k in s.hashes) && HashAt(t, k) == HashAt(s, k)
        && (k in t.sets <==> k in s.sets) && MembersAt(t, k) == MembersAt(s, k)
    {
      WriteRowsFrame(Cleared(s), rows[..n], k);
    }
  }

  /** After the rebuild, `student:{id}` holds the hash of the last stored
      row with that id, and nothing when no stored row has it. */
  lemma SyncStudentHash(s: Snapshot, rows: seq<StudentRow>, id: int)
    ensures var stored := rows[..StorablePrefix(rows)];
      HashAt(Synced(s, rows), StudentKey(IntToString(id))) ==
        if LastWith(stored, id).Some? then RowHash(LastWith(stored, id).value) else map[]
  {
    ClearedFacts(s);
    StudentKeyShape(IntToString(id));
    WriteRowsHash(Cleared(s), rows[..StorablePrefix(rows)], id);
  }

  /** After the rebuild, an index set holds exactly the ids of the stored
      rows that index it. */
  lemma SyncIndex(s: Snapshot, rows: seq<StudentRow>, k: string)
    requires StartsWith(k, IndexPrefix)
    ensures var stored := rows[..StorablePrefix(rows)];
      && MembersAt(Synced(s, rows), k) == Indexed(stored, k)
      && (k in KeySpace(Synced(s, rows)) <==> Indexed(stored, k) != {})
  {
    ClearedFacts(s);
    WriteRowsIndex(Cleared(s), rows[..StorablePrefix(rows)], k);
  }

  lemma ClearedOfAgreeing(a: Snapshot, b: Snapshot)
    requires AgreeOutside(a, b)
    ensures Cleared(a) == Cleared(b)
  {
    ClearedFacts(a);
    ClearedFacts(b);
    var ca := Cleared(a);
    var cb := Cleared(b);
    forall k ensures (k in ca.hashes <==> k in cb.hashes) && HashAt(ca, k) == HashAt(cb, k) {
      if OutsideStudentKeys(k) {
        assert HashAt(ca, k) == HashAt(a, k);
      }
    }
    forall k ensures (k in ca.sets <==> k in cb.sets) && MembersAt(ca, k) == MembersAt(cb, k) {
      if OutsideStudentKeys(k) {
        assert MembersAt(ca, k) == MembersAt(a, k);
      }
    }
    HashesEqual(ca, cb);
    SetsEqual(ca, cb);
  }

  lemma HashesEqual(a: Snapshot, b: Snapshot)
    requires forall k :: (k in a.hashes <==> k in b.hashes) && HashAt(a, k) == HashAt(b, k)
    ensures a.hashes == b.hashes
  {
    forall k | k in a.hashes ensures a.hashes[k] == b.hashes[k] {
      assert HashAt(a, k) == HashAt(b, k);
    }
  }

  lemma SetsEqual(a: Snapshot, b: Snapshot)
    requires forall k :: (k in a.sets <==> k in b.sets) && MembersAt(a, k) == MembersAt(b, k)
    ensures a.sets == b.sets
  {
    forall k | k in a.sets ensures a.sets[k] == b.sets[k] {
      assert MembersAt(a, k) == MembersAt(b, k);
    }
  }

  /** Rebuilding twice from the same rows gives the key space one rebuild
      gives. */
  lemma SyncIdempotent(s: Snapshot, rows: seq<StudentRow>)
    ensures Synced(Synced(s, rows), rows) == Synced(s, rows)
  {
    SyncLeavesOtherKeys(s, rows);
    ClearedOfAgreeing(Synced(s, rows), s);
  }

  // ---------------------------------------------------------------------
  // Reading the cache back (`StudentSearch`)
  // ---------------------------------------------------------------------

  /** The record `get_student_full` returns. */
  datatype FullRecord = FullRecord(id: int, name: string, age: int, mail: string, group: string)

  /** ValueError for a missing student, KeyError for a missing field,
      ValueError from `int()` for a field that is not a number. */
  datatype LookupError = NotFound | MissingField(field: string) | NotANumber(field: string)

  /** `get_student_full`: the fields are read in the order the dict literal
      lists them, so the first failing one decides the error. */
  function StudentFull(s: Snapshot, id: int): (r: Result<FullRecord, LookupError>)
    ensures r.Err? <==>
      var h := HashAt(s, StudentKey(IntToString(id)));
      h == map[] || !("id" in h && "name" in h && "age" in h && "mail" in h && "group" in h)
      || ParseInt(h["id"]).None? || ParseInt(h["age"]).None?
    ensures r == Err(NotFound) <==> HashAt(s, StudentKey(IntToString(id))) == map[]
  {
    var h := HashAt(s, StudentKey(IntToString(id)));
    if h == map[] then Err(NotFound)
    else if "id" !in h then Err(MissingField("id"))
    else if ParseInt(h["id"]).None? then Err(NotANumber("id"))
    else if "name" !in h then Err(MissingField("name"))
    else if "age" !in h then Err(MissingField("age"))
    else if ParseInt(h["age"]).None? then Err(NotANumber("age"))
    else if "mail" !in h then Err(MissingField("mail"))
    else if "group" !in h then Err(MissingField("group"))
    else Ok(FullRecord(ParseInt(h["id"]).value, h["name"], ParseInt(h["age"]).value, h["mail"], h["group"]))
  }

  /** After the rebuild, `get_student_full` gives back the last stored row
      with the id, numbers included, and NotFound when there is none. */
  lemma StudentFullAfterSync(s: Snapshot, rows: seq<StudentRow>, id: int)
    ensures var stored := rows[..StorablePrefix(rows)];
      var last := LastWith(stored, id);
      StudentFull(Synced(s, rows), id) ==
        if last.None? then Err(NotFound)
        else Ok(FullRecord(id, last.value.name.value, last.value.age.value, last.value.mail.value, last.value.groupName.value))
  {
    var stored := rows[..StorablePrefix(rows)];
    SyncStudentHash(s, rows, id);
    var last := LastWith(stored, id);
    if last.Some? {
      assert Storable(last.value);
      FullRecordOfRowHash(Synced(s, rows), last.value);
    }
  }

  lemma FullRecordOfRowHash(s: Snapshot, row: StudentRow)
    requires Storable(row)
    requires HashAt(s, StudentKey(IdText(row))) == RowHash(row)
    ensures StudentFull(s, row.id) ==
      Ok(FullRecord(row.id, row.name.value, row.age.value, row.mail.value, row.groupName.value))
  {
    ParseIntRoundTrip(row.id);
    ParseIntRoundTrip(row.age.value);
    var h := RowHash(row);
    assert "id" in h && h["id"] == IntToString(row.id);
    assert "age" in h && h["age"] == IntToString(row.age.value);
  }

  /** `keys = r.keys(f"{p}*{x}*")` then `student_ids.update(r.smembers(key))`
      for each key: the union of the selected index sets. */
  method CollectIds(r: Redis, p: string, x: string) returns (ids: set<string>)
    ensures ids == MembersMatching(r.State(), p, x)
  {
    var keys := r.Keys(p, x);
    ghost var all := keys;
    ghost var done: set<string> := {};
    ids := {};
    while keys != {}
      invariant done + keys == all && done !! keys
      invariant forall m :: m in ids <==> exists k :: k in done && m in MembersAt(r.State(), k)
      decreases |keys|
    {
      var k :| k in keys;
      var members := r.SMembers(k);
      ids := ids + members;
      done := done + {k};
      keys := keys - {k};
    }
  }

  /** The ids every term matches, for a non-empty list of terms. */
  function MatchingAll(s: Snapshot, terms: seq<string>): (ids: set<string>)
    requires terms != []
    ensures forall m :: m in ids <==>
      forall j :: 0 <= j < |terms| ==> m in MembersMatching(s, KindPrefix(BySearch), terms[j])
  {
    var last := MembersMatching(s, KindPrefix(BySearch), terms[|terms| - 1]);
    if |terms| == 1 then last
    else
      var init := terms[..|terms| - 1];
      assert forall j :: 0 <= j < |init| ==> init[j] == terms[j];
      MatchingAll(s, init) * last
  }

  lemma MatchingAllFirst(s: Snapshot, terms: seq<string>)
    requires terms != []
    ensures MatchingAll(s, terms[..1]) == MembersMatching(s, KindPrefix(BySearch), terms[0])
  {
    assert |terms[..1]| == 1 && terms[..1][0] == terms[0];
  }

  /** One more token narrows the ids to those it matches too. */
  lemma MatchingAllSnoc(s: Snapshot, terms: seq<string>, i: nat)
    requires 1 <= i < |terms|
    ensures MatchingAll(s, terms[..i + 1]) == MatchingAll(s, terms[..i]) * MembersMatching(s, KindPrefix(BySearch), terms[i])
  {
    assert terms[..i + 1][..i] == terms[..i] && terms[..i + 1][i] == terms[i];
  }

  /** Student hashes by id, as the searches return them. */
  type Found = map<string, Hash>

  class StudentSearch {
    const r: Redis

    constructor(r: Redis)
      ensures this.r == r
    {
      this.r := r;
    }

    method GetStudentFull(id: int) returns (res: Result<FullRecord, LookupError>)
      ensures res == StudentFull(r.State(), id)
    {
      var h := r.HGetAll(StudentKey(IntToString(id)));
      if h == map[] { return Err(NotFound); }
      if "id" !in h { return Err(MissingField("id")); }
      var sid := ParseInt(h["id"]);
      if sid.None? { return Err(NotANumber("id")); }
      if "name" !in h { return Err(MissingField("name")); }
      if "age" !in h { return Err(MissingField("age")); }
      var age := ParseInt(h["age"]);
      if age.None? { return Err(NotANumber("age")); }
      if "mail" !in h { return Err(MissingField("mail")); }
      if "group" !in h { return Err(MissingField("group")); }
      return Ok(FullRecord(sid.value, h["name"], age.value, h["mail"], h["group"]));
    }

    method SearchByName(name: string) returns (res: Found)
      ensures res == FetchAll(r.State(), StudentPrefix, MembersMatching(r.State(), KindPrefix(ByName), Lower(name)))
    {
      var ids := CollectIds(r, KindPrefix(ByName), Lower(name));
      res := FetchAll(r.State(), StudentPrefix, ids);
    }

    method SearchByEmail(email: string) returns (res: Found)
      ensures res == FetchAll(r.State(), StudentPrefix, MembersMatching(r.State(), KindPrefix(ByEmail), Lower(email)))
    {
      var ids := CollectIds(r, KindPrefix(ByEmail), Lower(email));
      res := FetchAll(r.State(), StudentPrefix, ids);
    }

    method SearchByGroup(groupName: string) returns (res: Found)
      ensures res == FetchAll(r.State(), StudentPrefix, MembersMatching(r.State(), KindPrefix(ByGroup), Lower(groupName)))
    {
      var ids := CollectIds(r, KindPrefix(ByGroup), Lower(groupName));
      res := FetchAll(r.State(), StudentPrefix, ids);
    }

    /** `full_text_search`: nothing for a query without tokens; otherwise
        the ids matched by the first token, narrowed by each further one. */
    method FullTextSearch(query: string) returns (res: Found)
      ensures var terms := Split(Lower(query));
        res == if terms == [] then map[] else FetchAll(r.State(), StudentPrefix, MatchingAll(r.State(), terms))
    {
      var terms := Split(Lower(query));
      if terms == [] {
        return map[];
      }
      var ids := CollectIds(r, KindPrefix(BySearch), terms[0]);
      MatchingAllFirst(r.State(), terms);
      var i := 1;
      while i < |terms|
        invariant 1 <= i <= |terms|
        invariant ids == MatchingAll(r.State(), terms[..i])
      {
        var termIds := CollectIds(r, KindPrefix(BySearch), terms[i]);
        MatchingAllSnoc(r.State(), terms, i);
        ids := ids * termIds;
        i := i + 1;
      }
      assert terms[..i] == terms;
      res := FetchAll(r.State(), StudentPrefix, ids);
    }
  }

  // ---------------------------------------------------------------------
  // Searching a rebuilt cache
  // ---------------------------------------------------------------------

  lemma PrefixOfKindPrefix(k: string, kind: IndexKind)
    requires StartsWith(k, KindPrefix(kind))
    ensures StartsWith(k, IndexPrefix)
  {
    assert KindPrefix(kind)[..|IndexPrefix|] == IndexPrefix;
    assert k[..|IndexPrefix|] == k[..|KindPrefix(kind)|][..|IndexPrefix|];
  }

  /** A stored row indexes `v` in family `kind` exactly when `v` is one of
      its values there. */
  lemma IndexKeysOfKind(row: StudentRow, kind: IndexKind, k: string)
    requires Storable(row)
    requires k in IndexKeysOf(row) && StartsWith(k, KindPrefix(kind))
    ensures k == IndexKey(kind, k[|KindPrefix(kind)|..]) && k[|KindPrefix(kind)|..] in Values(row, kind)
  {
    forall other, v | k == IndexKey(other, v) ensures other == kind && v == k[|KindPrefix(kind)|..] {
      KindOfIndexKey(other, kind, v);
      IndexKeyShape(other, v);
    }
  }

  /** Some stored row with id `m` has a value in family `kind` containing `x`. */
  ghost predicate HasMatch(stored: seq<StudentRow>, kind: IndexKind, x: string, m: string)
    requires AllStorable(stored)
  {
    exists i, v :: 0 <= i < |stored| && IdText(stored[i]) == m && v in Values(stored[i], kind) && Contains(v, x)
  }

  lemma SearchSound(s: Snapshot, rows: seq<StudentRow>, kind: IndexKind, x: string, m: string)
    requires m in MembersMatching(Synced(s, rows), KindPrefix(kind), x)
    ensures var stored := rows[..StorablePrefix(rows)];
      exists i, v :: 0 <= i < |stored| && IdText(stored[i]) == m && v in Values(stored[i], kind) && Contains(v, x)
  {
    var stored := rows[..StorablePrefix(rows)];
    var t := Synced(s, rows);
    var k :| k in KeysMatching(t, KindPrefix(kind), x) && m in MembersAt(t, k);
    PrefixOfKindPrefix(k, kind);
    SyncIndex(s, rows, k);
    var i :| 0 <= i < |stored| && k in IndexKeysOf(stored[i]) && IdText(stored[i]) == m;
    IndexKeysOfKind(stored[i], kind, k);
  }

  lemma SearchComplete(s: Snapshot, rows: seq<StudentRow>, kind: IndexKind, x: string, m: string, i: int, v: string)
    requires var stored := rows[..StorablePrefix(rows)];
      0 <= i < |stored| && IdText(stored[i]) == m && v in Values(stored[i], kind) && Contains(v, x)
    ensures m in MembersMatching(Synced(s, rows), KindPrefix(kind), x)
  {
    var stored := rows[..StorablePrefix(rows)];
    var t := Synced(s, rows);
    var k := IndexKey(kind, v);
    IndexKeyShape(kind, v);
    PrefixOfKindPrefix(k, kind);
    assert k in IndexKeysOf(stored[i]);
    SyncIndex(s, rows, k);
    assert m in MembersAt(t, k);
    assert k in KeysMatching(t, KindPrefix(kind), x);
  }

  /** After the rebuild, the pattern `index:student:{kind}:*{x}*` collects
      exactly the ids of the stored rows having a value in that family that
      contains `x` (`search_by_name`, `search_by_email`, `search_by_group`
      and each token of `full_text_search`). */
  lemma SearchAfterSync(s: Snapshot, rows: seq<StudentRow>, kind: IndexKind, x: string, m: string)
    ensures m in MembersMatching(Synced(s, rows), KindPrefix(kind), x) <==>
      HasMatch(rows[..StorablePrefix(rows)], kind, x, m)
  {
    var stored := rows[..StorablePrefix(rows)];
    if m in MembersMatching(Synced(s, rows), KindPrefix(kind), x) {
      SearchSound(s, rows, kind, x, m);
    }
    if exists i, v :: 0 <= i < |stored| && IdText(stored[i]) == m && v in Values(stored[i], kind) && Contains(v, x) {
      var i, v :| 0 <= i < |stored| && IdText(stored[i]) == m && v in Values(stored[i], kind) && Contains(v, x);
      SearchComplete(s, rows, kind, x, m, i, v);
    }
  }

  /** After the rebuild, `full_text_search` finds an id exactly when the
      query has a token and every token is contained in some search token
      of a stored row with that id. */
  lemma FullTextAfterSync(s: Snapshot, rows: seq<StudentRow>, query: string, m: string)
    requires Split(Lower(query)) != []
    ensures var terms := Split(Lower(query));
      m in MatchingAll(Synced(s, rows), terms) <==>
        forall j :: 0 <= j < |terms| ==> HasMatch(rows[..StorablePrefix(rows)], BySearch, terms[j], m)
  {
    var terms := Split(Lower(query));
    forall j | 0 <= j < |terms| {
      SearchAfterSync(s, rows, BySearch, terms[j], m);
    }
  }
}
