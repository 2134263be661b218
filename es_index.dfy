/** An Elasticsearch index as the two document mirrors use it: created
    with its mapping only when absent, then filled by `index` calls that
    store a document under an explicit id, replacing any earlier document
    with that id. A document the mapping cannot take raises an error and
    is not stored. */
module EsIndex {
  import opened Common

  /** A decoded JSON value, as Python holds it. */
  datatype Value =
    | Null
    | Bool(b: bool)
    | Num(n: int)
    | Str(s: string)
    | Arr(items: seq<Value>)
    | Obj(fields: map<string, Value>)

  /** Python truthiness of a decoded JSON value. */
  predicate Falsy(v: Value)
  {
    v == Null || v == Bool(false) || v == Num(0) || v == Str("") || v == Arr([]) || v == Obj(map[])
  }

  /** One search hit: `_id`, `_score`, `_source` and, when the engine
      produced one, `highlight`. */
  datatype Hit = Hit(id: string, score: Value, source: map<string, Value>, highlight: Option<Value>)

  function OptStr(o: Option<string>): Value
  {
    if o.Some? then Str(o.value) else Null
  }

  function OptNum(o: Option<int>): Value
  {
    if o.Some? then Num(o.value) else Null
  }

  class Index<D> {
    /** `indices.exists`. */
    var present: bool
    var docs: map<int, D>
    /** What the index's mapping accepts. */
    var accepts: D -> bool

    constructor (present0: bool, docs0: map<int, D>, accepts0: D -> bool)
      ensures present == present0 && docs == docs0 && accepts == accepts0
    {
      present := present0;
      docs := docs0;
      accepts := accepts0;
    }

    method Exists() returns (b: bool)
      ensures b == present
    {
      b := present;
    }

    /** `indices.create` with a mapping; the scripts call it only after
        `indices.exists` said no. */
    method Create(mapping: D -> bool)
      requires !present
      modifies this
      ensures present && docs == map[] && accepts == mapping
    {
      present := true;
      docs := map[];
      accepts := mapping;
    }

    /** `index(id=..., document=...)`: `ok` is false when the call raises. */
    method Put(id: int, d: D) returns (ok: bool)
      modifies this
      ensures ok == old(accepts)(d)
      ensures present == old(present) && accepts == old(accepts)
      ensures docs == if ok then old(docs)[id := d] else old(docs)
    {
      ok := accepts(d);
      if ok {
        docs := docs[id := d];
      }
    }

    /** `get(id=...)`: the stored document, or the not-found error. */
    method Get(id: int) returns (d: Option<D>)
      ensures d == if id in docs then Some(docs[id]) else None
    {
      d := if id in docs then Some(docs[id]) else None;
    }
  }

  /** The stored documents after indexing `entries` in order into `m`. */
  function Upserted<D>(m: map<int, D>, entries: seq<(int, D)>): map<int, D>
  {
    if entries == [] then m
    else
      var last := entries[|entries| - 1];
      Upserted(m, entries[..|entries| - 1])[last.0 := last.1]
  }

  /** The document indexed last under `id` among `entries`. */
  function LastFor<D>(entries: seq<(int, D)>, id: int): (r: Option<D>)
    ensures r.None? <==> forall i :: 0 <= i < |entries| ==> entries[i].0 != id
    ensures r.Some? ==> exists i :: 0 <= i < |entries| && entries[i] == (id, r.value)
  {
    if entries == [] then None
    else if entries[|entries| - 1].0 == id then Some(entries[|entries| - 1].1)
    else
      var init := entries[..|entries| - 1];
      var r := LastFor(init, id);
      assert forall i :: 0 <= i < |init| ==> init[i] == entries[i];
      r
  }

  /** The entry at `i` is the last one for its id. */
  lemma {:induction false} LastForIs<D>(entries: seq<(int, D)>, id: int, i: nat)
    requires i < |entries| && entries[i].0 == id
    requires forall j :: i < j < |entries| ==> entries[j].0 != id
    ensures LastFor(entries, id) == Some(entries[i].1)
  {
    if i < |entries| - 1 {
      var init := entries[..|entries| - 1];
      assert forall j :: 0 <= j < |init| ==> init[j] == entries[j];
      LastForIs(init, id, i);
    }
  }

  /** After indexing, an id holds the document indexed last under it, or
      what it held before when `entries` do not mention it. */
  lemma {:induction false} UpsertedAt<D>(m: map<int, D>, entries: seq<(int, D)>, id: int)
    ensures id in Upserted(m, entries) <==> id in m || LastFor(entries, id).Some?
    ensures id in Upserted(m, entries) ==>
      Upserted(m, entries)[id] == if LastFor(entries, id).Some? then LastFor(entries, id).value else m[id]
  {
    if entries != [] {
      UpsertedAt(m, entries[..|entries| - 1], id);
    }
  }

  /** Indexing the same entries again leaves the index as it was: ids are
      explicit, so a rerun overwrites instead of adding copies. */
  lemma UpsertedTwice<D>(m: map<int, D>, entries: seq<(int, D)>)
    ensures Upserted(Upserted(m, entries), entries) == Upserted(m, entries)
  {
    var once := Upserted(m, entries);
    var twice := Upserted(once, entries);
    forall id
      ensures id in twice <==> id in once
      ensures id in twice ==> twice[id] == once[id]
    {
      UpsertedAt(m, entries, id);
      UpsertedAt(once, entries, id);
    }
  }

  /** Indexing one more entry after a prefix. */
  lemma UpsertedStep<D>(m: map<int, D>, entries: seq<(int, D)>, i: nat)
    requires i < |entries|
    ensures Upserted(m, entries[..i + 1]) == Upserted(m, entries[..i])[entries[i].0 := entries[i].1]
  {
    assert entries[..i + 1][..i] == entries[..i];
  }
}
