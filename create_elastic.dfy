/** `sync/elastic/create_elastic.py`: one `lecture_sessions` document per
    Lecture_Sessions row joined with its course, stored under the session
    id, and the projection of search hits back into session records. */
module EsSessions {
  import opened Common
  import opened EsIndex

  /** The joined row at tuple positions 0 to 6: session id, topic,
      description, duration, tags, course name, session type id. The tags
      column is JSON, which the driver hands over already decoded. */
  datatype SessionRow = SessionRow(sessionId: int, topic: Option<string>, description: Option<string>,
                                   durationMinutes: Option<int>, tags: Value, courseName: Option<string>,
                                   sessionTypeId: Option<int>)

  datatype SessionDoc = SessionDoc(sessionId: int, topic: Option<string>, description: Option<string>,
                                   durationMinutes: Option<int>, tags: Value, courseName: Option<string>,
                                   sessionTypeId: Option<int>)

  /** `json.loads(tags) if tags else {}` inside a bare `try`: a falsy value
      gives `{}`; text is parsed (`parse` is `json.loads`, None when it
      raises) and a parse error gives `{}`; any other value is not text, so
      `json.loads` raises and the result is `{}` too. */
  function Tags(raw: Value, parse: string -> Option<Value>): (t: Value)
  {
    if Falsy(raw) then Obj(map[])
    else if raw.Str? then (if parse(raw.s).Some? then parse(raw.s).value else Obj(map[]))
    else Obj(map[])
  }

  /** Only text that parses survives: anything else the column holds is
      replaced by the empty object. */
  lemma TagsCases(raw: Value, parse: string -> Option<Value>)
    ensures Tags(raw, parse) != Obj(map[]) ==> raw.Str? && raw.s != "" && parse(raw.s) == Some(Tags(raw, parse))
    ensures !raw.Str? ==> Tags(raw, parse) == Obj(map[])
  {
  }

  function DocOf(row: SessionRow, parse: string -> Option<Value>): SessionDoc
  {
    SessionDoc(row.sessionId, row.topic, row.description, row.durationMinutes,
               Tags(row.tags, parse), row.courseName, row.sessionTypeId)
  }

  /** What an `object` field takes: null, an object, or an array (arrays are
      flattened, so `[]` and arrays of objects qualify) whose items are each
      such a value; a plain number, string or boolean is refused. */
  predicate ObjectField(v: Value)
  {
    match v
    case Null => true
    case Obj(_) => true
    case Arr(items) => forall i :: 0 <= i < |items| ==> ObjectField(items[i])
    case _ => false
  }

  /** The index mapping: the three integer fields must fit `integer`, and
      `tags` is an `object` field. */
  predicate SessionMapping(d: SessionDoc)
  {
    && IsInt32(d.sessionId)
    && (d.durationMinutes.Some? ==> IsInt32(d.durationMinutes.value))
    && (d.sessionTypeId.Some? ==> IsInt32(d.sessionTypeId.value))
    && ObjectField(d.tags)
  }

  function Docs(rows: seq<SessionRow>, parse: string -> Option<Value>): (r: seq<SessionDoc>)
    ensures |r| == |rows|
    ensures forall i :: 0 <= i < |rows| ==> r[i] == DocOf(rows[i], parse)
  {
    seq(|rows|, i requires 0 <= i < |rows| => DocOf(rows[i], parse))
  }

  /** The `index` calls: each document under its session id. */
  function Entries(rows: seq<SessionRow>, parse: string -> Option<Value>): (r: seq<(int, SessionDoc)>)
    ensures |r| == |rows|
    ensures forall i :: 0 <= i < |rows| ==> r[i] == (rows[i].sessionId, DocOf(rows[i], parse))
  {
    seq(|rows|, i requires 0 <= i < |rows| => (rows[i].sessionId, DocOf(rows[i], parse)))
  }

  /** `sync_lecture_sessions`: the index is created with its mapping only
      when absent; the rows are then indexed in order, each under its
      session id, up to the first document the index refuses, whose error
      is printed and raised again (`raised`). Earlier documents stay. */
  method SyncLectureSessions(rows: seq<SessionRow>, parse: string -> Option<Value>, idx: Index<SessionDoc>)
    returns (raised: bool)
    modifies idx
    ensures idx.present
    ensures idx.accepts == if old(idx.present) then old(idx.accepts) else SessionMapping
    ensures var n := ValidPrefix(Docs(rows, parse), idx.accepts);
      && idx.docs == Upserted(if old(idx.present) then old(idx.docs) else map[], Entries(rows, parse)[..n])
      && (raised <==> n < |rows|)
  {
    var ex := idx.Exists();
    if !ex {
      idx.Create(SessionMapping);
    }
    raised := IndexSessions(rows, parse, idx);
  }

  /** The per-row loop on an index that exists: index each row's document
      under its session id, stopping at the first one the mapping refuses. */
  method IndexSessions(rows: seq<SessionRow>, parse: string -> Option<Value>, idx: Index<SessionDoc>)
    returns (raised: bool)
    requires idx.present
    modifies idx
    ensures idx.present && idx.accepts == old(idx.accepts)
    ensures var n := ValidPrefix(Docs(rows, parse), idx.accepts);
      && idx.docs == Upserted(old(idx.docs), Entries(rows, parse)[..n])
      && (raised <==> n < |rows|)
  {
    ghost var start := idx.docs;
    ghost var acc := idx.accepts;
    ghost var docs := Docs(rows, parse);
    ghost var entries := Entries(rows, parse);
    var i := 0;
    while i < |rows|
      invariant i <= |rows|
      invariant idx.present && idx.accepts == acc
      invariant idx.docs == Upserted(start, entries[..i])
      invariant forall j :: 0 <= j < i ==> acc(docs[j])
    {
      var row := rows[i];
      var tags := if Falsy(row.tags) then Obj(map[])
                  else if row.tags.Str? && parse(row.tags.s).Some? then parse(row.tags.s).value
                  else Obj(map[]);
      var doc := SessionDoc(row.sessionId, row.topic, row.description, row.durationMinutes,
                            tags, row.courseName, row.sessionTypeId);
      var ok := idx.Put(row.sessionId, doc);
      ValidPrefixStep(docs, acc, i);
      if !ok {
        raised := true;
        return;
      }
      UpsertedStep(start, entries, i);
      i := i + 1;
    }
    ValidPrefixAll(docs, acc);
    assert entries[..i] == entries;
    raised := false;
  }

  /** After a sync that did not raise, each session id holds the document
      of the last row with that id, and ids no row carries keep what the
      index held before. */
  lemma SyncedAt(start: map<int, SessionDoc>, rows: seq<SessionRow>, parse: string -> Option<Value>, id: int)
    ensures var docs := Upserted(start, Entries(rows, parse));
      && (id in docs <==> id in start || exists i :: 0 <= i < |rows| && rows[i].sessionId == id)
      && (forall i :: 0 <= i < |rows| && rows[i].sessionId == id &&
                      (forall j :: i < j < |rows| ==> rows[j].sessionId != id) ==>
            id in docs && docs[id] == DocOf(rows[i], parse))
  {
    var entries := Entries(rows, parse);
    UpsertedAt(start, entries, id);
    forall i | 0 <= i < |rows| && rows[i].sessionId == id && (forall j :: i < j < |rows| ==> rows[j].sessionId != id)
      ensures LastFor(entries, id) == Some(DocOf(rows[i], parse))
    {
      LastForIs(entries, id, i);
    }
    if exists i :: 0 <= i < |rows| && rows[i].sessionId == id {
      var i :| 0 <= i < |rows| && rows[i].sessionId == id;
      assert entries[i].0 == id;
    }
  }

  // ---------------------------------------------------------------------
  // _format_results
  // ---------------------------------------------------------------------

  /** One search result: the stored fields, `duration_minutes` renamed. */
  datatype SessionResult = SessionResult(sessionId: Value, topic: Value, description: Value, duration: Value,
                                         sessionTypeId: Value, courseName: Value, tags: Value)

  predicate HasSessionFields(src: map<string, Value>)
  {
    && "session_id" in src && "topic" in src && "description" in src && "duration_minutes" in src
    && "session_type_id" in src && "course_name" in src && "tags" in src
  }

  function FormatHit(src: map<string, Value>): SessionResult
    requires HasSessionFields(src)
  {
    SessionResult(src["session_id"], src["topic"], src["description"], src["duration_minutes"],
                  src["session_type_id"], src["course_name"], src["tags"])
  }

  /** `_format_results`: one result per hit, in hit order; a hit whose
      source lacks one of the seven fields raises `KeyError`. */
  function FormatResults(hits: seq<Hit>): (r: Result<seq<SessionResult>, string>)
    ensures r.Ok? <==> forall i :: 0 <= i < |hits| ==> HasSessionFields(hits[i].source)
    ensures r.Ok? ==> |r.value| == |hits|
    ensures r.Ok? ==> forall i :: 0 <= i < |hits| ==> r.value[i] == FormatHit(hits[i].source)
    ensures r.Err? ==> r.error == "KeyError"
  {
    if hits == [] then Ok([])
    else if !HasSessionFields(hits[0].source) then Err("KeyError")
    else
      var rest := FormatResults(hits[1..]);
      assert forall i :: 1 <= i < |hits| ==> hits[i] == hits[1..][i - 1];
      if rest.Err? then rest else Ok([FormatHit(hits[0].source)] + rest.value)
  }

  /** The `_source` Elasticsearch returns for a stored document. */
  function SourceOf(d: SessionDoc): map<string, Value>
  {
    map["session_id" := Num(d.sessionId), "topic" := OptStr(d.topic), "description" := OptStr(d.description),
        "duration_minutes" := OptNum(d.durationMinutes), "tags" := d.tags,
        "course_name" := OptStr(d.courseName), "session_type_id" := OptNum(d.sessionTypeId)]
  }

  /** Hits on documents the sync stored format without error, and each
      result gives back the fields of its row, the duration under its new
      name and the tags as stored. */
  lemma FormatStoredHits(hits: seq<Hit>, docs: seq<SessionDoc>)
    requires |hits| == |docs|
    requires forall i :: 0 <= i < |hits| ==> hits[i].source == SourceOf(docs[i])
    ensures var r := FormatResults(hits);
      && r.Ok? && |r.value| == |docs|
      && forall i :: 0 <= i < |docs| ==>
        r.value[i] == SessionResult(Num(docs[i].sessionId), OptStr(docs[i].topic), OptStr(docs[i].description),
                                    OptNum(docs[i].durationMinutes), OptNum(docs[i].sessionTypeId),
                                    OptStr(docs[i].courseName), docs[i].tags)
  {
    forall i | 0 <= i < |hits|
      ensures HasSessionFields(hits[i].source)
    {
      assert hits[i].source == SourceOf(docs[i]);
    }
  }
}
