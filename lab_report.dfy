/** The report endpoint of the relational variant (`lab1/app.py`,
    `generate_attendance_report`): find the id of the lecture session type
    in the Redis cache, search the lecture sessions of that type for the
    course name, and rank the worst attendees through `lab.py`'s finder. */
module LabReport {
  import opened Common
  import opened Http
  import opened RedisStore
  import SessionTypes
  import AttendanceSql

  const Required: seq<string> := ["name", "start_date", "end_date"]
  const NoLectures: string := "No lectures found for the name"

  /** The session type name the handler looks up. */
  const Lecture: string := "Лекция"

  /** `generate_attendance_report`. `types` is the list `get_by_name` returns
      for the lecture type, `searchFor` the search index's answer for a
      course name and a session type id, `pg` and `graph` what the finder
      reads, and `dayOf` how the finder reads a date argument. The
      missing-field answer is built but never returned, so a request
      without `name` fails on the lookup of `data['name']` instead. */
  function GenerateAttendanceReport(req: Request, types: seq<Hash>, searchFor: (Json, string) -> seq<int>,
                                    pg: Option<AttendanceSql.Database>,
                                    graph: Option<seq<AttendanceSql.StudentRecord>>,
                                    dayOf: Json -> Option<int>): Response<AttendanceSql.Report>
  {
    if !req.isJson then BadRequest(NotJson, None)
    else if "name" !in req.body then Unhandled("KeyError")
    else if types == [] then Unhandled("IndexError")
    else if "id" !in types[0] then Unhandled("KeyError")
    else
      var ids := searchFor(req.body["name"], types[0]["id"]);
      if ids == [] then NotFound(NoLectures)
      else if "start_date" !in req.body || "end_date" !in req.body then ServerError(ProcessingFailed)
      else
        var worst := AttendanceSql.Pipeline(None, pg, graph, ids, Some(10), true,
                                            dayOf(req.body["start_date"]), dayOf(req.body["end_date"]));
        Success(Report(req.body["name"], Period(req.body["start_date"], req.body["end_date"]), |ids|, worst),
                "success", |worst|)
  }

  /** The answers a request can get: 400 only for a non-JSON body (a
      missing field is never reported as such); an escaping exception when
      `name` is missing or the lecture type has no listed hash or no id;
      404 when the search finds nothing; the handler's 500 when a date is
      missing; 200 otherwise. */
  lemma StatusCodes(req: Request, types: seq<Hash>, searchFor: (Json, string) -> seq<int>,
                    pg: Option<AttendanceSql.Database>, graph: Option<seq<AttendanceSql.StudentRecord>>,
                    dayOf: Json -> Option<int>)
    ensures var resp := GenerateAttendanceReport(req, types, searchFor, pg, graph, dayOf);
      && (StatusCode(resp) == 400 <==> !req.isJson)
      && (req.isJson && !HasAllRequiredFields(req.body, Required) ==> StatusCode(resp) != 400)
      && (resp.Unhandled? <==> req.isJson && ("name" !in req.body || types == [] || "id" !in types[0]))
      && (resp.NotFound? <==> req.isJson && "name" in req.body && types != [] && "id" in types[0]
                              && searchFor(req.body["name"], types[0]["id"]) == [])
      && (resp.ServerError? <==> req.isJson && "name" in req.body && types != [] && "id" in types[0]
                                 && searchFor(req.body["name"], types[0]["id"]) != []
                                 && !HasAllRequiredFields(req.body, Required))
  {
    if req.isJson && "name" in req.body {
      assert Required[0] == "name" && Required[1] == "start_date" && Required[2] == "end_date";
      assert HasAllRequiredFields(req.body, Required) <==> "start_date" in req.body && "end_date" in req.body;
    }
  }

  /** A 200 answer names the course, the period and the number of lecture
      sessions found, and lists no attendee: the finder it calls answers an
      empty list for every input. */
  lemma SuccessIsEmpty(req: Request, types: seq<Hash>, searchFor: (Json, string) -> seq<int>,
                       pg: Option<AttendanceSql.Database>, graph: Option<seq<AttendanceSql.StudentRecord>>,
                       dayOf: Json -> Option<int>)
    requires GenerateAttendanceReport(req, types, searchFor, pg, graph, dayOf).Success?
    ensures req.isJson && "name" in req.body && "start_date" in req.body && "end_date" in req.body
    ensures types != [] && "id" in types[0]
    ensures var resp := GenerateAttendanceReport(req, types, searchFor, pg, graph, dayOf);
      var ids := searchFor(req.body["name"], types[0]["id"]);
      && resp.report.searchTerm == req.body["name"]
      && resp.report.period == PyStr(req.body["start_date"]) + " - " + PyStr(req.body["end_date"])
      && resp.report.foundLectures == |ids| > 0
      && resp.report.worstAttendees == []
      && resp.results == 0
  {
    var ids := searchFor(req.body["name"], types[0]["id"]);
    AttendanceSql.PipelineAlwaysEmpty(None, pg, graph, ids, Some(10), true,
                                      dayOf(req.body["start_date"]), dayOf(req.body["end_date"]));
  }

  /** `types` is the list `[hgetall(...) for id in members]` built from the
      map `m` (one hash per member id) when the set iteration visits the
      ids in `order`. */
  predicate ListedAs(types: seq<Hash>, m: map<string, Hash>, order: seq<string>)
  {
    && |order| == |types|
    && (forall i :: 0 <= i < |order| ==> order[i] in m && types[i] == m[order[i]])
    && (forall id :: id in m ==> id in order)
  }

  /** With the cache rebuilt by `sync_session_types_to_redis`, the lecture
      type list is empty exactly when no stored session type is named
      "Лекция" in any casing; otherwise its first hash has an `id`, which is
      the id of such a stored type. So after a rebuild the handler's first
      two exceptions depend only on the stored rows. */
  lemma LectureTypesAfterSync(s: Snapshot, rows: seq<SessionTypes.SessionTypeRow>, types: seq<Hash>, order: seq<string>)
    requires ListedAs(types, SessionTypes.GetByName(SessionTypes.Synced(s, rows), Lecture), order)
    ensures var stored := rows[..SessionTypes.StorablePrefix(rows)];
      && (types == [] <==> forall i :: 0 <= i < |stored| ==> Lower(stored[i].name.value) != Lower(Lecture))
      && (types != [] ==>
            && "id" in types[0]
            && exists i :: 0 <= i < |stored| && Lower(stored[i].name.value) == Lower(Lecture)
                           && types[0]["id"] == IntToString(stored[i].id))
  {
    var stored := rows[..SessionTypes.StorablePrefix(rows)];
    SessionTypes.GetByNameAfterSync(s, rows, Lecture);
    ListedTypes(SessionTypes.GetByName(SessionTypes.Synced(s, rows), Lecture), stored, Lecture, types, order);
  }

  /** The same over any map holding exactly the ids of the stored types
      named `name`, each with the hash of the last row with that id. */
  lemma ListedTypes(m: map<string, Hash>, stored: seq<SessionTypes.SessionTypeRow>, name: string, types: seq<Hash>, order: seq<string>)
    requires SessionTypes.AllStorable(stored)
    requires ListedAs(types, m, order)
    requires forall x :: x in m <==> exists i :: 0 <= i < |stored| && Lower(stored[i].name.value) == Lower(name) && IntToString(stored[i].id) == x
    requires forall id: int :: IntToString(id) in m ==>
      SessionTypes.LastWith(stored, id).Some? && m[IntToString(id)] == SessionTypes.TypeHash(SessionTypes.LastWith(stored, id).value)
    ensures types == [] <==> forall i :: 0 <= i < |stored| ==> Lower(stored[i].name.value) != Lower(name)
    ensures types != [] ==>
      && "id" in types[0]
      && exists i :: 0 <= i < |stored| && Lower(stored[i].name.value) == Lower(name)
                     && types[0]["id"] == IntToString(stored[i].id)
  {
    if types == [] {
      NoneListed(m, stored, name, order);
    } else {
      var i := FirstListed(m, stored, name, types, order);
    }
  }

  /** An empty listing means no stored type has the name. */
  lemma NoneListed(m: map<string, Hash>, stored: seq<SessionTypes.SessionTypeRow>, name: string, order: seq<string>)
    requires SessionTypes.AllStorable(stored)
    requires order == [] && forall id :: id in m ==> id in order
    requires forall i :: 0 <= i < |stored| && Lower(stored[i].name.value) == Lower(name) ==> IntToString(stored[i].id) in m
    ensures forall i :: 0 <= i < |stored| ==> Lower(stored[i].name.value) != Lower(name)
  {
  }

  /** The first listed hash is that of a stored type with the name. */
  lemma FirstListed(m: map<string, Hash>, stored: seq<SessionTypes.SessionTypeRow>, name: string, types: seq<Hash>, order: seq<string>)
    returns (i: nat)
    requires SessionTypes.AllStorable(stored)
    requires types != [] && |order| == |types| && order[0] in m && types[0] == m[order[0]]
    requires forall x :: x in m ==> exists i :: 0 <= i < |stored| && Lower(stored[i].name.value) == Lower(name) && IntToString(stored[i].id) == x
    requires forall id: int :: IntToString(id) in m ==>
      SessionTypes.LastWith(stored, id).Some? && m[IntToString(id)] == SessionTypes.TypeHash(SessionTypes.LastWith(stored, id).value)
    ensures i < |stored| && Lower(stored[i].name.value) == Lower(name)
    ensures "id" in types[0] && types[0]["id"] == IntToString(stored[i].id)
  {
    i :| 0 <= i < |stored| && Lower(stored[i].name.value) == Lower(name) && IntToString(stored[i].id) == order[0];
    var last := SessionTypes.LastWith(stored, stored[i].id);
    assert types[0] == SessionTypes.TypeHash(last.value);
  }
}
