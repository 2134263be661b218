/** The report endpoint of the graph-based service
    (`lab1_service/app.py`, `generate_attendance_report`): validate the
    request, look the term up in the search index, rank the worst attendees
    in the graph, and attach each one's cached Redis hash. */
module ServiceReport {
  import opened Common
  import opened Http
  import opened RedisStore
  import AG = AttendanceGraph
  import Ranking
  import StudentCache

  const Required: seq<string> := ["term", "start_date", "end_date"]
  const MissingFields: string := "Missing required fields: ['term', 'start_date', 'end_date']"
  const NoLectures: string := "No lectures found for the term"

  /** The `redis_info` part of one entry: `redis_info.get(field)`. */
  datatype RedisInfo = RedisInfo(name: Option<string>, age: Option<string>, mail: Option<string>, group: Option<string>)

  /** One entry of `worst_attendees`: the finder's record with `redis_info`
      added. */
  datatype Attendee = Attendee(record: AG.Summary, redisInfo: RedisInfo)

  function Get(h: Hash, f: string): Option<string>
  {
    if f in h then Some(h[f]) else None
  }

  /** `format_student`: HGETALL of `student:{studentId}`; a field missing
      from the hash (or the whole hash) gives `None`. */
  function FormatStudent(s: Snapshot, rec: AG.Summary): Attendee
  {
    var h := HashAt(s, StudentCache.StudentKey(IntToString(rec.studentId)));
    Attendee(rec, RedisInfo(Get(h, "name"), Get(h, "age"), Get(h, "mail"), Get(h, "group")))
  }

  function FormatAll(s: Snapshot, worst: seq<AG.Summary>): (r: seq<Attendee>)
    ensures |r| == |worst|
    ensures forall i :: 0 <= i < |worst| ==> r[i] == FormatStudent(s, worst[i])
  {
    seq(|worst|, i requires 0 <= i < |worst| => FormatStudent(s, worst[i]))
  }

  /** The value `date($start_date)` receives: a JSON null is Python's None
      and switches the window off; any other value goes to `date()`, whose
      reading of it (`dateOf`) belongs to the graph store. */
  function DateParam(j: Json, dateOf: Json -> AG.DateArg): Option<AG.DateArg>
  {
    if j.JNull? then None else Some(dateOf(j))
  }

  /** The worst attendees for the found lectures: `find_worst_attendees`
      with `top_n=10`. */
  function Worst(req: Request, found: seq<int>, facts: seq<AG.Fact>, dateOf: Json -> AG.DateArg): Result<seq<AG.Summary>, AG.QueryError>
    requires Valid(req)
  {
    AG.Expected(facts, found, Some(10), true,
                DateParam(req.body["start_date"], dateOf), DateParam(req.body["end_date"], dateOf))
  }

  /** `generate_attendance_report`. `search` is what the search index
      answers for the term: the lecture ids of the hits, or the exception
      `LectureMaterialSearcher.search` raises (an unreachable index, a hit
      without `lecture_id`); it runs before the `try`, so that exception
      escapes the handler. `graph` is the graph the finder queries (None
      when its query raises for any reason other than an unreadable date:
      an unreachable server, refused credentials), `redis` the cache (None
      when it cannot be reached: every command then raises). Both are used
      inside the `try`, so their failures give the handler's own 500. */
  function GenerateAttendanceReport(req: Request, search: Result<seq<int>, string>, graph: Option<seq<AG.Fact>>,
                                    dateOf: Json -> AG.DateArg, redis: Option<Snapshot>): Response<Attendee>
  {
    if !req.isJson then BadRequest(NotJson, None)
    else if !HasAllRequiredFields(req.body, Required) then BadRequest(MissingFields, Some(req.body.Keys))
    else
      RequiredFields(req.body);
      if search.Err? then Unhandled(search.error)
      else
        var found := search.value;
        if found == [] then NotFound(NoLectures)
        else if graph.None? then ServerError(ProcessingFailed)
        else
          var worst := Worst(req, found, graph.value, dateOf);
          if worst.Err? then ServerError(ProcessingFailed)
          else if worst.value != [] && redis.None? then ServerError(ProcessingFailed)
          else
            var entries := if worst.value == [] then [] else FormatAll(redis.value, worst.value);
            Success(Report(req.body["term"], Period(req.body["start_date"], req.body["end_date"]), |found|, entries),
                    "success", |worst.value|)
  }

  /** A JSON request carrying the three required fields. */
  predicate Valid(req: Request)
  {
    req.isJson && "term" in req.body && "start_date" in req.body && "end_date" in req.body
  }

  lemma RequiredFields(data: map<string, Json>)
    ensures HasAllRequiredFields(data, Required) <==> "term" in data && "start_date" in data && "end_date" in data
  {
    if HasAllRequiredFields(data, Required) {
      assert Required[0] in data && Required[1] in data && Required[2] in data;
    }
  }

  /** The status decisions: 400 before anything is contacted, the search
      exception escaping as it is, 404 for an empty search, the handler's
      own 500 when the graph query fails, the finder rejects a date or a
      Redis lookup fails, 200 otherwise. */
  lemma StatusCodes(req: Request, search: Result<seq<int>, string>, graph: Option<seq<AG.Fact>>,
                    dateOf: Json -> AG.DateArg, redis: Option<Snapshot>)
    ensures var resp := GenerateAttendanceReport(req, search, graph, dateOf, redis);
      && (StatusCode(resp) == 400 <==> !Valid(req))
      && (req.isJson && !Valid(req) ==> resp == BadRequest(MissingFields, Some(req.body.Keys)))
      && (resp.Unhandled? <==> Valid(req) && search.Err?)
      && (Valid(req) && search.Err? ==> resp == Unhandled(search.error))
      && (StatusCode(resp) == 404 <==> Valid(req) && search == Ok([]))
      && (resp.ServerError? <==>
            Valid(req) && search.Ok? && search.value != [] &&
            (graph.None? ||
             Worst(req, search.value, graph.value, dateOf).Err? ||
             (Worst(req, search.value, graph.value, dateOf).value != [] && redis.None?)))
      && (resp.Success? <==>
            Valid(req) && search.Ok? && search.value != [] && graph.Some? &&
            Worst(req, search.value, graph.value, dateOf).Ok? &&
            (Worst(req, search.value, graph.value, dateOf).value == [] || redis.Some?))
  {
    RequiredFields(req.body);
  }

  /** A 200 answer: the term, the period text, the number of lecture ids,
      one entry per ranked record in the finder's order (each keeping the
      record and adding its Redis fields), and the record count. */
  lemma SuccessReport(req: Request, search: Result<seq<int>, string>, graph: Option<seq<AG.Fact>>,
                      dateOf: Json -> AG.DateArg, redis: Option<Snapshot>)
    requires GenerateAttendanceReport(req, search, graph, dateOf, redis).Success?
    ensures Valid(req) && search.Ok? && search.value != [] && graph.Some?
    ensures Worst(req, search.value, graph.value, dateOf).Ok?
    ensures var resp := GenerateAttendanceReport(req, search, graph, dateOf, redis);
      var found := search.value;
      var worst := Worst(req, found, graph.value, dateOf).value;
      && resp.report.searchTerm == req.body["term"]
      && resp.report.period == PyStr(req.body["start_date"]) + " - " + PyStr(req.body["end_date"])
      && resp.report.foundLectures == |found|
      && resp.status == "success"
      && resp.results == |worst| == |resp.report.worstAttendees|
      && (forall i :: 0 <= i < |worst| ==> resp.report.worstAttendees[i].record == worst[i])
  {
    RequiredFields(req.body);
  }

  /** The records of a 200 answer are at most ten, ascending by percentage,
      and no record left out of them has a lower percentage: they are the
      lowest of the per-student aggregate for the found lectures in the
      requested window. */
  lemma SuccessRanked(req: Request, search: Result<seq<int>, string>, graph: Option<seq<AG.Fact>>,
                      dateOf: Json -> AG.DateArg, redis: Option<Snapshot>)
    requires GenerateAttendanceReport(req, search, graph, dateOf, redis).Success?
    ensures Valid(req) && search.Ok? && graph.Some? && Worst(req, search.value, graph.value, dateOf).Ok?
    ensures var found := search.value;
      var worst := Worst(req, found, graph.value, dateOf).value;
      var start := DateParam(req.body["start_date"], dateOf);
      var end := DateParam(req.body["end_date"], dateOf);
      var all := AG.Aggregate(AG.ScopeRows(found, graph.value, AG.WindowDays(AG.Window(start, end))));
      && |worst| <= 10
      && Ranking.IsTop(worst, all, AG.PercentLe, Some(10))
  {
    RequiredFields(req.body);
    var found := search.value;
    var start := DateParam(req.body["start_date"], dateOf);
    var end := DateParam(req.body["end_date"], dateOf);
    AG.ExpectedSpec(graph.value, found, Some(10), true, start, end);
  }

  /** An entry built from a cache rebuilt by `sync_students_to_redis` carries
      the cached name, age text, mail and group of the last stored row with
      the student's id, and four `None`s when there is no such row. */
  lemma FormatAfterSync(s: Snapshot, rows: seq<StudentCache.StudentRow>, rec: AG.Summary)
    ensures var stored := rows[..StudentCache.StorablePrefix(rows)];
      var last := StudentCache.LastWith(stored, rec.studentId);
      var entry := FormatStudent(StudentCache.Synced(s, rows), rec);
      && entry.record == rec
      && entry.redisInfo ==
        if last.None? then RedisInfo(None, None, None, None)
        else RedisInfo(last.value.name, Some(IntToString(last.value.age.value)), last.value.mail, last.value.groupName)
  {
    StudentCache.SyncStudentHash(s, rows, rec.studentId);
    var stored := rows[..StudentCache.StorablePrefix(rows)];
    var last := StudentCache.LastWith(stored, rec.studentId);
    if last.Some? {
      assert StudentCache.Storable(last.value);
    }
  }
}
