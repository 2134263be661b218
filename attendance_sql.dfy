/** The attendance report of the relational finder (`lab1/lab.py`).

    `AttendanceFinder.FindAttendance` gathers the schedule rows of every
    requested session (`GetSchedule`), binds them as the parameter of an
    aggregate SQL query it assembles clause by clause, and enriches each
    returned row with the student's descriptive fields from the graph.

    The finder never assigns the connection `get_schedule` reads, so every
    schedule lookup fails and yields no rows; and a non-empty list of
    schedule rows is not a valid operand of `session_id = ANY(...)`. The
    model keeps both behaviours, and `PipelineAlwaysEmpty` proves what they
    add up to: every call returns an empty list. The aggregation, ordering,
    limit and enrichment are modelled and specified on their own all the
    same. */
module AttendanceSql {
  import opened Common
  import opened Ranking

  // ---------------------------------------------------------------------
  // The relational tables read
  // ---------------------------------------------------------------------

  /** A Schedule row. Its group, session, room, date and time columns are
      nullable but kept as plain values: `get_schedule` never reaches the
      table (`ScopeWithoutConnection`), so no Schedule row ever enters a
      report. */
  datatype ScheduleRow = ScheduleRow(
    scheduleId: int,
    sessionId: int,
    groupId: int,
    room: string,
    date: int,
    startTime: int)

  datatype SessionInfo = SessionInfo(topic: string, durationMinutes: int)

  datatype AttendanceRow = AttendanceRow(
    attendanceId: int,
    studentId: Option<int>,
    scheduleId: int,
    attended: Option<bool>)

  /** `sessions` is Lecture_Sessions keyed by its primary key. */
  datatype Database = Database(
    schedule: seq<ScheduleRow>,
    sessions: map<int, SessionInfo>,
    attendance: seq<AttendanceRow>)

  // ---------------------------------------------------------------------
  // get_schedule
  // ---------------------------------------------------------------------

  /** One row of the schedule query. */
  datatype ScheduleTuple = ScheduleTuple(
    scheduleId: int,
    groupId: int,
    room: string,
    date: int,
    startTime: int,
    topic: string,
    durationMinutes: int)

  /** `sch.scheduled_date BETWEEN %s AND %s`; a missing bound is NULL and
      the comparison fails. */
  predicate Between(date: int, start: Option<int>, end: Option<int>)
  {
    start.Some? && end.Some? && start.value <= date <= end.value
  }

  /** The schedule rows of one session inside the dates, joined with the
      session (a schedule row without its session is dropped by the JOIN). */
  function ScheduleMatches(db: Database, sessionId: int, start: Option<int>, end: Option<int>): (r: seq<ScheduleTuple>)
    ensures forall t :: t in r ==> exists s :: s in db.schedule && s.sessionId == sessionId && s.scheduleId == t.scheduleId
                                              && s.sessionId in db.sessions && Between(s.date, start, end)
  {
    ScheduleMatchesFrom(db.schedule, db.sessions, sessionId, start, end)
  }

  function ScheduleMatchesFrom(rows: seq<ScheduleRow>, sessions: map<int, SessionInfo>, sessionId: int,
                               start: Option<int>, end: Option<int>): (r: seq<ScheduleTuple>)
    ensures forall t :: t in r ==> exists s :: s in rows && s.sessionId == sessionId && s.scheduleId == t.scheduleId
                                              && s.sessionId in sessions && Between(s.date, start, end)
    ensures |r| <= |rows|
  {
    if rows == [] then []
    else
      var s := rows[0];
      var rest := ScheduleMatchesFrom(rows[1..], sessions, sessionId, start, end);
      assert forall x :: x in rows[1..] ==> x in rows;
      if s.sessionId == sessionId && s.sessionId in sessions && Between(s.date, start, end) then
        var info := sessions[s.sessionId];
        [ScheduleTuple(s.scheduleId, s.groupId, s.room, s.date, s.startTime, info.topic, info.durationMinutes)] + rest
      else rest
  }

  /** `ORDER BY sch.scheduled_date, sch.start_time`. */
  function ScheduleLe(a: ScheduleTuple, b: ScheduleTuple): bool
  {
    a.date < b.date || (a.date == b.date && a.startTime <= b.startTime)
  }

  lemma ScheduleLeTotal()
    ensures TotalPreorder(ScheduleLe)
  {
  }

  /** What `get_schedule` returns: nothing when the connection is missing
      (the exception handler), otherwise the matching rows in order. */
  function ScheduleResult(conn: Option<Database>, sessionId: int, start: Option<int>, end: Option<int>): seq<ScheduleTuple>
  {
    if conn.None? then [] else TopRows(ScheduleMatches(conn.value, sessionId, start, end), ScheduleLe, None)
  }

  lemma ScheduleResultSpec(conn: Option<Database>, sessionId: int, start: Option<int>, end: Option<int>)
    ensures conn.None? ==> ScheduleResult(conn, sessionId, start, end) == []
    ensures conn.Some? ==>
      var all := ScheduleMatches(conn.value, sessionId, start, end);
      var r := ScheduleResult(conn, sessionId, start, end);
      SortedBy(r, ScheduleLe) && multiset(r) == multiset(all)
  {
    if conn.Some? {
      ScheduleLeTotal();
      var all := ScheduleMatches(conn.value, sessionId, start, end);
      TopRowsIsTop(all, ScheduleLe, None);
      assert Sort(all, ScheduleLe)[..|all|] == Sort(all, ScheduleLe);
    }
  }

  /** The schedule rows of every requested id, one id after another. */
  function Scope(conn: Option<Database>, ids: seq<int>, start: Option<int>, end: Option<int>): seq<ScheduleTuple>
    decreases |ids|
  {
    if ids == [] then []
    else
      Scope(conn, ids[..|ids| - 1], start, end) + ScheduleResult(conn, ids[|ids| - 1], start, end)
  }

  lemma {:induction false} ScopeWithoutConnection(ids: seq<int>, start: Option<int>, end: Option<int>)
    ensures Scope(None, ids, start, end) == []
    decreases |ids|
  {
    if ids != [] {
      ScopeWithoutConnection(ids[..|ids| - 1], start, end);
    }
  }

  // ---------------------------------------------------------------------
  // The aggregate query
  // ---------------------------------------------------------------------

  /** One row of `Schedule sch LEFT JOIN Attendance a`: a schedule row
      without attendance gives one row whose attendance columns are NULL. */
  datatype JoinedRow = JoinedRow(
    groupId: int,
    studentId: Option<int>,
    attendanceId: Option<int>,
    attended: Option<bool>)

  /** The NULL columns of the outer join come together. */
  predicate WellJoined(rows: seq<JoinedRow>)
  {
    forall i :: 0 <= i < |rows| ==> (rows[i].attendanceId.None? ==> rows[i].attended.None? && rows[i].studentId.None?)
  }

  function AttendanceOf(att: seq<AttendanceRow>, scheduleId: int): (r: seq<AttendanceRow>)
    ensures forall a :: a in r <==> a in att && a.scheduleId == scheduleId
  {
    if att == [] then []
    else
      assert att == [att[0]] + att[1..];
      (if att[0].scheduleId == scheduleId then [att[0]] else []) + AttendanceOf(att[1..], scheduleId)
  }

  function JoinOne(s: ScheduleRow, att: seq<AttendanceRow>): (r: seq<JoinedRow>)
    ensures WellJoined(r)
    ensures |r| >= 1
  {
    var m := AttendanceOf(att, s.scheduleId);
    if m == [] then [JoinedRow(s.groupId, None, None, None)]
    else seq(|m|, i requires 0 <= i < |m| => JoinedRow(s.groupId, m[i].studentId, Some(m[i].attendanceId), m[i].attended))
  }

  /** `FROM Schedule sch LEFT JOIN Attendance a ON ... WHERE sch.session_id = ANY(ids)`:
      membership, so an id listed twice selects its rows once. */
  function LeftJoin(schedule: seq<ScheduleRow>, att: seq<AttendanceRow>, ids: seq<int>): (r: seq<JoinedRow>)
    ensures WellJoined(r)
    ensures ids == [] ==> r == []
  {
    if schedule == [] then []
    else
      var head := if schedule[0].sessionId in ids then JoinOne(schedule[0], att) else [];
      var rest := LeftJoin(schedule[1..], att, ids);
      assert forall i :: |head| <= i < |head + rest| ==> (head + rest)[i] == rest[i - |head|];
      head + rest
  }

  /** `GROUP BY a.student_id, sch.group_id`. */
  datatype GroupKey = GroupKey(studentId: Option<int>, groupId: int)

  function GroupKeyOf(j: JoinedRow): GroupKey
  {
    GroupKey(j.studentId, j.groupId)
  }

  /** `COUNT(a.attendance_id)`: the rows of the group with an attendance record. */
  function TotalOf(rows: seq<JoinedRow>, k: GroupKey): (n: nat)
    ensures n <= |rows|
    ensures n == 0 <==> forall i :: 0 <= i < |rows| ==> GroupKeyOf(rows[i]) == k ==> rows[i].attendanceId.None?
  {
    if rows == [] then 0
    else
      assert forall i :: 1 <= i < |rows| ==> rows[i] == rows[1..][i - 1];
      (if GroupKeyOf(rows[0]) == k && rows[0].attendanceId.Some? then 1 else 0) + TotalOf(rows[1..], k)
  }

  /** `SUM(CASE WHEN a.attended THEN 1 ELSE 0 END)`. */
  function AttendedOf(rows: seq<JoinedRow>, k: GroupKey): (n: nat)
    ensures WellJoined(rows) ==> n <= TotalOf(rows, k)
  {
    if rows == [] then 0
    else
      assert WellJoined(rows) ==> WellJoined(rows[1..]) by {
        if WellJoined(rows) {
          forall i | 0 <= i < |rows[1..]|
            ensures rows[1..][i].attendanceId.None? ==> rows[1..][i].attended.None? && rows[1..][i].studentId.None?
          {
            assert rows[1..][i] == rows[i + 1];
          }
        }
      }
      (if GroupKeyOf(rows[0]) == k && rows[0].attended == Some(true) then 1 else 0) + AttendedOf(rows[1..], k)
  }

  /** Division of `100 * a` by `t`: the quotient is at most 100 when
      `a <= t`, and exactly 100 only with no remainder. */
  lemma QuotientBounds(a: nat, t: nat, q: int, r: int)
    requires t > 0 && q == (100 * a) / t && r == (100 * a) % t
    ensures 100 * a == q * t + r && 0 <= r < t && 0 <= q
    ensures a <= t ==> q <= 100
    ensures a <= t && q == 100 ==> r == 0
  {
    var x := 100 * a;
    assert x == q * t + r && 0 <= r < t;
    assert a <= t ==> q <= 100 by {
      if a <= t && q > 100 {
        MulGrow(101, q, t);
      }
    }
  }

  /** The rounding error of picking `q` or `q + 1`. */
  lemma RoundingError(x: int, t: int, q: int, r: int, p: int)
    requires t > 0 && x == q * t + r && (p == q || p == q + 1)
    ensures p * t - x == (if p == q then -r else t - r)
  {
    if p == q + 1 {
      assert p * t == q * t + t;
    }
  }

  /** `ROUND(attended::FLOAT / total * 100)`: the nearest whole per cent,
      halves to the even neighbour (PostgreSQL's rounding of a double on the
      usual platforms). */
  function RoundPercent(a: nat, t: nat): (p: int)
    requires t > 0
    ensures 0 <= p
    ensures a <= t ==> p <= 100
    ensures 2 * (p * t - 100 * a) <= t && 2 * (100 * a - p * t) <= t
    ensures (2 * (p * t - 100 * a) == t || 2 * (100 * a - p * t) == t) ==> p % 2 == 0
  {
    var x := 100 * a;
    var q := x / t;
    var r := x % t;
    QuotientBounds(a, t, q, r);
    var p := if 2 * r < t then q else if 2 * r > t then q + 1 else if q % 2 == 0 then q else q + 1;
    RoundingError(x, t, q, r, p);
    p
  }

  lemma MulGrow(x: int, y: int, z: int)
    requires x <= y && z >= 0
    ensures x * z <= y * z
  {
  }

  /** One returned row: student, group, counts and percentage. */
  datatype SqlRow = SqlRow(
    studentId: Option<int>,
    groupId: int,
    totalCount: nat,
    attendedCount: nat,
    percent: int)

  function GroupKeys(rows: seq<JoinedRow>): (keys: seq<GroupKey>)
    ensures forall k :: k in keys <==> exists j :: j in rows && GroupKeyOf(j) == k
    ensures forall i, j :: 0 <= i < j < |keys| ==> keys[i] != keys[j]
    decreases |rows|
  {
    if rows == [] then []
    else
      var init := rows[..|rows| - 1];
      assert rows == init + [rows[|rows| - 1]];
      var prev := GroupKeys(init);
      var k := GroupKeyOf(rows[|rows| - 1]);
      if k in prev then prev else prev + [k]
  }

  function RowKey(s: SqlRow): GroupKey
  {
    GroupKey(s.studentId, s.groupId)
  }

  /** The selected columns of one group. */
  function RowFor(rows: seq<JoinedRow>, k: GroupKey): (s: SqlRow)
    requires WellJoined(rows) && TotalOf(rows, k) > 0
    ensures RowKey(s) == k
  {
    var t := TotalOf(rows, k);
    var a := AttendedOf(rows, k);
    SqlRow(k.studentId, k.groupId, t, a, RoundPercent(a, t))
  }

  /** One row per group with `COUNT(a.attendance_id) > 0` (the HAVING clause). */
  function Groups(rows: seq<JoinedRow>, keys: seq<GroupKey>): (r: seq<SqlRow>)
    requires WellJoined(rows)
    ensures forall s :: s in r ==> RowKey(s) in keys && TotalOf(rows, RowKey(s)) > 0 && s == RowFor(rows, RowKey(s))
  {
    if keys == [] then []
    else
      var k := keys[0];
      var head := if TotalOf(rows, k) > 0 then [RowFor(rows, k)] else [];
      head + Groups(rows, keys[1..])
  }

  lemma {:induction false} GroupsComplete(rows: seq<JoinedRow>, keys: seq<GroupKey>, k: GroupKey)
    requires WellJoined(rows)
    requires k in keys && TotalOf(rows, k) > 0
    ensures exists s :: s in Groups(rows, keys) && RowKey(s) == k
    decreases |keys|
  {
    if keys[0] != k {
      GroupsComplete(rows, keys[1..], k);
    } else {
      assert Groups(rows, keys)[0].studentId == k.studentId;
    }
  }

  /** No two rows are for the same (student, group) pair. */
  predicate DistinctRows(r: seq<SqlRow>)
  {
    forall i, j :: 0 <= i < j < |r| ==> RowKey(r[i]) != RowKey(r[j])
  }

  lemma {:induction false} GroupsDistinct(rows: seq<JoinedRow>, keys: seq<GroupKey>)
    requires WellJoined(rows)
    requires forall i, j :: 0 <= i < j < |keys| ==> keys[i] != keys[j]
    ensures DistinctRows(Groups(rows, keys))
    decreases |keys|
  {
    if keys != [] {
      var tail := keys[1..];
      GroupsDistinct(rows, tail);
      assert keys[0] !in tail by {
        forall n | 0 <= n < |tail| ensures tail[n] != keys[0] {
          assert tail[n] == keys[n + 1];
        }
      }
      var rest := Groups(rows, tail);
      var r := Groups(rows, keys);
      var head := if TotalOf(rows, keys[0]) > 0 then [RowFor(rows, keys[0])] else [];
      assert r == head + rest;
      forall i, j | 0 <= i < j < |r|
        ensures RowKey(r[i]) != RowKey(r[j])
      {
        var h := |head|;
        assert r[j] == rest[j - h];
        if i < h {
          assert r[i] == RowFor(rows, keys[0]);
          assert rest[j - h] in rest;
          assert RowKey(rest[j - h]) in tail;
        } else {
          assert r[i] == rest[i - h];
          assert DistinctRows(rest);
        }
      }
    }
  }

  function Aggregate(rows: seq<JoinedRow>): seq<SqlRow>
    requires WellJoined(rows)
  {
    Groups(rows, GroupKeys(rows))
  }

  /** Each group with at least one attendance record gets a row, and no
      group gets two. */
  lemma AggregateComplete(rows: seq<JoinedRow>)
    requires WellJoined(rows)
    ensures forall i :: 0 <= i < |rows| && rows[i].attendanceId.Some? ==>
      exists s :: s in Aggregate(rows) && RowKey(s) == GroupKeyOf(rows[i])
    ensures DistinctRows(Aggregate(rows))
  {
    var keys := GroupKeys(rows);
    forall i | 0 <= i < |rows| && rows[i].attendanceId.Some?
      ensures exists s :: s in Aggregate(rows) && RowKey(s) == GroupKeyOf(rows[i])
    {
      assert rows[i] in rows;
      assert TotalOf(rows, GroupKeyOf(rows[i])) > 0;
      GroupsComplete(rows, keys, GroupKeyOf(rows[i]));
    }
    GroupsDistinct(rows, keys);
  }

  /** Every row counts the group's attendance records and the attended ones
      among them, and its percentage is their ratio rounded to a whole per
      cent, between 0 and 100. */
  lemma AggregateBounds(rows: seq<JoinedRow>)
    requires WellJoined(rows)
    ensures forall s :: s in Aggregate(rows) ==>
      && s.totalCount == TotalOf(rows, RowKey(s))
      && s.attendedCount == AttendedOf(rows, RowKey(s))
      && 0 < s.totalCount && s.attendedCount <= s.totalCount
      && 0 <= s.percent <= 100
      && 2 * (s.percent * s.totalCount - 100 * s.attendedCount) <= s.totalCount
      && 2 * (100 * s.attendedCount - s.percent * s.totalCount) <= s.totalCount
  {
    forall s | s in Aggregate(rows)
      ensures s.totalCount == TotalOf(rows, RowKey(s))
      ensures s.attendedCount == AttendedOf(rows, RowKey(s))
      ensures 0 < s.totalCount && s.attendedCount <= s.totalCount
      ensures 0 <= s.percent <= 100
      ensures 2 * (s.percent * s.totalCount - 100 * s.attendedCount) <= s.totalCount
      ensures 2 * (100 * s.attendedCount - s.percent * s.totalCount) <= s.totalCount
    {
      assert s == RowFor(rows, RowKey(s));
    }
  }

  /** `ORDER BY attendance_percent ASC`. */
  function PercentLe(a: SqlRow, b: SqlRow): bool
  {
    a.percent <= b.percent
  }

  /** `ORDER BY a.student_id ASC`: NULL sorts last. */
  function StudentLe(a: SqlRow, b: SqlRow): bool
  {
    match (a.studentId, b.studentId)
    case (Some(x), Some(y)) => x <= y
    case (Some(_), None) => true
    case (None, Some(_)) => false
    case (None, None) => true
  }

  lemma OrdersTotal()
    ensures TotalPreorder(PercentLe) && TotalPreorder(StudentLe)
  {
  }

  function OrderFor(worst: bool): (SqlRow, SqlRow) -> bool
  {
    if worst then PercentLe else StudentLe
  }

  /** `if limit:` in Python: neither a missing limit nor 0 adds LIMIT. */
  predicate Truthy(limit: Option<int>)
  {
    limit.Some? && limit.value != 0
  }

  datatype SqlError = TypeMismatch | NegativeLimit | MalformedQuery

  /** The rows the aggregate query is specified to return for the bound ids. */
  function SqlExpected(db: Database, ids: seq<int>, worst: bool, limit: Option<int>): Result<seq<SqlRow>, SqlError>
  {
    if Truthy(limit) && limit.value < 0 then Err(NegativeLimit)
    else
      var lim: Option<nat> := if Truthy(limit) then Some(limit.value as nat) else None;
      Ok(TopRows(Aggregate(LeftJoin(db.schedule, db.attendance, ids)), OrderFor(worst), lim))
  }

  /** The aggregate query fails only on a negative LIMIT; otherwise it
      returns the aggregated groups ordered as asked, truncated only by a
      truthy limit. With no ids there is nothing to return. */
  lemma SqlExpectedSpec(db: Database, ids: seq<int>, worst: bool, limit: Option<int>)
    ensures SqlExpected(db, ids, worst, limit).Err? <==> Truthy(limit) && limit.value < 0
    ensures SqlExpected(db, ids, worst, limit).Ok? ==>
      IsTop(SqlExpected(db, ids, worst, limit).value,
            Aggregate(LeftJoin(db.schedule, db.attendance, ids)),
            OrderFor(worst),
            if Truthy(limit) then Some(limit.value as nat) else None)
    ensures ids == [] ==> SqlExpected(db, ids, worst, limit).Err? || SqlExpected(db, ids, worst, limit) == Ok([])
    ensures limit == Some(0) ==> SqlExpected(db, ids, worst, limit) == SqlExpected(db, ids, worst, None)
  {
    OrdersTotal();
    if !(Truthy(limit) && limit.value < 0) {
      var lim: Option<nat> := if Truthy(limit) then Some(limit.value as nat) else None;
      TopRowsIsTop(Aggregate(LeftJoin(db.schedule, db.attendance, ids)), OrderFor(worst), lim);
    }
  }

  /** The text fragments the finder appends. */
  datatype SqlClause =
    | SelectFromScheduleJoin   // SELECT ... FROM Schedule sch LEFT JOIN Attendance a ... WHERE sch.session_id = ANY(%s)
    | GroupByHaving            // GROUP BY a.student_id, sch.group_id HAVING COUNT(a.attendance_id) > 0
    | OrderByPercent
    | OrderByStudent
    | Limit(n: int)            // f" LIMIT {limit}"

  datatype SqlTable = Joined(rows: seq<JoinedRow>) | Grouped(result: seq<SqlRow>)

  function RunSqlClause(c: SqlClause, db: Database, ids: seq<int>, t: SqlTable): Result<SqlTable, SqlError>
  {
    match c
    case SelectFromScheduleJoin => Ok(Joined(LeftJoin(db.schedule, db.attendance, ids)))
    case GroupByHaving =>
      if t.Joined? && WellJoined(t.rows) then Ok(Grouped(Aggregate(t.rows))) else Err(MalformedQuery)
    case OrderByPercent =>
      if t.Grouped? then Ok(Grouped(Sort(t.result, PercentLe))) else Err(MalformedQuery)
    case OrderByStudent =>
      if t.Grouped? then Ok(Grouped(Sort(t.result, StudentLe))) else Err(MalformedQuery)
    case Limit(n) =>
      if !t.Grouped? then Err(MalformedQuery)
      else if n < 0 then Err(NegativeLimit)
      else Ok(Grouped(t.result[..LimitCount(|t.result|, Some(n as nat))]))
  }

  function RunSqlClauses(query: seq<SqlClause>, db: Database, ids: seq<int>): Result<SqlTable, SqlError>
    decreases |query|
  {
    if query == [] then Ok(Joined([]))
    else
      var prev := RunSqlClauses(query[..|query| - 1], db, ids);
      if prev.Err? then prev else RunSqlClause(query[|query| - 1], db, ids, prev.value)
  }

  function RunSql(query: seq<SqlClause>, db: Database, ids: seq<int>): Result<seq<SqlRow>, SqlError>
  {
    var t := RunSqlClauses(query, db, ids);
    if t.Err? then Err(t.error)
    else if t.value.Grouped? then Ok(t.value.result)
    else Err(MalformedQuery)
  }

  lemma RunSqlSnoc(query: seq<SqlClause>, c: SqlClause, db: Database, ids: seq<int>)
    ensures RunSqlClauses(query + [c], db, ids)
         == if RunSqlClauses(query, db, ids).Err? then RunSqlClauses(query, db, ids)
            else RunSqlClause(c, db, ids, RunSqlClauses(query, db, ids).value)
  {
    assert (query + [c])[..|query + [c]| - 1] == query;
  }

  /** Builds the aggregate query as `_find_attendance` does: the base
      selection, grouping, the ordering of the mode, and LIMIT only for a
      truthy limit. Whatever the tables hold, it computes `SqlExpected`. */
  method AssembleSql(worst: bool, limit: Option<int>) returns (query: seq<SqlClause>)
    ensures OrderByPercent in query <==> worst
    ensures OrderByStudent in query <==> !worst
    ensures query[|query| - 1].Limit? <==> Truthy(limit)
    ensures Truthy(limit) ==> query[|query| - 1] == Limit(limit.value)
    ensures forall i :: 0 <= i < |query| - 1 ==> !query[i].Limit?
    ensures forall db, ids :: RunSql(query, db, ids) == SqlExpected(db, ids, worst, limit)
  {
    query := [SelectFromScheduleJoin];
    query := query + [GroupByHaving];
    if worst {
      query := query + [OrderByPercent];
    } else {
      query := query + [OrderByStudent];
    }
    if limit.Some? && limit.value != 0 {
      query := query + [Limit(limit.value)];
    }
    forall db, ids ensures RunSql(query, db, ids) == SqlExpected(db, ids, worst, limit) {
      SqlMeaning(query, db, ids, worst, limit);
    }
  }

  /** The selection, grouping and ordering clauses yield the sorted groups. */
  lemma SqlOrdered(db: Database, ids: seq<int>, worst: bool)
    ensures RunSqlClauses([SelectFromScheduleJoin, GroupByHaving, if worst then OrderByPercent else OrderByStudent], db, ids)
         == Ok(Grouped(Sort(Aggregate(LeftJoin(db.schedule, db.attendance, ids)), OrderFor(worst))))
  {
    var rows := LeftJoin(db.schedule, db.attendance, ids);
    var order := if worst then OrderByPercent else OrderByStudent;
    RunSqlSnoc([], SelectFromScheduleJoin, db, ids);
    assert [] + [SelectFromScheduleJoin] == [SelectFromScheduleJoin];
    RunSqlSnoc([SelectFromScheduleJoin], GroupByHaving, db, ids);
    assert RunSqlClauses([SelectFromScheduleJoin, GroupByHaving], db, ids) == Ok(Grouped(Aggregate(rows)));
    RunSqlSnoc([SelectFromScheduleJoin, GroupByHaving], order, db, ids);
    assert [SelectFromScheduleJoin, GroupByHaving] + [order] == [SelectFromScheduleJoin, GroupByHaving, order];
  }

  lemma SqlMeaning(query: seq<SqlClause>, db: Database, ids: seq<int>, worst: bool, limit: Option<int>)
    requires query == [SelectFromScheduleJoin, GroupByHaving, if worst then OrderByPercent else OrderByStudent]
                      + (if Truthy(limit) then [Limit(limit.value)] else [])
    ensures RunSql(query, db, ids) == SqlExpected(db, ids, worst, limit)
  {
    var q3 := [SelectFromScheduleJoin, GroupByHaving, if worst then OrderByPercent else OrderByStudent];
    SqlOrdered(db, ids, worst);
    if Truthy(limit) {
      assert query == q3 + [Limit(limit.value)];
      SqlLimited(q3, db, ids, worst, limit.value);
    } else {
      assert query == q3;
      SqlUnlimited(q3, db, ids, worst);
    }
  }

  /** With LIMIT: a negative count is an error, otherwise the first rows. */
  lemma SqlLimited(q3: seq<SqlClause>, db: Database, ids: seq<int>, worst: bool, n: int)
    requires n != 0
    requires RunSqlClauses(q3, db, ids) == Ok(Grouped(Sort(Aggregate(LeftJoin(db.schedule, db.attendance, ids)), OrderFor(worst))))
    ensures RunSql(q3 + [Limit(n)], db, ids) == SqlExpected(db, ids, worst, Some(n))
  {
    var all := Aggregate(LeftJoin(db.schedule, db.attendance, ids));
    var sorted := Sort(all, OrderFor(worst));
    assert |sorted| == |all|;
    LimitClause(q3, db, ids, sorted, n);
  }

  /** LIMIT keeps the first `n` rows of what the earlier clauses produced. */
  lemma LimitClause(q: seq<SqlClause>, db: Database, ids: seq<int>, rows: seq<SqlRow>, n: int)
    requires RunSqlClauses(q, db, ids) == Ok(Grouped(rows))
    ensures RunSqlClauses(q + [Limit(n)], db, ids)
         == if n < 0 then Err(NegativeLimit) else Ok(Grouped(rows[..LimitCount(|rows|, Some(n as nat))]))
  {
    RunSqlSnoc(q, Limit(n), db, ids);
  }

  /** Without LIMIT: every sorted group. */
  lemma SqlUnlimited(q3: seq<SqlClause>, db: Database, ids: seq<int>, worst: bool)
    requires RunSqlClauses(q3, db, ids) == Ok(Grouped(Sort(Aggregate(LeftJoin(db.schedule, db.attendance, ids)), OrderFor(worst))))
    ensures RunSql(q3, db, ids) == SqlExpected(db, ids, worst, None)
  {
    var all := Aggregate(LeftJoin(db.schedule, db.attendance, ids));
    var sorted := Sort(all, OrderFor(worst));
    assert |sorted| == |all|;
    WholeRows(sorted);
  }

  lemma WholeRows(rows: seq<SqlRow>)
    ensures rows[..LimitCount(|rows|, None)] == rows
  {
  }

  /** Binding the list of schedule rows to `ANY(%s)`: an empty list is an
      empty array; a list of rows is an array of records, which cannot be
      compared with the integer `session_id`. */
  function BindScope(scope: seq<ScheduleTuple>): Result<seq<int>, SqlError>
  {
    if scope == [] then Ok([]) else Err(TypeMismatch)
  }

  // ---------------------------------------------------------------------
  // Enrichment from the graph
  // ---------------------------------------------------------------------

  /** One record of the graph query for a student. */
  datatype StudentRecord = StudentRecord(
    studentId: int,
    name: Option<string>,
    enrollmentYear: Option<int>,
    dateOfBirth: Option<int>,
    email: Option<string>,
    bookNumber: Option<string>,
    groupId: Option<int>,
    groupName: Option<string>)

  /** `{r['student_id']: r for r in result.data()}`: a later record of the
      same student replaces an earlier one. */
  function Lookup(records: seq<StudentRecord>): (m: map<int, StudentRecord>)
    ensures forall id :: id in m <==> exists r :: r in records && r.studentId == id
    ensures forall id :: id in m ==> m[id] in records && m[id].studentId == id
    decreases |records|
  {
    if records == [] then map[]
    else
      var last := records[|records| - 1];
      assert records == records[..|records| - 1] + [last];
      Lookup(records[..|records| - 1])[last.studentId := last]
  }

  lemma LookupLastWins(records: seq<StudentRecord>, i: nat)
    requires i < |records|
    requires forall j :: i < j < |records| ==> records[j].studentId != records[i].studentId
    ensures records[i].studentId in Lookup(records) && Lookup(records)[records[i].studentId] == records[i]
    decreases |records|
  {
    if i < |records| - 1 {
      LookupLastWins(records[..|records| - 1], i);
    }
  }

  /** One dictionary of the result. */
  datatype Report = Report(
    studentId: Option<int>,
    studentName: Option<string>,
    attendedCount: nat,
    totalCount: nat,
    attendancePercent: int,
    enrollmentYear: Option<int>,
    dateOfBirth: Option<int>,
    email: Option<string>,
    bookNumber: Option<string>,
    groupId: Option<int>,
    groupName: Option<string>)

  /** `neo4j_data.get(row[0], {})`. */
  function Describe(row: SqlRow, lookup: map<int, StudentRecord>): Report
  {
    if row.studentId.Some? && row.studentId.value in lookup then
      var s := lookup[row.studentId.value];
      Report(row.studentId, s.name, row.attendedCount, row.totalCount, row.percent,
             s.enrollmentYear, s.dateOfBirth, s.email, s.bookNumber, s.groupId, s.groupName)
    else
      Report(row.studentId, None, row.attendedCount, row.totalCount, row.percent,
             None, None, None, None, None, None)
  }

  /** One report per row, in the rows' order, with the row's figures; a
      student the graph knows gets the seven fields of its record, and one
      it does not know keeps its row with all seven fields empty. */
  function Enrich(rows: seq<SqlRow>, lookup: map<int, StudentRecord>): (r: seq<Report>)
    ensures |r| == |rows|
    ensures forall i :: 0 <= i < |r| ==>
      && r[i].studentId == rows[i].studentId
      && r[i].attendedCount == rows[i].attendedCount
      && r[i].totalCount == rows[i].totalCount
      && r[i].attendancePercent == rows[i].percent
    ensures forall i :: 0 <= i < |r| && (rows[i].studentId.None? || rows[i].studentId.value !in lookup) ==>
      && r[i].studentName.None? && r[i].enrollmentYear.None? && r[i].dateOfBirth.None?
      && r[i].email.None? && r[i].bookNumber.None? && r[i].groupId.None? && r[i].groupName.None?
    ensures forall i :: 0 <= i < |r| && rows[i].studentId.Some? && rows[i].studentId.value in lookup ==>
      var s := lookup[rows[i].studentId.value];
      && r[i].studentName == s.name
      && r[i].enrollmentYear == s.enrollmentYear
      && r[i].dateOfBirth == s.dateOfBirth
      && r[i].email == s.email
      && r[i].bookNumber == s.bookNumber
      && r[i].groupId == s.groupId
      && r[i].groupName == s.groupName
  {
    seq(|rows|, i requires 0 <= i < |rows| => Describe(rows[i], lookup))
  }

  // ---------------------------------------------------------------------
  // The finder
  // ---------------------------------------------------------------------

  /** The whole of `_find_attendance`; every failure becomes an empty list. */
  function Pipeline(conn: Option<Database>, pg: Option<Database>, graph: Option<seq<StudentRecord>>,
                    ids: seq<int>, limit: Option<int>, worst: bool, start: Option<int>, end: Option<int>): seq<Report>
  {
    if ids == [] then []
    else
      var scope := Scope(conn, ids, start, end);
      if pg.None? then []
      else
        var bound := BindScope(scope);
        if bound.Err? then []
        else
          var rows := SqlExpected(pg.value, bound.value, worst, limit);
          if rows.Err? || rows.value == [] || graph.None? then []
          else Enrich(rows.value, Lookup(graph.value))
  }

  /** With no session id the aggregate query returns no row. */
  lemma NoIdsNoRows(db: Database, worst: bool, limit: Option<int>)
    ensures SqlExpected(db, [], worst, limit).Err? || SqlExpected(db, [], worst, limit) == Ok([])
  {
    SqlExpectedSpec(db, [], worst, limit);
  }

  /** As written, every call returns an empty list: without a connection the
      scope is empty and selects nothing; with one, a non-empty scope cannot
      be bound. */
  lemma PipelineAlwaysEmpty(conn: Option<Database>, pg: Option<Database>, graph: Option<seq<StudentRecord>>,
                            ids: seq<int>, limit: Option<int>, worst: bool, start: Option<int>, end: Option<int>)
    ensures Pipeline(conn, pg, graph, ids, limit, worst, start, end) == []
  {
    if ids != [] && pg.Some? {
      var scope := Scope(conn, ids, start, end);
      if scope == [] {
        assert BindScope(scope) == Ok([]);
        NoIdsNoRows(pg.value, worst, limit);
      }
    }
  }

  /** The inner loop: `session_ids.append(session_id)` for each row in turn. */
  method AppendAll<T>(acc: seq<T>, items: seq<T>) returns (r: seq<T>)
    ensures r == acc + items
  {
    r := acc;
    var j := 0;
    while j < |items|
      invariant 0 <= j <= |items|
      invariant r == acc + items[..j]
    {
      r := r + [items[j]];
      assert items[..j + 1] == items[..j] + [items[j]];
      j := j + 1;
    }
    assert items[..|items|] == items;
  }

  class AttendanceFinder {
    /** `self.conn`, which no method assigns; reading it fails. */
    var conn: Option<Database>

    constructor ()
      ensures conn.None?
    {
      conn := None;
    }

    /** `get_schedule`. */
    method GetSchedule(sessionId: int, start: Option<int>, end: Option<int>) returns (rows: seq<ScheduleTuple>)
      ensures rows == ScheduleResult(conn, sessionId, start, end)
      ensures conn.None? ==> rows == []
    {
      if conn.None? {
        return [];
      }
      ScheduleLeTotal();
      rows := TopRows(ScheduleMatches(conn.value, sessionId, start, end), ScheduleLe, None);
    }

    /** `_find_attendance` against the relational store `pg` and the graph
        query's records `graph` (None when either cannot be reached). */
    method FindAttendance(pg: Option<Database>, graph: Option<seq<StudentRecord>>,
                          ids: seq<int>, limit: Option<int>, worst: bool, start: Option<int>, end: Option<int>)
      returns (r: seq<Report>)
      ensures r == Pipeline(conn, pg, graph, ids, limit, worst, start, end)
    {
      if ids == [] {
        return [];
      }
      var scope := CollectScope(ids, start, end);
      var query := AssembleSql(worst, limit);
      if pg.None? {
        return [];
      }
      var bound := BindScope(scope);
      if bound.Err? {
        return [];
      }
      var rows := RunSql(query, pg.value, bound.value);
      if rows.Err? || rows.value == [] || graph.None? {
        return [];
      }
      r := Enrich(rows.value, Lookup(graph.value));
    }

    /** The outer loop over the ids: each id's schedule rows are appended. */
    method CollectScope(ids: seq<int>, start: Option<int>, end: Option<int>) returns (scope: seq<ScheduleTuple>)
      ensures scope == Scope(conn, ids, start, end)
    {
      scope := [];
      var i := 0;
      while i < |ids|
        invariant 0 <= i <= |ids|
        invariant scope == Scope(conn, ids[..i], start, end)
      {
        var sessions := GetSchedule(ids[i], start, end);
        scope := AppendAll(scope, sessions);
        assert ids[..i + 1][..i] == ids[..i];
        i := i + 1;
      }
      assert ids[..|ids|] == ids;
    }

    /** `find_worst_attendees`: lowest percentages first, `top_n` rows when
        it is non-zero. */
    method FindWorstAttendees(pg: Option<Database>, graph: Option<seq<StudentRecord>>,
                              ids: seq<int>, topN: int, start: Option<int>, end: Option<int>)
      returns (r: seq<Report>)
      ensures r == Pipeline(conn, pg, graph, ids, Some(topN), true, start, end)
      ensures r == []
    {
      r := FindAttendance(pg, graph, ids, Some(topN), true, start, end);
      PipelineAlwaysEmpty(conn, pg, graph, ids, Some(topN), true, start, end);
    }

    /** `get_attendance_summary`: every group's row, ordered by student. */
    method GetAttendanceSummary(pg: Option<Database>, graph: Option<seq<StudentRecord>>,
                                ids: seq<int>, start: Option<int>, end: Option<int>)
      returns (r: seq<Report>)
      ensures r == Pipeline(conn, pg, graph, ids, None, false, start, end)
      ensures r == []
    {
      r := FindAttendance(pg, graph, ids, None, false, start, end);
      PipelineAlwaysEmpty(conn, pg, graph, ids, None, false, start, end);
    }
  }
}
