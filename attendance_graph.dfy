/** The attendance report of the graph-backed finder
    (`lab1_service/Lab1.py`, `AttendanceFinder._find_attendance`).

    The finder assembles a Cypher query clause by clause (`AssembleQuery`)
    and runs it. What the query means is given twice: clause by clause
    (`Execute`, an interpreter for the clauses the finder can emit) and as
    one specification (`Expected`: scope, per-student counts, ordering,
    limit). `AssembleQuery` proves that the query it builds means the
    specification, and `ExpectedSpec` says what the specification delivers.

    The store is represented by the rows its MATCH pattern yields: one
    `Fact` per (lecture, schedule event, group, student) path
    `(Lecture)<-[:OF_LECTURE]-(ScheduleEvent)<-[:SCHEDULED_FOR]-(Group)<-[:MEMBER_OF]-(Student)`,
    with the `attended` property of the optional ATTENDED edge. */
module AttendanceGraph {
  import opened Common
  import opened Ranking

  /** The value `date($start_date)` computes: a day (dates are compared as
      numbers) or a text Cypher cannot read as a date. */
  datatype DateArg = Date(day: int) | NotADate

  datatype Fact = Fact(
    lectureId: int,
    eventDate: Option<int>,
    studentId: int,
    studentName: Option<string>,
    attended: Option<bool>)

  /** The grouping key of `WITH st.postgres_id AS studentId, st.name AS studentName, collect(...)`. */
  datatype StudentKey = StudentKey(id: int, name: Option<string>)

  /** One returned record; `percent` is in hundredths of a per cent. */
  datatype Summary = Summary(
    studentId: int,
    studentName: Option<string>,
    attendedCount: nat,
    totalCount: nat,
    percent: int)

  datatype QueryError = InvalidDate | NegativeLimit | MissingParameter | MalformedQuery

  function KeyOf(f: Fact): StudentKey
  {
    StudentKey(f.studentId, f.studentName)
  }

  function SummaryKey(s: Summary): StudentKey
  {
    StudentKey(s.studentId, s.studentName)
  }

  // ---------------------------------------------------------------------
  // Scope: UNWIND $lecture_ids, MATCH, and the optional date window
  // ---------------------------------------------------------------------

  /** `e.date >= date($start_date) AND e.date <= date($end_date)`; an event
      without a date fails the comparison. */
  predicate InWindow(f: Fact, window: Option<(int, int)>)
  {
    window.None? || (f.eventDate.Some? && window.value.0 <= f.eventDate.value <= window.value.1)
  }

  /** The MATCH rows for one unwound lecture id. */
  function LectureRows(lid: int, facts: seq<Fact>, window: Option<(int, int)>): (r: seq<Fact>)
    ensures forall f :: f in r <==> f in facts && f.lectureId == lid && InWindow(f, window)
  {
    if facts == [] then []
    else
      assert facts == [facts[0]] + facts[1..];
      (if facts[0].lectureId == lid && InWindow(facts[0], window) then [facts[0]] else [])
        + LectureRows(lid, facts[1..], window)
  }

  /** The rows UNWIND produces: the matches of each id in turn. */
  function ScopeRows(ids: seq<int>, facts: seq<Fact>, window: Option<(int, int)>): (r: seq<Fact>)
    ensures forall f :: f in r <==> f in facts && f.lectureId in ids && InWindow(f, window)
  {
    if ids == [] then []
    else
      assert ids == [ids[0]] + ids[1..];
      LectureRows(ids[0], facts, window) + ScopeRows(ids[1..], facts, window)
  }

  lemma {:induction false} LectureRowsCount(lid: int, facts: seq<Fact>, window: Option<(int, int)>, f: Fact)
    ensures multiset(LectureRows(lid, facts, window))[f]
         == if f.lectureId == lid && InWindow(f, window) then multiset(facts)[f] else 0
    decreases |facts|
  {
    if facts != [] {
      LectureRowsCount(lid, facts[1..], window, f);
      assert facts == [facts[0]] + facts[1..];
    }
  }

  /** A lecture id listed twice is unwound twice, so its events count twice. */
  lemma {:induction false} ScopeRowsCount(ids: seq<int>, facts: seq<Fact>, window: Option<(int, int)>, f: Fact)
    ensures multiset(ScopeRows(ids, facts, window))[f]
         == if InWindow(f, window) then multiset(ids)[f.lectureId] * multiset(facts)[f] else 0
    decreases |ids|
  {
    if ids != [] {
      ScopeRowsCount(ids[1..], facts, window, f);
      LectureRowsCount(ids[0], facts, window, f);
      ScopeRowsSplit(ids, facts, window, f);
      IdsCountSplit(ids, f.lectureId);
      if InWindow(f, window) {
        MulDistributes(if f.lectureId == ids[0] then 1 else 0, multiset(ids[1..])[f.lectureId], multiset(facts)[f]);
      }
    }
  }

  lemma ScopeRowsSplit(ids: seq<int>, facts: seq<Fact>, window: Option<(int, int)>, f: Fact)
    requires ids != []
    ensures multiset(ScopeRows(ids, facts, window))[f]
         == multiset(LectureRows(ids[0], facts, window))[f] + multiset(ScopeRows(ids[1..], facts, window))[f]
  {
    assert ScopeRows(ids, facts, window) == LectureRows(ids[0], facts, window) + ScopeRows(ids[1..], facts, window);
  }

  lemma IdsCountSplit(ids: seq<int>, x: int)
    requires ids != []
    ensures multiset(ids)[x] == (if x == ids[0] then 1 else 0) + multiset(ids[1..])[x]
  {
    assert ids == [ids[0]] + ids[1..];
  }

  lemma MulDistributes(a: int, b: int, m: int)
    ensures (a + b) * m == a * m + b * m
  {
  }

  /** The WHERE clause on rows already matched. */
  function FilterWindow(rows: seq<Fact>, window: Option<(int, int)>): seq<Fact>
  {
    if rows == [] then []
    else
      (if InWindow(rows[0], window) then [rows[0]] else []) + FilterWindow(rows[1..], window)
  }

  lemma {:induction false} FilterWindowConcat(a: seq<Fact>, b: seq<Fact>, window: Option<(int, int)>)
    ensures FilterWindow(a + b, window) == FilterWindow(a, window) + FilterWindow(b, window)
    decreases |a|
  {
    if a == [] {
      assert a + b == b;
    } else {
      var ab := a + b;
      assert ab[0] == a[0] && ab[1..] == a[1..] + b;
      FilterWindowConcat(a[1..], b, window);
      var head := if InWindow(a[0], window) then [a[0]] else [];
      assert FilterWindow(ab, window) == head + FilterWindow(a[1..] + b, window);
      assert FilterWindow(a, window) == head + FilterWindow(a[1..], window);
    }
  }

  lemma {:induction false} LectureRowsWindow(lid: int, facts: seq<Fact>, window: Option<(int, int)>)
    ensures FilterWindow(LectureRows(lid, facts, None), window) == LectureRows(lid, facts, window)
    decreases |facts|
  {
    if facts != [] {
      LectureRowsWindow(lid, facts[1..], window);
      var head := if facts[0].lectureId == lid then [facts[0]] else [];
      FilterWindowConcat(head, LectureRows(lid, facts[1..], None), window);
    }
  }

  /** Filtering after the MATCH is the same as matching inside the window. */
  lemma {:induction false} ScopeRowsWindow(ids: seq<int>, facts: seq<Fact>, window: Option<(int, int)>)
    ensures FilterWindow(ScopeRows(ids, facts, None), window) == ScopeRows(ids, facts, window)
    decreases |ids|
  {
    if ids != [] {
      ScopeRowsWindow(ids[1..], facts, window);
      LectureRowsWindow(ids[0], facts, window);
      FilterWindowConcat(LectureRows(ids[0], facts, None), ScopeRows(ids[1..], facts, None), window);
    }
  }

  // ---------------------------------------------------------------------
  // Per-student counting
  // ---------------------------------------------------------------------

  /** `coalesce(a.attended, false)`. */
  function Coalesce(a: Option<bool>): bool
  {
    if a.Some? then a.value else false
  }

  /** The rows of one student. */
  function RowsOf(rows: seq<Fact>, k: StudentKey): (r: seq<Fact>)
    ensures forall f :: f in r <==> f in rows && KeyOf(f) == k
  {
    if rows == [] then []
    else
      assert rows == [rows[0]] + rows[1..];
      (if KeyOf(rows[0]) == k then [rows[0]] else []) + RowsOf(rows[1..], k)
  }

  /** The rows of one student whose ATTENDED edge says `attended = true`. */
  function AttendedRowsOf(rows: seq<Fact>, k: StudentKey): (r: seq<Fact>)
    ensures forall f :: f in r <==> f in rows && KeyOf(f) == k && f.attended == Some(true)
    ensures |r| <= |RowsOf(rows, k)|
  {
    if rows == [] then []
    else
      assert rows == [rows[0]] + rows[1..];
      (if KeyOf(rows[0]) == k && rows[0].attended == Some(true) then [rows[0]] else [])
        + AttendedRowsOf(rows[1..], k)
  }

  /** `collect(coalesce(a.attended, false)) AS flags`: one flag per row of
      the student, true exactly when its ATTENDED edge says so. */
  function Flags(rows: seq<Fact>, k: StudentKey): (flags: seq<bool>)
    ensures |flags| == |RowsOf(rows, k)|
    ensures forall i :: 0 <= i < |flags| ==> (flags[i] <==> RowsOf(rows, k)[i].attended == Some(true))
  {
    if rows == [] then []
    else (if KeyOf(rows[0]) == k then [Coalesce(rows[0].attended)] else []) + Flags(rows[1..], k)
  }

  /** `size([f IN flags WHERE f])`. */
  function CountTrue(flags: seq<bool>): (n: nat)
    ensures n <= |flags|
    ensures n == |flags| <==> forall i :: 0 <= i < |flags| ==> flags[i]
    ensures n == 0 <==> forall i :: 0 <= i < |flags| ==> !flags[i]
  {
    if flags == [] then 0
    else
      assert forall i :: 1 <= i < |flags| ==> flags[i] == flags[1..][i - 1];
      (if flags[0] then 1 else 0) + CountTrue(flags[1..])
  }

  lemma {:induction false} CountTrueConcat(a: seq<bool>, b: seq<bool>)
    ensures CountTrue(a + b) == CountTrue(a) + CountTrue(b)
    decreases |a|
  {
    if a == [] {
      assert a + b == b;
    } else {
      CountTrueConcat(a[1..], b);
      assert (a + b)[0] == a[0];
      assert (a + b)[1..] == a[1..] + b;
    }
  }

  /** The attended count is the number of attended rows of the student. */
  lemma {:induction false} CountTrueFlags(rows: seq<Fact>, k: StudentKey)
    ensures CountTrue(Flags(rows, k)) == |AttendedRowsOf(rows, k)|
    decreases |rows|
  {
    if rows != [] {
      CountTrueFlags(rows[1..], k);
      var head := if KeyOf(rows[0]) == k then [Coalesce(rows[0].attended)] else [];
      CountTrueConcat(head, Flags(rows[1..], k));
    }
  }

  /** `round(toFloat(attendedCount) / totalCount * 100, 2)` in hundredths of
      a per cent: the nearest hundredth, halves rounded up. */
  function Percent(attended: nat, total: nat): (p: int)
    requires total > 0
    ensures 2 * p * total - total <= 20000 * attended < 2 * p * total + total
    ensures 0 <= p
    ensures attended <= total ==> p <= 10000
  {
    var x := 20000 * attended + total;
    var d := 2 * total;
    DivBounds(x, d);
    var q := x / d;
    Rearrange(q, total);
    PercentCap(attended, total, q);
    q
  }

  lemma DivBounds(x: int, d: int)
    requires x >= 0 && d > 0
    ensures 0 <= x / d
    ensures d * (x / d) <= x < d * (x / d) + d
  {
  }

  lemma Rearrange(q: int, t: int)
    ensures (2 * t) * q == 2 * q * t
  {
  }

  lemma PercentCap(a: int, t: int, q: int)
    requires t > 0 && 2 * q * t <= 20000 * a + t
    ensures a <= t ==> q <= 10000
  {
    if a <= t && q > 10000 {
      MulMonotone(10001, q, 2 * t);
    }
  }

  lemma MulStrict(x: int, y: int, z: int)
    requires x < y && z > 0
    ensures x * z < y * z
  {
  }

  lemma MulMonotone(x: int, y: int, z: int)
    requires x <= y && z >= 0
    ensures x * z <= y * z
  {
  }

  /** Rounding never inverts two attendance ratios. */
  lemma PercentMonotone(a1: nat, t1: nat, a2: nat, t2: nat)
    requires t1 > 0 && t2 > 0
    requires a1 * t2 <= a2 * t1
    ensures Percent(a1, t1) <= Percent(a2, t2)
  {
    var p1, p2 := Percent(a1, t1), Percent(a2, t2);
    if p1 > p2 {
      var c := 2 * p2 + 1;
      MulMonotone(c, 2 * p1 - 1, t1);
      assert 2 * p1 * t1 - t1 == (2 * p1 - 1) * t1;
      assert c * t1 <= 20000 * a1;
      assert 20000 * a2 < c * t2;
      MulMonotone(c * t1, 20000 * a1, t2);
      MulStrict(20000 * a2, c * t2, t1);
    }
  }

  /** One student's record. */
  function Summarize(rows: seq<Fact>, k: StudentKey): Summary
  {
    var flags := Flags(rows, k);
    var a := CountTrue(flags);
    var t := |flags|;
    Summary(k.id, k.name, a, t, if t > 0 then Percent(a, t) else 0)
  }

  /** The grouping keys of the rows, each once, in order of first appearance. */
  function DistinctKeys(rows: seq<Fact>): (keys: seq<StudentKey>)
    ensures forall k :: k in keys <==> exists f :: f in rows && KeyOf(f) == k
    ensures forall i, j :: 0 <= i < j < |keys| ==> keys[i] != keys[j]
    decreases |rows|
  {
    if rows == [] then []
    else
      var init := rows[..|rows| - 1];
      assert rows == init + [rows[|rows| - 1]];
      var prev := DistinctKeys(init);
      var k := KeyOf(rows[|rows| - 1]);
      if k in prev then prev else prev + [k]
  }

  /** One record per key, kept when `totalCount > 0`. */
  function Collect(rows: seq<Fact>, keys: seq<StudentKey>): (r: seq<Summary>)
    ensures forall s :: s in r ==>
      && SummaryKey(s) in keys
      && s.totalCount == |RowsOf(rows, SummaryKey(s))| > 0
      && s.attendedCount == CountTrue(Flags(rows, SummaryKey(s)))
      && s.percent == Percent(s.attendedCount, s.totalCount)
  {
    if keys == [] then []
    else
      var head := if |Flags(rows, keys[0])| > 0 then [Summarize(rows, keys[0])] else [];
      var rest := Collect(rows, keys[1..]);
      assert forall s :: s in rest ==> SummaryKey(s) in keys[1..];
      head + rest
  }

  /** No key with rows is lost by the `totalCount > 0` filter. */
  lemma {:induction false} CollectComplete(rows: seq<Fact>, keys: seq<StudentKey>, k: StudentKey)
    requires k in keys && |RowsOf(rows, k)| > 0
    ensures exists s :: s in Collect(rows, keys) && SummaryKey(s) == k
    decreases |keys|
  {
    if keys[0] == k {
      assert Summarize(rows, k) in Collect(rows, keys);
    } else {
      CollectComplete(rows, keys[1..], k);
    }
  }

  lemma {:induction false} CollectDistinct(rows: seq<Fact>, keys: seq<StudentKey>)
    requires forall i, j :: 0 <= i < j < |keys| ==> keys[i] != keys[j]
    ensures forall i, j :: 0 <= i < j < |Collect(rows, keys)| ==>
      SummaryKey(Collect(rows, keys)[i]) != SummaryKey(Collect(rows, keys)[j])
    decreases |keys|
  {
    if keys != [] {
      CollectDistinct(rows, keys[1..]);
      var rest := Collect(rows, keys[1..]);
      forall s | s in rest ensures SummaryKey(s) != keys[0] {
        var i :| 0 <= i < |keys[1..]| && keys[1..][i] == SummaryKey(s);
      }
    }
  }

  /** The records the aggregation returns, before ORDER BY. */
  function Aggregate(rows: seq<Fact>): seq<Summary>
  {
    Collect(rows, DistinctKeys(rows))
  }

  /** Every student with a row gets exactly one record; each record counts
      all the rows of its student and the attended ones among them, and its
      percentage is their ratio, between 0 and 100 per cent. */
  lemma AggregateSpec(rows: seq<Fact>)
    ensures forall f :: f in rows ==> exists s :: s in Aggregate(rows) && SummaryKey(s) == KeyOf(f)
    ensures forall s :: s in Aggregate(rows) ==>
      && (exists f :: f in rows && KeyOf(f) == SummaryKey(s))
      && s.totalCount == |RowsOf(rows, SummaryKey(s))|
      && s.attendedCount == |AttendedRowsOf(rows, SummaryKey(s))|
      && 0 < s.totalCount && s.attendedCount <= s.totalCount
      && 0 <= s.percent <= 10000
      && 2 * s.percent * s.totalCount - s.totalCount <= 20000 * s.attendedCount < 2 * s.percent * s.totalCount + s.totalCount
    ensures forall i, j :: 0 <= i < j < |Aggregate(rows)| ==> SummaryKey(Aggregate(rows)[i]) != SummaryKey(Aggregate(rows)[j])
  {
    var keys := DistinctKeys(rows);
    forall f | f in rows
      ensures exists s :: s in Aggregate(rows) && SummaryKey(s) == KeyOf(f)
    {
      assert f in RowsOf(rows, KeyOf(f));
      CollectComplete(rows, keys, KeyOf(f));
    }
    CollectDistinct(rows, keys);
    forall s | s in Aggregate(rows)
      ensures s.attendedCount == |AttendedRowsOf(rows, SummaryKey(s))|
    {
      CountTrueFlags(rows, SummaryKey(s));
    }
  }

  // ---------------------------------------------------------------------
  // ORDER BY
  // ---------------------------------------------------------------------

  /** `ORDER BY attendancePercent ASC`. */
  function PercentLe(a: Summary, b: Summary): bool
  {
    a.percent <= b.percent
  }

  /** `ORDER BY studentName ASC`: names in text order, a missing name last. */
  function NameLe(a: Summary, b: Summary): bool
  {
    match (a.studentName, b.studentName)
    case (Some(x), Some(y)) => LexLe(x, y)
    case (Some(_), None) => true
    case (None, Some(_)) => false
    case (None, None) => true
  }

  lemma PercentLeTotal()
    ensures TotalPreorder(PercentLe)
  {
  }

  lemma NameLeTotal()
    ensures TotalPreorder(NameLe)
  {
    forall a, b ensures NameLe(a, b) || NameLe(b, a) {
      if a.studentName.Some? && b.studentName.Some? {
        LexLeTotal(a.studentName.value, b.studentName.value);
      }
    }
    forall a, b, c | NameLe(a, b) && NameLe(b, c) ensures NameLe(a, c) {
      if a.studentName.Some? && b.studentName.Some? && c.studentName.Some? {
        LexLeTransitive(a.studentName.value, b.studentName.value, c.studentName.value);
      }
    }
  }

  function OrderFor(worst: bool): (Summary, Summary) -> bool
  {
    if worst then PercentLe else NameLe
  }

  // ---------------------------------------------------------------------
  // The specification of one call
  // ---------------------------------------------------------------------

  /** The date window applies only when both dates are given. */
  function Window(start: Option<DateArg>, end: Option<DateArg>): Option<(DateArg, DateArg)>
  {
    if start.Some? && end.Some? then Some((start.value, end.value)) else None
  }

  /** The window in days. A window with an unreadable date is never
      applied to a row: either no row reaches the WHERE, and the scope is
      empty whatever the window, or the first row that does fails the
      query (`DateFails`). */
  function WindowDays(w: Option<(DateArg, DateArg)>): Option<(int, int)>
  {
    if w.Some? && w.value.0.Date? && w.value.1.Date? then Some((w.value.0.day, w.value.1.day)) else None
  }

  predicate BadWindow(w: Option<(DateArg, DateArg)>)
  {
    w.Some? && (w.value.0.NotADate? || w.value.1.NotADate?)
  }

  /** `date($start_date)` and `date($end_date)` are evaluated for each row
      that reaches the WHERE, so an unreadable date fails the query only
      when some lecture in scope has a matched row. */
  predicate DateFails(ids: seq<int>, facts: seq<Fact>, start: Option<DateArg>, end: Option<DateArg>)
  {
    BadWindow(Window(start, end)) && ScopeRows(ids, facts, None) != []
  }

  /** The rows the query is specified to return for a non-empty id list. */
  function Expected(facts: seq<Fact>, ids: seq<int>, limit: Option<int>, worst: bool,
                    start: Option<DateArg>, end: Option<DateArg>): Result<seq<Summary>, QueryError>
  {
    var w := Window(start, end);
    if DateFails(ids, facts, start, end) then Err(InvalidDate)
    else if limit.Some? && limit.value < 0 then Err(NegativeLimit)
    else
      var lim: Option<nat> := if limit.Some? then Some(limit.value as nat) else None;
      Ok(TopRows(Aggregate(ScopeRows(ids, facts, WindowDays(w))), OrderFor(worst), lim))
  }

  /** What a call delivers: an error exactly for an unreadable date in an
      applied window that some matched row reaches, or a negative limit;
      no record when an unreadable date meets no row; otherwise the
      aggregated records in the requested order, truncated after ordering to
      the limit. */
  lemma ExpectedSpec(facts: seq<Fact>, ids: seq<int>, limit: Option<int>, worst: bool,
                     start: Option<DateArg>, end: Option<DateArg>)
    ensures Expected(facts, ids, limit, worst, start, end).Err? <==>
      DateFails(ids, facts, start, end) || (limit.Some? && limit.value < 0)
    ensures DateFails(ids, facts, start, end) ==> Expected(facts, ids, limit, worst, start, end) == Err(InvalidDate)
    ensures BadWindow(Window(start, end)) && Expected(facts, ids, limit, worst, start, end).Ok? ==>
      Expected(facts, ids, limit, worst, start, end).value == []
    ensures Expected(facts, ids, limit, worst, start, end).Ok? ==>
      IsTop(Expected(facts, ids, limit, worst, start, end).value,
            Aggregate(ScopeRows(ids, facts, WindowDays(Window(start, end)))),
            OrderFor(worst),
            if limit.Some? then Some(limit.value as nat) else None)
  {
    PercentLeTotal();
    NameLeTotal();
    var w := Window(start, end);
    if !DateFails(ids, facts, start, end) && !(limit.Some? && limit.value < 0) {
      var lim: Option<nat> := if limit.Some? then Some(limit.value as nat) else None;
      TopRowsIsTop(Aggregate(ScopeRows(ids, facts, WindowDays(w))), OrderFor(worst), lim);
    }
  }

  // ---------------------------------------------------------------------
  // The query text and its meaning
  // ---------------------------------------------------------------------

  /** The clauses the finder can emit. */
  datatype Clause =
    | MatchLectureEvents    // UNWIND $lecture_ids AS lid MATCH (l:Lecture ...)<-[:OF_LECTURE]-(e)
    | DateWindow            // WHERE e.date >= date($start_date) AND e.date <= date($end_date)
    | AggregatePerStudent   // MATCH group and student, OPTIONAL MATCH ATTENDED, WITH ..., RETURN ...
    | OrderByPercent
    | OrderByName
    | LimitRows             // LIMIT $limit

  datatype Param = Ids(ids: seq<int>) | DateParam(date: DateArg) | Count(n: int)

  /** The table between two clauses: matched rows, then returned records. */
  datatype Table = Matches(facts: seq<Fact>) | Records(rows: seq<Summary>)

  function RunClause(c: Clause, params: map<string, Param>, facts: seq<Fact>, t: Table): Result<Table, QueryError>
  {
    match c
    case MatchLectureEvents =>
      if "lecture_ids" in params && params["lecture_ids"].Ids? then
        Ok(Matches(ScopeRows(params["lecture_ids"].ids, facts, None)))
      else Err(MissingParameter)
    case DateWindow =>
      if !t.Matches? then Err(MalformedQuery)
      else if "start_date" !in params || "end_date" !in params
           || !params["start_date"].DateParam? || !params["end_date"].DateParam? then Err(MissingParameter)
      else if params["start_date"].date.NotADate? || params["end_date"].date.NotADate? then
        if t.facts == [] then Ok(t) else Err(InvalidDate)
      else Ok(Matches(FilterWindow(t.facts, Some((params["start_date"].date.day, params["end_date"].date.day)))))
    case AggregatePerStudent =>
      if t.Matches? then Ok(Records(Aggregate(t.facts))) else Err(MalformedQuery)
    case OrderByPercent =>
      if t.Records? then Ok(Records(Sort(t.rows, PercentLe))) else Err(MalformedQuery)
    case OrderByName =>
      if t.Records? then Ok(Records(Sort(t.rows, NameLe))) else Err(MalformedQuery)
    case LimitRows =>
      if !t.Records? then Err(MalformedQuery)
      else if "limit" !in params || !params["limit"].Count? then Err(MissingParameter)
      else if params["limit"].n < 0 then Err(NegativeLimit)
      else Ok(Records(t.rows[..LimitCount(|t.rows|, Some(params["limit"].n as nat))]))
  }

  /** The clauses in order; the first error stops the query. */
  function RunClauses(query: seq<Clause>, params: map<string, Param>, facts: seq<Fact>): Result<Table, QueryError>
    decreases |query|
  {
    if query == [] then Ok(Matches([]))
    else
      match RunClauses(query[..|query| - 1], params, facts)
      case Err(e) => Err(e)
      case Ok(t) => RunClause(query[|query| - 1], params, facts, t)
  }

  function Execute(query: seq<Clause>, params: map<string, Param>, facts: seq<Fact>): Result<seq<Summary>, QueryError>
  {
    match RunClauses(query, params, facts)
    case Err(e) => Err(e)
    case Ok(t) => if t.Records? then Ok(t.rows) else Err(MalformedQuery)
  }

  lemma RunClausesSnoc(query: seq<Clause>, c: Clause, params: map<string, Param>, facts: seq<Fact>)
    ensures RunClauses(query + [c], params, facts)
         == if RunClauses(query, params, facts).Err? then Err(RunClauses(query, params, facts).error)
            else RunClause(c, params, facts, RunClauses(query, params, facts).value)
  {
    assert (query + [c])[..|query + [c]| - 1] == query;
  }

  /** Builds the query text and its parameters as `_find_attendance` does:
      the window clause and its two parameters only when both dates are
      given, LIMIT and its parameter only when a limit is given. Whatever the
      store holds, the query computes `Expected`. */
  method AssembleQuery(ids: seq<int>, limit: Option<int>, worst: bool, start: Option<DateArg>, end: Option<DateArg>)
    returns (query: seq<Clause>, params: map<string, Param>)
    ensures DateWindow in query <==> start.Some? && end.Some?
    ensures "start_date" in params <==> start.Some? && end.Some?
    ensures "end_date" in params <==> start.Some? && end.Some?
    ensures LimitRows in query <==> limit.Some?
    ensures "limit" in params <==> limit.Some?
    ensures limit.Some? ==> params["limit"] == Count(limit.value) && query[|query| - 1] == LimitRows
    ensures OrderByPercent in query <==> worst
    ensures OrderByName in query <==> !worst
    ensures "lecture_ids" in params && params["lecture_ids"] == Ids(ids)
    ensures forall facts :: Execute(query, params, facts) == Expected(facts, ids, limit, worst, start, end)
  {
    query := [MatchLectureEvents];
    if start.Some? && end.Some? {
      query := query + [DateWindow];
    }
    query := query + [AggregatePerStudent];
    if worst {
      query := query + [OrderByPercent];
    } else {
      query := query + [OrderByName];
    }
    if limit.Some? {
      query := query + [LimitRows];
    }

    params := map["lecture_ids" := Ids(ids)];
    if limit.Some? {
      params := params["limit" := Count(limit.value)];
    }
    if start.Some? && end.Some? {
      params := params["start_date" := DateParam(start.value)];
      params := params["end_date" := DateParam(end.value)];
    }

    forall facts ensures Execute(query, params, facts) == Expected(facts, ids, limit, worst, start, end) {
      QueryMeaning(query, params, facts, ids, limit, worst, start, end);
    }
  }

  /** The prefix of the query up to the date window yields the rows in scope. */
  lemma ScopeMeaning(params: map<string, Param>, facts: seq<Fact>, ids: seq<int>, start: Option<DateArg>, end: Option<DateArg>)
    requires "lecture_ids" in params && params["lecture_ids"] == Ids(ids)
    requires start.Some? && end.Some? ==>
      && "start_date" in params && params["start_date"] == DateParam(start.value)
      && "end_date" in params && params["end_date"] == DateParam(end.value)
    ensures var q := [MatchLectureEvents] + (if start.Some? && end.Some? then [DateWindow] else []);
      RunClauses(q, params, facts)
        == if DateFails(ids, facts, start, end) then Err(InvalidDate)
           else Ok(Matches(ScopeRows(ids, facts, WindowDays(Window(start, end)))))
  {
    var w := Window(start, end);
    RunClausesSnoc([], MatchLectureEvents, params, facts);
    assert [] + [MatchLectureEvents] == [MatchLectureEvents];
    assert RunClauses([MatchLectureEvents], params, facts) == Ok(Matches(ScopeRows(ids, facts, None)));
    if w.Some? {
      RunClausesSnoc([MatchLectureEvents], DateWindow, params, facts);
      if !BadWindow(w) {
        ScopeRowsWindow(ids, facts, WindowDays(w));
      }
    } else {
      assert [MatchLectureEvents] + [] == [MatchLectureEvents];
    }
  }

  /** Aggregation followed by ORDER BY sorts the aggregated records. */
  lemma OrderedMeaning(prefix: seq<Clause>, params: map<string, Param>, facts: seq<Fact>, rows: seq<Fact>, worst: bool)
    requires RunClauses(prefix, params, facts) == Ok(Matches(rows))
    ensures RunClauses(prefix + [AggregatePerStudent] + [if worst then OrderByPercent else OrderByName], params, facts)
         == Ok(Records(Sort(Aggregate(rows), OrderFor(worst))))
  {
    var q3 := prefix + [AggregatePerStudent];
    RunClausesSnoc(prefix, AggregatePerStudent, params, facts);
    assert RunClause(AggregatePerStudent, params, facts, Matches(rows)) == Ok(Records(Aggregate(rows)));
    var t := Records(Aggregate(rows));
    if worst {
      RunClausesSnoc(q3, OrderByPercent, params, facts);
      assert RunClause(OrderByPercent, params, facts, t) == Ok(Records(Sort(Aggregate(rows), PercentLe)));
    } else {
      RunClausesSnoc(q3, OrderByName, params, facts);
      assert RunClause(OrderByName, params, facts, t) == Ok(Records(Sort(Aggregate(rows), NameLe)));
    }
  }

  /** The clauses after the scope: aggregation, ORDER BY, then LIMIT. */
  lemma RecordsMeaning(prefix: seq<Clause>, params: map<string, Param>, facts: seq<Fact>,
                       rows: seq<Fact>, limit: Option<int>, worst: bool)
    requires RunClauses(prefix, params, facts) == Ok(Matches(rows))
    requires limit.Some? ==> "limit" in params && params["limit"] == Count(limit.value)
    ensures var q := prefix + [AggregatePerStudent] + [if worst then OrderByPercent else OrderByName]
                            + (if limit.Some? then [LimitRows] else []);
      RunClauses(q, params, facts)
        == if limit.Some? && limit.value < 0 then Err(NegativeLimit)
           else Ok(Records(TopRows(Aggregate(rows), OrderFor(worst),
                                   if limit.Some? then Some(limit.value as nat) else None)))
  {
    var q4 := prefix + [AggregatePerStudent] + [if worst then OrderByPercent else OrderByName];
    OrderedMeaning(prefix, params, facts, rows, worst);
    var sorted := Sort(Aggregate(rows), OrderFor(worst));
    if limit.Some? {
      RunClausesSnoc(q4, LimitRows, params, facts);
    } else {
      assert q4 + [] == q4;
      assert sorted[..|sorted|] == sorted;
    }
  }

  /** The clause-by-clause meaning of the query `AssembleQuery` builds. */
  lemma QueryMeaning(query: seq<Clause>, params: map<string, Param>, facts: seq<Fact>,
                     ids: seq<int>, limit: Option<int>, worst: bool, start: Option<DateArg>, end: Option<DateArg>)
    requires query == [MatchLectureEvents]
                      + (if start.Some? && end.Some? then [DateWindow] else [])
                      + [AggregatePerStudent]
                      + [if worst then OrderByPercent else OrderByName]
                      + (if limit.Some? then [LimitRows] else [])
    requires "lecture_ids" in params && params["lecture_ids"] == Ids(ids)
    requires limit.Some? ==> "limit" in params && params["limit"] == Count(limit.value)
    requires start.Some? && end.Some? ==>
      && "start_date" in params && params["start_date"] == DateParam(start.value)
      && "end_date" in params && params["end_date"] == DateParam(end.value)
    ensures Execute(query, params, facts) == Expected(facts, ids, limit, worst, start, end)
  {
    var prefix := [MatchLectureEvents] + (if start.Some? && end.Some? then [DateWindow] else []);
    var order := if worst then OrderByPercent else OrderByName;
    var suffix := [AggregatePerStudent, order] + (if limit.Some? then [LimitRows] else []);
    assert query == prefix + suffix;
    ScopeMeaning(params, facts, ids, start, end);
    if DateFails(ids, facts, start, end) {
      ErrorPropagates(prefix, suffix, params, facts);
    } else {
      RecordsMeaning(prefix, params, facts, ScopeRows(ids, facts, WindowDays(Window(start, end))), limit, worst);
      assert prefix + [AggregatePerStudent] + [order] + (if limit.Some? then [LimitRows] else []) == query;
    }
  }

  /** Once a clause fails, the rest of the query fails the same way. */
  lemma {:induction false} ErrorPropagates(prefix: seq<Clause>, suffix: seq<Clause>, params: map<string, Param>, facts: seq<Fact>)
    requires RunClauses(prefix, params, facts).Err?
    ensures RunClauses(prefix + suffix, params, facts) == RunClauses(prefix, params, facts)
    decreases |suffix|
  {
    if suffix == [] {
      assert prefix + suffix == prefix;
    } else {
      var init := suffix[..|suffix| - 1];
      ErrorPropagates(prefix, init, params, facts);
      assert prefix + suffix == (prefix + init) + [suffix[|suffix| - 1]];
      RunClausesSnoc(prefix + init, suffix[|suffix| - 1], params, facts);
    }
  }

  /** `_find_attendance`: an empty id list answers `[]` at once, whatever the
      other arguments; otherwise the assembled query runs against the store. */
  method FindAttendance(facts: seq<Fact>, ids: seq<int>, limit: Option<int>, worst: bool,
                        start: Option<DateArg>, end: Option<DateArg>)
    returns (r: Result<seq<Summary>, QueryError>)
    ensures ids == [] ==> r == Ok([])
    ensures ids != [] ==> r == Expected(facts, ids, limit, worst, start, end)
  {
    if ids == [] {
      return Ok([]);
    }
    var query, params := AssembleQuery(ids, limit, worst, start, end);
    r := Execute(query, params, facts);
  }

  /** `find_worst_attendees`: worst mode with `limit = top_n`. */
  method FindWorstAttendees(facts: seq<Fact>, ids: seq<int>, topN: int, start: Option<DateArg>, end: Option<DateArg>)
    returns (r: Result<seq<Summary>, QueryError>)
    ensures r.Err? <==> ids != [] && (DateFails(ids, facts, start, end) || topN < 0)
    ensures r.Ok? ==> SortedBy(r.value, PercentLe) && |r.value| <= if topN < 0 then 0 else topN
    ensures r.Ok? && ids != [] ==>
      IsTop(r.value, Aggregate(ScopeRows(ids, facts, WindowDays(Window(start, end)))), PercentLe, Some(topN as nat))
  {
    r := FindAttendance(facts, ids, Some(topN), true, start, end);
    ExpectedSpec(facts, ids, Some(topN), true, start, end);
  }

  /** `get_attendance_summary`: every student once, ordered by name, no limit. */
  method GetAttendanceSummary(facts: seq<Fact>, ids: seq<int>, start: Option<DateArg>, end: Option<DateArg>)
    returns (r: Result<seq<Summary>, QueryError>)
    ensures r.Err? <==> ids != [] && DateFails(ids, facts, start, end)
    ensures r.Ok? ==> SortedBy(r.value, NameLe)
    ensures r.Ok? && ids != [] ==>
      var all := Aggregate(ScopeRows(ids, facts, WindowDays(Window(start, end))));
      multiset(r.value) == multiset(all)
  {
    r := FindAttendance(facts, ids, None, false, start, end);
    ExpectedSpec(facts, ids, None, false, start, end);
    if r.Ok? && ids != [] {
      var all := Aggregate(ScopeRows(ids, facts, WindowDays(Window(start, end))));
      MultisetSubsetEqualSize(r.value, all);
    }
  }

  lemma MultisetSubsetEqualSize<T>(a: seq<T>, b: seq<T>)
    requires multiset(a) <= multiset(b) && |a| == |b|
    ensures multiset(a) == multiset(b)
  {
    var d := multiset(b) - multiset(a);
    assert multiset(b) == multiset(a) + d;
    assert |d| == 0;
  }
}
