/** The relational-to-graph mirror of `neo4j_sync.py`: ten `sync_*` stages
    (eleven statements, since courses and lectures are two), each an
    `UNWIND $rows` MERGE statement over the rows of one table, and `run_all`
    running them in dependency order. Also the two pure helpers used by the
    reports: the semester date range and the hour arithmetic of the group
    report. */
module Neo4jSync {
  import opened Common
  import opened Graph
  import opened GraphStore

  // ---------------------------------------------------------------------------
  // Rows as the SELECT statements return them
  // ---------------------------------------------------------------------------

  // The foreign-key columns (`universityId`, `instituteId`, ...) are
  // nullable in the tables, yet typed `int` here: every stage uses them
  // only as MATCH keys before it MERGEs anything, and a MATCH on a NULL key
  // finds no node, exactly like an id that no parent carries, so the row is
  // dropped either way. Where a key is stored as a property instead
  // (`create_neo4j.py`), it keeps its `Option`.

  datatype UniversityRow = UniversityRow(id: int, name: Option<string>, location: Option<string>)
  datatype InstituteRow = InstituteRow(id: int, name: Option<string>, universityId: int)
  datatype DepartmentRow = DepartmentRow(id: int, name: Option<string>, instituteId: int)
  datatype SpecialtyRow = SpecialtyRow(id: int, name: Option<string>, departmentId: int)
  datatype GroupRow = GroupRow(id: int, name: Option<string>, specialityId: int)
  datatype CourseRow = CourseRow(id: int, name: Option<string>, departmentId: int, specialtyId: int)
  datatype LectureRow = LectureRow(id: int, name: Option<string>, courseId: int)
  datatype StudentRow = StudentRow(id: int, name: Option<string>, age: Option<int>, mail: Option<string>, groupId: int)
  datatype ScheduleRow = ScheduleRow(id: int, date: Option<int>, lectureId: int, groupId: int)
  datatype AttendanceRow = AttendanceRow(id: int, studentId: int, scheduleId: int, attended: Option<bool>)
  datatype MaterialRow = MaterialRow(id: int, name: Option<string>, lectureId: int)

  /** The rows of every table, as `run_all` fetches them one stage at a time. */
  datatype Snapshot = Snapshot(
    universities: seq<UniversityRow>, institutes: seq<InstituteRow>, departments: seq<DepartmentRow>,
    specialties: seq<SpecialtyRow>, groups: seq<GroupRow>, courses: seq<CourseRow>,
    lectures: seq<LectureRow>, students: seq<StudentRow>, schedule: seq<ScheduleRow>,
    attendance: seq<AttendanceRow>, materials: seq<MaterialRow>)

  // ---------------------------------------------------------------------------
  // One UNWIND iteration of each statement
  // ---------------------------------------------------------------------------

  function NameOnly(name: Option<string>): Props
  {
    map["name" := TextValue(name)]
  }

  /** MERGE (u:University {postgres_id: row.id}) SET u.name, u.location */
  function UniversityOp(r: UniversityRow): RowOp
  {
    RowOp([], Some(Write(NodeKey(University, r.id), map["name" := TextValue(r.name), "location" := TextValue(r.location)])), [])
  }

  /** MATCH the University, MERGE the Institute, MERGE (u)-[:HAS_INSTITUTE]->(i) */
  function InstituteOp(r: InstituteRow): RowOp
  {
    var u, i := NodeKey(University, r.universityId), NodeKey(Institute, r.id);
    RowOp([u], Some(Write(i, NameOnly(r.name))), [Write(EdgeKey(u, HasInstitute, i), map[])])
  }

  function DepartmentOp(r: DepartmentRow): RowOp
  {
    var i, d := NodeKey(Institute, r.instituteId), NodeKey(Department, r.id);
    RowOp([i], Some(Write(d, NameOnly(r.name))), [Write(EdgeKey(i, HasDepartment, d), map[])])
  }

  function SpecialtyOp(r: SpecialtyRow): RowOp
  {
    var d, s := NodeKey(Department, r.departmentId), NodeKey(Specialty, r.id);
    RowOp([d], Some(Write(s, NameOnly(r.name))), [Write(EdgeKey(d, HasSpecialty, s), map[])])
  }

  function GroupOp(r: GroupRow): RowOp
  {
    var s, g := NodeKey(Specialty, r.specialityId), NodeKey(Group, r.id);
    RowOp([s], Some(Write(g, NameOnly(r.name))), [Write(EdgeKey(s, HasGroup, g), map[])])
  }

  /** MATCH both the Department and the Specialty, but only the Department
      gets an OFFERS_COURSE relationship. */
  function CourseOp(r: CourseRow): RowOp
  {
    var d, s, c := NodeKey(Department, r.departmentId), NodeKey(Specialty, r.specialtyId), NodeKey(Course, r.id);
    RowOp([d, s], Some(Write(c, NameOnly(r.name))), [Write(EdgeKey(d, OffersCourse, c), map[])])
  }

  function LectureOp(r: LectureRow): RowOp
  {
    var c, l := NodeKey(Course, r.courseId), NodeKey(Lecture, r.id);
    RowOp([c], Some(Write(l, NameOnly(r.name))), [Write(EdgeKey(c, IncludesLecture, l), map[])])
  }

  function StudentOp(r: StudentRow): RowOp
  {
    var g, st := NodeKey(Group, r.groupId), NodeKey(Student, r.id);
    RowOp([g], Some(Write(st, map["name" := TextValue(r.name), "age" := IntValue(r.age), "mail" := TextValue(r.mail)])),
          [Write(EdgeKey(st, MemberOf, g), map[])])
  }

  /** MATCH the Lecture and the Group, MERGE the event with `date(row.date)`,
      then (g)-[:SCHEDULED_FOR]->(e) and (e)-[:OF_LECTURE]->(l). */
  function ScheduleOp(r: ScheduleRow): RowOp
  {
    var l, g, e := NodeKey(Lecture, r.lectureId), NodeKey(Group, r.groupId), NodeKey(ScheduleEvent, r.id);
    RowOp([l, g], Some(Write(e, map["date" := DateValue(r.date)])),
          [Write(EdgeKey(g, ScheduledFor, e), map[]), Write(EdgeKey(e, OfLecture, l), map[])])
  }

  /** MATCH the Student and the event, MERGE (st)-[a:ATTENDED]->(e) and SET
      a.attended = row.attended, a.updated = row.id; no node is merged. */
  function AttendanceOp(r: AttendanceRow): RowOp
  {
    var st, e := NodeKey(Student, r.studentId), NodeKey(ScheduleEvent, r.scheduleId);
    RowOp([st, e], None, [Write(EdgeKey(st, Attended, e), map["attended" := BoolValue(r.attended), "updated" := IntV(r.id)])])
  }

  function MaterialOp(r: MaterialRow): RowOp
  {
    var l, m := NodeKey(Lecture, r.lectureId), NodeKey(Material, r.id);
    RowOp([l], Some(Write(m, NameOnly(r.name))), [Write(EdgeKey(l, UsesMaterial, m), map[])])
  }

  function UniversityOps(rows: seq<UniversityRow>): seq<RowOp> { seq(|rows|, i requires 0 <= i < |rows| => UniversityOp(rows[i])) }
  function InstituteOps(rows: seq<InstituteRow>): seq<RowOp> { seq(|rows|, i requires 0 <= i < |rows| => InstituteOp(rows[i])) }
  function DepartmentOps(rows: seq<DepartmentRow>): seq<RowOp> { seq(|rows|, i requires 0 <= i < |rows| => DepartmentOp(rows[i])) }
  function SpecialtyOps(rows: seq<SpecialtyRow>): seq<RowOp> { seq(|rows|, i requires 0 <= i < |rows| => SpecialtyOp(rows[i])) }
  function GroupOps(rows: seq<GroupRow>): seq<RowOp> { seq(|rows|, i requires 0 <= i < |rows| => GroupOp(rows[i])) }
  function CourseOps(rows: seq<CourseRow>): seq<RowOp> { seq(|rows|, i requires 0 <= i < |rows| => CourseOp(rows[i])) }
  function LectureOps(rows: seq<LectureRow>): seq<RowOp> { seq(|rows|, i requires 0 <= i < |rows| => LectureOp(rows[i])) }
  function StudentOps(rows: seq<StudentRow>): seq<RowOp> { seq(|rows|, i requires 0 <= i < |rows| => StudentOp(rows[i])) }
  function ScheduleOps(rows: seq<ScheduleRow>): seq<RowOp> { seq(|rows|, i requires 0 <= i < |rows| => ScheduleOp(rows[i])) }
  function AttendanceOps(rows: seq<AttendanceRow>): seq<RowOp> { seq(|rows|, i requires 0 <= i < |rows| => AttendanceOp(rows[i])) }
  function MaterialOps(rows: seq<MaterialRow>): seq<RowOp> { seq(|rows|, i requires 0 <= i < |rows| => MaterialOp(rows[i])) }

  /** The statements of `run_all`, in the order it runs them. */
  function Stages(s: Snapshot): seq<seq<RowOp>>
  {
    [ UniversityOps(s.universities), InstituteOps(s.institutes), DepartmentOps(s.departments),
      SpecialtyOps(s.specialties), GroupOps(s.groups), CourseOps(s.courses), LectureOps(s.lectures),
      StudentOps(s.students), ScheduleOps(s.schedule), AttendanceOps(s.attendance), MaterialOps(s.materials) ]
  }

  // ---------------------------------------------------------------------------
  // The service: each stage runs its statement against the store
  // ---------------------------------------------------------------------------

  class SyncService {
    const graph: GraphStore

    constructor (graph: GraphStore)
      ensures this.graph == graph
    {
      this.graph := graph;
    }

    method SyncUniversities(rows: seq<UniversityRow>)
      requires graph.Valid()
      modifies graph
      ensures graph.Valid() && graph.View() == Apply(old(graph.View()), UniversityOps(rows))
    {
      graph.Run(UniversityOps(rows));
    }

    method SyncInstitutes(rows: seq<InstituteRow>)
      requires graph.Valid()
      modifies graph
      ensures graph.Valid() && graph.View() == Apply(old(graph.View()), InstituteOps(rows))
    {
      graph.Run(InstituteOps(rows));
    }

    method SyncDepartments(rows: seq<DepartmentRow>)
      requires graph.Valid()
      modifies graph
      ensures graph.Valid() && graph.View() == Apply(old(graph.View()), DepartmentOps(rows))
    {
      graph.Run(DepartmentOps(rows));
    }

    method SyncSpecialties(rows: seq<SpecialtyRow>)
      requires graph.Valid()
      modifies graph
      ensures graph.Valid() && graph.View() == Apply(old(graph.View()), SpecialtyOps(rows))
    {
      graph.Run(SpecialtyOps(rows));
    }

    method SyncGroups(rows: seq<GroupRow>)
      requires graph.Valid()
      modifies graph
      ensures graph.Valid() && graph.View() == Apply(old(graph.View()), GroupOps(rows))
    {
      graph.Run(GroupOps(rows));
    }

    /** Two statements: all courses first, then all lectures. */
    method SyncCoursesAndLectures(courses: seq<CourseRow>, lectures: seq<LectureRow>)
      requires graph.Valid()
      modifies graph
      ensures graph.Valid()
      ensures graph.View() == Apply(Apply(old(graph.View()), CourseOps(courses)), LectureOps(lectures))
    {
      graph.Run(CourseOps(courses));
      graph.Run(LectureOps(lectures));
    }

    method SyncStudents(rows: seq<StudentRow>)
      requires graph.Valid()
      modifies graph
      ensures graph.Valid() && graph.View() == Apply(old(graph.View()), StudentOps(rows))
    {
      graph.Run(StudentOps(rows));
    }

    method SyncSchedule(rows: seq<ScheduleRow>)
      requires graph.Valid()
      modifies graph
      ensures graph.Valid() && graph.View() == Apply(old(graph.View()), ScheduleOps(rows))
    {
      graph.Run(ScheduleOps(rows));
    }

    method SyncAttendance(rows: seq<AttendanceRow>)
      requires graph.Valid()
      modifies graph
      ensures graph.Valid() && graph.View() == Apply(old(graph.View()), AttendanceOps(rows))
    {
      graph.Run(AttendanceOps(rows));
    }

    /** The statement is not sent at all when the query returned no rows. */
    method SyncMaterials(rows: seq<MaterialRow>)
      requires graph.Valid()
      modifies graph
      ensures graph.Valid() && graph.View() == Apply(old(graph.View()), MaterialOps(rows))
    {
      if |rows| > 0 {
        graph.Run(MaterialOps(rows));
      }
    }

    /** All stages in dependency order. */
    method RunAll(s: Snapshot)
      requires graph.Valid()
      modifies graph
      ensures graph.Valid()
      ensures graph.View() == RunStages(old(graph.View()), Stages(s))
    {
      ghost var g0 := graph.View();
      ghost var st := Stages(s);
      SyncUniversities(s.universities);
      RunStagesStep(g0, st, 0);
      SyncInstitutes(s.institutes);
      RunStagesStep(g0, st, 1);
      SyncDepartments(s.departments);
      RunStagesStep(g0, st, 2);
      SyncSpecialties(s.specialties);
      RunStagesStep(g0, st, 3);
      SyncGroups(s.groups);
      RunStagesStep(g0, st, 4);
      SyncCoursesAndLectures(s.courses, s.lectures);
      RunStagesStep(g0, st, 5);
      RunStagesStep(g0, st, 6);
      SyncStudents(s.students);
      RunStagesStep(g0, st, 7);
      SyncSchedule(s.schedule);
      RunStagesStep(g0, st, 8);
      SyncAttendance(s.attendance);
      RunStagesStep(g0, st, 9);
      SyncMaterials(s.materials);
      RunStagesStep(g0, st, 10);
      assert st[..11] == st;
    }
  }

  // ---------------------------------------------------------------------------
  // What each statement reads and writes
  // ---------------------------------------------------------------------------

  /** Stage `k` MATCHes only labels of earlier stages and MERGEs only its
      own label and relationship types. */
  ghost predicate RankedAt(ops: seq<RowOp>, k: nat)
  {
    && (forall l :: l in ReadLabels(ops) ==> LabelRank(l) < k)
    && (forall l :: l in WrittenLabels(ops) ==> LabelRank(l) == k)
    && (forall r :: r in WrittenRels(ops) ==> RelRank(r) == k)
  }

  lemma UniversityOpsRanked(rows: seq<UniversityRow>)
    ensures RankedAt(UniversityOps(rows), 0)
  {
    SignatureWithin(UniversityOps(rows), {}, {University}, {});
  }

  lemma InstituteOpsRanked(rows: seq<InstituteRow>)
    ensures RankedAt(InstituteOps(rows), 1)
  {
    SignatureWithin(InstituteOps(rows), {University}, {Institute}, {HasInstitute});
  }

  lemma DepartmentOpsRanked(rows: seq<DepartmentRow>)
    ensures RankedAt(DepartmentOps(rows), 2)
  {
    SignatureWithin(DepartmentOps(rows), {Institute}, {Department}, {HasDepartment});
  }

  lemma SpecialtyOpsRanked(rows: seq<SpecialtyRow>)
    ensures RankedAt(SpecialtyOps(rows), 3)
  {
    SignatureWithin(SpecialtyOps(rows), {Department}, {Specialty}, {HasSpecialty});
  }

  lemma GroupOpsRanked(rows: seq<GroupRow>)
    ensures RankedAt(GroupOps(rows), 4)
  {
    SignatureWithin(GroupOps(rows), {Specialty}, {Group}, {HasGroup});
  }

  lemma CourseOpsRanked(rows: seq<CourseRow>)
    ensures RankedAt(CourseOps(rows), 5)
  {
    SignatureWithin(CourseOps(rows), {Department, Specialty}, {Course}, {OffersCourse});
  }

  lemma LectureOpsRanked(rows: seq<LectureRow>)
    ensures RankedAt(LectureOps(rows), 6)
  {
    SignatureWithin(LectureOps(rows), {Course}, {Lecture}, {IncludesLecture});
  }

  lemma StudentOpsRanked(rows: seq<StudentRow>)
    ensures RankedAt(StudentOps(rows), 7)
  {
    SignatureWithin(StudentOps(rows), {Group}, {Student}, {MemberOf});
  }

  lemma ScheduleOpsRanked(rows: seq<ScheduleRow>)
    ensures RankedAt(ScheduleOps(rows), 8)
  {
    SignatureWithin(ScheduleOps(rows), {Lecture, Group}, {ScheduleEvent}, {ScheduledFor, OfLecture});
  }

  lemma AttendanceOpsRanked(rows: seq<AttendanceRow>)
    ensures RankedAt(AttendanceOps(rows), 9)
  {
    SignatureWithin(AttendanceOps(rows), {Student, ScheduleEvent}, {}, {Attended});
  }

  lemma MaterialOpsRanked(rows: seq<MaterialRow>)
    ensures RankedAt(MaterialOps(rows), 10)
  {
    SignatureWithin(MaterialOps(rows), {Lecture}, {Material}, {UsesMaterial});
  }

  /** The position of each label and relationship type in `run_all`. */
  function LabelRank(l: Label): nat
  {
    match l
    case University => 0
    case Institute => 1
    case Department => 2
    case Specialty => 3
    case Group => 4
    case Course => 5
    case Lecture => 6
    case Student => 7
    case ScheduleEvent => 8
    case Material => 10
    case StudentGroup => 11
  }

  function RelRank(r: Rel): nat
  {
    match r
    case HasInstitute => 1
    case HasDepartment => 2
    case HasSpecialty => 3
    case HasGroup => 4
    case OffersCourse => 5
    case IncludesLecture => 6
    case MemberOf => 7
    case ScheduledFor => 8
    case OfLecture => 8
    case Attended => 9
    case UsesMaterial => 10
    case TakesCourse => 11
  }

  /** `run_all` runs every stage after the stages whose nodes it MATCHes, and
      no stage MERGEs a label or relationship type another stage uses. */
  lemma RunAllDependencyOrdered(s: Snapshot)
    ensures DependencyOrdered(Stages(s))
  {
    UniversityOpsRanked(s.universities);
    InstituteOpsRanked(s.institutes);
    DepartmentOpsRanked(s.departments);
    SpecialtyOpsRanked(s.specialties);
    GroupOpsRanked(s.groups);
    CourseOpsRanked(s.courses);
    LectureOpsRanked(s.lectures);
    StudentOpsRanked(s.students);
    ScheduleOpsRanked(s.schedule);
    AttendanceOpsRanked(s.attendance);
    MaterialOpsRanked(s.materials);
    var st := Stages(s);
    forall k | 0 <= k < 11 ensures RankedAt(st[k], k) {
      if k == 0 { }
      else if k == 1 { }
      else if k == 2 { }
      else if k == 3 { }
      else if k == 4 { }
      else if k == 5 { }
      else if k == 6 { }
      else if k == 7 { }
      else if k == 8 { }
      else if k == 9 { }
      else { }
    }
    RankedOrdered(Stages(s), LabelRank, RelRank);
  }

  lemma StagesWellFormed(s: Snapshot)
    ensures forall k :: 0 <= k < |Stages(s)| ==> AllWellFormed(Stages(s)[k])
  {
  }

  // ---------------------------------------------------------------------------
  // Properties of run_all
  // ---------------------------------------------------------------------------

  /** Running `run_all` a second time on the same snapshot changes no node,
      relationship or property. */
  lemma RunAllIdempotent(g: GraphView, s: Snapshot)
    ensures RunStages(RunStages(g, Stages(s)), Stages(s)) == RunStages(g, Stages(s))
  {
    RunAllDependencyOrdered(s);
    RunStagesIdempotent(g, Stages(s));
  }

  /** Running any single stage twice on the same rows changes nothing. */
  lemma StageRerunIdempotent(g: GraphView, s: Snapshot, k: nat)
    requires k < 11
    ensures Apply(Apply(g, Stages(s)[k]), Stages(s)[k]) == Apply(g, Stages(s)[k])
  {
    RunAllDependencyOrdered(s);
    StageIdempotent(g, Stages(s)[k]);
  }

  /** No stage deletes anything, and no relationship ever has a missing
      endpoint. */
  lemma RunAllPreserves(g: GraphView, s: Snapshot)
    ensures g.nodes.Keys <= RunStages(g, Stages(s)).nodes.Keys
    ensures g.edges.Keys <= RunStages(g, Stages(s)).edges.Keys
    ensures NoDangling(g) ==> NoDangling(RunStages(g, Stages(s)))
  {
    StagesWellFormed(s);
    RunStagesPreserves(g, Stages(s));
  }

  // ---------------------------------------------------------------------------
  // Properties of single stages
  // ---------------------------------------------------------------------------

  /** The last University row with a given id decides the node's name and
      location; a NULL column leaves the property absent. */
  lemma UniversityLastWriteWins(g: GraphView, rows: seq<UniversityRow>, i: nat)
    requires i < |rows|
    requires forall j :: i < j < |rows| ==> rows[j].id != rows[i].id
    ensures var n := Apply(g, UniversityOps(rows)).nodes;
      && NodeKey(University, rows[i].id) in n
      && ("name" in n[NodeKey(University, rows[i].id)] <==> rows[i].name.Some?)
      && ("name" in n[NodeKey(University, rows[i].id)] ==> n[NodeKey(University, rows[i].id)]["name"] == StrV(rows[i].name.value))
      && ("location" in n[NodeKey(University, rows[i].id)] <==> rows[i].location.Some?)
      && ("location" in n[NodeKey(University, rows[i].id)] ==> n[NodeKey(University, rows[i].id)]["location"] == StrV(rows[i].location.value))
  {
    var ops := UniversityOps(rows);
    SignatureWithin(ops, {}, {University}, {});
    StageNodeLastWriteWins(g, ops, i, "name");
    StageNodeLastWriteWins(g, ops, i, "location");
  }

  /** An Institute row whose University is absent creates neither the
      Institute nor its HAS_INSTITUTE relationship: every Institute node or
      HAS_INSTITUTE relationship the stage adds comes from a row whose
      University is present. */
  lemma InstituteNeedsUniversity(g: GraphView, rows: seq<InstituteRow>, k: NodeKey, e: EdgeKey)
    ensures var r := Apply(g, InstituteOps(rows));
      && (k in r.nodes && k !in g.nodes ==>
            exists i :: 0 <= i < |rows| && k == NodeKey(Institute, rows[i].id) && NodeKey(University, rows[i].universityId) in g.nodes)
      && (e in r.edges && e !in g.edges ==>
            exists i :: 0 <= i < |rows| && e == EdgeKey(NodeKey(University, rows[i].universityId), HasInstitute, NodeKey(Institute, rows[i].id))
                        && NodeKey(University, rows[i].universityId) in g.nodes)
  {
    var ops := InstituteOps(rows);
    SignatureWithin(ops, {University}, {Institute}, {HasInstitute});
    StageAddsOnlyMatchedRows(g, ops, k, e);
    if k in Apply(g, ops).nodes && k !in g.nodes {
      var i :| 0 <= i < |ops| && Matched(g, ops[i]) && ops[i].node.Some? && ops[i].node.value.key == k;
      assert NodeKey(University, rows[i].universityId) == ops[i].matches[0];
    }
    if e in Apply(g, ops).edges && e !in g.edges {
      var i, t :| 0 <= i < |ops| && Matched(g, ops[i]) && 0 <= t < |ops[i].edges| && ops[i].edges[t].key == e;
      assert NodeKey(University, rows[i].universityId) == ops[i].matches[0];
    }
  }

  /** An Institute row whose University is present leaves its Institute
      and the HAS_INSTITUTE relationship from that University in the
      result. */
  lemma InstituteCreatedWithParent(g: GraphView, rows: seq<InstituteRow>, i: nat)
    requires i < |rows| && NodeKey(University, rows[i].universityId) in g.nodes
    ensures var r := Apply(g, InstituteOps(rows));
      && NodeKey(Institute, rows[i].id) in r.nodes
      && EdgeKey(NodeKey(University, rows[i].universityId), HasInstitute, NodeKey(Institute, rows[i].id)) in r.edges
  {
    var ops := InstituteOps(rows);
    SignatureWithin(ops, {University}, {Institute}, {HasInstitute});
    assert Matched(g, ops[i]);
    StageKeepsMatchedRow(g, ops, i);
    assert ops[i].edges[0].key == EdgeKey(NodeKey(University, rows[i].universityId), HasInstitute, NodeKey(Institute, rows[i].id));
  }

  /** A Course is created only when both its Department and its Specialty
      exist, and the only relationship the stage creates is OFFERS_COURSE
      from that Department; the Specialty gets none. */
  lemma CourseNeedsDepartmentAndSpecialty(g: GraphView, rows: seq<CourseRow>, k: NodeKey, e: EdgeKey)
    ensures var r := Apply(g, CourseOps(rows));
      && (k in r.nodes && k !in g.nodes ==>
            exists i :: 0 <= i < |rows| && k == NodeKey(Course, rows[i].id)
                        && NodeKey(Department, rows[i].departmentId) in g.nodes
                        && NodeKey(Specialty, rows[i].specialtyId) in g.nodes)
      && (e in r.edges && e !in g.edges ==>
            exists i :: 0 <= i < |rows| && e == EdgeKey(NodeKey(Department, rows[i].departmentId), OffersCourse, NodeKey(Course, rows[i].id))
                        && NodeKey(Specialty, rows[i].specialtyId) in g.nodes)
  {
    var ops := CourseOps(rows);
    SignatureWithin(ops, {Department, Specialty}, {Course}, {OffersCourse});
    StageAddsOnlyMatchedRows(g, ops, k, e);
    if k in Apply(g, ops).nodes && k !in g.nodes {
      var i :| 0 <= i < |ops| && Matched(g, ops[i]) && ops[i].node.Some? && ops[i].node.value.key == k;
      assert ops[i].matches[0] in g.nodes && ops[i].matches[1] in g.nodes;
    }
    if e in Apply(g, ops).edges && e !in g.edges {
      var i, t :| 0 <= i < |ops| && Matched(g, ops[i]) && 0 <= t < |ops[i].edges| && ops[i].edges[t].key == e;
      assert ops[i].matches[0] in g.nodes && ops[i].matches[1] in g.nodes;
    }
  }

  /** A ScheduleEvent is created only when both its Lecture and its Group
      exist; then it has SCHEDULED_FOR from the group and OF_LECTURE to the
      lecture. */
  lemma ScheduleEventLinks(g: GraphView, rows: seq<ScheduleRow>, i: nat, k: NodeKey)
    requires i < |rows|
    ensures var r := Apply(g, ScheduleOps(rows));
      && (NodeKey(Lecture, rows[i].lectureId) in g.nodes && NodeKey(Group, rows[i].groupId) in g.nodes ==>
            && NodeKey(ScheduleEvent, rows[i].id) in r.nodes
            && EdgeKey(NodeKey(Group, rows[i].groupId), ScheduledFor, NodeKey(ScheduleEvent, rows[i].id)) in r.edges
            && EdgeKey(NodeKey(ScheduleEvent, rows[i].id), OfLecture, NodeKey(Lecture, rows[i].lectureId)) in r.edges)
      && (k in r.nodes && k !in g.nodes ==>
            exists j :: 0 <= j < |rows| && k == NodeKey(ScheduleEvent, rows[j].id)
                        && NodeKey(Lecture, rows[j].lectureId) in g.nodes && NodeKey(Group, rows[j].groupId) in g.nodes)
  {
    var ops := ScheduleOps(rows);
    SignatureWithin(ops, {Lecture, Group}, {ScheduleEvent}, {ScheduledFor, OfLecture});
    if NodeKey(Lecture, rows[i].lectureId) in g.nodes && NodeKey(Group, rows[i].groupId) in g.nodes {
      assert Matched(g, ops[i]);
      StageKeepsMatchedRow(g, ops, i);
      assert ops[i].edges[0].key == EdgeKey(NodeKey(Group, rows[i].groupId), ScheduledFor, NodeKey(ScheduleEvent, rows[i].id));
      assert ops[i].edges[1].key == EdgeKey(NodeKey(ScheduleEvent, rows[i].id), OfLecture, NodeKey(Lecture, rows[i].lectureId));
    }
    StageAddsOnlyMatchedRows(g, ops, k, EdgeKey(k, OfLecture, k));
    if k in Apply(g, ops).nodes && k !in g.nodes {
      var j :| 0 <= j < |ops| && Matched(g, ops[j]) && ops[j].node.Some? && ops[j].node.value.key == k;
      assert ops[j].matches[0] in g.nodes && ops[j].matches[1] in g.nodes;
    }
  }

  /** A Student is created only when its Group exists, together with its
      MEMBER_OF relationship to that group. */
  lemma StudentNeedsGroup(g: GraphView, rows: seq<StudentRow>, i: nat, k: NodeKey)
    requires i < |rows|
    ensures var r := Apply(g, StudentOps(rows));
      && (NodeKey(Group, rows[i].groupId) in g.nodes ==>
            NodeKey(Student, rows[i].id) in r.nodes
            && EdgeKey(NodeKey(Student, rows[i].id), MemberOf, NodeKey(Group, rows[i].groupId)) in r.edges)
      && (k in r.nodes && k !in g.nodes ==>
            exists j :: 0 <= j < |rows| && k == NodeKey(Student, rows[j].id) && NodeKey(Group, rows[j].groupId) in g.nodes)
  {
    var ops := StudentOps(rows);
    SignatureWithin(ops, {Group}, {Student}, {MemberOf});
    if NodeKey(Group, rows[i].groupId) in g.nodes {
      assert Matched(g, ops[i]);
      StageKeepsMatchedRow(g, ops, i);
      assert ops[i].edges[0].key == EdgeKey(NodeKey(Student, rows[i].id), MemberOf, NodeKey(Group, rows[i].groupId));
    }
    StageAddsOnlyMatchedRows(g, ops, k, EdgeKey(k, MemberOf, k));
    if k in Apply(g, ops).nodes && k !in g.nodes {
      var j :| 0 <= j < |ops| && Matched(g, ops[j]) && ops[j].node.Some? && ops[j].node.value.key == k;
      assert ops[j].matches[0] in g.nodes;
    }
  }

  /** When several Attendance rows share a (student, event) pair whose nodes
      exist, the one ATTENDED relationship carries `attended` and `updated`
      of the last of them. */
  lemma AttendanceLastWriteWins(g: GraphView, rows: seq<AttendanceRow>, i: nat)
    requires i < |rows|
    requires NodeKey(Student, rows[i].studentId) in g.nodes && NodeKey(ScheduleEvent, rows[i].scheduleId) in g.nodes
    requires forall j :: i < j < |rows| ==> (rows[j].studentId, rows[j].scheduleId) != (rows[i].studentId, rows[i].scheduleId)
    ensures var e := EdgeKey(NodeKey(Student, rows[i].studentId), Attended, NodeKey(ScheduleEvent, rows[i].scheduleId));
      var r := Apply(g, AttendanceOps(rows)).edges;
      && e in r
      && "updated" in r[e] && r[e]["updated"] == IntV(rows[i].id)
      && ("attended" in r[e] <==> rows[i].attended.Some?)
      && ("attended" in r[e] ==> r[e]["attended"] == BoolV(rows[i].attended.value))
  {
    var ops := AttendanceOps(rows);
    SignatureWithin(ops, {Student, ScheduleEvent}, {}, {Attended});
    assert Matched(g, ops[i]);
    StageEdgeLastWriteWins(g, ops, i, 0, "updated");
    StageEdgeLastWriteWins(g, ops, i, 0, "attended");
  }

  // ---------------------------------------------------------------------------
  // Report helpers
  // ---------------------------------------------------------------------------

  datatype CalendarDate = CalendarDate(year: int, month: int, day: int)

  function DaysInMonth(year: int, month: int): int
  {
    if month == 2 then (if (year % 4 == 0 && year % 100 != 0) || year % 400 == 0 then 29 else 28)
    else if month == 4 || month == 6 || month == 9 || month == 11 then 30
    else 31
  }

  /** A date Python's `datetime.date` accepts. */
  predicate ValidDate(d: CalendarDate)
  {
    1 <= d.year <= 9999 && 1 <= d.month <= 12 && 1 <= d.day <= DaysInMonth(d.year, d.month)
  }

  predicate Before(a: CalendarDate, b: CalendarDate)
  {
    a.year < b.year || (a.year == b.year && (a.month < b.month || (a.month == b.month && a.day < b.day)))
  }

  /** `_calculate_semester_dates`: semester 1 is September 1 to December 31
      of the year, any other semester February 1 to June 30; a year outside
      1..9999 is the ValueError `datetime` raises. */
  function SemesterDates(year: int, semester: int): (r: Option<(CalendarDate, CalendarDate)>)
    ensures r.Some? <==> 1 <= year <= 9999
    ensures r.Some? ==> ValidDate(r.value.0) && ValidDate(r.value.1) && Before(r.value.0, r.value.1)
    ensures r.Some? ==> r.value.0.year == year && r.value.1.year == year
    ensures r.Some? ==> r.value.0.day == 1 && r.value.1.day == DaysInMonth(year, r.value.1.month)
    ensures r.Some? ==> (r.value.0.month == if semester == 1 then 9 else 2)
    ensures r.Some? ==> (r.value.1.month == if semester == 1 then 12 else 6)
  {
    if !(1 <= year <= 9999) then None
    else if semester == 1 then Some((CalendarDate(year, 9, 1), CalendarDate(year, 12, 31)))
    else Some((CalendarDate(year, 2, 1), CalendarDate(year, 6, 30)))
  }

  /** One row of the group report's OPTIONAL MATCH for a (group, student,
      course): a scheduled event and whether an ATTENDED relationship with
      `attended = true` was found for it. */
  datatype EventRow = EventRow(event: int, attendedTrue: bool)

  function Events(rows: seq<EventRow>): set<int>
  {
    set i | 0 <= i < |rows| :: rows[i].event
  }

  function AttendedEvents(rows: seq<EventRow>): set<int>
  {
    set i | 0 <= i < |rows| && rows[i].attendedTrue :: rows[i].event
  }

  /** `total_lectures * 2` and `attended_lectures * 2` with both counts over
      DISTINCT events. */
  function GroupReportHours(rows: seq<EventRow>): (r: (nat, nat))
    ensures r.0 % 2 == 0 && r.1 % 2 == 0
    ensures r.1 <= r.0
    ensures r.0 == 0 <==> rows == []
  {
    EventCounts(rows);
    (2 * |Events(rows)|, 2 * |AttendedEvents(rows)|)
  }

  lemma EventCounts(rows: seq<EventRow>)
    ensures |AttendedEvents(rows)| <= |Events(rows)|
    ensures |Events(rows)| == 0 <==> rows == []
  {
    SubsetCard(AttendedEvents(rows), Events(rows));
    if rows != [] {
      assert rows[0].event in Events(rows);
    }
  }

  lemma SubsetCard(a: set<int>, b: set<int>)
    requires a <= b
    ensures |a| <= |b|
  {
    assert b == a + (b - a);
  }

  /** A repeated (event, flag) row changes neither figure: the counts are of
      distinct events. */
  lemma GroupReportHoursIgnoresDuplicates(rows: seq<EventRow>, j: nat)
    requires j < |rows|
    ensures GroupReportHours(rows + [rows[j]]) == GroupReportHours(rows)
  {
    var ext := rows + [rows[j]];
    assert Events(ext) == Events(rows) by {
      forall x | x in Events(ext) ensures x in Events(rows) {
        var i :| 0 <= i < |ext| && ext[i].event == x;
        if i == |rows| {
          assert rows[j].event == x;
        } else {
          assert rows[i].event == x;
        }
      }
      forall x | x in Events(rows) ensures x in Events(ext) {
        var i :| 0 <= i < |rows| && rows[i].event == x;
        assert ext[i].event == x;
      }
    }
    assert AttendedEvents(ext) == AttendedEvents(rows) by {
      forall x | x in AttendedEvents(ext) ensures x in AttendedEvents(rows) {
        var i :| 0 <= i < |ext| && ext[i].attendedTrue && ext[i].event == x;
        if i == |rows| {
          assert rows[j].event == x && rows[j].attendedTrue;
        } else {
          assert rows[i].event == x;
        }
      }
      forall x | x in AttendedEvents(rows) ensures x in AttendedEvents(ext) {
        var i :| 0 <= i < |rows| && rows[i].attendedTrue && rows[i].event == x;
        assert ext[i].event == x;
      }
    }
  }

  /** A student with an attended-true row for every event is credited with
      every planned hour. */
  lemma GroupReportHoursFullAttendance(rows: seq<EventRow>)
    requires forall i :: 0 <= i < |rows| ==> rows[i].attendedTrue
    ensures GroupReportHours(rows).1 == GroupReportHours(rows).0
  {
    assert AttendedEvents(rows) == Events(rows);
  }
}
