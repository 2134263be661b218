/** The second graph mirror, `sync/neo4j/create_neo4j.py`: Courses and
    Student_Groups become nodes without any MATCH (their department and
    specialty ids are stored as plain properties), Group_Courses rows become
    TAKES_COURSE relationships between existing nodes, and Students become
    nodes linked to their existing StudentGroup. */
module CreateNeo4j {
  import opened Common
  import opened Graph
  import opened GraphStore

  datatype CoursesRow = CoursesRow(courseId: int, name: Option<string>, description: Option<string>,
                                   durationWeeks: Option<int>, departmentId: Option<int>)
  datatype StudentGroupsRow = StudentGroupsRow(groupId: int, name: Option<string>, courseYear: Option<int>,
                                               departmentId: Option<int>, specialtyId: Option<int>)
  datatype GroupCoursesRow = GroupCoursesRow(groupId: int, courseId: int)
  datatype StudentsRow = StudentsRow(studentId: int, name: Option<string>, enrollmentYear: Option<int>,
                                     dateOfBirth: Option<int>, email: Option<string>, bookNumber: Option<string>,
                                     groupId: int)

  datatype Snapshot = Snapshot(courses: seq<CoursesRow>, groups: seq<StudentGroupsRow>,
                               groupCourses: seq<GroupCoursesRow>, students: seq<StudentsRow>)

  /** MERGE (c:Course {postgres_id: row.course_id}) SET name, description,
      duration_weeks, department_id: no MATCH, so the row always applies. */
  function CourseOp(r: CoursesRow): RowOp
  {
    RowOp([], Some(Write(NodeKey(Course, r.courseId),
      map["name" := TextValue(r.name), "description" := TextValue(r.description),
          "duration_weeks" := IntValue(r.durationWeeks), "department_id" := IntValue(r.departmentId)])), [])
  }

  function StudentGroupOp(r: StudentGroupsRow): RowOp
  {
    RowOp([], Some(Write(NodeKey(StudentGroup, r.groupId),
      map["name" := TextValue(r.name), "course_year" := IntValue(r.courseYear),
          "department_id" := IntValue(r.departmentId), "specialty_id" := IntValue(r.specialtyId)])), [])
  }

  /** MATCH the StudentGroup, MATCH the Course, MERGE (g)-[:TAKES_COURSE]->(c). */
  function GroupCourseOp(r: GroupCoursesRow): RowOp
  {
    var g, c := NodeKey(StudentGroup, r.groupId), NodeKey(Course, r.courseId);
    RowOp([g, c], None, [Write(EdgeKey(g, TakesCourse, c), map[])])
  }

  function StudentOp(r: StudentsRow): RowOp
  {
    var g, st := NodeKey(StudentGroup, r.groupId), NodeKey(Student, r.studentId);
    RowOp([g], Some(Write(st,
      map["name" := TextValue(r.name), "enrollment_year" := IntValue(r.enrollmentYear),
          "date_of_birth" := DateValue(r.dateOfBirth), "email" := TextValue(r.email),
          "book_number" := TextValue(r.bookNumber)])),
      [Write(EdgeKey(st, MemberOf, g), map[])])
  }

  function CourseOps(rows: seq<CoursesRow>): seq<RowOp> { seq(|rows|, i requires 0 <= i < |rows| => CourseOp(rows[i])) }
  function StudentGroupOps(rows: seq<StudentGroupsRow>): seq<RowOp> { seq(|rows|, i requires 0 <= i < |rows| => StudentGroupOp(rows[i])) }
  function GroupCourseOps(rows: seq<GroupCoursesRow>): seq<RowOp> { seq(|rows|, i requires 0 <= i < |rows| => GroupCourseOp(rows[i])) }
  function StudentOps(rows: seq<StudentsRow>): seq<RowOp> { seq(|rows|, i requires 0 <= i < |rows| => StudentOp(rows[i])) }

  /** `run_all`: courses, groups, group-course links, students. */
  function Stages(s: Snapshot): seq<seq<RowOp>>
  {
    [CourseOps(s.courses), StudentGroupOps(s.groups), GroupCourseOps(s.groupCourses), StudentOps(s.students)]
  }

  class SyncService {
    const graph: GraphStore

    constructor (graph: GraphStore)
      ensures this.graph == graph
    {
      this.graph := graph;
    }

    method SyncCourses(rows: seq<CoursesRow>)
      requires graph.Valid()
      modifies graph
      ensures graph.Valid() && graph.View() == Apply(old(graph.View()), CourseOps(rows))
    {
      graph.Run(CourseOps(rows));
    }

    method SyncStudentGroups(rows: seq<StudentGroupsRow>)
      requires graph.Valid()
      modifies graph
      ensures graph.Valid() && graph.View() == Apply(old(graph.View()), StudentGroupOps(rows))
    {
      graph.Run(StudentGroupOps(rows));
    }

    method SyncGroupCourses(rows: seq<GroupCoursesRow>)
      requires graph.Valid()
      modifies graph
      ensures graph.Valid() && graph.View() == Apply(old(graph.View()), GroupCourseOps(rows))
    {
      graph.Run(GroupCourseOps(rows));
    }

    method SyncStudents(rows: seq<StudentsRow>)
      requires graph.Valid()
      modifies graph
      ensures graph.Valid() && graph.View() == Apply(old(graph.View()), StudentOps(rows))
    {
      graph.Run(StudentOps(rows));
    }

    method RunAll(s: Snapshot)
      requires graph.Valid()
      modifies graph
      ensures graph.Valid()
      ensures graph.View() == RunStages(old(graph.View()), Stages(s))
    {
      ghost var g0 := graph.View();
      ghost var st := Stages(s);
      SyncCourses(s.courses);
      RunStagesStep(g0, st, 0);
      SyncStudentGroups(s.groups);
      RunStagesStep(g0, st, 1);
      SyncGroupCourses(s.groupCourses);
      RunStagesStep(g0, st, 2);
      SyncStudents(s.students);
      RunStagesStep(g0, st, 3);
      assert st[..4] == st;
    }
  }

  // ---------------------------------------------------------------------------
  // Stage order
  // ---------------------------------------------------------------------------

  function LabelRank(l: Label): nat
  {
    match l
    case Course => 0
    case StudentGroup => 1
    case Student => 3
    case _ => 4
  }

  function RelRank(r: Rel): nat
  {
    match r
    case TakesCourse => 2
    case MemberOf => 3
    case _ => 4
  }

  ghost predicate RankedAt(ops: seq<RowOp>, k: nat)
  {
    && (forall l :: l in ReadLabels(ops) ==> LabelRank(l) < k)
    && (forall l :: l in WrittenLabels(ops) ==> LabelRank(l) == k)
    && (forall r :: r in WrittenRels(ops) ==> RelRank(r) == k)
  }

  lemma CourseOpsRanked(rows: seq<CoursesRow>)
    ensures RankedAt(CourseOps(rows), 0)
    ensures ReadLabels(CourseOps(rows)) == {} && WrittenRels(CourseOps(rows)) == {}
  {
    SignatureWithin(CourseOps(rows), {}, {Course}, {});
  }

  lemma StudentGroupOpsRanked(rows: seq<StudentGroupsRow>)
    ensures RankedAt(StudentGroupOps(rows), 1)
    ensures ReadLabels(StudentGroupOps(rows)) == {} && WrittenRels(StudentGroupOps(rows)) == {}
  {
    SignatureWithin(StudentGroupOps(rows), {}, {StudentGroup}, {});
  }

  lemma GroupCourseOpsRanked(rows: seq<GroupCoursesRow>)
    ensures RankedAt(GroupCourseOps(rows), 2)
  {
    SignatureWithin(GroupCourseOps(rows), {StudentGroup, Course}, {}, {TakesCourse});
  }

  lemma StudentOpsRanked(rows: seq<StudentsRow>)
    ensures RankedAt(StudentOps(rows), 3)
  {
    SignatureWithin(StudentOps(rows), {StudentGroup}, {Student}, {MemberOf});
  }

  /** `run_all` syncs courses and groups before the group-course links and
      before students, so every stage runs after the stages whose nodes it
      MATCHes. */
  lemma RunAllDependencyOrdered(s: Snapshot)
    ensures DependencyOrdered(Stages(s))
  {
    CourseOpsRanked(s.courses);
    StudentGroupOpsRanked(s.groups);
    GroupCourseOpsRanked(s.groupCourses);
    StudentOpsRanked(s.students);
    var st := Stages(s);
    forall k | 0 <= k < 4 ensures RankedAt(st[k], k) {
      if k == 0 { }
      else if k == 1 { }
      else if k == 2 { }
      else { }
    }
    RankedOrdered(st, LabelRank, RelRank);
  }

  /** Running `run_all` again on the same snapshot changes nothing. */
  lemma RunAllIdempotent(g: GraphView, s: Snapshot)
    ensures RunStages(RunStages(g, Stages(s)), Stages(s)) == RunStages(g, Stages(s))
  {
    RunAllDependencyOrdered(s);
    RunStagesIdempotent(g, Stages(s));
  }

  /** Nothing is deleted, and no relationship loses an endpoint. */
  lemma RunAllPreserves(g: GraphView, s: Snapshot)
    ensures g.nodes.Keys <= RunStages(g, Stages(s)).nodes.Keys
    ensures g.edges.Keys <= RunStages(g, Stages(s)).edges.Keys
    ensures NoDangling(g) ==> NoDangling(RunStages(g, Stages(s)))
  {
    var st := Stages(s);
    forall k | 0 <= k < |st| ensures AllWellFormed(st[k]) {
    }
    RunStagesPreserves(g, st);
  }

  // ---------------------------------------------------------------------------
  // Single stages
  // ---------------------------------------------------------------------------

  /** Every Course row yields a node, whatever else is in the graph; the
      department id is a property of that node, and the stage adds no
      relationship. The last row with the id decides the property. */
  lemma CourseAlwaysCreated(g: GraphView, rows: seq<CoursesRow>, i: nat)
    requires i < |rows|
    requires forall j :: i < j < |rows| ==> rows[j].courseId != rows[i].courseId
    ensures var r := Apply(g, CourseOps(rows));
      var k := NodeKey(Course, rows[i].courseId);
      && k in r.nodes
      && ("department_id" in r.nodes[k] <==> rows[i].departmentId.Some?)
      && ("department_id" in r.nodes[k] ==> r.nodes[k]["department_id"] == IntV(rows[i].departmentId.value))
      && r.edges == g.edges
  {
    var ops := CourseOps(rows);
    CourseOpsRanked(rows);
    StageNodeLastWriteWins(g, ops, i, "department_id");
    ApplyFrame(g, ops);
    assert Apply(g, ops).edges.Keys == g.edges.Keys;
  }

  /** Every Student_Groups row yields a node carrying its department and
      specialty ids as properties; the stage adds no relationship. */
  lemma StudentGroupAlwaysCreated(g: GraphView, rows: seq<StudentGroupsRow>, i: nat)
    requires i < |rows|
    requires forall j :: i < j < |rows| ==> rows[j].groupId != rows[i].groupId
    ensures var r := Apply(g, StudentGroupOps(rows));
      var k := NodeKey(StudentGroup, rows[i].groupId);
      && k in r.nodes
      && ("department_id" in r.nodes[k] <==> rows[i].departmentId.Some?)
      && ("department_id" in r.nodes[k] ==> r.nodes[k]["department_id"] == IntV(rows[i].departmentId.value))
      && ("specialty_id" in r.nodes[k] <==> rows[i].specialtyId.Some?)
      && ("specialty_id" in r.nodes[k] ==> r.nodes[k]["specialty_id"] == IntV(rows[i].specialtyId.value))
      && r.edges == g.edges
  {
    var ops := StudentGroupOps(rows);
    GroupNodeProp(g, rows, i, "department_id", rows[i].departmentId);
    GroupNodeProp(g, rows, i, "specialty_id", rows[i].specialtyId);
    assert Apply(g, ops).edges == g.edges by {
      StudentGroupOpsRanked(rows);
      ApplyFrame(g, ops);
      assert Apply(g, ops).edges.Keys == g.edges.Keys;
    }
  }

  /** One integer property of the last row's StudentGroup node. */
  lemma GroupNodeProp(g: GraphView, rows: seq<StudentGroupsRow>, i: nat, p: string, v: Option<int>)
    requires i < |rows|
    requires forall j :: i < j < |rows| ==> rows[j].groupId != rows[i].groupId
    requires p in StudentGroupOp(rows[i]).node.value.props && StudentGroupOp(rows[i]).node.value.props[p] == IntValue(v)
    ensures var r := Apply(g, StudentGroupOps(rows));
      var k := NodeKey(StudentGroup, rows[i].groupId);
      && k in r.nodes
      && (p in r.nodes[k] <==> v.Some?)
      && (p in r.nodes[k] ==> r.nodes[k][p] == IntV(v.value))
  {
    var ops := StudentGroupOps(rows);
    StudentGroupOpsRanked(rows);
    assert ops[i] == StudentGroupOp(rows[i]);
    StageNodeLastWriteWins(g, ops, i, p);
  }

  /** A TAKES_COURSE relationship is added exactly for the rows whose
      StudentGroup and Course both exist; the stage adds no node. */
  lemma TakesCourseNeedsBoth(g: GraphView, rows: seq<GroupCoursesRow>, e: EdgeKey)
    ensures var r := Apply(g, GroupCourseOps(rows));
      && r.nodes == g.nodes
      && (e in r.edges && e !in g.edges ==>
            exists i :: 0 <= i < |rows| && e == EdgeKey(NodeKey(StudentGroup, rows[i].groupId), TakesCourse, NodeKey(Course, rows[i].courseId))
                        && NodeKey(StudentGroup, rows[i].groupId) in g.nodes && NodeKey(Course, rows[i].courseId) in g.nodes)
      && (forall i :: 0 <= i < |rows| && NodeKey(StudentGroup, rows[i].groupId) in g.nodes && NodeKey(Course, rows[i].courseId) in g.nodes ==>
            EdgeKey(NodeKey(StudentGroup, rows[i].groupId), TakesCourse, NodeKey(Course, rows[i].courseId)) in r.edges)
  {
    var ops := GroupCourseOps(rows);
    GroupCourseOpsRanked(rows);
    assert Apply(g, ops).nodes == g.nodes by {
      SignatureWithin(ops, {StudentGroup, Course}, {}, {TakesCourse});
      ApplyFrame(g, ops);
      assert Apply(g, ops).nodes.Keys == g.nodes.Keys;
    }
    if e in Apply(g, ops).edges && e !in g.edges {
      StageAddsOnlyMatchedRows(g, ops, NodeKey(Course, 0), e);
      var i, t :| 0 <= i < |ops| && Matched(g, ops[i]) && 0 <= t < |ops[i].edges| && ops[i].edges[t].key == e;
      assert ops[i].matches[0] in g.nodes && ops[i].matches[1] in g.nodes;
    }
    forall i | 0 <= i < |rows| && NodeKey(StudentGroup, rows[i].groupId) in g.nodes && NodeKey(Course, rows[i].courseId) in g.nodes
      ensures EdgeKey(NodeKey(StudentGroup, rows[i].groupId), TakesCourse, NodeKey(Course, rows[i].courseId)) in Apply(g, ops).edges
    {
      assert Matched(g, ops[i]);
      StageKeepsMatchedRow(g, ops, i);
      assert ops[i].edges[0].key == EdgeKey(NodeKey(StudentGroup, rows[i].groupId), TakesCourse, NodeKey(Course, rows[i].courseId));
    }
  }

  /** A Student is created only when its StudentGroup exists, and then has
      its MEMBER_OF relationship to it. */
  lemma StudentNeedsStudentGroup(g: GraphView, rows: seq<StudentsRow>, i: nat, k: NodeKey)
    requires i < |rows|
    ensures var r := Apply(g, StudentOps(rows));
      && (NodeKey(StudentGroup, rows[i].groupId) in g.nodes ==>
            NodeKey(Student, rows[i].studentId) in r.nodes
            && EdgeKey(NodeKey(Student, rows[i].studentId), MemberOf, NodeKey(StudentGroup, rows[i].groupId)) in r.edges)
      && (k in r.nodes && k !in g.nodes ==>
            exists j :: 0 <= j < |rows| && k == NodeKey(Student, rows[j].studentId) && NodeKey(StudentGroup, rows[j].groupId) in g.nodes)
  {
    var ops := StudentOps(rows);
    SignatureWithin(ops, {StudentGroup}, {Student}, {MemberOf});
    if NodeKey(StudentGroup, rows[i].groupId) in g.nodes {
      assert Matched(g, ops[i]);
      StageKeepsMatchedRow(g, ops, i);
      assert ops[i].edges[0].key == EdgeKey(NodeKey(Student, rows[i].studentId), MemberOf, NodeKey(StudentGroup, rows[i].groupId));
    }
    StageAddsOnlyMatchedRows(g, ops, k, EdgeKey(k, MemberOf, k));
    if k in Apply(g, ops).nodes && k !in g.nodes {
      var j :| 0 <= j < |ops| && Matched(g, ops[j]) && ops[j].node.Some? && ops[j].node.value.key == k;
      assert ops[j].matches[0] in g.nodes;
    }
  }

  /** The last Students row with an id sets every property of the node. */
  lemma StudentLastWriteWins(g: GraphView, rows: seq<StudentsRow>, i: nat, p: string)
    requires i < |rows| && NodeKey(StudentGroup, rows[i].groupId) in g.nodes
    requires forall j :: i < j < |rows| && NodeKey(StudentGroup, rows[j].groupId) in g.nodes ==> rows[j].studentId != rows[i].studentId
    requires p in StudentOp(rows[i]).node.value.props
    ensures var r := Apply(g, StudentOps(rows)).nodes;
      var k, u := NodeKey(Student, rows[i].studentId), StudentOp(rows[i]).node.value.props;
      && k in r
      && (p in r[k] <==> u[p] != Null)
      && (p in r[k] ==> r[k][p] == u[p])
  {
    var ops := StudentOps(rows);
    SignatureWithin(ops, {StudentGroup}, {Student}, {MemberOf});
    assert Matched(g, ops[i]);
    forall j | i < j < |ops| && Matched(g, ops[j]) && ops[j].node.Some?
      ensures ops[j].node.value.key != ops[i].node.value.key
    {
      assert ops[j].matches[0] in g.nodes;
    }
    StageNodeLastWriteWins(g, ops, i, p);
  }
}
