/** `mongo_sync.py`: one nested document per university, built from the
    University, Institute, Department and Specialty tables and inserted
    into the recreated `universities` collection. */
module MongoUniversities {
  import opened Common
  import opened MongoCollection

  // ---------------------------------------------------------------------
  // The rows the queries read
  // ---------------------------------------------------------------------

  datatype UniversityRow = UniversityRow(id: int, name: Option<string>, location: Option<string>)
  datatype InstituteRow = InstituteRow(id: int, universityId: Option<int>, name: Option<string>)
  datatype DepartmentRow = DepartmentRow(id: int, instituteId: Option<int>, name: Option<string>)
  datatype SpecialtyRow = SpecialtyRow(departmentId: Option<int>, name: Option<string>)

  /** The four tables, each in the order the database returns its rows. */
  datatype Tables = Tables(universities: seq<UniversityRow>, institutes: seq<InstituteRow>,
                           departments: seq<DepartmentRow>, specialties: seq<SpecialtyRow>)

  // ---------------------------------------------------------------------
  // The documents
  // ---------------------------------------------------------------------

  datatype DepartmentDoc = DepartmentDoc(name: Option<string>, specializations: seq<Option<string>>)
  datatype InstituteDoc = InstituteDoc(name: Option<string>, departments: seq<DepartmentDoc>)
  datatype UniversityDoc = UniversityDoc(name: Option<string>, location: Option<string>, institutes: seq<InstituteDoc>)

  /** The collection's `$jsonSchema`: every name, the location and every
      specialization must be a string (a NULL column arrives as `null`). */
  predicate DepartmentValid(d: DepartmentDoc)
  {
    d.name.Some? && forall i :: 0 <= i < |d.specializations| ==> d.specializations[i].Some?
  }

  predicate InstituteValid(inst: InstituteDoc)
  {
    inst.name.Some? && forall i :: 0 <= i < |inst.departments| ==> DepartmentValid(inst.departments[i])
  }

  predicate UniversitySchema(u: UniversityDoc)
  {
    u.name.Some? && u.location.Some? && forall i :: 0 <= i < |u.institutes| ==> InstituteValid(u.institutes[i])
  }

  // ---------------------------------------------------------------------
  // What the script builds
  // ---------------------------------------------------------------------

  function SpecialtiesOf(t: Tables, deptId: int): seq<SpecialtyRow>
  {
    Filter(t.specialties, (s: SpecialtyRow) => s.departmentId == Some(deptId))
  }

  function DepartmentsOf(t: Tables, instId: int): seq<DepartmentRow>
  {
    Filter(t.departments, (d: DepartmentRow) => d.instituteId == Some(instId))
  }

  function InstitutesOf(t: Tables, uniId: int): seq<InstituteRow>
  {
    Filter(t.institutes, (i: InstituteRow) => i.universityId == Some(uniId))
  }

  /** `[row[0] for row in fetchall()]` of the Specialty query. */
  function Specializations(t: Tables, deptId: int): (names: seq<Option<string>>)
    ensures |names| == |SpecialtiesOf(t, deptId)|
    ensures forall k :: 0 <= k < |names| ==> names[k] == SpecialtiesOf(t, deptId)[k].name
  {
    var rows := SpecialtiesOf(t, deptId);
    seq(|rows|, k requires 0 <= k < |rows| => rows[k].name)
  }

  function DepartmentDocOf(t: Tables, d: DepartmentRow): DepartmentDoc
  {
    DepartmentDoc(d.name, Specializations(t, d.id))
  }

  function DepartmentDocs(t: Tables, instId: int): (r: seq<DepartmentDoc>)
    ensures |r| == |DepartmentsOf(t, instId)|
    ensures forall k :: 0 <= k < |r| ==> r[k] == DepartmentDocOf(t, DepartmentsOf(t, instId)[k])
  {
    var rows := DepartmentsOf(t, instId);
    seq(|rows|, k requires 0 <= k < |rows| => DepartmentDocOf(t, rows[k]))
  }

  function InstituteDocOf(t: Tables, inst: InstituteRow): InstituteDoc
  {
    InstituteDoc(inst.name, DepartmentDocs(t, inst.id))
  }

  function InstituteDocs(t: Tables, uniId: int): (r: seq<InstituteDoc>)
    ensures |r| == |InstitutesOf(t, uniId)|
    ensures forall k :: 0 <= k < |r| ==> r[k] == InstituteDocOf(t, InstitutesOf(t, uniId)[k])
  {
    var rows := InstitutesOf(t, uniId);
    seq(|rows|, k requires 0 <= k < |rows| => InstituteDocOf(t, rows[k]))
  }

  function UniversityDocOf(t: Tables, u: UniversityRow): UniversityDoc
  {
    UniversityDoc(u.name, u.location, InstituteDocs(t, u.id))
  }

  /** One document per University row, in row order. */
  function Docs(t: Tables): (r: seq<UniversityDoc>)
    ensures |r| == |t.universities|
    ensures forall i :: 0 <= i < |r| ==> r[i] == UniversityDocOf(t, t.universities[i])
  {
    seq(|t.universities|, i requires 0 <= i < |t.universities| => UniversityDocOf(t, t.universities[i]))
  }

  // ---------------------------------------------------------------------
  // The script
  // ---------------------------------------------------------------------

  /** The inner loop over one institute's departments. */
  method BuildDepartments(t: Tables, instId: int) returns (deps: seq<DepartmentDoc>)
    ensures deps == DepartmentDocs(t, instId)
  {
    var rows := DepartmentsOf(t, instId);
    deps := [];
    var k := 0;
    while k < |rows|
      invariant k <= |rows|
      invariant |deps| == k
      invariant forall j :: 0 <= j < k ==> deps[j] == DepartmentDocOf(t, rows[j])
    {
      var specs := Specializations(t, rows[k].id);
      deps := deps + [DepartmentDoc(rows[k].name, specs)];
      k := k + 1;
    }
  }

  /** The loop over one university's institutes. */
  method BuildInstitutes(t: Tables, uniId: int) returns (insts: seq<InstituteDoc>)
    ensures insts == InstituteDocs(t, uniId)
  {
    var rows := InstitutesOf(t, uniId);
    insts := [];
    var k := 0;
    while k < |rows|
      invariant k <= |rows|
      invariant |insts| == k
      invariant forall j :: 0 <= j < k ==> insts[j] == InstituteDocOf(t, rows[j])
    {
      var deps := BuildDepartments(t, rows[k].id);
      insts := insts + [InstituteDoc(rows[k].name, deps)];
      k := k + 1;
    }
  }

  /** `sync_postgres_to_mongo`: the collection is recreated, then holds the
      documents of the universities in row order up to the first one the
      validator refuses; that write error is caught, so the documents
      before it stay. `synced` says whether the success line is printed,
      which happens exactly when every document passes. */
  method SyncPostgresToMongo(t: Tables, col: Collection<UniversityDoc>) returns (synced: bool)
    modifies col
    ensures col.validator == UniversitySchema
    ensures col.docs == Docs(t)[..ValidPrefix(Docs(t), UniversitySchema)]
    ensures synced <==> forall i :: 0 <= i < |Docs(t)| ==> UniversitySchema(Docs(t)[i])
  {
    col.Recreate(UniversitySchema);
    ghost var docs := Docs(t);
    var i := 0;
    while i < |t.universities|
      invariant i <= |t.universities|
      invariant col.validator == UniversitySchema
      invariant col.docs == docs[..i]
      invariant forall j :: 0 <= j < i ==> UniversitySchema(docs[j])
    {
      var u := t.universities[i];
      var insts := BuildInstitutes(t, u.id);
      var doc := UniversityDoc(u.name, u.location, insts);
      var ok := col.InsertOne(doc);
      ValidPrefixStep(docs, UniversitySchema, i);
      if !ok {
        synced := false;
        return;
      }
      assert docs[..i + 1] == docs[..i] + [doc];
      i := i + 1;
    }
    ValidPrefixAll(docs, UniversitySchema);
    assert docs[..i] == docs;
    synced := true;
  }

  // ---------------------------------------------------------------------
  // What the documents say about the tables
  // ---------------------------------------------------------------------

  /** Appending an Institute row to the table appends at most one institute,
      at the end, to the documents of the universities: rows keep their
      table order in the documents. */
  lemma InstitutesInOrder(t: Tables, inst: InstituteRow, uniId: int)
    ensures var t2 := t.(institutes := t.institutes + [inst]);
      InstitutesOf(t2, uniId) ==
        InstitutesOf(t, uniId) + (if inst.universityId == Some(uniId) then [inst] else [])
  {
    var p := (i: InstituteRow) => i.universityId == Some(uniId);
    FilterConcat(t.institutes, [inst], p);
    FilterOne(inst, p);
  }

  /** The specializations of a department are the names of the Specialty
      rows pointing at it, in table order: adding a row for another
      department changes nothing, adding one for this department appends
      its name. */
  lemma SpecializationsInOrder(t: Tables, s: SpecialtyRow, deptId: int)
    ensures var t2 := t.(specialties := t.specialties + [s]);
      Specializations(t2, deptId) ==
        Specializations(t, deptId) + (if s.departmentId == Some(deptId) then [s.name] else [])
  {
    var p := (r: SpecialtyRow) => r.departmentId == Some(deptId);
    FilterConcat(t.specialties, [s], p);
    FilterOne(s, p);
    var t2 := t.(specialties := t.specialties + [s]);
    assert SpecialtiesOf(t2, deptId) == SpecialtiesOf(t, deptId) + (if p(s) then [s] else []);
  }

  /** A name is among a department's specializations exactly when some
      Specialty row of that department carries it. */
  lemma SpecializationsExact(t: Tables, deptId: int, x: Option<string>)
    ensures x in Specializations(t, deptId) <==>
      exists r :: r in t.specialties && r.departmentId == Some(deptId) && r.name == x
  {
    var rows := SpecialtiesOf(t, deptId);
    var names := Specializations(t, deptId);
    if x in names {
      var k :| 0 <= k < |names| && names[k] == x;
      var r := rows[k];
      assert r in rows;
    }
    if exists r :: r in t.specialties && r.departmentId == Some(deptId) && r.name == x {
      var r :| r in t.specialties && r.departmentId == Some(deptId) && r.name == x;
      assert r in rows;
      var k :| 0 <= k < |rows| && rows[k] == r;
      assert names[k] == x;
    }
  }

  /** A rerun does not duplicate anything: whatever the collection held
      before, two runs over the same tables leave the same documents as one. */
  method SyncTwice(t: Tables, col: Collection<UniversityDoc>)
    modifies col
    ensures col.docs == Docs(t)[..ValidPrefix(Docs(t), UniversitySchema)]
  {
    var first := SyncPostgresToMongo(t, col);
    ghost var once := col.docs;
    var second := SyncPostgresToMongo(t, col);
    assert col.docs == once;
  }
}
