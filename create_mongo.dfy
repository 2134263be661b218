/** `sync/mongo/create_mongo.py`: one document per Lecture_Materials row,
    inserted into the recreated `lecture_materials` collection. */
module MongoMaterials {
  import opened Common
  import opened MongoCollection

  /** A Lecture_Materials row as the SELECT lists its columns; the upload
      time is an instant, NULL when absent. */
  datatype MaterialRow = MaterialRow(materialId: int, sessionId: Option<int>, filePath: Option<string>,
                                     kind: Option<string>, uploadedAt: Option<int>)

  /** The stored document: exactly the five fields of the row. */
  datatype MaterialDoc = MaterialDoc(materialId: int, sessionId: Option<int>, filePath: Option<string>,
                                     kind: Option<string>, uploadedAt: Option<int>)

  /** The collection's `$jsonSchema`: all five fields required, the ids as
      32-bit `int`, the path and type as strings, the upload time as a
      date; a NULL column arrives as `null` and is refused. */
  predicate MaterialSchema(d: MaterialDoc)
  {
    && IsInt32(d.materialId)
    && d.sessionId.Some? && IsInt32(d.sessionId.value)
    && d.filePath.Some?
    && d.kind.Some?
    && d.uploadedAt.Some?
  }

  function DocOf(row: MaterialRow): (d: MaterialDoc)
  {
    MaterialDoc(row.materialId, row.sessionId, row.filePath, row.kind, row.uploadedAt)
  }

  /** The row the document was copied from. */
  function RowOf(d: MaterialDoc): MaterialRow
  {
    MaterialRow(d.materialId, d.sessionId, d.filePath, d.kind, d.uploadedAt)
  }

  /** The document keeps every column of its row and adds nothing. */
  lemma DocOfRoundTrip(row: MaterialRow)
    ensures RowOf(DocOf(row)) == row
  {
  }

  function Docs(rows: seq<MaterialRow>): (r: seq<MaterialDoc>)
    ensures |r| == |rows|
    ensures forall i :: 0 <= i < |rows| ==> RowOf(r[i]) == rows[i]
  {
    seq(|rows|, i requires 0 <= i < |rows| => DocOf(rows[i]))
  }

  /** `sync_postgres_to_mongo`: the collection is recreated, then holds one
      document per row, in row order, up to the first row whose document
      the validator refuses; that write error is caught and the earlier
      documents stay. `synced` says whether the success line is printed. */
  method SyncPostgresToMongo(rows: seq<MaterialRow>, col: Collection<MaterialDoc>) returns (synced: bool)
    modifies col
    ensures col.validator == MaterialSchema
    ensures col.docs == Docs(rows)[..ValidPrefix(Docs(rows), MaterialSchema)]
    ensures synced <==> forall i :: 0 <= i < |rows| ==> MaterialSchema(DocOf(rows[i]))
  {
    col.Recreate(MaterialSchema);
    ghost var docs := Docs(rows);
    var i := 0;
    while i < |rows|
      invariant i <= |rows|
      invariant col.validator == MaterialSchema
      invariant col.docs == docs[..i]
      invariant forall j :: 0 <= j < i ==> MaterialSchema(docs[j])
    {
      var row := rows[i];
      var doc := MaterialDoc(row.materialId, row.sessionId, row.filePath, row.kind, row.uploadedAt);
      var ok := col.InsertOne(doc);
      ValidPrefixStep(docs, MaterialSchema, i);
      if !ok {
        synced := false;
        return;
      }
      assert docs[..i + 1] == docs[..i] + [doc];
      i := i + 1;
    }
    ValidPrefixAll(docs, MaterialSchema);
    assert docs[..i] == docs;
    synced := true;
  }

  /** A row whose columns are all set, with ids in the 32-bit range, is
      stored; a NULL type, session or upload time, or an id beyond 32 bits,
      stops the copy at that row. */
  lemma StoredRows(rows: seq<MaterialRow>, i: nat)
    requires i < |rows|
    ensures i < ValidPrefix(Docs(rows), MaterialSchema) <==>
      forall j :: 0 <= j <= i ==>
        && IsInt32(rows[j].materialId) && rows[j].sessionId.Some? && IsInt32(rows[j].sessionId.value)
        && rows[j].filePath.Some? && rows[j].kind.Some? && rows[j].uploadedAt.Some?
  {
    var docs := Docs(rows);
    var n := ValidPrefix(docs, MaterialSchema);
    assert forall j :: 0 <= j < |rows| ==> docs[j] == DocOf(rows[j]);
    if n <= i {
      assert !MaterialSchema(docs[n]);
    }
  }
}
