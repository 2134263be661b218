# db_lab, modelled in Dafny

db_lab keeps one university database (PostgreSQL) mirrored into four other
stores and answers attendance reports from them:

- a Neo4j graph rebuilt by the `sync_*` stages of `neo4j_sync.py` and
  `sync/neo4j/create_neo4j.py` (UNWIND over the rows, MATCH the parents,
  MERGE the node, SET its properties, MERGE the relationships);
- a Redis cache of students and session types with hand-made index sets
  (`redis_sync.py`, `sync/redis/create_redis.py`,
  `lab1/session_type_search.py`);
- MongoDB collections of nested university documents and lecture
  materials behind a `$jsonSchema` validator (`mongo_sync.py`,
  `sync/mongo/create_mongo.py`);
- Elasticsearch indices of lecture sessions and generated lecture
  materials (`sync/elastic/create_elastic.py`, `elastic_gen_sync.py`);
- attendance finders over the graph (`lab1_service/Lab1.py`) and over SQL
  plus the graph (`lab1/lab.py`), the two Flask report handlers
  (`lab1_service/app.py`, `lab1/app.py`), and a cleaner that empties all
  five stores (`purge.py`).

The model states each store as a value or a class whose fields the
operations update, and each script as a method whose contract ties the new
state to a function of the rows it read. Lemmas then prove what the
scripts promise about those functions: no dangling relationship, rerun
idempotence, last-write-wins, the rank order of the finders, the HTTP
status decisions, and what every lookup returns after a rebuild.

Modules: `Common` (options, results, Python string helpers), `Graph` and
`GraphStore` (the graph and MERGE/SET semantics), `Neo4jSync`,
`CreateNeo4j`, `Ranking`, `AttendanceGraph`, `AttendanceSql`, `Http`,
`ServiceReport`, `LabReport`, `RedisStore`, `StudentCache`, `SessionTypes`,
`MongoCollection`, `MongoUniversities`, `MongoMaterials`, `EsIndex`,
`EsSessions`, `EsMaterials`, `Purge`.

## Model

| member | source | states |
|---|---|---|
| Graph.SetProps | neo4j_sync.py:41 | SET assigns every listed property, a NULL value removes it, unlisted properties are kept |
| Graph.SetPropsCompose | neo4j_sync.py:150-153 | two SETs in a row equal one SET of their union with the later value winning |
| Graph.ApplyWritesAt | neo4j_sync.py:38-45 | after a batch of MERGE+SET writes, a written key carries the combined SET over its old value and every other key is untouched |
| Graph.ApplyWritesIdempotent | neo4j_sync.py:38-45 | replaying the same MERGE+SET writes changes nothing |
| Graph.ApplyWritesLastWins | neo4j_sync.py:38-45 | the value at a key is what the last write to it made |
| Graph.ApplyMonotone | neo4j_sync.py:252-262 | no stage deletes a node or relationship |
| Graph.ApplyFrame | neo4j_sync.py:47-57 | labels and relationship types a statement does not write are unchanged |
| Graph.MatchedStable | neo4j_sync.py:48-53 | whether a row is skipped is decided by the graph before the statement |
| Graph.ApplyDecomposed | neo4j_sync.py:47-57 | a statement is one batch of node writes and one of relationship writes, those of the rows whose MATCHes succeed |
| Graph.StageIdempotent | neo4j_sync.py:47-57 | rerunning a stage on the same rows leaves nodes, relationships and properties unchanged |
| Graph.StagePreservesNoDangling | neo4j_sync.py:48-53 | a row whose MATCH fails creates nothing, and no relationship ever has a missing endpoint |
| Graph.StageAddsOnlyMatchedRows | neo4j_sync.py:48-53 | every added node or relationship belongs to a row whose MATCHes all succeeded |
| Graph.StageNodeLastWriteWins | neo4j_sync.py:38-41 | the last non-skipped row MERGEing a node sets each of its SET properties |
| Graph.StageEdgeLastWriteWins | neo4j_sync.py:150-153 | the last non-skipped row MERGEing a relationship sets its properties |
| Graph.LaterStagesFrame | neo4j_sync.py:252-262 | stages after `k` leave what stage `k` reads and writes alone |
| Graph.StageCongruent | neo4j_sync.py:47-57 | graphs agreeing on what a stage reads and writes stay agreeing after it |
| Graph.RunStagesIdempotent | neo4j_sync.py:252-262 | running all stages twice equals running them once when they are in dependency order |
| Graph.StageKeepsMatchedRow | neo4j_sync.py:48-53 | a row whose MATCHes succeed leaves its node and relationships in the result |
| Graph.RunStagesPreserves | neo4j_sync.py:252-262 | over several stages nothing is deleted and no relationship loses an endpoint |
| GraphStore.Find | neo4j_sync.py:40 | the index of the record with the key, or -1 exactly when there is none |
| GraphStore.Upsert | neo4j_sync.py:40-41 | MERGE+SET on a record list: update in place or append, keys stay unique |
| GraphStore.GraphStore.RowMatched | neo4j_sync.py:50 | true exactly when every MATCH of the row finds its node |
| GraphStore.GraphStore.RunRow | neo4j_sync.py:49-53 | one UNWIND iteration equals the pure row step on the graph view, and keeps the store valid |
| GraphStore.GraphStore.Run | neo4j_sync.py:44-45 | `session.run` over all rows equals the pure stage on the graph view |
| Neo4jSync.SyncService.SyncUniversities | neo4j_sync.py:37-45 | the store afterwards is the University stage applied to the old graph |
| Neo4jSync.SyncService.SyncInstitutes | neo4j_sync.py:47-57 | the store afterwards is the Institute stage applied to the old graph |
| Neo4jSync.SyncService.SyncDepartments | neo4j_sync.py:59-69 | the store afterwards is the Department stage applied to the old graph |
| Neo4jSync.SyncService.SyncSpecialties | neo4j_sync.py:71-81 | the store afterwards is the Specialty stage applied to the old graph |
| Neo4jSync.SyncService.SyncGroups | neo4j_sync.py:83-93 | the store afterwards is the Group stage applied to the old graph |
| Neo4jSync.SyncService.SyncCoursesAndLectures | neo4j_sync.py:95-119 | all courses first, then all lectures |
| Neo4jSync.SyncService.SyncStudents | neo4j_sync.py:121-131 | the store afterwards is the Student stage applied to the old graph |
| Neo4jSync.SyncService.SyncSchedule | neo4j_sync.py:133-145 | the store afterwards is the ScheduleEvent stage applied to the old graph |
| Neo4jSync.SyncService.SyncAttendance | neo4j_sync.py:147-157 | the store afterwards is the ATTENDED stage applied to the old graph |
| Neo4jSync.SyncService.SyncMaterials | neo4j_sync.py:160-178 | the statement is skipped for no rows, otherwise the Material stage is applied |
| Neo4jSync.SyncService.RunAll | neo4j_sync.py:252-262 | the ten stages in order |
| Neo4jSync.RunAllDependencyOrdered | neo4j_sync.py:252-262 | every stage runs after the stages whose nodes it MATCHes, and no two stages MERGE the same label or type |
| Neo4jSync.RunAllIdempotent | neo4j_sync.py:252-262 | `run_all` twice on the same snapshot equals once |
| Neo4jSync.StageRerunIdempotent | neo4j_sync.py:51-53 | any single stage twice on the same rows equals once |
| Neo4jSync.RunAllPreserves | neo4j_sync.py:252-262 | nothing is deleted and no relationship has a missing endpoint |
| Neo4jSync.UniversityLastWriteWins | neo4j_sync.py:38-41 | the last University row with an id decides name and location; NULL leaves the property absent |
| Neo4jSync.InstituteNeedsUniversity | neo4j_sync.py:48-53 | every Institute node or HAS_INSTITUTE relationship the stage adds comes from a row whose University is present |
| Neo4jSync.InstituteCreatedWithParent | neo4j_sync.py:48-53 | an Institute row whose University is present leaves its Institute and the HAS_INSTITUTE from that University in the result |
| Neo4jSync.CourseNeedsDepartmentAndSpecialty | neo4j_sync.py:97-103 | a Course needs both Department and Specialty, and only the Department gets an OFFERS_COURSE edge |
| Neo4jSync.ScheduleEventLinks | neo4j_sync.py:134-141 | a ScheduleEvent needs its Lecture and Group and gets SCHEDULED_FOR and OF_LECTURE |
| Neo4jSync.StudentNeedsGroup | neo4j_sync.py:122-127 | a Student needs its Group and gets one MEMBER_OF edge to it |
| Neo4jSync.AttendanceLastWriteWins | neo4j_sync.py:148-153 | one ATTENDED per (student, event), carrying `attended` and `updated` of the last row |
| Neo4jSync.SemesterDates | neo4j_sync.py:243-248 | semester 1 is Sep 1 to Dec 31, any other Feb 1 to Jun 30; start precedes end; an invalid year is an error |
| Neo4jSync.GroupReportHours | neo4j_sync.py:227-234 | planned and attended hours are twice the distinct event counts, attended ≤ planned |
| Neo4jSync.GroupReportHoursIgnoresDuplicates | neo4j_sync.py:228-229 | a repeated row changes neither figure |
| Neo4jSync.GroupReportHoursFullAttendance | neo4j_sync.py:228-234 | attending every event gives every planned hour |
| CreateNeo4j.SyncService.SyncCourses | sync/neo4j/create_neo4j.py:36-48 | the store afterwards is the Course stage applied to the old graph |
| CreateNeo4j.SyncService.SyncStudentGroups | sync/neo4j/create_neo4j.py:50-62 | the store afterwards is the StudentGroup stage applied to the old graph |
| CreateNeo4j.SyncService.SyncGroupCourses | sync/neo4j/create_neo4j.py:64-76 | the store afterwards is the TAKES_COURSE stage applied to the old graph |
| CreateNeo4j.SyncService.SyncStudents | sync/neo4j/create_neo4j.py:78-93 | the store afterwards is the Student stage applied to the old graph |
| CreateNeo4j.SyncService.RunAll | sync/neo4j/create_neo4j.py:95-99 | the four stages in order |
| CreateNeo4j.RunAllDependencyOrdered | sync/neo4j/create_neo4j.py:95-99 | courses and groups are synced before the links and the students |
| CreateNeo4j.RunAllIdempotent | sync/neo4j/create_neo4j.py:95-99 | `run_all` twice equals once |
| CreateNeo4j.RunAllPreserves | sync/neo4j/create_neo4j.py:95-99 | nothing is deleted, no relationship loses an endpoint |
| CreateNeo4j.CourseAlwaysCreated | sync/neo4j/create_neo4j.py:37-42 | every Course row yields a node with `department_id` as a property and no relationship |
| CreateNeo4j.StudentGroupAlwaysCreated | sync/neo4j/create_neo4j.py:51-56 | every Student_Groups row yields a node with its ids as properties |
| CreateNeo4j.TakesCourseNeedsBoth | sync/neo4j/create_neo4j.py:64-70 | TAKES_COURSE exists exactly for rows whose group and course exist; duplicates give one edge |
| CreateNeo4j.StudentNeedsStudentGroup | sync/neo4j/create_neo4j.py:79-87 | a Student needs its StudentGroup and gets MEMBER_OF to it |
| CreateNeo4j.StudentLastWriteWins | sync/neo4j/create_neo4j.py:82-86 | the last Students row with an id sets every property |
| Ranking.InsertSorted | lab1_service/Lab1.py:129-132 | inserting into a sorted list keeps it sorted and is a permutation |
| Ranking.SortSorted | lab1_service/Lab1.py:129-132 | ORDER BY yields a sorted permutation |
| Ranking.TopRowsIsTop | lab1_service/Lab1.py:134-135 | LIMIT after ORDER BY keeps at most `limit` rows and none left out ranks lower |
| AttendanceGraph.ScopeRowsCount | lab1_service/Lab1.py:106-107 | an id listed twice is unwound twice |
| AttendanceGraph.ScopeRowsWindow | lab1_service/Lab1.py:110-113 | filtering after the MATCH equals matching inside the date window |
| AttendanceGraph.Flags | lab1_service/Lab1.py:117-119 | one flag per row of the student, true exactly when its ATTENDED edge says so |
| AttendanceGraph.CountTrueFlags | lab1_service/Lab1.py:120-122 | `attendedCount` is the number of attended rows |
| AttendanceGraph.Percent | lab1_service/Lab1.py:127 | the rounded percentage in hundredths lies in [0, 10000] |
| AttendanceGraph.PercentMonotone | lab1_service/Lab1.py:127 | rounding never inverts two ratios |
| AttendanceGraph.CollectComplete | lab1_service/Lab1.py:123 | no student with rows is dropped by `totalCount > 0` |
| AttendanceGraph.AggregateSpec | lab1_service/Lab1.py:115-127 | one record per student with rows; counts and percentage agree with the rows; attended ≤ total |
| AttendanceGraph.ExpectedSpec | lab1_service/Lab1.py:105-146 | an error exactly for an unreadable applied date that some matched row reaches, or a negative limit; no record when an unreadable date meets no row; otherwise the aggregate sorted by mode and truncated to the limit |
| AttendanceGraph.AssembleQuery | lab1_service/Lab1.py:105-142 | window clause and date params present iff both dates given, LIMIT and its param iff a limit is given; the query computes the expected result |
| AttendanceGraph.QueryMeaning | lab1_service/Lab1.py:105-135 | the clause-by-clause meaning of the assembled query |
| AttendanceGraph.FindAttendance | lab1_service/Lab1.py:94-146 | `[]` for an empty id list, otherwise the expected result |
| AttendanceGraph.FindWorstAttendees | lab1_service/Lab1.py:65-78 | worst mode with `limit = top_n` |
| AttendanceGraph.GetAttendanceSummary | lab1_service/Lab1.py:80-92 | summary mode ordered by name, no limit |
| AttendanceSql.ScheduleResultSpec | lab1/lab.py:28-54 | the matching rows of the session within the dates, ordered by (date, start time) |
| AttendanceSql.ScopeWithoutConnection | lab1/lab.py:48-54 | without `self.conn` every call answers `[]` |
| AttendanceSql.LeftJoin | lab1/lab.py:109-111 | the LEFT JOIN restricted to the listed sessions |
| AttendanceSql.RoundPercent | lab1/lab.py:107-108 | the nearest whole per cent, in [0, 100] |
| AttendanceSql.AggregateComplete | lab1/lab.py:117-120 | one row per (student, group) with attendance records, none twice |
| AttendanceSql.AggregateBounds | lab1/lab.py:103-108 | counts agree with the records, attended ≤ total, percentage in [0, 100] |
| AttendanceSql.OrdersTotal | lab1/lab.py:121-124 | both ORDER BY modes are total preorders |
| AttendanceSql.SqlExpectedSpec | lab1/lab.py:103-126 | the groups ordered by mode, truncated only by a truthy limit; no ids gives nothing |
| AttendanceSql.AssembleSql | lab1/lab.py:103-126 | the assembled SQL computes the expected result |
| AttendanceSql.LookupLastWins | lab1/lab.py:160 | a later record of the same student replaces an earlier one |
| AttendanceSql.Enrich | lab1/lab.py:162-174 | one report per row in order with the row's figures; a known student gets the seven fields of its graph record, an unknown one keeps its row with all seven empty |
| AttendanceSql.PipelineAlwaysEmpty | lab1/lab.py:85-178 | every call returns `[]`: no connection empties the scope, and a non-empty scope cannot be bound |
| AttendanceSql.AppendAll | lab1/lab.py:99-100 | the inner loop appends each schedule row in order |
| AttendanceSql.AttendanceFinder.CollectScope | lab1/lab.py:96-100 | the scope is the in-order concatenation of each id's schedule rows |
| AttendanceSql.AttendanceFinder.FindAttendance | lab1/lab.py:85-178 | `[]` for no ids, otherwise the pipeline's result |
| AttendanceSql.AttendanceFinder.FindWorstAttendees | lab1/lab.py:56-69 | worst mode with `limit = top_n` |
| AttendanceSql.AttendanceFinder.GetAttendanceSummary | lab1/lab.py:71-83 | summary mode, no limit |
| Http.HasAllRequiredFields | lab1/app.py:12-15 | true exactly when every required field is a key of the body |
| ServiceReport.FormatAll | lab1_service/app.py:65-81 | one entry per record in order, each keeping the record and adding its Redis fields |
| ServiceReport.StatusCodes | lab1_service/app.py:29-87 | 400 iff non-JSON or a field missing (listing the received keys); the search exception, raised before the `try`, escapes the handler; 404 iff the search finds nothing; the handler's own 500 iff the graph query fails, the finder rejects a date or a Redis lookup fails; 200 otherwise |
| ServiceReport.SuccessReport | lab1_service/app.py:77-83 | term, period text, lecture count, entries in finder order and `results` = their count |
| ServiceReport.SuccessRanked | lab1_service/app.py:58-63 | at most ten records, the lowest percentages of the aggregate over the window |
| ServiceReport.FormatAfterSync | lab1_service/app.py:65-75 | after a cache rebuild, the Redis fields are those of the last stored row, or four `None`s |
| LabReport.StatusCodes | lab1/app.py:19-71 | 400 only for non-JSON; an escaping exception without `name` or a listed lecture type; 404 for an empty search; 500 when a date is missing |
| LabReport.SuccessIsEmpty | lab1/app.py:51-67 | a 200 answer names the course, period and lecture count and lists no attendee |
| LabReport.LectureTypesAfterSync | lab1/app.py:35-40 | after a type rebuild, the list is empty iff no stored type is named Лекция in any casing; otherwise its first hash carries such a type's id |
| RedisStore.ClearPrefix | redis_sync.py:24-27 | every key with the prefix deleted, every other key kept |
| RedisStore.Redis.ScanIter | redis_sync.py:24 | SCAN MATCH `p*` yields every matching key once |
| RedisStore.Redis.Keys | redis_sync.py:92 | KEYS `p*x*` selects the keys with prefix `p` containing `x` after it |
| RedisStore.DeleteMatching | redis_sync.py:24-27 | the delete loop leaves exactly the prefix-cleared key space |
| RedisStore.FetchAll | redis_sync.py:96 | one hash per id |
| StudentCache.WriteStudent | redis_sync.py:36-55 | one row sets its hash and adds its id to exactly its index sets |
| StudentCache.SyncStudentsToRedis | redis_sync.py:23-61 | the key space afterwards is the rebuild of the storable prefix; success iff every row is storable |
| StudentCache.SyncLeavesOtherKeys | redis_sync.py:23-55 | only `student:*` and `index:student:*` keys change |
| StudentCache.SyncStudentHash | redis_sync.py:36-44 | `student:{id}` holds the hash of the last stored row with that id, or nothing |
| StudentCache.SyncIndex | redis_sync.py:46-55 | an index set holds exactly the ids of the stored rows indexing it |
| StudentCache.SyncIdempotent | redis_sync.py:23-55 | rebuilding twice equals rebuilding once |
| StudentCache.StudentFullAfterSync | redis_sync.py:69-82 | `get_student_full` returns the last stored row with the id, or the not-found error |
| StudentCache.CollectIds | redis_sync.py:92-95 | the union of the selected index sets |
| StudentCache.StudentSearch.GetStudentFull | redis_sync.py:69-82 | the typed record or the error of the first failing field |
| StudentCache.StudentSearch.SearchByName | redis_sync.py:90-96 | the hashes of the ids in name index sets containing the lower-cased argument |
| StudentCache.StudentSearch.SearchByEmail | redis_sync.py:98-104 | the same over the email index |
| StudentCache.StudentSearch.SearchByGroup | redis_sync.py:106-112 | the same over the group index |
| StudentCache.StudentSearch.FullTextSearch | redis_sync.py:114-132 | nothing for no token; otherwise the ids matched by every token |
| StudentCache.SearchAfterSync | redis_sync.py:90-112 | after a rebuild, a search finds exactly the stored rows having a value containing the text |
| StudentCache.FullTextAfterSync | redis_sync.py:114-132 | after a rebuild, an id is found iff every token is contained in one of its search tokens |
| SessionTypes.SyncSessionTypesToRedis | sync/redis/create_redis.py:25-52 | the key space afterwards is the rebuild of the storable prefix; success iff every row is storable |
| SessionTypes.SyncLeavesOtherKeys | sync/redis/create_redis.py:26-45 | only `session_type:*` and `index:session_type:*` keys change |
| SessionTypes.GetByName | lab1/session_type_search.py:14-18 | one hash per member of the lower-cased name's index set |
| SessionTypes.GetByNameIgnoresCase | lab1/session_type_search.py:16-17 | the lookup ignores the casing of its argument |
| SessionTypes.GetByIdAfterSync | lab1/session_type_search.py:10-12 | after a rebuild, `{id, name}` of the last stored row with the id, or `{}` |
| SessionTypes.GetByNameAfterSync | sync/redis/create_redis.py:68-72 | after a rebuild, one hash per id of a stored row whose name matches in any casing, holding the last stored row with that id |
| MongoCollection.Collection.Recreate | mongo_sync.py:34-68 | the collection is empty and has the new validator |
| MongoCollection.Collection.InsertOne | mongo_sync.py:117 | a document the validator takes is appended, any other is refused |
| Common.Filter | mongo_sync.py:77-80 | WHERE on one column: exactly the rows matching the condition, in table order |
| Common.FilterConcat | mongo_sync.py:77-80 | filtering keeps table order across consecutive runs of rows |
| MongoUniversities.Specializations | mongo_sync.py:95-99 | the names of the department's Specialty rows |
| MongoUniversities.BuildDepartments | mongo_sync.py:92-104 | the inner loop builds the department documents |
| MongoUniversities.BuildInstitutes | mongo_sync.py:83-109 | the middle loop builds the institute documents |
| MongoUniversities.SyncPostgresToMongo | mongo_sync.py:34-122 | the collection holds the documents up to the first one the validator refuses; the success line iff all pass |
| MongoUniversities.InstitutesInOrder | mongo_sync.py:77-81 | appending an Institute row appends at most one institute, at the end |
| MongoUniversities.SpecializationsInOrder | mongo_sync.py:95-99 | appending a Specialty row appends its name only to its own department |
| MongoUniversities.SpecializationsExact | mongo_sync.py:95-99 | a name is listed iff a Specialty row of the department carries it |
| MongoUniversities.SyncTwice | mongo_sync.py:34-117 | a rerun leaves the same documents |
| MongoMaterials.Docs | sync/mongo/create_mongo.py:57-64 | one document per row, each giving its row back |
| MongoMaterials.SyncPostgresToMongo | sync/mongo/create_mongo.py:35-72 | the collection holds the documents up to the first refused one; the success line iff all pass |
| MongoMaterials.StoredRows | sync/mongo/create_mongo.py:36-48 | row `i` is stored iff every row up to it has 32-bit ids and no NULL field |
| EsIndex.Index.Put | sync/elastic/create_elastic.py:93-97 | a document the mapping takes replaces any under its id; any other raises |
| EsIndex.LastFor | sync/elastic/create_elastic.py:93-97 | the document indexed last under an id, None iff the id was never indexed |
| EsIndex.LastForIs | sync/elastic/create_elastic.py:93-97 | the entry after which no other has the id is the last one |
| EsIndex.UpsertedAt | sync/elastic/create_elastic.py:93-97 | an id holds its last indexed document, or what it held before |
| EsIndex.UpsertedTwice | sync/elastic/create_elastic.py:93-97 | indexing the same entries again changes nothing |
| EsSessions.TagsCases | sync/elastic/create_elastic.py:78-81 | only text that parses survives; anything else becomes `{}` |
| EsSessions.Entries | sync/elastic/create_elastic.py:74-97 | each row's document under its session id |
| EsSessions.SyncLectureSessions | sync/elastic/create_elastic.py:37-104 | the mapping (32-bit integer fields; `tags` null, an object, or an array of such values, `[]` included) is created only when absent; the index holds the documents up to the first refused one; raised iff one is refused |
| EsSessions.IndexSessions | sync/elastic/create_elastic.py:74-97 | the loop stores each row's document under its session id until the first one the mapping refuses, and raised iff one is refused |
| EsSessions.SyncedAt | sync/elastic/create_elastic.py:74-97 | each id holds the document of the last row with it; other ids keep what they held |
| EsSessions.FormatResults | sync/elastic/create_elastic.py:167-176 | one result per hit in order, KeyError iff a hit lacks one of the seven fields |
| EsSessions.FormatStoredHits | sync/elastic/create_elastic.py:167-176 | hits on stored documents format without error and give their fields back |
| EsMaterials.ReplaceFirstAbsent | elastic_gen_sync.py:195 | text without ". " is unchanged |
| EsMaterials.ReplaceFirstSkip | elastic_gen_sync.py:195 | a prefix in which no ". " starts is kept |
| EsMaterials.InjectTerms | elastic_gen_sync.py:194-195 | the loop computes the injection of the first three terms |
| EsMaterials.InjectedAbsent | elastic_gen_sync.py:194-195 | text without ". " gets no term |
| EsMaterials.InjectedAtFirst | elastic_gen_sync.py:194-195 | all three terms land before the first ". " side by side |
| EsMaterials.KeywordsSpec | elastic_gen_sync.py:198-203 | keywords are the tokens of both lower-cased names, the words and the two terms, each once |
| EsMaterials.FilePathInjective | elastic_gen_sync.py:206-207 | different lectures get different file paths |
| EsMaterials.BuildDoc | elastic_gen_sync.py:172-220 | the document of one lecture, None when a NULL name raises |
| EsMaterials.GenerateAndSyncLectureMaterials | elastic_gen_sync.py:51-236 | index created only when absent; documents stored under their ids up to the first failing lecture; raised iff one fails |
| EsMaterials.IndexLectures | elastic_gen_sync.py:172-226 | the loop stores each built document under its lecture id until the first lecture that fails, and raised iff one fails |
| EsMaterials.Search | elastic_gen_sync.py:250-283 | one result per hit |
| EsMaterials.SearchSpec | elastic_gen_sync.py:258-283 | the field list, and each result is its source plus `id`, `score` and `highlight` (`{}` when absent) |
| EsMaterials.GetAfterSync | elastic_gen_sync.py:285-291 | after a sync, the lookup returns the document of the last lecture with the id |
| Purge.NormalizeHostSpec | purge.py:66-68 | the host gets `http://` unless it names http or https; idempotent |
| Purge.EsAuth | purge.py:70-75 | auth iff both user and password are configured |
| Purge.MongoAuth | purge.py:42-46 | username and password passed independently |
| Purge.UserIndices | purge.py:194-195 | exactly the listed indices not starting with "." |
| Purge.RemainingAfterUser | purge.py:194-202 | deleting the user indices leaves exactly the system indices |
| Purge.CleanedStoresSpec | purge.py:107-225 | a store whose cleaner succeeded is emptied, a failing one untouched |
| Purge.CleanedStoresTwice | purge.py:227-248 | cleaning twice equals cleaning once |
| Purge.FailedSpec | purge.py:242-247 | failures listed exactly, in postgres, mongo, neo4j, elastic, redis order; none iff all succeeded |
| Purge.FirstUnreachable | purge.py:27-105 | the first store in connection order whose connect step raises (for MongoDB and Neo4j, the lazy client constructor) |
| Purge.ClosedSpec | purge.py:250-270 | `None` slots stay `None`, a failing close leaves only its own client open |
| Purge.DatabaseCleaner.ConnectAll | purge.py:27-105 | True iff no connect step raises (PostgreSQL's connect, the MongoDB and Neo4j constructors, the Elasticsearch and Redis pings); on failure the clients stored so far are closed |
| Purge.DatabaseCleaner.CloseAllConnections | purge.py:250-270 | every slot in order; `None` skipped, a failing close passed over |
| Purge.DatabaseCleaner.CleanPostgres | purge.py:107-150 | tables truncated when the store answers; True straight away with no table |
| Purge.DatabaseCleaner.CleanMongo | purge.py:152-170 | collections emptied; True straight away with none |
| Purge.DatabaseCleaner.CleanNeo4j | purge.py:172-189 | every node deleted; True straight away when there is none |
| Purge.DatabaseCleaner.CleanElastic | purge.py:191-209 | every user index deleted; True straight away with none |
| Purge.DatabaseCleaner.CleanRedis | purge.py:211-225 | the database flushed; True straight away when empty |
| Purge.DatabaseCleaner.CleanAllDatabases | purge.py:227-248 | False without cleaning when connect fails; otherwise all five cleaners, then close; True iff all succeed; the failures in order |
| Purge.DatabaseCleaner.CleanEach | purge.py:232-238 | all five cleaners run whatever the earlier ones returned |

## Left out

- Connection set-up, credentials, clients' `close` in `finally`, printing and logging: I/O. Store contents are the state of classes or parameters.
- Floating point: `round(toFloat(...), 2)` is modelled in integer hundredths, halves up. `ROUND(...::FLOAT * 100)` is modelled as a whole per cent, halves to even.
- Dates and timestamps are integers or opaque values given with a conversion function. Driver conversions and date parsing are parameters.
- `generate_audience_report` (neo4j_sync.py:181-211): its implicit Cypher grouping is not modelled.
- Graph pattern matching for the finders is an input list of matched rows. The model gives meaning to the WHERE/WITH/ORDER/LIMIT clauses.
- The external searches are opaque inputs: Elasticsearch relevance, fuzziness and analysers, `search`, `search_by_type`, `search_by_duration`, `get_related_materials`, `lab1/lecture_session.py` and the `LectureMaterialSearcher` in `lab1_service/Lab1.py`.
- Redis glob metacharacters: a pattern `p*x*` is matched with `x` read literally as a substring.
- Python set iteration order: results built from a set are keyed by id, or listed through an explicit order.
- In the Redis sync scripts and `lab1/app.py`, Redis errors other than HSET refusing a NULL value (WRONGTYPE and connection errors) are not modelled. The graph-backed report handler does model an unreachable cache.
- In `lab1/app.py`, exceptions raised by the Redis and search calls are not modelled.
- Common.ParseInt accepts an optional sign (`-` or `+`) followed by ASCII decimal digits; Python's `int()` also strips surrounding whitespace and accepts `_` between digits and non-ASCII digits.
- Common.Split splits on ASCII whitespace only.
- Common.Lower lowers only A–Z, А–Я and Ё; every other upper-case letter Python's `str.lower()` lowers (À–Þ, Ѐ–Џ, Є, І, Ї, Ґ and the rest of Unicode) is kept as it is.
- ServiceReport.StatusCodes: the `received` key list is a set, so its JSON order is not modelled. A JSON body that is not an object is not modelled.
- LabReport.StatusCodes: a JSON body that is not an object is not modelled.
- AttendanceGraph.ExpectedSpec: the store is given by its complete lecture–event–group–student paths, so an event of a listed lecture with no scheduled group or no student is not a row that reaches the WHERE; with an unreadable date and only such events, the source raises where the model answers no record.
- SQL rows without ORDER BY are taken in table order.
- EsMaterials.GenerateAndSyncLectureMaterials: Faker text and words are parameters (`body`, `words`). Writing the text file is not modelled; only its path is.
- EsMaterials.InjectedAtFirst covers only text whose prefix before the first ". " does not end in '.'.
- EsSessions.SyncLectureSessions: dynamic-mapping conflicts inside `tags` are not modelled. Network errors of Elasticsearch and MongoDB are not modelled.
- The mismatch between the table names created by `setup_postgre_tables.py` and those the scripts query is not modelled: each script reads the rows of the tables it names.
- Purge.DatabaseCleaner.CleanPostgres: resetting sequences is not modelled (`ALTER SEQUENCE`, whose failures are only logged). The session replication role is not modelled.
- Purge.DatabaseCleaner.CleanAllDatabases: a store fails as a whole, either at connect time (`unreachable`) or on its first cleaning call (`failing`). A failure part-way through a cleaner's loop is not modelled, nor the `rollback` after a failed Postgres clean.
- Purge.DatabaseCleaner.ConnectAll: `MongoClient(...)` and `GraphDatabase.driver(...)` do not contact their server, so a MongoDB or Neo4j server that is down passes `connect_all` and is modelled as a store in `failing`, not in `unreachable`. A configuration section missing a key raises KeyError inside the same `try`; the model counts it as that store being unreachable. The Redis `db` default and optional password are not modelled.
