/** `elastic_gen_sync.py`: one generated `lecture_materials` document per
    lecture, with academic terms injected into its text, a keyword set and
    the path of the text file written beside it; the searcher's request
    fields, its result projection and the lookup by lecture id. */
module EsMaterials {
  import opened Common
  import opened EsIndex

  /** `academic_terms[:3]`, the terms injected into the text; the rest of
      the list is never read. */
  const InjectedTerms: seq<string> := ["теория", "практика", "методология"]

  /** `academic_terms[:2]`, the terms every keyword set holds. */
  const KeywordTerms: seq<string> := ["теория", "практика"]

  /** The twelve spaces that open each line of the text template. */
  const Indent: string := "            "

  datatype LectureRow = LectureRow(id: int, name: Option<string>, courseName: Option<string>)

  datatype LectureDoc = LectureDoc(lectureId: int, lectureName: string, courseName: string, content: string,
                                   keywords: set<string>, generatedContent: bool, filePath: string)

  // ---------------------------------------------------------------------
  // str.replace(old, new, 1)
  // ---------------------------------------------------------------------

  /** The first occurrence of `pat` replaced by `rep`; `s` itself when there
      is none. */
  function ReplaceFirst(s: string, pat: string, rep: string): string
    decreases |s|
  {
    if StartsWith(s, pat) then rep + s[|pat|..]
    else if s == [] then s
    else [s[0]] + ReplaceFirst(s[1..], pat, rep)
  }

  /** Text without the pattern is left as it is. */
  lemma {:induction false} ReplaceFirstAbsent(s: string, pat: string, rep: string)
    requires !Contains(s, pat)
    ensures ReplaceFirst(s, pat, rep) == s
    decreases |s|
  {
    if s != [] {
      ReplaceFirstAbsent(s[1..], pat, rep);
      assert [s[0]] + s[1..] == s;
    }
  }

  /** A prefix in which no occurrence of the pattern starts is kept. */
  lemma {:induction false} ReplaceFirstSkip(pre: string, rest: string, pat: string, rep: string)
    requires forall j :: 0 <= j < |pre| ==> !StartsWith((pre + rest)[j..], pat)
    ensures ReplaceFirst(pre + rest, pat, rep) == pre + ReplaceFirst(rest, pat, rep)
    decreases |pre|
  {
    if pre != [] {
      var s := pre + rest;
      assert !StartsWith(s[0..], pat);
      assert s[0..] == s;
      assert s[0] == pre[0];
      assert s[1..] == pre[1..] + rest;
      assert ReplaceFirst(s, pat, rep) == [s[0]] + ReplaceFirst(s[1..], pat, rep);
      forall j | 0 <= j < |pre[1..]|
        ensures !StartsWith((pre[1..] + rest)[j..], pat)
      {
        assert (pre[1..] + rest)[j..] == (pre + rest)[j + 1..];
      }
      ReplaceFirstSkip(pre[1..], rest, pat, rep);
      calc {
        ReplaceFirst(pre + rest, pat, rep);
        [s[0]] + ReplaceFirst(s[1..], pat, rep);
        [pre[0]] + ReplaceFirst(pre[1..] + rest, pat, rep);
        [pre[0]] + (pre[1..] + ReplaceFirst(rest, pat, rep));
        { assert pre == [pre[0]] + pre[1..]; }
        pre + ReplaceFirst(rest, pat, rep);
      }
    } else {
      assert pre + rest == rest;
    }
  }

  // ---------------------------------------------------------------------
  // The term injection
  // ---------------------------------------------------------------------

  /** `for term in terms: content = content.replace(". ", f" {term}. ", 1)`. */
  function Injected(s: string, terms: seq<string>): string
    decreases |terms|
  {
    if terms == [] then s
    else Injected(ReplaceFirst(s, ". ", " " + terms[0] + ". "), terms[1..])
  }

  /** The loop of the script over `academic_terms[:3]`. */
  method InjectTerms(draft: string) returns (content: string)
    ensures content == Injected(draft, InjectedTerms)
  {
    content := draft;
    var terms := InjectedTerms;
    var i := 0;
    while i < |terms|
      invariant i <= |terms|
      invariant Injected(content, terms[i..]) == Injected(draft, terms)
    {
      assert terms[i..][1..] == terms[i + 1..];
      content := ReplaceFirst(content, ". ", " " + terms[i] + ". ");
      i := i + 1;
    }
  }

  /** Text without ". " is not changed. */
  lemma {:induction false} InjectedAbsent(s: string, terms: seq<string>)
    requires !Contains(s, ". ")
    ensures Injected(s, terms) == s
  {
    if terms != [] {
      ReplaceFirstAbsent(s, ". ", " " + terms[0] + ". ");
      InjectedAbsent(s, terms[1..]);
    }
  }

  /** Every `.` of `pre` is followed, inside `pre`, by a character other
      than a space: no ". " starts in `pre`, even when ". " follows it. */
  predicate DotsFollowed(pre: string)
  {
    forall j :: 0 <= j < |pre| && pre[j] == '.' ==> j + 1 < |pre| && pre[j + 1] != ' '
  }

  predicate NoDot(t: string)
  {
    forall j :: 0 <= j < |t| ==> t[j] != '.'
  }

  /** `" t1 t2 ..."`: each term preceded by a space. */
  function Spaced(terms: seq<string>): string
  {
    if terms == [] then "" else " " + terms[0] + Spaced(terms[1..])
  }

  /** When the text before the first ". " does not end in a dot, every term
      lands at that same place: the replacement text ends in ". " itself,
      so each later term goes just before it. The terms end up side by side
      in the first sentence rather than in three different sentences. */
  lemma {:induction false} InjectedAtFirst(pre: string, post: string, terms: seq<string>)
    requires DotsFollowed(pre)
    requires forall k :: 0 <= k < |terms| ==> NoDot(terms[k])
    ensures Injected(pre + ". " + post, terms) == pre + Spaced(terms) + ". " + post
    decreases |terms|
  {
    if terms != [] {
      var rep := " " + terms[0] + ". ";
      var s := pre + ". " + post;
      forall j | 0 <= j < |pre|
        ensures !StartsWith((pre + (". " + post))[j..], ". ")
      {
        var x := pre + (". " + post);
        assert x[j] == pre[j] && x[j..][0] == x[j];
        if pre[j] == '.' {
          assert x[j + 1] == pre[j + 1] && x[j..][1] == x[j + 1];
        }
      }
      ReplaceFirstSkip(pre, ". " + post, ". ", rep);
      assert s == pre + (". " + post);
      assert StartsWith(". " + post, ". ");
      assert (". " + post)[2..] == post;
      var pre' := pre + " " + terms[0];
      assert ReplaceFirst(s, ". ", rep) == pre' + ". " + post;
      assert NoDot(terms[0]);
      forall j | 0 <= j < |pre'|
        ensures pre'[j] == '.' ==> j + 1 < |pre'| && pre'[j + 1] != ' '
      {
        if j < |pre| {
          assert pre'[j] == pre[j];
          if pre[j] == '.' {
            assert pre'[j + 1] == pre[j + 1];
          }
        } else if j == |pre| {
          assert pre'[j] == ' ';
        } else {
          assert pre'[j] == terms[0][j - |pre| - 1];
        }
      }
      forall k | 0 <= k < |terms[1..]|
        ensures NoDot(terms[1..][k])
      {
        assert terms[1..][k] == terms[k + 1];
      }
      InjectedAtFirst(pre', post, terms[1..]);
    }
  }

  // ---------------------------------------------------------------------
  // Keywords, file path, document
  // ---------------------------------------------------------------------

  /** `set([*course_name.lower().split(), *lecture_name.lower().split(),
      *fake.words(nb=3), *academic_terms[:2]])`. */
  function Keywords(name: string, course: string, words: seq<string>): (ks: set<string>)
  {
    (set t | t in Split(Lower(course))) + (set t | t in Split(Lower(name)))
      + (set w | w in words) + (set t | t in KeywordTerms)
  }

  /** The keywords are the whitespace tokens of the lower-cased course and
      lecture names, the generated words and the two terms, each once; the
      name tokens are non-empty and contain no whitespace. */
  lemma KeywordsSpec(name: string, course: string, words: seq<string>, t: string)
    ensures t in Keywords(name, course, words) <==>
      t in Split(Lower(course)) || t in Split(Lower(name)) || t in words || t == "теория" || t == "практика"
    ensures t in Split(Lower(course)) || t in Split(Lower(name)) ==> IsToken(t)
  {
  }

  /** `os.path.join(materials_dir, file_name)` on POSIX, for a relative
      file name. */
  function PathJoin(dir: string, name: string): string
  {
    if dir == [] || dir[|dir| - 1] == '/' then dir + name else dir + "/" + name
  }

  function FileName(id: int): string
  {
    "lecture_" + IntToString(id) + ".txt"
  }

  function FilePath(dir: string, id: int): string
  {
    PathJoin(dir, FileName(id))
  }

  /** Different lectures get different files in the same directory, and the
      path ends with the file name. */
  lemma FilePathInjective(dir: string, a: int, b: int)
    requires FilePath(dir, a) == FilePath(dir, b)
    ensures a == b
  {
    var sep := if dir == [] || dir[|dir| - 1] == '/' then dir else dir + "/";
    assert FilePath(dir, a) == sep + FileName(a);
    assert FilePath(dir, b) == sep + FileName(b);
    var fa := FileName(a);
    var fb := FileName(b);
    assert fa == (sep + fa)[|sep|..];
    assert fb == (sep + fb)[|sep|..];
    assert fa == fb;
    var sa := IntToString(a);
    var sb := IntToString(b);
    assert sa == fa[8..|fa| - 4];
    assert sb == fb[8..|fb| - 4];
    IntToStringInjective(a, b);
  }

  /** The rendered text template up to the teacher line; the rest (`body`)
      is generated text. A NULL name prints as "None". */
  function Draft(row: LectureRow, body: string): string
  {
    var name := if row.name.Some? then row.name.value else "None";
    var course := if row.courseName.Some? then row.courseName.value else "None";
    "\n" + Indent + "Лекция: " + name + "\n" + Indent + "Курс: " + course + "\n" + Indent + "Преподаватель: " + body
  }

  /** The document for one lecture; None when a NULL name makes `.lower()`
      raise before anything is indexed. */
  function DocFor(row: LectureRow, body: string, words: seq<string>, dir: string): Option<LectureDoc>
  {
    if row.name.None? || row.courseName.None? then None
    else Some(LectureDoc(row.id, row.name.value, row.courseName.value, Injected(Draft(row, body), InjectedTerms),
                         Keywords(row.name.value, row.courseName.value, words), true, FilePath(dir, row.id)))
  }

  /** The index mapping: `lecture_id` is an `integer` field. */
  predicate MaterialMapping(d: LectureDoc)
  {
    IsInt32(d.lectureId)
  }

  /** One step per lecture; `body(i)` and `words(i)` are the generated
      text and three words of the i-th lecture. */
  function Steps(rows: seq<LectureRow>, body: nat -> string, words: nat -> seq<string>, dir: string): (r: seq<Option<LectureDoc>>)
    ensures |r| == |rows|
    ensures forall i :: 0 <= i < |rows| ==> r[i] == DocFor(rows[i], body(i), words(i), dir)
  {
    seq(|rows|, i requires 0 <= i < |rows| => DocFor(rows[i], body(i), words(i), dir))
  }

  /** Whether a step completes: its document exists and the index takes it. */
  predicate Done(acc: LectureDoc -> bool, o: Option<LectureDoc>)
  {
    o.Some? && acc(o.value)
  }

  function Completes(acc: LectureDoc -> bool): Option<LectureDoc> -> bool
  {
    (o: Option<LectureDoc>) => Done(acc, o)
  }

  /** The `index` calls of the first `n` steps, all of which completed. */
  function Entries(rows: seq<LectureRow>, steps: seq<Option<LectureDoc>>, n: nat): (r: seq<(int, LectureDoc)>)
    requires n <= |rows| == |steps|
    requires forall i :: 0 <= i < n ==> steps[i].Some?
    ensures |r| == n
    ensures forall i :: 0 <= i < n ==> r[i] == (rows[i].id, steps[i].value)
  {
    seq(n, i requires 0 <= i < n => (rows[i].id, steps[i].value))
  }

  /** One more completed step stores its document under its lecture id. */
  lemma SyncStep(start: map<int, LectureDoc>, rows: seq<LectureRow>, steps: seq<Option<LectureDoc>>,
                 acc: LectureDoc -> bool, i: nat)
    requires i < |rows| == |steps|
    requires forall j :: 0 <= j < i ==> Done(acc, steps[j])
    requires Done(acc, steps[i])
    ensures forall j :: 0 <= j < i + 1 ==> Done(acc, steps[j]) && steps[j].Some?
    ensures Upserted(start, Entries(rows, steps, i + 1)) ==
            Upserted(start, Entries(rows, steps, i))[rows[i].id := steps[i].value]
  {
    var e := Entries(rows, steps, i + 1);
    assert e[..i] == Entries(rows, steps, i);
    UpsertedStep(start, e, i);
    assert e[..i + 1] == e;
  }

  /** The run stops at the first step that does not complete. */
  lemma SyncStop(steps: seq<Option<LectureDoc>>, acc: LectureDoc -> bool, i: nat)
    requires i < |steps|
    requires forall j :: 0 <= j < i ==> Done(acc, steps[j])
    requires !Done(acc, steps[i])
    ensures ValidPrefix(steps, Completes(acc)) == i
  {
    ValidPrefixStep(steps, Completes(acc), i);
  }

  /** The run gets through when every step completes. */
  lemma SyncAll(steps: seq<Option<LectureDoc>>, acc: LectureDoc -> bool)
    requires forall j :: 0 <= j < |steps| ==> Done(acc, steps[j])
    ensures ValidPrefix(steps, Completes(acc)) == |steps|
  {
    ValidPrefixAll(steps, Completes(acc));
  }

  /** The body of the per-lecture loop up to the `index` call: the text,
      the injected terms, the keywords and the path; None where `.lower()`
      raises on a NULL name. */
  method BuildDoc(row: LectureRow, body: string, words: seq<string>, dir: string) returns (doc: Option<LectureDoc>)
    ensures doc == DocFor(row, body, words, dir)
  {
    var content := InjectTerms(Draft(row, body));
    if row.name.None? || row.courseName.None? {
      return None;
    }
    var keywords := Keywords(row.name.value, row.courseName.value, words);
    var path := FilePath(dir, row.id);
    doc := Some(LectureDoc(row.id, row.name.value, row.courseName.value, content, keywords, true, path));
  }

  /** `generate_and_sync_lecture_materials`: the index is created only when
      absent; the lectures are processed in order, each document stored
      under its lecture id, until a lecture with a NULL name or a document
      the index refuses raises (printed and raised again, `raised`); the
      lectures before it stay indexed. */
  method GenerateAndSyncLectureMaterials(rows: seq<LectureRow>, body: nat -> string, words: nat -> seq<string>,
                                         dir: string, idx: Index<LectureDoc>)
    returns (raised: bool)
    modifies idx
    ensures idx.present
    ensures idx.accepts == if old(idx.present) then old(idx.accepts) else MaterialMapping
    ensures var steps := Steps(rows, body, words, dir);
      var n := ValidPrefix(steps, Completes(idx.accepts));
      && idx.docs == Upserted(if old(idx.present) then old(idx.docs) else map[], Entries(rows, steps, n))
      && (raised <==> n < |rows|)
  {
    var ex := idx.Exists();
    if !ex {
      idx.Create(MaterialMapping);
    }
    raised := IndexLectures(rows, body, words, dir, idx);
  }

  /** The per-lecture loop on an index that exists: build each document and
      index it under its lecture id, stopping at the first failure. */
  method IndexLectures(rows: seq<LectureRow>, body: nat -> string, words: nat -> seq<string>,
                       dir: string, idx: Index<LectureDoc>)
    returns (raised: bool)
    requires idx.present
    modifies idx
    ensures idx.present && idx.accepts == old(idx.accepts)
    ensures var steps := Steps(rows, body, words, dir);
      var n := ValidPrefix(steps, Completes(idx.accepts));
      && idx.docs == Upserted(old(idx.docs), Entries(rows, steps, n))
      && (raised <==> n < |rows|)
  {
    ghost var start := idx.docs;
    ghost var acc := idx.accepts;
    ghost var steps := Steps(rows, body, words, dir);
    var i := 0;
    while i < |rows|
      invariant i <= |rows|
      invariant idx.present && idx.accepts == acc
      invariant forall j :: 0 <= j < i ==> Done(acc, steps[j])
      invariant idx.docs == Upserted(start, Entries(rows, steps, i))
    {
      var doc := BuildDoc(rows[i], body(i), words(i), dir);
      assert doc == steps[i];
      if doc.None? {
        SyncStop(steps, acc, i);
        raised := true;
        return;
      }
      var ok := idx.Put(rows[i].id, doc.value);
      if !ok {
        SyncStop(steps, acc, i);
        raised := true;
        return;
      }
      SyncStep(start, rows, steps, acc, i);
      i := i + 1;
    }
    SyncAll(steps, acc);
    raised := false;
  }

  // ---------------------------------------------------------------------
  // The searcher
  // ---------------------------------------------------------------------

  const DefaultFields: seq<string> := ["lecture_name^3", "course_name^2", "content", "keywords"]

  /** The fields `search` asks the engine to match: the four weighted
      defaults, or only the one given. */
  function SearchFields(field: Option<string>): seq<string>
  {
    if field.None? then DefaultFields else [field.value]
  }

  /** One result: the hit's source with `id`, `score` and `highlight`
      added (replacing source fields of those names); a hit without a
      highlight gets `{}`. */
  function Project(h: Hit): map<string, Value>
  {
    h.source + map["id" := Str(h.id), "score" := h.score,
                   "highlight" := if h.highlight.Some? then h.highlight.value else Obj(map[])]
  }

  /** `search`: `engine` is the search engine, which answers a query on a
      list of fields with hits in rank order. */
  function Search(query: string, field: Option<string>, engine: (string, seq<string>) -> seq<Hit>): (r: seq<map<string, Value>>)
    ensures |r| == |engine(query, SearchFields(field))|
  {
    var hits := engine(query, SearchFields(field));
    seq(|hits|, i requires 0 <= i < |hits| => Project(hits[i]))
  }

  /** Each result is its hit's source plus the three added keys: every
      other source field unchanged, `id` the hit id, `highlight` `{}` when
      the engine gave none; the query goes to `[field]` when a field is
      named and to the four default fields otherwise. */
  lemma SearchSpec(query: string, field: Option<string>, engine: (string, seq<string>) -> seq<Hit>, i: nat, k: string)
    requires i < |engine(query, SearchFields(field))|
    ensures field.Some? ==> SearchFields(field) == [field.value]
    ensures field.None? ==> |SearchFields(field)| == 4
    ensures var h := engine(query, SearchFields(field))[i];
      var r := Search(query, field, engine)[i];
      && r.Keys == h.source.Keys + {"id", "score", "highlight"}
      && (k in h.source && k != "id" && k != "score" && k != "highlight" ==> r[k] == h.source[k])
      && r["id"] == Str(h.id) && r["score"] == h.score
      && (h.highlight.None? ==> r["highlight"] == Obj(map[]))
  {
  }

  /** `get_by_lecture_id`: the stored source, or None when the call raises
      (`docs` is None when the index cannot be reached). */
  function GetByLectureId(docs: Option<map<int, LectureDoc>>, id: int): (r: Option<LectureDoc>)
  {
    if docs.Some? && id in docs.value then Some(docs.value[id]) else None
  }

  /** After a sync that did not raise, looking a lecture up by id gives the
      document of the last row with that id, whose path names that id's
      file; an id no row carries gives what the index held before. */
  lemma GetAfterSync(start: map<int, LectureDoc>, rows: seq<LectureRow>, body: nat -> string,
                     words: nat -> seq<string>, dir: string, id: int, i: nat)
    requires forall j :: 0 <= j < |rows| ==> rows[j].name.Some? && rows[j].courseName.Some?
    requires i < |rows| && rows[i].id == id
    requires forall j :: i < j < |rows| ==> rows[j].id != id
    ensures var steps := Steps(rows, body, words, dir);
      var r := GetByLectureId(Some(Upserted(start, Entries(rows, steps, |rows|))), id);
      && r == DocFor(rows[i], body(i), words(i), dir)
      && r.value.filePath == FilePath(dir, id)
      && r.value.keywords == Keywords(rows[i].name.value, rows[i].courseName.value, words(i))
  {
    var steps := Steps(rows, body, words, dir);
    var entries := Entries(rows, steps, |rows|);
    LastForIs(entries, id, i);
    UpsertedAt(start, entries, id);
  }
}
