/** `read_exam_data` (database/queries/read.rs:144-156) over a snapshot of the tables: fetch the exam
    row, then its description, then the joined section rows, regroup them, and list the sections
    in the map's iteration order, which Rust leaves unspecified. Each fetch stops the read with its
    own error (`?`). Each `fetch_one` can also fail with its row present (a lost connection, a
    failed query, a row that does not decode); `examFails` and `descriptionFails` say that the
    environment failed the first and the second fetch. The joined rows arrive as a parameter, because how the database fills the
    left-joined columns of a section without questions is not visible; `JoinedRow` states what
    the inner joins guarantee about each of them. */
module ReadQueries {
  import opened Wrappers
  import opened Seqs
  import opened Schema
  import opened Store
  import opened Parse
  import opened Response

  /** The three fetches, named after their `context` messages (read.rs:32, 68, 115). */
  datatype ReadError = ExamIdNotFetched | DescriptionNotFetched | SectionsNotFetched

  function ErrorContext(e: ReadError): string {
    match e
    case ExamIdNotFetched => "Failed to fetch exam id"
    case DescriptionNotFetched => "Failed to fetch exam description"
    case SectionsNotFetched => "Failed to fetch sections and questions"
  }

  /** `fetch_exam_id` (read.rs:20-33): `fetch_one` of `SELECT id FROM exam WHERE id = $1`; no row
      is an error, and so is a failure of the query itself (`fails`). */
  function FetchExamId(t: Tables, examId: int, fails: bool): (r: Result<ExamModel, ReadError>)
    ensures r.Ok? <==> examId in t.exam && !fails
    ensures r.Ok? ==> r.value == t.exam[examId]
    ensures r.Err? ==> r.error == ExamIdNotFetched
  {
    if examId in t.exam && !fails then Ok(t.exam[examId]) else Err(ExamIdNotFetched)
  }

  /** A `details` row of the exam. */
  ghost predicate DescribesExam(t: Tables, examId: int, key: int) {
    key in t.details && t.details[key].examId == examId
  }

  /** `fetch_exam_description` (read.rs:47-69): `fetch_one` of the `details` rows with this
      `exam_id`. No row is an error, not an empty description, and so is a failure of the query
      itself (`fails`); when several rows match, which one comes first is up to the database. */
  ghost function FetchExamDescription(t: Tables, examId: int, fails: bool): (r: Result<ExamDescriptionModel, ReadError>)
    ensures r.Ok? <==> !fails && exists key :: DescribesExam(t, examId, key)
    ensures r.Ok? ==> exists key :: DescribesExam(t, examId, key) && r.value == t.details[key]
    ensures r.Err? ==> r.error == DescriptionNotFetched
  {
    if !fails && exists key :: DescribesExam(t, examId, key) then
      var key :| DescribesExam(t, examId, key);
      Ok(t.details[key])
    else
      Err(DescriptionNotFetched)
  }

  /** What the inner joins of read.rs:104-106 guarantee about a row of `fetch_sections_and_questions`:
      the exam exists, the row's section is stored with the row's title and `details_id`, and that
      details row belongs to the exam. */
  ghost predicate JoinedRow(t: Tables, examId: int, row: SectionRow) {
    && examId in t.exam
    && row.sectionId in t.sections
    && t.sections[row.sectionId] == SectionsModel(row.sectionId, row.sectionDetailsId, row.sectionTitle)
    && DescribesExam(t, examId, row.sectionDetailsId)
  }

  /** `read_exam_data`: `fetched` is what `fetch_sections_and_questions` returned (`None` when it
      failed). The regrouping cannot fail (parse.rs:77), and the sections are the map's values in
      some order. */
  ghost function ReadExamData(t: Tables, examId: int, examFails: bool, descriptionFails: bool,
                              fetched: Option<seq<SectionRow>>): (r: Result<ExamResponse, ReadError>)
    ensures examId !in t.exam || examFails ==> r == Err(ExamIdNotFetched)
    ensures examId in t.exam && !examFails && (descriptionFails || forall key :: !DescribesExam(t, examId, key)) ==>
      r == Err(DescriptionNotFetched)
    ensures examId in t.exam && !examFails && !descriptionFails && (exists key :: DescribesExam(t, examId, key)) && fetched.None? ==>
      r == Err(SectionsNotFetched)
    ensures examId in t.exam && !examFails && !descriptionFails && (exists key :: DescribesExam(t, examId, key)) && fetched.Some? ==>
      r.Ok?
    ensures r.Ok? ==> && !examFails && !descriptionFails && fetched.Some?
                      && r.value.examId == ToExamIdResponse(t.exam[examId])
                      && exists key :: DescribesExam(t, examId, key) && r.value.description == ToExamDescription(t.details[key])
    ensures r.Ok? ==> exists ks :: Enumerates(ks, Regroup(fetched.value).Keys) && r.value.sections == ValuesAlong(Regroup(fetched.value), ks)
  {
    match FetchExamId(t, examId, examFails)
    case Err(e) => Err(e)
    case Ok(exam) =>
      match FetchExamDescription(t, examId, descriptionFails)
      case Err(e) => Err(e)
      case Ok(description) =>
        match fetched
        case None => Err(SectionsNotFetched)
        case Some(rows) =>
          var m := Regroup(rows);
          SomeEnumeration(m.Keys);
          var ks :| Enumerates(ks, m.Keys);
          Ok(ExamResponse(ToExamIdResponse(exam), ToExamDescription(description),
                          ValuesAlong(m, ks)))
  }

  /** Some row carries section id `sid`. */
  predicate SectionOfSomeRow(rows: seq<SectionRow>, sid: int) {
    exists k :: 0 <= k < |rows| && rows[k].sectionId == sid
  }

  /** The values of `m` along the key list `ks`. */
  function ValuesAlong(m: map<int, SectionResponse>, ks: seq<int>): (r: seq<SectionResponse>)
    requires forall i :: 0 <= i < |ks| ==> ks[i] in m
    ensures |r| == |ks| && forall i :: 0 <= i < |ks| ==> r[i] == m[ks[i]]
  {
    seq(|ks|, i requires 0 <= i < |ks| => m[ks[i]])
  }

  /** The sections of a successful read are the regrouped map's values, each exactly once: one
      section per distinct section id of the joined rows, and no other. */
  lemma ReadSections(t: Tables, examId: int, examFails: bool, descriptionFails: bool, fetched: Option<seq<SectionRow>>)
    requires ReadExamData(t, examId, examFails, descriptionFails, fetched).Ok?
    ensures fetched.Some?
    ensures var ss := ReadExamData(t, examId, examFails, descriptionFails, fetched).value.sections;
      && (forall i :: 0 <= i < |ss| ==> ss[i].base.id in Regroup(fetched.value) && ss[i] == Regroup(fetched.value)[ss[i].base.id])
      && (forall i, j :: 0 <= i < j < |ss| ==> ss[i].base.id != ss[j].base.id)
      && (forall k :: 0 <= k < |fetched.value| ==> exists i :: 0 <= i < |ss| && ss[i].base.id == fetched.value[k].sectionId)
      && (forall i :: 0 <= i < |ss| ==> SectionOfSomeRow(fetched.value, ss[i].base.id))
  {
    var rows := fetched.value;
    var m := Regroup(rows);
    var ss := ReadExamData(t, examId, examFails, descriptionFails, fetched).value.sections;
    var ks :| Enumerates(ks, m.Keys) && ss == ValuesAlong(m, ks);
    ListedSections(rows, ks, ss);
  }

  /** Listing the regrouped map's values along an enumeration of its keys gives each section once,
      one for every section id of the rows and no other. */
  lemma {:induction false} ListedSections(rows: seq<SectionRow>, ks: seq<int>, ss: seq<SectionResponse>)
    requires Enumerates(ks, Regroup(rows).Keys)
    requires |ss| == |ks| && forall i :: 0 <= i < |ks| ==> ss[i] == Regroup(rows)[ks[i]]
    ensures forall i :: 0 <= i < |ss| ==> ss[i].base.id in Regroup(rows) && ss[i] == Regroup(rows)[ss[i].base.id]
    ensures forall i, j :: 0 <= i < j < |ss| ==> ss[i].base.id != ss[j].base.id
    ensures forall k :: 0 <= k < |rows| ==> exists i :: 0 <= i < |ss| && ss[i].base.id == rows[k].sectionId
    ensures forall i :: 0 <= i < |ss| ==> SectionOfSomeRow(rows, ss[i].base.id)
  {
    forall i | 0 <= i < |ks|
      ensures ss[i].base.id == ks[i]
    {
      RegroupSectionContents(rows, ks[i]);
    }
    forall i | 0 <= i < |ss|
      ensures SectionOfSomeRow(rows, ss[i].base.id)
    {
      RegroupedFromRow(rows, ks[i]);
    }
    forall i, j | 0 <= i < j < |ss|
      ensures ss[i].base.id != ss[j].base.id
    {
    }
    forall k | 0 <= k < |rows|
      ensures exists i :: 0 <= i < |ss| && ss[i].base.id == rows[k].sectionId
    {
      RowRegrouped(rows, k);
      var i :| 0 <= i < |ks| && ks[i] == rows[k].sectionId;
      assert ss[i].base.id == rows[k].sectionId;
    }
  }

  /** Every row's section is in the regrouped map. */
  lemma RowRegrouped(rows: seq<SectionRow>, k: int)
    requires 0 <= k < |rows|
    ensures rows[k].sectionId in Regroup(rows)
  {
    RegroupKeys(rows);
  }

  /** Every section of the regrouped map comes from some row. */
  lemma RegroupedFromRow(rows: seq<SectionRow>, sid: int)
    requires sid in Regroup(rows)
    ensures SectionOfSomeRow(rows, sid)
  {
    RegroupKeys(rows);
    assert sid in (set k | 0 <= k < |rows| :: rows[k].sectionId);
  }

  /** Only sections whose details row belongs to the exam come back, each with the fields stored
      in the `sections` table (the inner joins of read.rs:104-106). */
  lemma ReadSectionsJoined(t: Tables, examId: int, examFails: bool, descriptionFails: bool, fetched: Option<seq<SectionRow>>)
    requires ReadExamData(t, examId, examFails, descriptionFails, fetched).Ok?
    requires fetched.Some? ==> forall k :: 0 <= k < |fetched.value| ==> JoinedRow(t, examId, fetched.value[k])
    ensures var ss := ReadExamData(t, examId, examFails, descriptionFails, fetched).value.sections;
      forall i :: 0 <= i < |ss| ==>
        && ss[i].base.id in t.sections && ss[i].base == t.sections[ss[i].base.id]
        && DescribesExam(t, examId, ss[i].base.detailsId)
  {
    var rows := fetched.value;
    var ss := ReadExamData(t, examId, examFails, descriptionFails, fetched).value.sections;
    ReadSections(t, examId, examFails, descriptionFails, fetched);
    forall i | 0 <= i < |ss|
      ensures ss[i].base.id in t.sections && ss[i].base == t.sections[ss[i].base.id]
      ensures DescribesExam(t, examId, ss[i].base.detailsId)
    {
      var sid := ss[i].base.id;
      var k := FirstWithSection(rows, sid);
      RegroupSectionFromFirstRow(rows, k);
      assert JoinedRow(t, examId, rows[k]);
    }
  }

  /** The first row carrying a section id that some row carries. */
  lemma FirstWithSection(rows: seq<SectionRow>, sid: int) returns (k: int)
    requires exists j :: 0 <= j < |rows| && rows[j].sectionId == sid
    ensures 0 <= k < |rows| && rows[k].sectionId == sid
    ensures forall j :: 0 <= j < k ==> rows[j].sectionId != sid
  {
    k := 0;
    while rows[k].sectionId != sid
      invariant 0 <= k < |rows|
      invariant forall j :: 0 <= j < k ==> rows[j].sectionId != sid
      invariant exists j :: k <= j < |rows| && rows[j].sectionId == sid
      decreases |rows| - k
    {
      k := k + 1;
    }
  }
}
