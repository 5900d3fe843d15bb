/** `insert_exam` (database/queries/insert.rs:162-236): the nested exam request is flattened into
    parallel column vectors (one per column of the `questions` and `options` tables), then five
    statements run inside one transaction: the exam row, the description row, and the sections,
    questions and options batches, the last three with `ON CONFLICT (id) DO NOTHING`. */
module InsertQueries {
  import opened Wrappers
  import opened Seqs
  import opened Schema
  import opened Store

  // ---- the flattening ----

  function QuestionsOf(s: SectionRequest): seq<QuestionRequest> { s.questions }

  function OptionsOf(q: QuestionRequest): seq<OptionRequestModel> { q.options }

  /** Every question of the exam, section by section, each section's in its own order. */
  function AllQuestions(sections: seq<SectionRequest>): seq<QuestionRequest> {
    FlatMap(QuestionsOf, sections)
  }

  /** Every option of the given questions, question by question. */
  function AllOptions(qs: seq<QuestionRequest>): seq<OptionRequestModel> {
    FlatMap(OptionsOf, qs)
  }

  /** The five question vectors describe `qs`: one entry per question, in order, with a missing
      description replaced by the empty string (`unwrap_or_default`). */
  predicate QuestionColumns(qs: seq<QuestionRequest>, ids: seq<int>, sectionIds: seq<int>,
                            texts: seq<string>, descs: seq<string>, marks: seq<int>)
  {
    && |ids| == |qs| && |sectionIds| == |qs| && |texts| == |qs| && |descs| == |qs| && |marks| == |qs|
    && forall k :: 0 <= k < |qs| ==>
         && ids[k] == qs[k].base.id
         && sectionIds[k] == qs[k].base.sectionId
         && texts[k] == qs[k].base.text
         && descs[k] == qs[k].base.description.UnwrapOr("")
         && marks[k] == qs[k].base.marks
  }

  /** The four option vectors describe `os`: one entry per option, in order, with a missing
      `is_correct` replaced by `false`. */
  predicate OptionColumns(os: seq<OptionRequestModel>, ids: seq<int>, questionIds: seq<int>,
                          texts: seq<string>, flags: seq<bool>)
  {
    && |ids| == |os| && |questionIds| == |os| && |texts| == |os| && |flags| == |os|
    && forall k :: 0 <= k < |os| ==>
         && ids[k] == os[k].base.id
         && questionIds[k] == os[k].base.questionId
         && texts[k] == os[k].base.text
         && flags[k] == os[k].base.isCorrect.UnwrapOr(false)
  }

  /** The nested loops of database/queries/insert.rs:184-210. */
  method FlattenQuestions(sections: seq<SectionRequest>)
    returns (questionIds: seq<int>, questionSectionIds: seq<int>, questionTexts: seq<string>,
             questionDescs: seq<string>, questionMarks: seq<int>,
             optionIds: seq<int>, optionQuestionIds: seq<int>, optionTexts: seq<string>,
             optionCorrectFlags: seq<bool>)
    ensures QuestionColumns(AllQuestions(sections), questionIds, questionSectionIds, questionTexts, questionDescs, questionMarks)
    ensures OptionColumns(AllOptions(AllQuestions(sections)), optionIds, optionQuestionIds, optionTexts, optionCorrectFlags)
  {
    questionIds, questionSectionIds, questionTexts, questionDescs, questionMarks := [], [], [], [], [];
    optionIds, optionQuestionIds, optionTexts, optionCorrectFlags := [], [], [], [];
    for i := 0 to |sections|
      invariant QuestionColumns(AllQuestions(sections[..i]), questionIds, questionSectionIds, questionTexts, questionDescs, questionMarks)
      invariant OptionColumns(AllOptions(AllQuestions(sections[..i])), optionIds, optionQuestionIds, optionTexts, optionCorrectFlags)
    {
      var section := sections[i];
      ghost var done := AllQuestions(sections[..i]);
      assert done + section.questions[..0] == done;
      for j := 0 to |section.questions|
        invariant QuestionColumns(done + section.questions[..j], questionIds, questionSectionIds, questionTexts, questionDescs, questionMarks)
        invariant OptionColumns(AllOptions(done + section.questions[..j]), optionIds, optionQuestionIds, optionTexts, optionCorrectFlags)
      {
        var q := section.questions[j];
        ghost var qsBefore := done + section.questions[..j];
        questionIds := questionIds + [q.base.id];
        questionSectionIds := questionSectionIds + [q.base.sectionId];
        questionTexts := questionTexts + [q.base.text];
        questionDescs := questionDescs + [q.base.description.UnwrapOr("")];
        questionMarks := questionMarks + [q.base.marks];
        assert qsBefore + [q] == done + section.questions[..j + 1];
        optionIds, optionQuestionIds, optionTexts, optionCorrectFlags :=
          PushOptions(AllOptions(qsBefore), q, optionIds, optionQuestionIds, optionTexts, optionCorrectFlags);
        FlatMapSnoc(OptionsOf, qsBefore, q);
      }
      assert section.questions[..|section.questions|] == section.questions;
      FlatMapSnoc(QuestionsOf, sections[..i], section);
      assert sections[..i + 1] == sections[..i] + [section];
    }
    assert sections[..|sections|] == sections;
  }

  /** The innermost loop (database/queries/insert.rs:203-208): the options of one question. */
  method PushOptions(ghost before: seq<OptionRequestModel>, q: QuestionRequest,
                     ids: seq<int>, questionIds: seq<int>, texts: seq<string>, flags: seq<bool>)
    returns (ids': seq<int>, questionIds': seq<int>, texts': seq<string>, flags': seq<bool>)
    requires OptionColumns(before, ids, questionIds, texts, flags)
    ensures OptionColumns(before + q.options, ids', questionIds', texts', flags')
  {
    ids', questionIds', texts', flags' := ids, questionIds, texts, flags;
    for l := 0 to |q.options|
      invariant OptionColumns(before + q.options[..l], ids', questionIds', texts', flags')
    {
      var opt := q.options[l];
      ids' := ids' + [opt.base.id];
      questionIds' := questionIds' + [opt.base.questionId];
      texts' := texts' + [opt.base.text];
      flags' := flags' + [opt.base.isCorrect.UnwrapOr(false)];
      assert before + q.options[..l + 1] == (before + q.options[..l]) + [opt];
    }
    assert q.options[..|q.options|] == q.options;
  }

  // ---- the rows each statement writes ----

  /** `UNNEST($1::int[], $2::int[], $3::text[])` of the section vectors (insert.rs:176-180): one
      row per section, in order, every one pointing at the exam's description row. */
  function SectionRows(exam: ExamRequest): seq<(int, SectionsModel)> {
    seq(|exam.sections|, k requires 0 <= k < |exam.sections| =>
      (exam.sections[k].base.id,
       SectionsModel(exam.sections[k].base.id, exam.description.base.id, exam.sections[k].base.title)))
  }

  /** One row per section, in order, keyed by the section's id and pointing at the exam's
      description row (not at whatever `details_id` the request carried). */
  lemma SectionRowsSpec(exam: ExamRequest)
    ensures |SectionRows(exam)| == |exam.sections|
    ensures forall k :: 0 <= k < |exam.sections| ==>
      && SectionRows(exam)[k].0 == exam.sections[k].base.id
      && SectionRows(exam)[k].1 == exam.sections[k].base.(detailsId := exam.description.base.id)
  {
  }

  /** `UNNEST` of the five question vectors: row k of the batch. */
  function QuestionRows(ids: seq<int>, sectionIds: seq<int>, texts: seq<string>, descs: seq<string>, marks: seq<int>): (rows: seq<(int, QuestionsModel)>)
    requires |sectionIds| == |ids| && |texts| == |ids| && |descs| == |ids| && |marks| == |ids|
    ensures |rows| == |ids|
  {
    seq(|ids|, k requires 0 <= k < |ids| => (ids[k], QuestionsModel(ids[k], sectionIds[k], texts[k], Some(descs[k]), marks[k])))
  }

  /** `UNNEST` of the four option vectors: row k of the batch. */
  function OptionRows(ids: seq<int>, questionIds: seq<int>, texts: seq<string>, flags: seq<bool>): (rows: seq<(int, OptionsModel)>)
    requires |questionIds| == |ids| && |texts| == |ids| && |flags| == |ids|
    ensures |rows| == |ids|
  {
    seq(|ids|, k requires 0 <= k < |ids| => (ids[k], OptionsModel(ids[k], questionIds[k], texts[k], Some(flags[k]))))
  }

  /** The stored form of one question: its own section id (not the enclosing section's), and
      the description with `None` stored as the empty string. */
  function QuestionRowOf(q: QuestionRequest): (int, QuestionsModel) {
    (q.base.id, q.base.(description := Some(q.base.description.UnwrapOr(""))))
  }

  /** The stored form of one option: `None` for `is_correct` is stored as `false`. */
  function OptionRowOf(o: OptionRequestModel): (int, OptionsModel) {
    (o.base.id, o.base.(isCorrect := Some(o.base.isCorrect.UnwrapOr(false))))
  }

  /** The question batch is the exam's questions, section by section, each in its stored form. */
  lemma QuestionBatch(qs: seq<QuestionRequest>, ids: seq<int>, sectionIds: seq<int>, texts: seq<string>, descs: seq<string>, marks: seq<int>)
    requires QuestionColumns(qs, ids, sectionIds, texts, descs, marks)
    ensures QuestionRows(ids, sectionIds, texts, descs, marks) == MapSeq(QuestionRowOf, qs)
  {
    MapSeqIndex(QuestionRowOf, qs);
  }

  /** The option batch is every option of those questions, in order, each in its stored form. */
  lemma OptionBatch(os: seq<OptionRequestModel>, ids: seq<int>, questionIds: seq<int>, texts: seq<string>, flags: seq<bool>)
    requires OptionColumns(os, ids, questionIds, texts, flags)
    ensures OptionRows(ids, questionIds, texts, flags) == MapSeq(OptionRowOf, os)
  {
    MapSeqIndex(OptionRowOf, os);
  }

  /** The row `insert_details` writes (insert.rs:36-55): its `exam_id` column is the request's exam
      id, whatever the description's own `exam_id` field says. */
  function DetailsRowOf(exam: ExamRequest): (row: ExamDescriptionModel)
    ensures row.id == exam.description.base.id && row.examId == exam.examId.base.id
    ensures row.title == exam.description.base.title && row.description == exam.description.base.description
    ensures row.duration == exam.description.base.duration && row.passingScore == exam.description.base.passingScore
  {
    exam.description.base.(examId := exam.examId.base.id)
  }

  // ---- the transaction ----

  /** The statements `insert_exam` issues, in order. */
  function InsertOrder(): seq<Stmt> {
    [Begin] + RowInserts() + BatchInserts() + [Commit]
  }

  /** The two plain inserts (insert.rs:168-174). */
  function RowInserts(): seq<Stmt> { [InsertExam, InsertDetails] }

  /** The three insert-or-ignore batches (insert.rs:180-231). */
  function BatchInserts(): seq<Stmt> { [InsertSections, InsertQuestions, InsertOptions] }

  /** The statements that fail on tables `t`: the ones the environment rejects, plus the two plain
      inserts when their id is already taken. */
  function InsertFailing(t: Tables, exam: ExamRequest, faults: set<Stmt>): (f: set<Stmt>)
    ensures InsertExam in f <==> InsertExam in faults || exam.examId.base.id in t.exams
    ensures InsertDetails in f <==> InsertDetails in faults || exam.description.base.id in t.examDescriptions
    ensures forall s :: s != InsertExam && s != InsertDetails ==> (s in f <==> s in faults)
  {
    faults
      + (if exam.examId.base.id in t.exams then {InsertExam} else {})
      + (if exam.description.base.id in t.examDescriptions then {InsertDetails} else {})
  }

  /** The question batch of an exam: every question, section by section, in stored form. */
  function QuestionBatchOf(exam: ExamRequest): seq<(int, QuestionsModel)> {
    MapSeq(QuestionRowOf, AllQuestions(exam.sections))
  }

  /** The option batch of an exam: every option, question by question, in stored form. */
  function OptionBatchOf(exam: ExamRequest): seq<(int, OptionsModel)> {
    MapSeq(OptionRowOf, AllOptions(AllQuestions(exam.sections)))
  }

  /** The tables after the two plain inserts. */
  function RowsInserted(t: Tables, exam: ExamRequest): Tables {
    t.(exams := t.exams[exam.examId.base.id := exam.examId.base],
       examDescriptions := t.examDescriptions[exam.description.base.id := DetailsRowOf(exam)])
  }

  /** The tables after the three insert-or-ignore batches. */
  function BatchesInserted(t: Tables, exam: ExamRequest): Tables {
    t.(sections := InsertOrIgnore(t.sections, SectionRows(exam)),
       questions := InsertOrIgnore(t.questions, QuestionBatchOf(exam)),
       options := InsertOrIgnore(t.options, OptionBatchOf(exam)))
  }

  /** The tables after a committed `insert_exam`. */
  function Inserted(t: Tables, exam: ExamRequest): Tables {
    BatchesInserted(RowsInserted(t, exam), exam)
  }

  /** `insert_exam`: the statements run in order until one fails; the error is that statement's,
      and a failure anywhere (commit included) leaves every table as it was. */
  method InsertExamTx(db: Store, exam: ExamRequest, faults: set<Stmt>) returns (r: Result<(), Stmt>)
    modifies db
    ensures r == Outcome(InsertOrder(), InsertFailing(old(db.State()), exam, faults))
    ensures db.trace == old(db.trace) + Executed(InsertOrder(), InsertFailing(old(db.State()), exam, faults))
    ensures db.State() == if r.Ok? then Inserted(old(db.State()), exam) else old(db.State())
  {
    var snapshot := db.State();
    ghost var f := InsertFailing(snapshot, exam, faults);
    ghost var pre := db.trace;
    assert (Begin in f <==> Begin in faults) && (Commit in f <==> Commit in faults);
    assert forall s :: s in BatchInserts() ==> (s in f <==> s in faults);
    RunSeq(pre, [Begin] + RowInserts() + BatchInserts(), [Commit], f);
    RunSeq(pre, [Begin] + RowInserts(), BatchInserts(), f);
    RunSeq(pre, [Begin], RowInserts(), f);
    RunOne(Begin, f);
    RunOne(Commit, f);
    var ok := db.Exec(Begin, faults);
    if !ok {
      return Err(Begin);
    }
    r := InsertRows(db, exam, faults, f);
    if r.Err? {
      db.Restore(snapshot);
      return;
    }
    r := InsertBatches(db, exam, faults, f);
    if r.Err? {
      db.Restore(snapshot);
      return;
    }
    ok := db.Exec(Commit, faults);
    if !ok {
      db.Restore(snapshot);
      return Err(Commit);
    }
  }

  /** `insert_exam_id` then `insert_details` (insert.rs:168-174). */
  method InsertRows(db: Store, exam: ExamRequest, faults: set<Stmt>, ghost f: set<Stmt>) returns (r: Result<(), Stmt>)
    requires f == InsertFailing(db.State(), exam, faults)
    modifies db`exams, db`examDescriptions, db`trace
    ensures r == Outcome(RowInserts(), f)
    ensures db.trace == old(db.trace) + Executed(RowInserts(), f)
    ensures r.Ok? ==> db.State() == RowsInserted(old(db.State()), exam)
  {
    ghost var pre := db.trace;
    RunSeq(pre, [InsertExam], [InsertDetails], f);
    RunOne(InsertExam, f);
    RunOne(InsertDetails, f);
    var ok := db.InsertIntoExams(exam.examId.base, faults);
    if !ok {
      return Err(InsertExam);
    }
    ok := db.InsertIntoExamDescriptions(DetailsRowOf(exam), faults);
    if !ok {
      return Err(InsertDetails);
    }
    return Ok(());
  }

  /** The sections batch, the flattening, then the questions and options batches
      (insert.rs:176-231). None of them can meet a duplicate id: they ignore it. */
  method InsertBatches(db: Store, exam: ExamRequest, faults: set<Stmt>, ghost f: set<Stmt>) returns (r: Result<(), Stmt>)
    requires forall s :: s in BatchInserts() ==> (s in f <==> s in faults)
    modifies db`sections, db`questions, db`options, db`trace
    ensures r == Outcome(BatchInserts(), f)
    ensures db.trace == old(db.trace) + Executed(BatchInserts(), f)
    ensures r.Ok? ==> db.State() == BatchesInserted(old(db.State()), exam)
  {
    ghost var pre := db.trace;
    ghost var t0 := db.State();
    assert BatchInserts() == [InsertSections] + [InsertQuestions, InsertOptions];
    assert InsertSections in BatchInserts() && InsertQuestions in BatchInserts() && InsertOptions in BatchInserts();
    RunSeq(pre, [InsertSections], [InsertQuestions, InsertOptions], f);
    RunOne(InsertSections, f);
    var ok := db.InsertOrIgnoreSections(SectionRows(exam), faults);
    if !ok {
      return Err(InsertSections);
    }
    var questionRows, optionRows := BuildBatches(exam);
    ghost var t1 := db.State();
    assert t1 == t0.(sections := InsertOrIgnore(t0.sections, SectionRows(exam)));
    r := InsertQuestionsAndOptions(db, questionRows, optionRows, faults, f);
    assert r.Ok? ==> db.State() == t1.(questions := InsertOrIgnore(t1.questions, questionRows), options := InsertOrIgnore(t1.options, optionRows));
  }

  /** The questions batch, then the options batch (insert.rs:212-231). */
  method InsertQuestionsAndOptions(db: Store, questionRows: seq<(int, QuestionsModel)>, optionRows: seq<(int, OptionsModel)>,
                                   faults: set<Stmt>, ghost f: set<Stmt>) returns (r: Result<(), Stmt>)
    requires InsertQuestions in f <==> InsertQuestions in faults
    requires InsertOptions in f <==> InsertOptions in faults
    modifies db`questions, db`options, db`trace
    ensures r == Outcome([InsertQuestions, InsertOptions], f)
    ensures db.trace == old(db.trace) + Executed([InsertQuestions, InsertOptions], f)
    ensures r.Ok? ==> db.questions == InsertOrIgnore(old(db.questions), questionRows) && db.options == InsertOrIgnore(old(db.options), optionRows)
  {
    ghost var pre := db.trace;
    RunSeq(pre, [InsertQuestions], [InsertOptions], f);
    RunOne(InsertQuestions, f);
    RunOne(InsertOptions, f);
    var ok := db.InsertOrIgnoreQuestions(questionRows, faults);
    if !ok {
      return Err(InsertQuestions);
    }
    ok := db.InsertOrIgnoreOptions(optionRows, faults);
    if !ok {
      return Err(InsertOptions);
    }
    return Ok(());
  }

  /** The question and option batches `insert_exam` passes to its last two inserts: the vectors of
      the nested loops, zipped row by row as `UNNEST` does. */
  method BuildBatches(exam: ExamRequest) returns (questionRows: seq<(int, QuestionsModel)>, optionRows: seq<(int, OptionsModel)>)
    ensures questionRows == QuestionBatchOf(exam) && optionRows == OptionBatchOf(exam)
  {
    var questionIds, questionSectionIds, questionTexts, questionDescs, questionMarks,
        optionIds, optionQuestionIds, optionTexts, optionCorrectFlags := FlattenQuestions(exam.sections);
    QuestionBatch(AllQuestions(exam.sections), questionIds, questionSectionIds, questionTexts, questionDescs, questionMarks);
    OptionBatch(AllOptions(AllQuestions(exam.sections)), optionIds, optionQuestionIds, optionTexts, optionCorrectFlags);
    questionRows := QuestionRows(questionIds, questionSectionIds, questionTexts, questionDescs, questionMarks);
    optionRows := OptionRows(optionIds, optionQuestionIds, optionTexts, optionCorrectFlags);
  }
}
