/** database/queries/delete.rs: `delete_exam` removes one row of `exams`, and
    `delete_related_entities` removes listed sections, questions and options. Both run inside a
    transaction, and an error at any statement drops the transaction, which rolls it back. Any
    cascade to other tables depends on foreign keys this model does not know, so none is assumed. */
module DeleteQueries {
  import opened Wrappers
  import opened Schema
  import opened Store

  // ---- delete_exam (delete.rs:25-42) ----

  /** The statements `delete_exam` issues, in order. */
  function DeleteExamOrder(): seq<Stmt> { [Begin, DeleteExam, Commit] }

  /** The tables after a committed `delete_exam`. */
  function ExamDeleted(t: Tables, examId: int): Tables {
    t.(exams := t.exams - {examId})
  }

  /** `delete_exam`: begin, delete, commit, stopping at the first failing statement; the tables
      change only when everything went through. */
  method DeleteExamTx(db: Store, examId: int, faults: set<Stmt>) returns (r: Result<(), Stmt>)
    modifies db
    ensures r == Outcome(DeleteExamOrder(), faults)
    ensures db.trace == old(db.trace) + Executed(DeleteExamOrder(), faults)
    ensures db.State() == if r.Ok? then ExamDeleted(old(db.State()), examId) else old(db.State())
  {
    var snapshot := db.State();
    ghost var pre := db.trace;
    assert DeleteExamOrder() == [Begin] + [DeleteExam] + [Commit];
    RunSeq(pre, [Begin] + [DeleteExam], [Commit], faults);
    RunSeq(pre, [Begin], [DeleteExam], faults);
    RunOne(Begin, faults);
    RunOne(DeleteExam, faults);
    RunOne(Commit, faults);
    var ok := db.Exec(Begin, faults);
    if !ok {
      return Err(Begin);
    }
    ok := db.DeleteFromExams(examId, faults);
    if !ok {
      db.Restore(snapshot);
      return Err(DeleteExam);
    }
    ok := db.Exec(Commit, faults);
    if !ok {
      db.Restore(snapshot);
      return Err(Commit);
    }
    return Ok(());
  }

  /** The outcome does not depend on whether the exam exists: the number of deleted rows is
      never looked at, so deleting an absent id succeeds whenever the store accepts the three
      statements. */
  lemma DeleteExamSucceeds(faults: set<Stmt>)
    ensures Outcome(DeleteExamOrder(), faults).Ok? <==> Begin !in faults && DeleteExam !in faults && Commit !in faults
  {
    ExecutedIsPrefix(DeleteExamOrder(), faults);
    var o := DeleteExamOrder();
    assert o[0] == Begin && o[1] == DeleteExam && o[2] == Commit;
  }

  /** Only the `exams` row with that id goes; every other row of every table stays. */
  lemma ExamDeletedSpec(t: Tables, examId: int)
    ensures examId !in ExamDeleted(t, examId).exams
    ensures forall id :: id in t.exams && id != examId ==> id in ExamDeleted(t, examId).exams && ExamDeleted(t, examId).exams[id] == t.exams[id]
    ensures ExamDeleted(t, examId).exams.Keys <= t.exams.Keys
    ensures ExamDeleted(t, examId).(exams := t.exams) == t
  {
  }

  /** Deleting twice is deleting once, and deleting an absent id changes nothing. */
  lemma ExamDeletedIdempotent(t: Tables, examId: int)
    ensures ExamDeleted(ExamDeleted(t, examId), examId) == ExamDeleted(t, examId)
    ensures examId !in t.exams ==> ExamDeleted(t, examId) == t
  {
    assert ExamDeleted(ExamDeleted(t, examId), examId).exams == ExamDeleted(t, examId).exams;
    if examId !in t.exams {
      assert t.exams - {examId} == t.exams;
    }
  }

  // ---- delete_related_entities (delete.rs:73-120) ----

  /** The three deletes, sections first (delete.rs:79-115). */
  function RelatedDeletes(): seq<Stmt> { [DeleteSections, DeleteQuestions, DeleteOptions] }

  /** The statements `delete_related_entities` issues, in order. */
  function RelatedOrder(): seq<Stmt> { [Begin] + RelatedDeletes() + [Commit] }

  /** The tables after a committed `delete_related_entities`. */
  function RelatedDeleted(t: Tables, ids: DeleteIdsRequest): Tables {
    t.(sections := DeleteWhereIn(t.sections, ids.sectionIds),
       questions := DeleteWhereIn(t.questions, ids.questionIds),
       options := DeleteWhereIn(t.options, ids.optionIds))
  }

  /** `delete_related_entities`: begin, the three deletes, commit; a failure anywhere leaves every
      table as it was. Empty lists are not skipped: their statements run and delete nothing. */
  method DeleteRelatedTx(db: Store, ids: DeleteIdsRequest, faults: set<Stmt>) returns (r: Result<(), Stmt>)
    modifies db
    ensures r == Outcome(RelatedOrder(), faults)
    ensures db.trace == old(db.trace) + Executed(RelatedOrder(), faults)
    ensures db.State() == if r.Ok? then RelatedDeleted(old(db.State()), ids) else old(db.State())
  {
    var snapshot := db.State();
    ghost var pre := db.trace;
    RunSeq(pre, [Begin] + RelatedDeletes(), [Commit], faults);
    RunSeq(pre, [Begin], RelatedDeletes(), faults);
    RunOne(Begin, faults);
    RunOne(Commit, faults);
    var ok := db.Exec(Begin, faults);
    if !ok {
      return Err(Begin);
    }
    r := DeleteRelated(db, ids, faults);
    if r.Err? {
      db.Restore(snapshot);
      return;
    }
    ok := db.Exec(Commit, faults);
    if !ok {
      db.Restore(snapshot);
      return Err(Commit);
    }
  }

  /** The three deletes of delete.rs:79-115, each stopping the run when it fails. */
  method DeleteRelated(db: Store, ids: DeleteIdsRequest, faults: set<Stmt>) returns (r: Result<(), Stmt>)
    modifies db`sections, db`questions, db`options, db`trace
    ensures r == Outcome(RelatedDeletes(), faults)
    ensures db.trace == old(db.trace) + Executed(RelatedDeletes(), faults)
    ensures r.Ok? ==> db.State() == RelatedDeleted(old(db.State()), ids)
  {
    ghost var pre := db.trace;
    assert RelatedDeletes() == [DeleteSections] + [DeleteQuestions] + [DeleteOptions];
    RunSeq(pre, [DeleteSections] + [DeleteQuestions], [DeleteOptions], faults);
    RunSeq(pre, [DeleteSections], [DeleteQuestions], faults);
    RunOne(DeleteSections, faults);
    RunOne(DeleteQuestions, faults);
    RunOne(DeleteOptions, faults);
    var ok := db.DeleteSectionsIn(ids.sectionIds, faults);
    if !ok {
      return Err(DeleteSections);
    }
    ok := db.DeleteQuestionsIn(ids.questionIds, faults);
    if !ok {
      return Err(DeleteQuestions);
    }
    ok := db.DeleteOptionsIn(ids.optionIds, faults);
    if !ok {
      return Err(DeleteOptions);
    }
    return Ok(());
  }

  /** After the deletes no listed id remains in its table, every unlisted row stays as it was,
      and the other tables are untouched. */
  lemma RelatedDeletedSpec(t: Tables, ids: DeleteIdsRequest)
    ensures forall id :: id in ids.sectionIds ==> id !in RelatedDeleted(t, ids).sections
    ensures forall id :: id in ids.questionIds ==> id !in RelatedDeleted(t, ids).questions
    ensures forall id :: id in ids.optionIds ==> id !in RelatedDeleted(t, ids).options
    ensures forall id :: id in t.sections && id !in ids.sectionIds ==>
      id in RelatedDeleted(t, ids).sections && RelatedDeleted(t, ids).sections[id] == t.sections[id]
    ensures forall id :: id in t.questions && id !in ids.questionIds ==>
      id in RelatedDeleted(t, ids).questions && RelatedDeleted(t, ids).questions[id] == t.questions[id]
    ensures forall id :: id in t.options && id !in ids.optionIds ==>
      id in RelatedDeleted(t, ids).options && RelatedDeleted(t, ids).options[id] == t.options[id]
    ensures RelatedDeleted(t, ids).(sections := t.sections, questions := t.questions, options := t.options) == t
  {
  }

  /** With all three lists empty the committed transaction changes nothing, yet all five
      statements are still issued. */
  lemma RelatedEmptyRunsAnyway(t: Tables, ids: DeleteIdsRequest)
    requires ids.sectionIds == [] && ids.questionIds == [] && ids.optionIds == []
    ensures RelatedDeleted(t, ids) == t
    ensures Executed(RelatedOrder(), {}) == [Begin, DeleteSections, DeleteQuestions, DeleteOptions, Commit]
    ensures Outcome(RelatedOrder(), {}) == Ok(())
  {
    assert DeleteWhereIn(t.sections, ids.sectionIds) == t.sections;
    assert DeleteWhereIn(t.questions, ids.questionIds) == t.questions;
    assert DeleteWhereIn(t.options, ids.optionIds) == t.options;
    RunsThrough(RelatedOrder(), {});
  }

  /** `delete_related_entities` reports success exactly when none of its five statements fails. */
  lemma RelatedSucceeds(faults: set<Stmt>)
    ensures Outcome(RelatedOrder(), faults).Ok? <==>
      Begin !in faults && DeleteSections !in faults && DeleteQuestions !in faults && DeleteOptions !in faults && Commit !in faults
  {
    if Begin !in faults && DeleteSections !in faults && DeleteQuestions !in faults && DeleteOptions !in faults && Commit !in faults {
      RunsThrough(RelatedOrder(), faults);
    } else {
      ExecutedIsPrefix(RelatedOrder(), faults);
      assert exists k :: 0 <= k < |RelatedOrder()| && RelatedOrder()[k] in faults by {
        var o := RelatedOrder();
        assert o[0] == Begin && o[1] == DeleteSections && o[2] == DeleteQuestions && o[3] == DeleteOptions && o[4] == Commit;
      }
    }
  }
}
