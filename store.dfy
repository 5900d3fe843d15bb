/** The relational store the exam code talks to, reduced to what the statements in
    the files under database/queries and routes/create.rs and routes/edit.rs do: one `map<int, Row>` per table keyed by
    primary key, plain inserts that fail on a duplicate key, insert-or-ignore
    (`ON CONFLICT (id) DO NOTHING`), delete-where-id-in-set, and transactions as a snapshot that is
    either kept (commit) or restored (rollback, which is what dropping an uncommitted sqlx or
    sea_orm transaction does). A statement can also fail for reasons the model does not see
    (connection loss, foreign keys): callers pass those as `faults`, the set of statements the
    store rejects. The ghost `trace` records every statement issued, in order. */
module Store {
  import opened Wrappers
  import opened Schema

  /** Every statement kind the exam code issues. */
  datatype Stmt =
    | Begin
    | InsertExam | InsertDetails | InsertSections | InsertQuestions | InsertOptions | InsertCorrectOptions
    | DeleteExam | DeleteSections | DeleteQuestions | DeleteOptions
    | FetchIds | UpdateSections | UpdateQuestions | UpdateOptions
    | Commit

  /** A snapshot of every table. The table names of the two code paths disagree, so they are
      kept apart: `exams` and `exam_descriptions` are written by database/queries/insert.rs and
      deleted from by database/queries/delete.rs, while database/queries/read.rs reads `exam` and
      `details`, which are also the tables of the older sea_orm path. The `correct_option` table's
      key is not visible, so it is an append-only sequence of rows. */
  datatype Tables = Tables(
    exams: map<int, ExamModel>,
    exam: map<int, ExamModel>,
    examDescriptions: map<int, ExamDescriptionModel>,
    details: map<int, ExamDescriptionModel>,
    sections: map<int, SectionsModel>,
    questions: map<int, QuestionsModel>,
    options: map<int, OptionsModel>,
    correctOption: seq<CorrectOptionModel>)

  // ---- running a fixed sequence of statements that stops at the first failure ----

  /** The statements of `order` that are issued: all of them up to and including the first one
      in `failing` (the `?` after it returns early). */
  function Executed(order: seq<Stmt>, failing: set<Stmt>): seq<Stmt> {
    if order == [] then []
    else if order[0] in failing then [order[0]]
    else [order[0]] + Executed(order[1..], failing)
  }

  /** The statement whose error is returned: the first of `order` in `failing`, if any. */
  function FirstFailure(order: seq<Stmt>, failing: set<Stmt>): Option<Stmt> {
    if order == [] then None
    else if order[0] in failing then Some(order[0])
    else FirstFailure(order[1..], failing)
  }

  /** The issued statements are a prefix of `order` in which only the last can have failed, and
      it did fail when the run stopped early; with no failure the whole order is issued. The
      reported failure is that last issued statement. */
  lemma {:induction false} ExecutedIsPrefix(order: seq<Stmt>, failing: set<Stmt>)
    ensures var r := Executed(order, failing);
      && |r| <= |order| && r == order[..|r|]
      && (forall k :: 0 <= k < |r| - 1 ==> r[k] !in failing)
      && (|r| < |order| ==> r != [] && r[|r| - 1] in failing)
      && (FirstFailure(order, failing).None? <==> forall k :: 0 <= k < |order| ==> order[k] !in failing)
      && (FirstFailure(order, failing).None? ==> r == order)
      && (FirstFailure(order, failing).Some? ==> r != [] && FirstFailure(order, failing).value == r[|r| - 1] && r[|r| - 1] in failing)
  {
    if order != [] && order[0] !in failing {
      ExecutedIsPrefix(order[1..], failing);
      assert forall k :: 1 <= k < |order| ==> order[1..][k - 1] == order[k];
    }
  }

  /** A statement took effect: it was issued and did not fail. */
  predicate Applied(s: Stmt, order: seq<Stmt>, failing: set<Stmt>) {
    s in Executed(order, failing) && s !in failing
  }

  /** What a fixed statement sequence returns: `Ok` or the error of the first failing statement. */
  function Outcome(order: seq<Stmt>, failing: set<Stmt>): Result<(), Stmt> {
    match FirstFailure(order, failing)
    case None => Ok(())
    case Some(s) => Err(s)
  }

  /** The run stops at `s` when it is the first failing statement: the statements before it and
      `s` itself were issued, none after it, and its error is returned. */
  lemma {:induction false} StopsAfter(done: seq<Stmt>, s: Stmt, rest: seq<Stmt>, failing: set<Stmt>)
    requires forall x :: x in done ==> x !in failing
    requires s in failing
    ensures Executed(done + [s] + rest, failing) == done + [s]
    ensures Outcome(done + [s] + rest, failing) == Err(s)
  {
    if done != [] {
      assert done[0] in done;
      assert (done + [s] + rest)[1..] == done[1..] + [s] + rest;
      StopsAfter(done[1..], s, rest, failing);
      assert done + [s] == [done[0]] + (done[1..] + [s]);
    }
  }

  /** Running `a` then `b` is running `a`, and then `b` only if `a` went through. */
  lemma {:induction false} RunAppend(a: seq<Stmt>, b: seq<Stmt>, failing: set<Stmt>)
    ensures Executed(a + b, failing) == if Outcome(a, failing).Ok? then a + Executed(b, failing) else Executed(a, failing)
    ensures Outcome(a + b, failing) == if Outcome(a, failing).Ok? then Outcome(b, failing) else Outcome(a, failing)
  {
    if a == [] {
      assert a + b == b;
    } else {
      assert (a + b)[0] == a[0];
      assert (a + b)[1..] == a[1..] + b;
      RunAppend(a[1..], b, failing);
    }
  }

  /** Running `a` then `b` after earlier statements `pre`, stated in the left-nested form a caller's
      trace takes when it issues `a` and then `b`. */
  lemma RunSeq(pre: seq<Stmt>, a: seq<Stmt>, b: seq<Stmt>, failing: set<Stmt>)
    ensures Outcome(a + b, failing) == if Outcome(a, failing).Ok? then Outcome(b, failing) else Outcome(a, failing)
    ensures Outcome(a, failing).Ok? ==> pre + Executed(a + b, failing) == pre + Executed(a, failing) + Executed(b, failing)
    ensures Outcome(a, failing).Err? ==> pre + Executed(a + b, failing) == pre + Executed(a, failing)
    ensures Outcome(a, failing).Ok? ==> Executed(a, failing) == a
  {
    RunAppend(a, b, failing);
    ExecutedIsPrefix(a, failing);
    assert pre + (Executed(a, failing) + Executed(b, failing)) == pre + Executed(a, failing) + Executed(b, failing);
  }

  /** A single statement is issued, and it fails exactly when it is in `failing`. */
  lemma RunOne(s: Stmt, failing: set<Stmt>)
    ensures Executed([s], failing) == [s]
    ensures Outcome([s], failing) == if s in failing then Err(s) else Ok(())
  {
    assert [s][0] == s && [s][1..] == [];
    assert FirstFailure([s][1..], failing) == None;
  }

  /** A statement takes effect in `a + b` when it takes effect in `a`, or when `a` went through and
      it takes effect in `b`. */
  lemma AppliedAppend(s: Stmt, a: seq<Stmt>, b: seq<Stmt>, failing: set<Stmt>)
    ensures Applied(s, a + b, failing) <==> Applied(s, a, failing) || (Outcome(a, failing).Ok? && Applied(s, b, failing))
  {
    RunAppend(a, b, failing);
    ExecutedIsPrefix(a, failing);
  }

  /** Only a statement of the order can take effect. */
  lemma AppliedInOrder(s: Stmt, order: seq<Stmt>, failing: set<Stmt>)
    requires Applied(s, order, failing)
    ensures s in order
  {
    ExecutedIsPrefix(order, failing);
    var r := Executed(order, failing);
    var k :| 0 <= k < |r| && r[k] == s;
    assert order[k] == s;
  }

  /** In a one-statement run, only that statement can take effect, and it does unless it fails. */
  lemma AppliedOne(s: Stmt, x: Stmt, failing: set<Stmt>)
    ensures Applied(s, [x], failing) <==> s == x && x !in failing
    ensures !Applied(s, [], failing)
  {
    RunOne(x, failing);
  }

  /** With no failing statement every statement is issued and the result is `Ok`. */
  lemma {:induction false} RunsThrough(order: seq<Stmt>, failing: set<Stmt>)
    requires forall x :: x in order ==> x !in failing
    ensures Executed(order, failing) == order
    ensures Outcome(order, failing) == Ok(())
  {
    if order != [] {
      assert order[0] in order;
      assert forall x :: x in order[1..] ==> x in order;
      RunsThrough(order[1..], failing);
    }
  }

  // ---- table effects ----

  function Ids<R>(rows: seq<(int, R)>): set<int> {
    set k | 0 <= k < |rows| :: rows[k].0
  }

  /** `INSERT ... ON CONFLICT (id) DO NOTHING` of a batch, row by row in batch order: a row whose
      id is already present (in the table or earlier in the batch) is skipped. */
  function InsertOrIgnore<R>(m: map<int, R>, rows: seq<(int, R)>): map<int, R>
    decreases |rows|
  {
    if rows == [] then m
    else InsertOrIgnore(if rows[0].0 in m then m else m[rows[0].0 := rows[0].1], rows[1..])
  }

  /** Insert-or-ignore adds exactly the batch's ids, never changes a row that was there, and
      stores for each new id the first row of the batch that carries it. */
  lemma {:induction false} InsertOrIgnoreSpec<R>(m: map<int, R>, rows: seq<(int, R)>)
    ensures InsertOrIgnore(m, rows).Keys == m.Keys + Ids(rows)
    ensures forall id :: id in m ==> InsertOrIgnore(m, rows)[id] == m[id]
    ensures forall k :: 0 <= k < |rows| && rows[k].0 !in m && (forall j :: 0 <= j < k ==> rows[j].0 != rows[k].0) ==>
      InsertOrIgnore(m, rows)[rows[k].0] == rows[k].1
    decreases |rows|
  {
    if rows != [] {
      var m' := if rows[0].0 in m then m else m[rows[0].0 := rows[0].1];
      assert InsertOrIgnore(m, rows) == InsertOrIgnore(m', rows[1..]);
      assert m'.Keys == m.Keys + {rows[0].0};
      InsertOrIgnoreSpec(m', rows[1..]);
      IdsCons(rows);
      forall k | 0 <= k < |rows| && rows[k].0 !in m && (forall j :: 0 <= j < k ==> rows[j].0 != rows[k].0)
        ensures InsertOrIgnore(m, rows)[rows[k].0] == rows[k].1
      {
        if k == 0 {
          assert rows[0].0 in m';
        } else {
          assert rows[1..][k - 1] == rows[k];
          assert rows[k].0 !in m';
          assert forall j :: 0 <= j < k - 1 ==> rows[1..][j] == rows[j + 1];
        }
      }
    }
  }

  lemma IdsCons<R>(rows: seq<(int, R)>)
    requires rows != []
    ensures Ids(rows) == {rows[0].0} + Ids(rows[1..])
  {
    forall id | id in Ids(rows) ensures id in {rows[0].0} + Ids(rows[1..]) {
      var k :| 0 <= k < |rows| && rows[k].0 == id;
      if k > 0 { assert rows[1..][k - 1].0 == id; }
    }
  }

  /** Ids of a batch are pairwise distinct. */
  predicate DistinctIds<R>(rows: seq<(int, R)>) {
    forall i, j :: 0 <= i < j < |rows| ==> rows[i].0 != rows[j].0
  }

  /** A plain `INSERT` of a batch (no conflict clause): it fails as a whole when any id is already
      in the table or appears twice in the batch, and otherwise adds every row. */
  function InsertNew<R>(m: map<int, R>, rows: seq<(int, R)>): Option<map<int, R>>
    decreases |rows|
  {
    if rows == [] then Some(m)
    else if rows[0].0 in m then None
    else InsertNew(m[rows[0].0 := rows[0].1], rows[1..])
  }

  /** A plain batch insert goes through exactly when no id is taken or repeated; then every old row
      stays and every batch row is stored under its id. */
  lemma {:induction false} InsertNewSpec<R>(m: map<int, R>, rows: seq<(int, R)>)
    ensures InsertNew(m, rows).Some? <==> (forall k :: 0 <= k < |rows| ==> rows[k].0 !in m) && DistinctIds(rows)
    ensures InsertNew(m, rows).Some? ==> InsertNew(m, rows).value.Keys == m.Keys + Ids(rows)
    ensures InsertNew(m, rows).Some? ==> forall id :: id in m ==> InsertNew(m, rows).value[id] == m[id]
    ensures InsertNew(m, rows).Some? ==> forall k :: 0 <= k < |rows| ==> InsertNew(m, rows).value[rows[k].0] == rows[k].1
    decreases |rows|
  {
    if rows != [] && rows[0].0 !in m {
      InsertNewSpec(m[rows[0].0 := rows[0].1], rows[1..]);
      IdsCons(rows);
      assert forall k :: 1 <= k < |rows| ==> rows[1..][k - 1] == rows[k];
    }
  }

  /** `DELETE ... WHERE id = ANY(ids)`: every row whose id is listed goes, the rest stay. */
  function DeleteWhereIn<R>(m: map<int, R>, ids: seq<int>): (r: map<int, R>)
    ensures r.Keys == m.Keys - set i | i in ids
    ensures forall id :: id in r ==> r[id] == m[id]
  {
    map id | id in m && id !in ids :: m[id]
  }

  function EmptyTables(): Tables {
    Tables(map[], map[], map[], map[], map[], map[], map[], [])
  }

  class Store {
    var exams: map<int, ExamModel>
    var exam: map<int, ExamModel>
    var examDescriptions: map<int, ExamDescriptionModel>
    var details: map<int, ExamDescriptionModel>
    var sections: map<int, SectionsModel>
    var questions: map<int, QuestionsModel>
    var options: map<int, OptionsModel>
    var correctOption: seq<CorrectOptionModel>
    ghost var trace: seq<Stmt>

    constructor ()
      ensures State() == EmptyTables() && trace == []
    {
      exams, exam, examDescriptions, details := map[], map[], map[], map[];
      sections, questions, options, correctOption := map[], map[], map[], [];
      trace := [];
    }

    function State(): Tables
      reads this
    {
      Tables(exams, exam, examDescriptions, details, sections, questions, options, correctOption)
    }

    /** Rollback: put every table back as it was in the snapshot `t`. */
    method Restore(t: Tables)
      modifies this
      ensures State() == t && trace == old(trace)
    {
      exams, exam, examDescriptions, details := t.exams, t.exam, t.examDescriptions, t.details;
      sections, questions, options, correctOption := t.sections, t.questions, t.options, t.correctOption;
    }

    /** A statement that changes no table (BEGIN, COMMIT, a SELECT). */
    method Exec(s: Stmt, faults: set<Stmt>) returns (ok: bool)
      modifies this`trace
      ensures trace == old(trace) + [s]
      ensures ok == (s !in faults)
    {
      trace := trace + [s];
      ok := s !in faults;
    }

    /** `INSERT INTO exams (id) VALUES ($1)` (database/queries/insert.rs:17-26). */
    method InsertIntoExams(row: ExamModel, faults: set<Stmt>) returns (ok: bool)
      modifies this`exams, this`trace
      ensures trace == old(trace) + [InsertExam]
      ensures ok == (InsertExam !in faults && row.id !in old(exams))
      ensures exams == if ok then old(exams)[row.id := row] else old(exams)
    {
      trace := trace + [InsertExam];
      ok := InsertExam !in faults && row.id !in exams;
      if ok { exams := exams[row.id := row]; }
    }

    /** `INSERT INTO exam_descriptions (...)` (database/queries/insert.rs:36-55). */
    method InsertIntoExamDescriptions(row: ExamDescriptionModel, faults: set<Stmt>) returns (ok: bool)
      modifies this`examDescriptions, this`trace
      ensures trace == old(trace) + [InsertDetails]
      ensures ok == (InsertDetails !in faults && row.id !in old(examDescriptions))
      ensures examDescriptions == if ok then old(examDescriptions)[row.id := row] else old(examDescriptions)
    {
      trace := trace + [InsertDetails];
      ok := InsertDetails !in faults && row.id !in examDescriptions;
      if ok { examDescriptions := examDescriptions[row.id := row]; }
    }

    /** sea_orm `exam::ActiveModel { .. }.insert` (routes/create.rs:71-76). */
    method InsertIntoExam(row: ExamModel, faults: set<Stmt>) returns (ok: bool)
      modifies this`exam, this`trace
      ensures trace == old(trace) + [InsertExam]
      ensures ok == (InsertExam !in faults && row.id !in old(exam))
      ensures exam == if ok then old(exam)[row.id := row] else old(exam)
    {
      trace := trace + [InsertExam];
      ok := InsertExam !in faults && row.id !in exam;
      if ok { exam := exam[row.id := row]; }
    }

    /** sea_orm `details::ActiveModel { .. }.insert` (routes/create.rs:79-89). */
    method InsertIntoDetails(row: ExamDescriptionModel, faults: set<Stmt>) returns (ok: bool)
      modifies this`details, this`trace
      ensures trace == old(trace) + [InsertDetails]
      ensures ok == (InsertDetails !in faults && row.id !in old(details))
      ensures details == if ok then old(details)[row.id := row] else old(details)
    {
      trace := trace + [InsertDetails];
      ok := InsertDetails !in faults && row.id !in details;
      if ok { details := details[row.id := row]; }
    }

    /** `INSERT INTO sections ... ON CONFLICT (id) DO NOTHING` (database/queries/insert.rs:63-84). */
    method InsertOrIgnoreSections(rows: seq<(int, SectionsModel)>, faults: set<Stmt>) returns (ok: bool)
      modifies this`sections, this`trace
      ensures trace == old(trace) + [InsertSections]
      ensures ok == (InsertSections !in faults)
      ensures sections == if ok then InsertOrIgnore(old(sections), rows) else old(sections)
    {
      trace := trace + [InsertSections];
      ok := InsertSections !in faults;
      if ok { sections := InsertOrIgnore(sections, rows); }
    }

    /** `INSERT INTO questions ... ON CONFLICT (id) DO NOTHING` (database/queries/insert.rs:92-117). */
    method InsertOrIgnoreQuestions(rows: seq<(int, QuestionsModel)>, faults: set<Stmt>) returns (ok: bool)
      modifies this`questions, this`trace
      ensures trace == old(trace) + [InsertQuestions]
      ensures ok == (InsertQuestions !in faults)
      ensures questions == if ok then InsertOrIgnore(old(questions), rows) else old(questions)
    {
      trace := trace + [InsertQuestions];
      ok := InsertQuestions !in faults;
      if ok { questions := InsertOrIgnore(questions, rows); }
    }

    /** `INSERT INTO options ... ON CONFLICT (id) DO NOTHING` (database/queries/insert.rs:125-148). */
    method InsertOrIgnoreOptions(rows: seq<(int, OptionsModel)>, faults: set<Stmt>) returns (ok: bool)
      modifies this`options, this`trace
      ensures trace == old(trace) + [InsertOptions]
      ensures ok == (InsertOptions !in faults)
      ensures options == if ok then InsertOrIgnore(old(options), rows) else old(options)
    {
      trace := trace + [InsertOptions];
      ok := InsertOptions !in faults;
      if ok { options := InsertOrIgnore(options, rows); }
    }

    /** sea_orm `sections::Entity::insert_many` (routes/create.rs:104): no conflict clause. */
    method InsertManySections(rows: seq<(int, SectionsModel)>, faults: set<Stmt>) returns (ok: bool)
      modifies this`sections, this`trace
      ensures trace == old(trace) + [InsertSections]
      ensures ok == (InsertSections !in faults && InsertNew(old(sections), rows).Some?)
      ensures sections == if ok then InsertNew(old(sections), rows).value else old(sections)
    {
      trace := trace + [InsertSections];
      var r := InsertNew(sections, rows);
      ok := InsertSections !in faults && r.Some?;
      if ok { sections := r.value; }
    }

    /** sea_orm `questions::Entity::insert_many` (routes/create.rs:119). */
    method InsertManyQuestions(rows: seq<(int, QuestionsModel)>, faults: set<Stmt>) returns (ok: bool)
      modifies this`questions, this`trace
      ensures trace == old(trace) + [InsertQuestions]
      ensures ok == (InsertQuestions !in faults && InsertNew(old(questions), rows).Some?)
      ensures questions == if ok then InsertNew(old(questions), rows).value else old(questions)
    {
      trace := trace + [InsertQuestions];
      var r := InsertNew(questions, rows);
      ok := InsertQuestions !in faults && r.Some?;
      if ok { questions := r.value; }
    }

    /** sea_orm `options::Entity::insert_many` (routes/create.rs:135). */
    method InsertManyOptions(rows: seq<(int, OptionsModel)>, faults: set<Stmt>) returns (ok: bool)
      modifies this`options, this`trace
      ensures trace == old(trace) + [InsertOptions]
      ensures ok == (InsertOptions !in faults && InsertNew(old(options), rows).Some?)
      ensures options == if ok then InsertNew(old(options), rows).value else old(options)
    {
      trace := trace + [InsertOptions];
      var r := InsertNew(options, rows);
      ok := InsertOptions !in faults && r.Some?;
      if ok { options := r.value; }
    }

    /** sea_orm `correct_option::Entity::insert_many` (routes/create.rs:148-150). */
    method InsertManyCorrectOptions(rows: seq<CorrectOptionModel>, faults: set<Stmt>) returns (ok: bool)
      modifies this`correctOption, this`trace
      ensures trace == old(trace) + [InsertCorrectOptions]
      ensures ok == (InsertCorrectOptions !in faults)
      ensures correctOption == if ok then old(correctOption) + rows else old(correctOption)
    {
      trace := trace + [InsertCorrectOptions];
      ok := InsertCorrectOptions !in faults;
      if ok { correctOption := correctOption + rows; }
    }

    /** sea_orm `update_many` on `sections` (routes/edit.rs:264-283). What it does to the rows is
        decided by sea_orm and not visible, so the table it leaves is a parameter, `updated`. */
    method UpdateSectionsTo(updated: map<int, SectionsModel>, faults: set<Stmt>) returns (ok: bool)
      modifies this`sections, this`trace
      ensures trace == old(trace) + [UpdateSections]
      ensures ok == (UpdateSections !in faults)
      ensures sections == if ok then updated else old(sections)
    {
      trace := trace + [UpdateSections];
      ok := UpdateSections !in faults;
      if ok { sections := updated; }
    }

    /** sea_orm `update_many` on `questions` (routes/edit.rs:329-356); the resulting table is `updated`. */
    method UpdateQuestionsTo(updated: map<int, QuestionsModel>, faults: set<Stmt>) returns (ok: bool)
      modifies this`questions, this`trace
      ensures trace == old(trace) + [UpdateQuestions]
      ensures ok == (UpdateQuestions !in faults)
      ensures questions == if ok then updated else old(questions)
    {
      trace := trace + [UpdateQuestions];
      ok := UpdateQuestions !in faults;
      if ok { questions := updated; }
    }

    /** sea_orm `update_many` on `options` (routes/edit.rs:399-425); the resulting table is `updated`. */
    method UpdateOptionsTo(updated: map<int, OptionsModel>, faults: set<Stmt>) returns (ok: bool)
      modifies this`options, this`trace
      ensures trace == old(trace) + [UpdateOptions]
      ensures ok == (UpdateOptions !in faults)
      ensures options == if ok then updated else old(options)
    {
      trace := trace + [UpdateOptions];
      ok := UpdateOptions !in faults;
      if ok { options := updated; }
    }

    /** `DELETE FROM exams WHERE id = $1` (database/queries/delete.rs:28-37): zero rows is success. */
    method DeleteFromExams(id: int, faults: set<Stmt>) returns (ok: bool)
      modifies this`exams, this`trace
      ensures trace == old(trace) + [DeleteExam]
      ensures ok == (DeleteExam !in faults)
      ensures exams == if ok then old(exams) - {id} else old(exams)
    {
      trace := trace + [DeleteExam];
      ok := DeleteExam !in faults;
      if ok { exams := exams - {id}; }
    }

    /** `DELETE FROM sections WHERE id = ANY($1)`. */
    method DeleteSectionsIn(ids: seq<int>, faults: set<Stmt>) returns (ok: bool)
      modifies this`sections, this`trace
      ensures trace == old(trace) + [DeleteSections]
      ensures ok == (DeleteSections !in faults)
      ensures sections == if ok then DeleteWhereIn(old(sections), ids) else old(sections)
    {
      trace := trace + [DeleteSections];
      ok := DeleteSections !in faults;
      if ok { sections := DeleteWhereIn(sections, ids); }
    }

    /** `DELETE FROM questions WHERE id = ANY($1)`. */
    method DeleteQuestionsIn(ids: seq<int>, faults: set<Stmt>) returns (ok: bool)
      modifies this`questions, this`trace
      ensures trace == old(trace) + [DeleteQuestions]
      ensures ok == (DeleteQuestions !in faults)
      ensures questions == if ok then DeleteWhereIn(old(questions), ids) else old(questions)
    {
      trace := trace + [DeleteQuestions];
      ok := DeleteQuestions !in faults;
      if ok { questions := DeleteWhereIn(questions, ids); }
    }

    /** `DELETE FROM options WHERE id = ANY($1)`. */
    method DeleteOptionsIn(ids: seq<int>, faults: set<Stmt>) returns (ok: bool)
      modifies this`options, this`trace
      ensures trace == old(trace) + [DeleteOptions]
      ensures ok == (DeleteOptions !in faults)
      ensures options == if ok then DeleteWhereIn(old(options), ids) else old(options)
    {
      trace := trace + [DeleteOptions];
      ok := DeleteOptions !in faults;
      if ok { options := DeleteWhereIn(options, ids); }
    }
  }
}
