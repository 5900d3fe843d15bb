/** routes/create.rs, the older sea_orm path: `get_random_int` draws an id with a given number of
    decimal digits, and `insert` writes an exam as rows of the `exam`, `details`, `sections`,
    `questions`, `options` and `correct_option` tables inside one transaction, then answers with
    the exam id it drew. The random draws are parameters: `draw` picks a value of the range. */
module CreateRoute {
  import opened Wrappers
  import opened Seqs
  import opened Schema
  import opened Models
  import opened Store
  import Response

  // ---- get_random_int (create.rs:30-35) ----

  /** The largest `i32`. */
  const I32Max: int := 0x7FFF_FFFF

  function Pow10(e: nat): (r: nat)
    ensures r >= 1
  {
    if e == 0 then 1 else 10 * Pow10(e - 1)
  }

  lemma {:induction false} Pow10Monotone(a: nat, b: nat)
    requires a <= b
    ensures Pow10(a) <= Pow10(b)
    decreases b
  {
    if a < b {
      Pow10Monotone(a, b - 1);
    }
  }

  /** `10_i32.pow(e)` stays inside `i32` exactly up to the ninth power. */
  lemma Pow10FitsI32(e: nat)
    ensures Pow10(e) <= I32Max <==> e <= 9
  {
    assert Pow10(9) == 1_000_000_000 by {
      assert Pow10(1) == 10 && Pow10(2) == 100 && Pow10(3) == 1000 && Pow10(4) == 10000;
      assert Pow10(5) == 100000 && Pow10(6) == 1000000 && Pow10(7) == 10000000 && Pow10(8) == 100000000;
    }
    if e <= 9 {
      Pow10Monotone(e, 9);
    } else {
      Pow10Monotone(10, e);
    }
  }

  /** `10_i32.pow(e)` with overflow checks on: it panics (`None`) once the power leaves `i32`. */
  function CheckedPow10(e: nat): Option<int> {
    if Pow10(e) <= I32Max then Some(Pow10(e)) else None
  }

  /** The inclusive range `min..=max` of create.rs:31-32. `size - 1` on a `usize` panics for 0,
      and the powers panic past `i32`; both are `None`. */
  function RandomRange(size: nat): Option<(int, int)> {
    if size == 0 then None
    else match (CheckedPow10(size - 1), CheckedPow10(size))
      case (Some(lo), Some(p)) => Some((lo, p - 1))
      case _ => None
  }

  /** `get_random_int(size)`: `draw` chooses which value of the range `gen_range` returns. The
      draw exists exactly for 1 to 9 digits, and then lies in [10^(size-1), 10^size - 1]. */
  function GetRandomInt(size: nat, draw: nat): (r: Option<int>)
    ensures r.Some? <==> 1 <= size <= 9
    ensures r.Some? ==> Pow10(size - 1) <= r.value <= Pow10(size) - 1
  {
    Pow10FitsI32(size);
    Pow10FitsI32(if size > 0 then size - 1 else 0);
    match RandomRange(size)
    case None => None
    case Some((lo, hi)) => Some(lo + draw % (hi - lo + 1))
  }

  /** Every value of the range is drawn by some `draw`: the model adds no bias of its own. */
  lemma GetRandomIntReaches(size: nat, v: int)
    requires 1 <= size <= 9
    requires Pow10(size - 1) <= v <= Pow10(size) - 1
    ensures GetRandomInt(size, v - Pow10(size - 1)) == Some(v)
  {
    Pow10FitsI32(size);
    Pow10FitsI32(size - 1);
    var lo, hi := Pow10(size - 1), Pow10(size) - 1;
    assert RandomRange(size) == Some((lo, hi));
    ModOfSmaller(v - lo, hi - lo + 1);
  }

  lemma ModOfSmaller(d: int, m: int)
    requires 0 <= d < m
    ensures d % m == d
  {
  }

  /** The number of decimal digits of `n`. */
  function Digits(n: nat): (d: nat)
    ensures d >= 1
  {
    if n < 10 then 1 else 1 + Digits(n / 10)
  }

  /** A value of [10^(k-1), 10^k - 1] has exactly `k` digits. */
  lemma {:induction false} DigitsOfRange(n: nat, k: nat)
    requires 1 <= k && Pow10(k - 1) <= n < Pow10(k)
    ensures Digits(n) == k
    decreases k
  {
    if k > 1 {
      assert Pow10(k - 2) <= n / 10 < Pow10(k - 1);
      DigitsOfRange(n / 10, k - 1);
    }
  }

  /** The doc comment's promise (create.rs:11-15): the drawn integer has `size` digits; size 2
      gives 10 to 99. */
  lemma GetRandomIntDigits(size: nat, draw: nat)
    requires 1 <= size <= 9
    ensures GetRandomInt(size, draw).Some? && Digits(GetRandomInt(size, draw).value) == size
    ensures size == 2 ==> 10 <= GetRandomInt(size, draw).value <= 99
  {
    DigitsOfRange(GetRandomInt(size, draw).value, size);
  }

  /** The ids `insert` draws (create.rs:69, 80): five digits, always. */
  function FiveDigitId(draw: nat): (id: int)
    ensures 10000 <= id <= 99999
  {
    assert Pow10(4) == 10000 && Pow10(5) == 100000;
    GetRandomInt(5, draw).value
  }

  // ---- the rows `insert` writes (create.rs:71-146) ----

  /** The `details` row (create.rs:79-87): the description is stored as `Some`. */
  function DetailsRow(exam: Exam, detailsId: int, examId: int): ExamDescriptionModel {
    ExamDescriptionModel(detailsId, examId, exam.examDescription.title, Some(exam.examDescription.description),
                         exam.examDescription.duration, exam.examDescription.passingScore)
  }

  /** Read back through `From<ExamDescriptionModel>` (model/response.rs:6-16), the stored details
      row gives the request's description fields unchanged. */
  lemma DetailsRowReadBack(exam: Exam, detailsId: int, examId: int)
    ensures Response.ToExamDescription(DetailsRow(exam, detailsId, examId)) ==
      Schema.ExamDescription(detailsId, examId, exam.examDescription.title, exam.examDescription.description,
                             exam.examDescription.duration, exam.examDescription.passingScore)
  {
  }

  /** One section row (create.rs:95-101): the foreign key is the details row just inserted. */
  function SectionRowOf(detailsId: int, sec: Section): (int, SectionsModel) {
    (sec.id, SectionsModel(sec.id, detailsId, sec.title))
  }

  function SectionRows(exam: Exam, detailsId: int): seq<(int, SectionsModel)> {
    MapSeq(sec => SectionRowOf(detailsId, sec), exam.sections)
  }

  /** One question row (create.rs:110-117): its own `section_id`, the description as `Some`. */
  function QuestionRowOf(q: Question): (int, QuestionsModel) {
    (q.id, QuestionsModel(q.id, q.sectionId, q.text, Some(q.description), q.marks))
  }

  function QuestionRows(exam: Exam): seq<(int, QuestionsModel)> {
    MapSeq(QuestionRowOf, exam.questions)
  }

  /** One option row (create.rs:125-132): `is_correct` as `Some`. */
  function OptionRowOf(o: OptionItem): (int, OptionsModel) {
    (o.id, OptionsModel(o.id, o.questionId, o.text, Some(o.isCorrect)))
  }

  function OptionRows(exam: Exam): seq<(int, OptionsModel)> {
    MapSeq(OptionRowOf, exam.options)
  }

  /** The section, question and option rows match the request's lists one to one and in order;
      every section points at the new details row, and what was stored as `Some` reads back as
      the request's value. */
  lemma RowsSpec(exam: Exam, detailsId: int)
    ensures |SectionRows(exam, detailsId)| == |exam.sections|
    ensures forall k :: 0 <= k < |exam.sections| ==>
      && SectionRows(exam, detailsId)[k].0 == exam.sections[k].id
      && SectionRows(exam, detailsId)[k].1 == SectionsModel(exam.sections[k].id, detailsId, exam.sections[k].title)
    ensures |QuestionRows(exam)| == |exam.questions|
    ensures forall k :: 0 <= k < |exam.questions| ==>
      var row := QuestionRows(exam)[k].1;
      && QuestionRows(exam)[k].0 == row.id == exam.questions[k].id
      && row.sectionId == exam.questions[k].sectionId && row.text == exam.questions[k].text
      && row.description == Some(exam.questions[k].description) && row.marks == exam.questions[k].marks
    ensures |OptionRows(exam)| == |exam.options|
    ensures forall k :: 0 <= k < |exam.options| ==>
      var row := OptionRows(exam)[k].1;
      && OptionRows(exam)[k].0 == row.id == exam.options[k].id
      && row.questionId == exam.options[k].questionId && row.text == exam.options[k].text
      && row.isCorrect == Some(exam.options[k].isCorrect)
  {
    MapSeqIndex(sec => SectionRowOf(detailsId, sec), exam.sections);
    MapSeqIndex(QuestionRowOf, exam.questions);
    MapSeqIndex(OptionRowOf, exam.options);
  }

  /** The `correct_option` rows (create.rs:138-146): the ids of the options marked correct. */
  function CorrectOptions(opts: seq<OptionItem>): seq<CorrectOptionModel> {
    if opts == [] then []
    else
      var last := opts[|opts| - 1];
      CorrectOptions(opts[..|opts| - 1]) + (if last.isCorrect then [CorrectOptionModel(last.id)] else [])
  }

  /** The `correct_option` rows are exactly the options marked correct, in input order: `idx` lists
      their positions, increasing, and misses none of them. */
  lemma {:induction false} CorrectOptionsSelect(opts: seq<OptionItem>) returns (idx: seq<int>)
    ensures |idx| == |CorrectOptions(opts)|
    ensures forall k :: 0 <= k < |idx| ==> 0 <= idx[k] < |opts| && opts[idx[k]].isCorrect
    ensures forall k :: 0 <= k < |idx| ==> CorrectOptions(opts)[k] == CorrectOptionModel(opts[idx[k]].id)
    ensures forall k, l :: 0 <= k < l < |idx| ==> idx[k] < idx[l]
    ensures forall i :: 0 <= i < |opts| && opts[i].isCorrect ==> i in idx
  {
    if opts == [] {
      idx := [];
    } else {
      var n := |opts| - 1;
      var init := opts[..n];
      var rest := CorrectOptionsSelect(init);
      assert forall i :: 0 <= i < n ==> init[i] == opts[i];
      if opts[n].isCorrect {
        assert CorrectOptions(opts) == CorrectOptions(init) + [CorrectOptionModel(opts[n].id)];
        idx := rest + [n];
      } else {
        assert CorrectOptions(opts) == CorrectOptions(init);
        idx := rest;
      }
    }
  }

  // ---- the transaction (create.rs:66-155) ----

  /** The statements `insert` issues, in order. */
  function CreateOrder(): seq<Stmt> {
    [Begin] + CreateRowInserts() + CreateBatchInserts() + [Commit]
  }

  /** The exam row, then the details row (create.rs:71-89). */
  function CreateRowInserts(): seq<Stmt> { [InsertExam, InsertDetails] }

  /** The four `insert_many` batches (create.rs:104-150). */
  function CreateBatchInserts(): seq<Stmt> { [InsertSections, InsertQuestions, InsertOptions, InsertCorrectOptions] }

  /** The statements that fail on tables `t`: the ones the environment rejects, plus each insert
      that meets an id already taken. None of them has a conflict clause. */
  function CreateFailing(t: Tables, exam: Exam, examId: int, detailsId: int, faults: set<Stmt>): set<Stmt> {
    faults + Conflicts(examId in t.exam, detailsId in t.details, InsertNew(t.sections, SectionRows(exam, detailsId)).None?,
                       InsertNew(t.questions, QuestionRows(exam)).None?, InsertNew(t.options, OptionRows(exam)).None?)
  }

  /** The inserts that meet a taken or repeated id, given which of them do. */
  function Conflicts(examTaken: bool, detailsTaken: bool, sectionsClash: bool, questionsClash: bool, optionsClash: bool): set<Stmt> {
    (if examTaken then {InsertExam} else {})
      + (if detailsTaken then {InsertDetails} else {})
      + (if sectionsClash then {InsertSections} else {})
      + (if questionsClash then {InsertQuestions} else {})
      + (if optionsClash then {InsertOptions} else {})
  }

  /** Each insert is among the conflicting ones exactly when its flag is set, and nothing else is. */
  lemma ConflictsSpec(a: bool, b: bool, c: bool, d: bool, e: bool)
    ensures InsertExam in Conflicts(a, b, c, d, e) <==> a
    ensures InsertDetails in Conflicts(a, b, c, d, e) <==> b
    ensures InsertSections in Conflicts(a, b, c, d, e) <==> c
    ensures InsertQuestions in Conflicts(a, b, c, d, e) <==> d
    ensures InsertOptions in Conflicts(a, b, c, d, e) <==> e
    ensures forall s :: s in Conflicts(a, b, c, d, e) ==> s in {InsertExam, InsertDetails, InsertSections, InsertQuestions, InsertOptions}
  {
  }

  /** The exam and details inserts fail on a taken id, and each of the three row batches fails when
      any of its ids is taken or repeated (`InsertNewSpec` says when); the other statements fail
      only when the environment rejects them. */
  lemma CreateFailingSpec(t: Tables, exam: Exam, examId: int, detailsId: int, faults: set<Stmt>)
    ensures var f := CreateFailing(t, exam, examId, detailsId, faults);
      && (InsertExam in f <==> InsertExam in faults || examId in t.exam)
      && (InsertDetails in f <==> InsertDetails in faults || detailsId in t.details)
      && (InsertSections in f <==> InsertSections in faults || InsertNew(t.sections, SectionRows(exam, detailsId)).None?)
      && (InsertQuestions in f <==> InsertQuestions in faults || InsertNew(t.questions, QuestionRows(exam)).None?)
      && (InsertOptions in f <==> InsertOptions in faults || InsertNew(t.options, OptionRows(exam)).None?)
      && (forall s :: s != InsertExam && s != InsertDetails && s != InsertSections && s != InsertQuestions && s != InsertOptions ==>
            (s in f <==> s in faults))
  {
    ConflictsSpec(examId in t.exam, detailsId in t.details, InsertNew(t.sections, SectionRows(exam, detailsId)).None?,
                  InsertNew(t.questions, QuestionRows(exam)).None?, InsertNew(t.options, OptionRows(exam)).None?);
  }

  /** The tables after the exam and details rows. */
  function RowsCreated(t: Tables, exam: Exam, examId: int, detailsId: int): Tables {
    t.(exam := t.exam[examId := ExamModel(examId)],
       details := t.details[detailsId := DetailsRow(exam, detailsId, examId)])
  }

  /** The tables after the four batches. */
  function BatchesCreated(t: Tables, exam: Exam, detailsId: int): Tables {
    t.(sections := InsertNew(t.sections, SectionRows(exam, detailsId)).UnwrapOr(t.sections),
       questions := InsertNew(t.questions, QuestionRows(exam)).UnwrapOr(t.questions),
       options := InsertNew(t.options, OptionRows(exam)).UnwrapOr(t.options),
       correctOption := t.correctOption + CorrectOptions(exam.options))
  }

  /** The tables after a committed `insert`. */
  function Created(t: Tables, exam: Exam, examId: int, detailsId: int): Tables {
    BatchesCreated(RowsCreated(t, exam, examId, detailsId), exam, detailsId)
  }

  /** `insert`: the statements run in order until one fails, whose error is returned; a failure
      anywhere leaves every table as it was, and success answers with the exam id that was
      inserted (create.rs:154). */
  method Insert(db: Store, exam: Exam, examDraw: nat, detailsDraw: nat, faults: set<Stmt>) returns (r: Result<ExamId, Stmt>)
    modifies db
    ensures var f := CreateFailing(old(db.State()), exam, FiveDigitId(examDraw), FiveDigitId(detailsDraw), faults);
      && (r.Ok? <==> Outcome(CreateOrder(), f).Ok?)
      && (r.Err? ==> Outcome(CreateOrder(), f) == Err(r.error))
      && db.trace == old(db.trace) + Executed(CreateOrder(), f)
    ensures r.Ok? ==> r.value == ExamId(FiveDigitId(examDraw))
    ensures db.State() == if r.Ok? then Created(old(db.State()), exam, FiveDigitId(examDraw), FiveDigitId(detailsDraw)) else old(db.State())
  {
    var examId := FiveDigitId(examDraw);
    var detailsId := FiveDigitId(detailsDraw);
    var e := InsertTx(db, exam, examId, detailsId, faults);
    match e
    case Ok(_) => r := Ok(ExamId(examId));
    case Err(s) => r := Err(s);
  }

  /** The transaction of `insert` once its two ids are drawn (create.rs:67-152). */
  method InsertTx(db: Store, exam: Exam, examId: int, detailsId: int, faults: set<Stmt>) returns (r: Result<(), Stmt>)
    modifies db
    ensures r == Outcome(CreateOrder(), CreateFailing(old(db.State()), exam, examId, detailsId, faults))
    ensures db.trace == old(db.trace) + Executed(CreateOrder(), CreateFailing(old(db.State()), exam, examId, detailsId, faults))
    ensures db.State() == if r.Ok? then Created(old(db.State()), exam, examId, detailsId) else old(db.State())
  {
    var snapshot := db.State();
    ghost var pre := db.trace;
    ghost var f := CreateFailing(snapshot, exam, examId, detailsId, faults);
    CreateFailingSpec(snapshot, exam, examId, detailsId, faults);
    RunSeq(pre, [Begin] + CreateRowInserts() + CreateBatchInserts(), [Commit], f);
    RunSeq(pre, [Begin] + CreateRowInserts(), CreateBatchInserts(), f);
    RunSeq(pre, [Begin], CreateRowInserts(), f);
    RunOne(Begin, f);
    RunOne(Commit, f);
    var ok := db.Exec(Begin, faults);
    if !ok {
      return Err(Begin);
    }
    r := CreateRows(db, exam, examId, detailsId, faults, snapshot);
    if r.Err? {
      db.Restore(snapshot);
      return;
    }
    r := CreateBatches(db, exam, examId, detailsId, faults, snapshot);
    if r.Err? {
      db.Restore(snapshot);
      return;
    }
    ok := db.Exec(Commit, faults);
    if !ok {
      db.Restore(snapshot);
      return Err(Commit);
    }
  }

  /** The exam row, then the details row (create.rs:71-89). */
  method CreateRows(db: Store, exam: Exam, examId: int, detailsId: int, faults: set<Stmt>, ghost t: Tables) returns (r: Result<(), Stmt>)
    requires db.exam == t.exam && db.details == t.details
    modifies db`exam, db`details, db`trace
    ensures r == Outcome(CreateRowInserts(), CreateFailing(t, exam, examId, detailsId, faults))
    ensures db.trace == old(db.trace) + Executed(CreateRowInserts(), CreateFailing(t, exam, examId, detailsId, faults))
    ensures r.Ok? ==> db.State() == RowsCreated(old(db.State()), exam, examId, detailsId)
  {
    ghost var pre := db.trace;
    ghost var f := CreateFailing(t, exam, examId, detailsId, faults);
    ghost var t0 := db.State();
    CreateFailingSpec(t, exam, examId, detailsId, faults);
    assert CreateRowInserts() == [InsertExam] + [InsertDetails];
    RunSeq(pre, [InsertExam], [InsertDetails], f);
    RunOne(InsertExam, f);
    RunOne(InsertDetails, f);
    var ok := db.InsertIntoExam(ExamModel(examId), faults);
    if !ok {
      return Err(InsertExam);
    }
    ok := db.InsertIntoDetails(DetailsRow(exam, detailsId, examId), faults);
    if !ok {
      return Err(InsertDetails);
    }
    assert db.State() == t0.(exam := t0.exam[examId := ExamModel(examId)],
                             details := t0.details[detailsId := DetailsRow(exam, detailsId, examId)]);
    return Ok(());
  }

  /** The sections, questions, options and `correct_option` batches (create.rs:92-150). */
  method CreateBatches(db: Store, exam: Exam, examId: int, detailsId: int, faults: set<Stmt>, ghost t: Tables) returns (r: Result<(), Stmt>)
    requires db.sections == t.sections && db.questions == t.questions && db.options == t.options
    modifies db`sections, db`questions, db`options, db`correctOption, db`trace
    ensures r == Outcome(CreateBatchInserts(), CreateFailing(t, exam, examId, detailsId, faults))
    ensures db.trace == old(db.trace) + Executed(CreateBatchInserts(), CreateFailing(t, exam, examId, detailsId, faults))
    ensures r.Ok? ==> db.State() == BatchesCreated(old(db.State()), exam, detailsId)
  {
    ghost var pre := db.trace;
    ghost var f := CreateFailing(t, exam, examId, detailsId, faults);
    assert CreateBatchInserts() == [InsertSections, InsertQuestions] + [InsertOptions, InsertCorrectOptions];
    RunSeq(pre, [InsertSections, InsertQuestions], [InsertOptions, InsertCorrectOptions], f);
    r := CreateSectionsAndQuestions(db, exam, examId, detailsId, faults, t);
    if r.Err? {
      return;
    }
    r := CreateOptionsAndCorrect(db, exam, examId, detailsId, faults, t);
  }

  /** The sections batch, then the questions batch (create.rs:92-119). */
  method CreateSectionsAndQuestions(db: Store, exam: Exam, examId: int, detailsId: int, faults: set<Stmt>, ghost t: Tables) returns (r: Result<(), Stmt>)
    requires db.sections == t.sections && db.questions == t.questions
    modifies db`sections, db`questions, db`trace
    ensures r == Outcome([InsertSections, InsertQuestions], CreateFailing(t, exam, examId, detailsId, faults))
    ensures db.trace == old(db.trace) + Executed([InsertSections, InsertQuestions], CreateFailing(t, exam, examId, detailsId, faults))
    ensures r.Ok? ==> && db.sections == InsertNew(old(db.sections), SectionRows(exam, detailsId)).UnwrapOr(old(db.sections))
                      && db.questions == InsertNew(old(db.questions), QuestionRows(exam)).UnwrapOr(old(db.questions))
  {
    ghost var pre := db.trace;
    ghost var f := CreateFailing(t, exam, examId, detailsId, faults);
    CreateFailingSpec(t, exam, examId, detailsId, faults);
    assert [InsertSections, InsertQuestions] == [InsertSections] + [InsertQuestions];
    RunSeq(pre, [InsertSections], [InsertQuestions], f);
    RunOne(InsertSections, f);
    RunOne(InsertQuestions, f);
    var ok := db.InsertManySections(SectionRows(exam, detailsId), faults);
    if !ok {
      return Err(InsertSections);
    }
    ok := db.InsertManyQuestions(QuestionRows(exam), faults);
    if !ok {
      return Err(InsertQuestions);
    }
    return Ok(());
  }

  /** The options batch, then the `correct_option` batch (create.rs:121-150). */
  method CreateOptionsAndCorrect(db: Store, exam: Exam, examId: int, detailsId: int, faults: set<Stmt>, ghost t: Tables) returns (r: Result<(), Stmt>)
    requires db.options == t.options
    modifies db`options, db`correctOption, db`trace
    ensures r == Outcome([InsertOptions, InsertCorrectOptions], CreateFailing(t, exam, examId, detailsId, faults))
    ensures db.trace == old(db.trace) + Executed([InsertOptions, InsertCorrectOptions], CreateFailing(t, exam, examId, detailsId, faults))
    ensures r.Ok? ==> && db.options == InsertNew(old(db.options), OptionRows(exam)).UnwrapOr(old(db.options))
                      && db.correctOption == old(db.correctOption) + CorrectOptions(exam.options)
  {
    ghost var pre := db.trace;
    ghost var f := CreateFailing(t, exam, examId, detailsId, faults);
    CreateFailingSpec(t, exam, examId, detailsId, faults);
    assert [InsertOptions, InsertCorrectOptions] == [InsertOptions] + [InsertCorrectOptions];
    RunSeq(pre, [InsertOptions], [InsertCorrectOptions], f);
    RunOne(InsertOptions, f);
    RunOne(InsertCorrectOptions, f);
    var ok := db.InsertManyOptions(OptionRows(exam), faults);
    if !ok {
      return Err(InsertOptions);
    }
    ok := db.InsertManyCorrectOptions(CorrectOptions(exam.options), faults);
    if !ok {
      return Err(InsertCorrectOptions);
    }
    return Ok(());
  }

  /** After a committed `insert` the exam row and its details row are stored under the drawn ids,
      every section of the request is stored under its id pointing at that details row, every
      option under its id, and the `correct_option` rows gained are the correct options. */
  lemma CreatedSpec(t: Tables, exam: Exam, examId: int, detailsId: int, faults: set<Stmt>)
    requires Outcome(CreateOrder(), CreateFailing(t, exam, examId, detailsId, faults)).Ok?
    ensures var c := Created(t, exam, examId, detailsId);
      && examId !in t.exam && c.exam[examId] == ExamModel(examId)
      && detailsId !in t.details && c.details[detailsId].examId == examId
      && (forall k :: 0 <= k < |exam.sections| ==>
            exam.sections[k].id in c.sections && c.sections[exam.sections[k].id].detailsId == detailsId)
      && (forall k :: 0 <= k < |exam.options| ==>
            exam.options[k].id in c.options && c.options[exam.options[k].id].isCorrect == Some(exam.options[k].isCorrect))
      && c.correctOption == t.correctOption + CorrectOptions(exam.options)
  {
    CreateWentThrough(t, exam, examId, detailsId, faults);
    RowsSpec(exam, detailsId);
    InsertNewSpec(t.sections, SectionRows(exam, detailsId));
    InsertNewSpec(t.options, OptionRows(exam));
    var c := Created(t, exam, examId, detailsId);
    forall k | 0 <= k < |exam.sections|
      ensures exam.sections[k].id in c.sections && c.sections[exam.sections[k].id].detailsId == detailsId
    {
      assert SectionRows(exam, detailsId)[k].0 == exam.sections[k].id;
    }
    forall k | 0 <= k < |exam.options|
      ensures exam.options[k].id in c.options && c.options[exam.options[k].id].isCorrect == Some(exam.options[k].isCorrect)
    {
      assert OptionRows(exam)[k].0 == exam.options[k].id;
    }
  }

  /** A committed `insert` met no taken id and no clash in the sections and options batches. */
  lemma CreateWentThrough(t: Tables, exam: Exam, examId: int, detailsId: int, faults: set<Stmt>)
    requires Outcome(CreateOrder(), CreateFailing(t, exam, examId, detailsId, faults)).Ok?
    ensures examId !in t.exam && detailsId !in t.details
    ensures InsertNew(t.sections, SectionRows(exam, detailsId)).Some? && InsertNew(t.options, OptionRows(exam)).Some?
  {
    var f := CreateFailing(t, exam, examId, detailsId, faults);
    CreateFailingSpec(t, exam, examId, detailsId, faults);
    RunsThroughIfOk(CreateOrder(), f);
    assert CreateOrder()[1] == InsertExam && CreateOrder()[2] == InsertDetails && CreateOrder()[3] == InsertSections;
    assert CreateOrder()[5] == InsertOptions;
  }

  /** A successful run issued every statement, so none of them was failing. */
  lemma RunsThroughIfOk(order: seq<Stmt>, f: set<Stmt>)
    requires Outcome(order, f).Ok?
    ensures forall k :: 0 <= k < |order| ==> order[k] !in f
  {
    ExecutedIsPrefix(order, f);
  }
}
