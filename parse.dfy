/** Regrouping of the flat section/question/option join rows into one `SectionResponse` per
    section id (utils/parse.rs:8-78, `map_to_section_response`). The source fills a local
    `HashMap` in one pass over the rows; the method below does the same, and `Regroup` is the
    function it computes, one row at a time. `ExpectedSection` is an independent description of
    the same result (filter the rows of a section, list its question ids in first-seen order, and
    give each question the options of its rows in row order), and `RegroupIsExpected` proves the
    two agree. */
module Parse {
  import opened Wrappers
  import opened Seqs
  import opened Schema

  // ---- the row projections built at parse.rs:16-20, 30-36 and 45-50 / 61-66 ----

  function SectionModelOf(row: SectionRow): SectionsModel {
    SectionsModel(row.sectionId, row.sectionDetailsId, row.sectionTitle)
  }

  function QuestionModelOf(row: SectionRow): QuestionsModel {
    QuestionsModel(row.questionId, row.sectionId, row.questionText, row.questionDescription, row.questionMarks)
  }

  function OptionOf(row: SectionRow): OptionResponseModel {
    OptionResponseModel(OptionsModel(row.optionId, row.questionId, row.optionText, row.optionIsCorrect))
  }

  // ---- the one-pass regrouping ----

  /** `questions.iter_mut().find(|q| q.base.id == question_id)`: the position of the first
      question with that id, or `|qs|` when there is none. */
  function FindQuestion(qs: seq<QuestionResponse>, qid: int): (i: nat)
    ensures i <= |qs|
    ensures forall k :: 0 <= k < i ==> qs[k].base.id != qid
    ensures i < |qs| ==> qs[i].base.id == qid
  {
    if qs == [] then 0
    else if qs[0].base.id == qid then 0
    else 1 + FindQuestion(qs[1..], qid)
  }

  /** One iteration of the loop body (parse.rs:14-73): the section entry is created from this
      row if absent; the option of the row is appended to the question with the row's question
      id within that section, which is created from this row if absent. */
  function AddRow(m: map<int, SectionResponse>, row: SectionRow): map<int, SectionResponse> {
    var section := if row.sectionId in m then m[row.sectionId] else SectionResponse(SectionModelOf(row), []);
    m[row.sectionId := AddRowToSection(section, row)]
  }

  /** The part of the loop body that works inside the row's section (parse.rs:30-73). */
  function AddRowToSection(section: SectionResponse, row: SectionRow): SectionResponse {
    var qs := section.questions;
    var i := FindQuestion(qs, row.questionId);
    var qs' := if i < |qs| then qs[i := qs[i].(options := qs[i].options + [OptionOf(row)])]
               else qs + [QuestionResponse(QuestionModelOf(row), [OptionOf(row)])];
    section.(questions := qs')
  }

  /** The map after the loop has seen every row of `rows`. */
  function Regroup(rows: seq<SectionRow>): map<int, SectionResponse> {
    if rows == [] then map[] else AddRow(Regroup(rows[..|rows| - 1]), rows[|rows| - 1])
  }

  /** `map_to_section_response`: one pass over the rows, always `Ok`. */
  method MapToSectionResponse(rows: seq<SectionRow>) returns (r: Result<map<int, SectionResponse>, string>)
    ensures r == Ok(Regroup(rows))
  {
    var sectionsMap: map<int, SectionResponse> := map[];
    for n := 0 to |rows|
      invariant sectionsMap == Regroup(rows[..n])
    {
      var row := rows[n];
      var section := if row.sectionId in sectionsMap then sectionsMap[row.sectionId]
                     else SectionResponse(SectionModelOf(row), []);
      var updated := AddQuestionOption(section, row);
      sectionsMap := sectionsMap[row.sectionId := updated];
      RegroupStep(rows, n);
    }
    assert rows[..|rows|] == rows;
    return Ok(sectionsMap);
  }

  /** Seeing one more row applies one more loop body. */
  lemma RegroupStep(rows: seq<SectionRow>, n: int)
    requires 0 <= n < |rows|
    ensures Regroup(rows[..n + 1]) == AddRow(Regroup(rows[..n]), rows[n])
  {
    assert rows[..n + 1][..n] == rows[..n];
  }

  /** The find-or-create of the question and the push of the option (parse.rs:40-73). */
  method AddQuestionOption(section: SectionResponse, row: SectionRow) returns (updated: SectionResponse)
    ensures updated == AddRowToSection(section, row)
  {
    var questions := section.questions;
    var i := 0;
    while i < |questions| && questions[i].base.id != row.questionId
      invariant 0 <= i <= |questions|
      invariant forall k :: 0 <= k < i ==> questions[k].base.id != row.questionId
    {
      i := i + 1;
    }
    assert i == FindQuestion(questions, row.questionId);
    var option := OptionOf(row);
    if i < |questions| {
      var existing := questions[i];
      questions := questions[i := existing.(options := existing.options + [option])];
    } else {
      var question := QuestionResponse(QuestionModelOf(row), [option]);
      questions := questions + [question];
    }
    updated := section.(questions := questions);
  }

  // ---- an independent description of the result ----

  /** The rows that carry section id `sid`, in row order. */
  function RowsOfSection(rows: seq<SectionRow>, sid: int): (r: seq<SectionRow>)
    ensures forall k :: 0 <= k < |r| ==> r[k].sectionId == sid
    ensures r == [] <==> forall i :: 0 <= i < |rows| ==> rows[i].sectionId != sid
    ensures forall x :: x in r ==> x in rows
  {
    if rows == [] then []
    else RowsOfSection(rows[..|rows| - 1], sid) + (if rows[|rows| - 1].sectionId == sid then [rows[|rows| - 1]] else [])
  }

  /** The rows that carry question id `qid`, in row order. */
  function RowsOfQuestion(rows: seq<SectionRow>, qid: int): (r: seq<SectionRow>)
    ensures forall k :: 0 <= k < |r| ==> r[k].questionId == qid
    ensures r == [] <==> forall i :: 0 <= i < |rows| ==> rows[i].questionId != qid
    ensures forall x :: x in r ==> x in rows
  {
    if rows == [] then []
    else RowsOfQuestion(rows[..|rows| - 1], qid) + (if rows[|rows| - 1].questionId == qid then [rows[|rows| - 1]] else [])
  }

  /** The question ids of `rows` without repeats, in the order they are first seen. */
  function FirstSeenQuestionIds(rows: seq<SectionRow>): (ids: seq<int>)
    ensures forall i, j :: 0 <= i < j < |ids| ==> ids[i] != ids[j]
    ensures forall q :: q in ids <==> exists i :: 0 <= i < |rows| && rows[i].questionId == q
    ensures forall k :: 0 <= k < |ids| ==> RowsOfQuestion(rows, ids[k]) != []
  {
    if rows == [] then []
    else
      var prefix := rows[..|rows| - 1];
      var last := rows[|rows| - 1];
      var ids := FirstSeenQuestionIds(prefix);
      assert forall i :: 0 <= i < |prefix| ==> prefix[i] == rows[i];
      if last.questionId in ids then ids else ids + [last.questionId]
  }

  /** A question as the rows that carry its id describe it: fields from the first of them, one
      option per row, in row order. */
  function ExpectedQuestion(qrows: seq<SectionRow>): QuestionResponse
    requires qrows != []
  {
    QuestionResponse(QuestionModelOf(qrows[0]), MapSeq(OptionOf, qrows))
  }

  /** A section as the rows that carry its id describe it. */
  function ExpectedSection(srows: seq<SectionRow>): SectionResponse
    requires srows != []
  {
    var ids := FirstSeenQuestionIds(srows);
    SectionResponse(SectionModelOf(srows[0]),
      seq(|ids|, k requires 0 <= k < |ids| => ExpectedQuestion(RowsOfQuestion(srows, ids[k]))))
  }

  lemma SnocPrefix<T>(s: seq<T>, x: T)
    ensures (s + [x])[..|s|] == s && (s + [x])[|s|] == x
  {
  }

  /** The one-pass regrouping computes exactly the independent description: one entry per
      section id that occurs in the rows, each equal to `ExpectedSection` of that section's rows. */
  lemma {:induction false} RegroupIsExpected(rows: seq<SectionRow>)
    ensures forall sid :: sid in Regroup(rows) <==> RowsOfSection(rows, sid) != []
    ensures forall sid :: sid in Regroup(rows) ==> Regroup(rows)[sid] == ExpectedSection(RowsOfSection(rows, sid))
  {
    if rows != [] {
      var pre, r := rows[..|rows| - 1], rows[|rows| - 1];
      SnocPrefix(pre, r);
      assert rows == pre + [r];
      RegroupIsExpected(pre);
      var m := Regroup(pre);
      forall sid | sid != r.sectionId
        ensures RowsOfSection(rows, sid) == RowsOfSection(pre, sid)
      {
      }
      AddRowIsExpected(pre, r, m);
    }
  }

  /** The inductive step of RegroupIsExpected, for the section of the new row. */
  lemma AddRowIsExpected(pre: seq<SectionRow>, r: SectionRow, m: map<int, SectionResponse>)
    requires r.sectionId in m <==> RowsOfSection(pre, r.sectionId) != []
    requires r.sectionId in m ==> m[r.sectionId] == ExpectedSection(RowsOfSection(pre, r.sectionId))
    ensures var rows := pre + [r];
      r.sectionId in AddRow(m, r) && RowsOfSection(rows, r.sectionId) != [] &&
      AddRow(m, r)[r.sectionId] == ExpectedSection(RowsOfSection(rows, r.sectionId))
  {
    var rows := pre + [r];
    SnocPrefix(pre, r);
    var srows := RowsOfSection(pre, r.sectionId);
    assert RowsOfSection(rows, r.sectionId) == srows + [r];
    if r.sectionId !in m {
      assert srows == [];
      NewSectionIsExpected(r);
    } else {
      ExtendSectionIsExpected(srows, r);
    }
  }

  /** A row whose section is not yet in the map creates it as the row alone describes it. */
  lemma NewSectionIsExpected(r: SectionRow)
    ensures AddRowToSection(SectionResponse(SectionModelOf(r), []), r) == ExpectedSection([r])
  {
    assert FirstSeenQuestionIds([r]) == [r.questionId];
    assert RowsOfQuestion([r], r.questionId) == [r];
    assert MapSeq(OptionOf, [r]) == [OptionOf(r)];
  }

  /** A row of a section already in the map extends it as the longer row list describes it. */
  lemma ExtendSectionIsExpected(srows: seq<SectionRow>, r: SectionRow)
    requires srows != []
    ensures AddRowToSection(ExpectedSection(srows), r) == ExpectedSection(srows + [r])
  {
    SnocPrefix(srows, r);
    var qid := r.questionId;
    var srows' := srows + [r];
    var ids := FirstSeenQuestionIds(srows);
    var qs := ExpectedSection(srows).questions;
    forall q | q != qid ensures RowsOfQuestion(srows', q) == RowsOfQuestion(srows, q) {
    }
    assert RowsOfQuestion(srows', qid) == RowsOfQuestion(srows, qid) + [r];
    assert forall k :: 0 <= k < |ids| ==> qs[k].base.id == ids[k];
    var i := FindQuestion(qs, qid);
    if i < |qs| {
      ExistingQuestion(srows, r, i);
    } else {
      NewQuestion(srows, r);
    }
  }

  lemma ExistingQuestion(srows: seq<SectionRow>, r: SectionRow, i: nat)
    requires srows != []
    requires forall q :: q != r.questionId ==> RowsOfQuestion(srows + [r], q) == RowsOfQuestion(srows, q)
    requires RowsOfQuestion(srows + [r], r.questionId) == RowsOfQuestion(srows, r.questionId) + [r]
    requires i == FindQuestion(ExpectedSection(srows).questions, r.questionId)
    requires i < |ExpectedSection(srows).questions|
    ensures AddRowToSection(ExpectedSection(srows), r) == ExpectedSection(srows + [r])
  {
    SnocPrefix(srows, r);
    var qid := r.questionId;
    var ids := FirstSeenQuestionIds(srows);
    var qs := ExpectedSection(srows).questions;
    assert qs[i].base.id == qid;
    assert ids[i] == qid;
    assert FirstSeenQuestionIds(srows + [r]) == ids;
    var qrows := RowsOfQuestion(srows, qid);
    MapSeqSnoc(OptionOf, qrows, r);
    var qs' := qs[i := qs[i].(options := qs[i].options + [OptionOf(r)])];
    var e := ExpectedSection(srows + [r]).questions;
    assert |e| == |qs'|;
    forall k | 0 <= k < |qs'| ensures qs'[k] == e[k] {
      if k != i { assert ids[k] != qid; }
    }
    assert qs' == e;
  }

  lemma NewQuestion(srows: seq<SectionRow>, r: SectionRow)
    requires srows != []
    requires forall q :: q != r.questionId ==> RowsOfQuestion(srows + [r], q) == RowsOfQuestion(srows, q)
    requires RowsOfQuestion(srows + [r], r.questionId) == RowsOfQuestion(srows, r.questionId) + [r]
    requires FindQuestion(ExpectedSection(srows).questions, r.questionId) == |ExpectedSection(srows).questions|
    ensures AddRowToSection(ExpectedSection(srows), r) == ExpectedSection(srows + [r])
  {
    SnocPrefix(srows, r);
    var qid := r.questionId;
    var ids := FirstSeenQuestionIds(srows);
    var qs := ExpectedSection(srows).questions;
    assert forall k :: 0 <= k < |ids| ==> qs[k].base.id == ids[k];
    assert qid !in ids;
    var ids' := FirstSeenQuestionIds(srows + [r]);
    assert ids' == ids + [qid];
    assert RowsOfQuestion(srows, qid) == [];
    assert MapSeq(OptionOf, [r]) == [OptionOf(r)];
    var qs' := qs + [QuestionResponse(QuestionModelOf(r), [OptionOf(r)])];
    var e := ExpectedSection(srows + [r]).questions;
    assert |e| == |qs'|;
    forall k | 0 <= k < |qs'| ensures qs'[k] == e[k] {
      if k < |qs| { assert ids'[k] == ids[k] && ids[k] != qid; }
    }
    assert qs' == e;
  }

  lemma RowsOfQuestionSnoc(srows: seq<SectionRow>, r: SectionRow)
    ensures RowsOfQuestion(srows + [r], r.questionId) == RowsOfQuestion(srows, r.questionId) + [r]
  {
    SnocPrefix(srows, r);
  }

  // ---- the properties the regrouping promises, read off the description ----

  /** One map entry per distinct section id of the rows, and no other. */
  lemma RegroupKeys(rows: seq<SectionRow>)
    ensures Regroup(rows).Keys == set i | 0 <= i < |rows| :: rows[i].sectionId
  {
    RegroupIsExpected(rows);
  }

  /** The first row with a given section id is the first of that section's rows. */
  lemma {:induction false} FirstRowOfSection(rows: seq<SectionRow>, i: int)
    requires 0 <= i < |rows|
    requires forall j :: 0 <= j < i ==> rows[j].sectionId != rows[i].sectionId
    ensures RowsOfSection(rows, rows[i].sectionId) != [] && RowsOfSection(rows, rows[i].sectionId)[0] == rows[i]
  {
    var pre := rows[..|rows| - 1];
    SnocPrefix(pre, rows[|rows| - 1]);
    assert rows == pre + [rows[|rows| - 1]];
    if i < |rows| - 1 {
      FirstRowOfSection(pre, i);
    } else {
      assert RowsOfSection(pre, rows[i].sectionId) == [];
    }
  }

  /** A section's own fields come from the first row that carries its id; later rows never
      overwrite them. */
  lemma RegroupSectionFromFirstRow(rows: seq<SectionRow>, i: int)
    requires 0 <= i < |rows|
    requires forall j :: 0 <= j < i ==> rows[j].sectionId != rows[i].sectionId
    ensures rows[i].sectionId in Regroup(rows)
    ensures Regroup(rows)[rows[i].sectionId].base == SectionModelOf(rows[i])
  {
    RegroupIsExpected(rows);
    FirstRowOfSection(rows, i);
  }

  /** Within one section: the questions are listed in the order their ids are first seen among the
      section's rows, their ids are pairwise distinct, each was built from the first row with its id
      in this section (so its section id is this section's), and its options are the options of the
      section's rows with its id, one per row, in row order, each pointing back at the question. */
  lemma RegroupSectionContents(rows: seq<SectionRow>, sid: int)
    requires sid in Regroup(rows)
    ensures Regroup(rows)[sid].base.id == sid
    ensures QuestionIdsOf(Regroup(rows)[sid].questions) == FirstSeenQuestionIds(RowsOfSection(rows, sid))
    ensures QuestionsWellFormed(Regroup(rows)[sid].questions, sid)
    ensures forall k :: 0 <= k < |Regroup(rows)[sid].questions| ==>
      Regroup(rows)[sid].questions[k] == ExpectedQuestion(RowsOfQuestion(RowsOfSection(rows, sid), Regroup(rows)[sid].questions[k].base.id))
  {
    RegroupIsExpected(rows);
    ExpectedSectionShape(RowsOfSection(rows, sid), sid);
  }

  /** The ids of a list of questions, in order. */
  function QuestionIdsOf(qs: seq<QuestionResponse>): (ids: seq<int>)
    ensures |ids| == |qs| && forall k :: 0 <= k < |qs| ==> ids[k] == qs[k].base.id
  {
    seq(|qs|, k requires 0 <= k < |qs| => qs[k].base.id)
  }

  /** Distinct question ids, every question in section `sid`, every option pointing at its question. */
  predicate QuestionsWellFormed(qs: seq<QuestionResponse>, sid: int) {
    && (forall j, k :: 0 <= j < k < |qs| ==> qs[j].base.id != qs[k].base.id)
    && (forall k :: 0 <= k < |qs| ==> qs[k].base.sectionId == sid)
    && (forall k, o :: 0 <= k < |qs| && 0 <= o < |qs[k].options| ==> qs[k].options[o].base.questionId == qs[k].base.id)
  }

  lemma ExpectedSectionShape(srows: seq<SectionRow>, sid: int)
    requires srows != []
    requires forall k :: 0 <= k < |srows| ==> srows[k].sectionId == sid
    ensures ExpectedSection(srows).base.id == sid
    ensures QuestionIdsOf(ExpectedSection(srows).questions) == FirstSeenQuestionIds(srows)
    ensures QuestionsWellFormed(ExpectedSection(srows).questions, sid)
    ensures forall k :: 0 <= k < |ExpectedSection(srows).questions| ==>
      ExpectedSection(srows).questions[k] == ExpectedQuestion(RowsOfQuestion(srows, ExpectedSection(srows).questions[k].base.id))
  {
    var qs := ExpectedSection(srows).questions;
    var ids := FirstSeenQuestionIds(srows);
    forall k | 0 <= k < |qs|
      ensures qs[k].base.id == ids[k] && qs[k].base.sectionId == sid
    {
      var qrows := RowsOfQuestion(srows, ids[k]);
      assert qrows[0] in srows;
    }
    forall k, o | 0 <= k < |qs| && 0 <= o < |qs[k].options|
      ensures qs[k].options[o].base.questionId == qs[k].base.id
    {
      var qrows := RowsOfQuestion(srows, ids[k]);
      MapSeqIndex(OptionOf, qrows);
      assert qs[k].options[o] == OptionOf(qrows[o]);
    }
  }

  // ---- every row adds exactly one option ----

  /** The number of options of a list of questions. */
  function OptionCount(qs: seq<QuestionResponse>): nat {
    if qs == [] then 0 else OptionCount(qs[..|qs| - 1]) + |qs[|qs| - 1].options|
  }

  /** Appending one option to one question adds one to the count. */
  lemma {:induction false} OptionCountBump(qs: seq<QuestionResponse>, i: int, o: OptionResponseModel)
    requires 0 <= i < |qs|
    ensures OptionCount(qs[i := qs[i].(options := qs[i].options + [o])]) == OptionCount(qs) + 1
  {
    var qs' := qs[i := qs[i].(options := qs[i].options + [o])];
    if i < |qs| - 1 {
      assert qs'[..|qs| - 1] == qs[..|qs| - 1][i := qs[i].(options := qs[i].options + [o])];
      OptionCountBump(qs[..|qs| - 1], i, o);
    } else {
      assert qs'[..|qs| - 1] == qs[..|qs| - 1];
    }
  }

  lemma AddRowToSectionCount(section: SectionResponse, row: SectionRow)
    ensures OptionCount(AddRowToSection(section, row).questions) == OptionCount(section.questions) + 1
  {
    var qs := section.questions;
    var i := FindQuestion(qs, row.questionId);
    if i < |qs| {
      OptionCountBump(qs, i, OptionOf(row));
    } else {
      var q := QuestionResponse(QuestionModelOf(row), [OptionOf(row)]);
      SnocPrefix(qs, q);
    }
  }

  /** The option count of every section of a map. */
  function Counts(m: map<int, SectionResponse>): map<int, nat> {
    map sid | sid in m :: OptionCount(m[sid].questions)
  }

  /** One row adds one to the total. */
  lemma AddRowCount(m: map<int, SectionResponse>, r: SectionRow)
    ensures Sum(Counts(AddRow(m, r))) == Sum(Counts(m)) + 1
  {
    var section := if r.sectionId in m then m[r.sectionId] else SectionResponse(SectionModelOf(r), []);
    AddRowToSectionCount(section, r);
    var c := Counts(m);
    var n := OptionCount(AddRowToSection(section, r).questions);
    assert Counts(AddRow(m, r)) == c[r.sectionId := n];
    SumUpdate(c, r.sectionId, n);
    if r.sectionId in m {
      SumRemove(c, r.sectionId);
    } else {
      assert c - {r.sectionId} == c;
    }
  }

  /** Every row appends exactly one option: across all sections there are as many options as rows. */
  lemma {:induction false} RegroupOptionTotal(rows: seq<SectionRow>)
    ensures Sum(Counts(Regroup(rows))) == |rows|
  {
    if rows == [] {
      assert Counts(map[]) == map[];
    } else {
      RegroupOptionTotal(rows[..|rows| - 1]);
      AddRowCount(Regroup(rows[..|rows| - 1]), rows[|rows| - 1]);
    }
  }
}
