/** The control flow of routes/edit.rs (the older sea_orm path): `generate_final_response`,
    `delete_query`, `delete` and `edit_exam`. None of these runs inside a transaction, so a
    statement that went through stays applied when a later one fails. The three `update_*`
    functions are modelled only as one statement each whose resulting table is a parameter;
    `DeletionData::new` and `filter_deletions`, which are not part of this model, are one opaque
    function `prepare` from the requested ids and the fetched id triples to the ids deleted. */
module EditRoute {
  import opened Wrappers
  import opened Seqs
  import opened Schema
  import opened Models
  import opened Store
  import opened DeleteRequest

  // ---- generate_final_response (edit.rs:80-87) ----

  /** One `(section, question, option)` id triple of the left-joined id query; any may be NULL. */
  type IdTriple = (Option<int>, Option<int>, Option<int>)

  function ZeroMissing(t: IdTriple): (int, int, int) {
    (t.0.UnwrapOr(0), t.1.UnwrapOr(0), t.2.UnwrapOr(0))
  }

  /** Every triple with each `None` replaced by 0. */
  function GenerateFinalResponse(input: seq<IdTriple>): (out: seq<(int, int, int)>)
    ensures |out| == |input|
  {
    MapSeq(ZeroMissing, input)
  }

  /** Position by position, a present id is kept and a missing one becomes 0. */
  lemma GenerateFinalResponseSpec(input: seq<IdTriple>)
    ensures forall k :: 0 <= k < |input| ==>
      && GenerateFinalResponse(input)[k].0 == (if input[k].0.Some? then input[k].0.value else 0)
      && GenerateFinalResponse(input)[k].1 == (if input[k].1.Some? then input[k].1.value else 0)
      && GenerateFinalResponse(input)[k].2 == (if input[k].2.Some? then input[k].2.value else 0)
  {
    MapSeqIndex(ZeroMissing, input);
  }

  /** The result of a concatenation is the concatenation of the results: order is kept. */
  lemma GenerateFinalResponseAppend(a: seq<IdTriple>, b: seq<IdTriple>)
    ensures GenerateFinalResponse(a + b) == GenerateFinalResponse(a) + GenerateFinalResponse(b)
  {
    MapSeqAppend(ZeroMissing, a, b);
  }

  /** The example of the doc comment at edit.rs:72-78. */
  lemma GenerateFinalResponseExample()
    ensures GenerateFinalResponse([(Some(1), Some(2), Some(3)), (Some(4), None, Some(6)), (None, None, None)])
         == [(1, 2, 3), (4, 0, 6), (0, 0, 0)]
  {
    var input: seq<IdTriple> := [(Some(1), Some(2), Some(3)), (Some(4), None, Some(6)), (None, None, None)];
    GenerateFinalResponseSpec(input);
  }

  // ---- statement order ----

  /** The position of each statement kind in the edit flow: updates, then the id fetch, then the
      deletes. */
  function StepRank(s: Stmt): int {
    match s
    case UpdateSections => 0
    case UpdateQuestions => 1
    case UpdateOptions => 2
    case FetchIds => 3
    case DeleteSections => 4
    case DeleteQuestions => 5
    case DeleteOptions => 6
    case _ => 7
  }

  /** Statements strictly in flow order (so also pairwise distinct), all ranked in [lo, hi). */
  predicate InFlowOrder(order: seq<Stmt>, lo: int, hi: int) {
    && (forall i, j :: 0 <= i < j < |order| ==> StepRank(order[i]) < StepRank(order[j]))
    && (forall i :: 0 <= i < |order| ==> lo <= StepRank(order[i]) < hi)
  }

  lemma InFlowOrderAppend(a: seq<Stmt>, b: seq<Stmt>, lo: int, mid: int, hi: int)
    requires lo <= mid <= hi
    requires InFlowOrder(a, lo, mid) && InFlowOrder(b, mid, hi)
    ensures InFlowOrder(a + b, lo, hi)
  {
    forall i | 0 <= i < |a + b|
      ensures lo <= StepRank((a + b)[i]) < hi
    {
      if i < |a| {
        assert (a + b)[i] == a[i];
      } else {
        assert (a + b)[i] == b[i - |a|];
      }
    }
    forall i, j | 0 <= i < j < |a + b|
      ensures StepRank((a + b)[i]) < StepRank((a + b)[j])
    {
      if j < |a| {
      } else if i < |a| {
        assert StepRank((a + b)[i]) < mid <= StepRank(b[j - |a|]);
      } else {
        assert (a + b)[i] == b[i - |a|];
      }
    }
  }

  /** A statement ranked outside [lo, hi) is not in a run ranked inside it. */
  lemma OutsideRanks(order: seq<Stmt>, lo: int, hi: int, s: Stmt)
    requires InFlowOrder(order, lo, hi)
    requires StepRank(s) < lo || hi <= StepRank(s)
    ensures s !in order
  {
  }

  /** A statement that runs only when its list is non-empty (`if !x.is_empty()`). */
  function Step(s: Stmt, nonEmpty: bool): seq<Stmt> {
    if nonEmpty then [s] else []
  }

  lemma StepInFlowOrder(s: Stmt, nonEmpty: bool)
    ensures InFlowOrder(Step(s, nonEmpty), StepRank(s), StepRank(s) + 1)
  {
  }

  lemma StepMembers(x: Stmt, nonEmpty: bool)
    ensures forall s :: s in Step(x, nonEmpty) <==> nonEmpty && s == x
  {
  }

  /** Three conditional statements of consecutive ranks are issued in flow order. */
  lemma ThreeStepsInFlow(x: Stmt, y: Stmt, z: Stmt, a: bool, b: bool, c: bool)
    requires StepRank(y) == StepRank(x) + 1 && StepRank(z) == StepRank(y) + 1
    ensures InFlowOrder(Step(x, a) + Step(y, b) + Step(z, c), StepRank(x), StepRank(z) + 1)
  {
    StepInFlowOrder(x, a);
    StepInFlowOrder(y, b);
    StepInFlowOrder(z, c);
    InFlowOrderAppend(Step(x, a), Step(y, b), StepRank(x), StepRank(y), StepRank(z));
    InFlowOrderAppend(Step(x, a) + Step(y, b), Step(z, c), StepRank(x), StepRank(z), StepRank(z) + 1);
  }

  /** A conditional statement is issued when its condition holds, and then decides the outcome. */
  lemma StepRun(x: Stmt, nonEmpty: bool, faults: set<Stmt>)
    ensures Executed(Step(x, nonEmpty), faults) == Step(x, nonEmpty)
    ensures Outcome(Step(x, nonEmpty), faults) == if nonEmpty && x in faults then Err(x) else Ok(())
    ensures forall s :: Applied(s, Step(x, nonEmpty), faults) <==> nonEmpty && s == x && x !in faults
    ensures forall s :: s in Step(x, nonEmpty) <==> nonEmpty && s == x
  {
    RunOne(x, faults);
    forall s
      ensures Applied(s, Step(x, nonEmpty), faults) <==> nonEmpty && s == x && x !in faults
    {
      AppliedOne(s, x, faults);
    }
  }

  /** The three conditional steps run one after the other. */
  lemma ThreeSteps(a: seq<Stmt>, b: seq<Stmt>, c: seq<Stmt>, faults: set<Stmt>)
    ensures Outcome(a + b, faults).Ok? <==> Outcome(a, faults).Ok? && Outcome(b, faults).Ok?
    ensures forall s :: Applied(s, a + b + c, faults) <==>
      Applied(s, a, faults) || (Outcome(a, faults).Ok? && Applied(s, b, faults))
      || (Outcome(a, faults).Ok? && Outcome(b, faults).Ok? && Applied(s, c, faults))
  {
    RunAppend(a, b, faults);
    forall s
      ensures Applied(s, a + b + c, faults) <==>
        Applied(s, a, faults) || (Outcome(a, faults).Ok? && Applied(s, b, faults))
        || (Outcome(a, faults).Ok? && Outcome(b, faults).Ok? && Applied(s, c, faults))
    {
      AppliedAppend(s, a + b, c, faults);
      AppliedAppend(s, a, b, faults);
    }
  }

  // ---- delete_query (edit.rs:130-171) ----

  /** The deletes `delete_query` issues for the (already filtered) ids. */
  function DeleteQueryOrder(ids: DeleteIdsRequest): seq<Stmt> {
    Step(DeleteSections, ids.sectionIds != []) + Step(DeleteQuestions, ids.questionIds != [])
      + Step(DeleteOptions, ids.optionIds != [])
  }

  /** A delete is issued exactly when its list is non-empty; with nothing to delete nothing is
      issued. */
  lemma DeleteQueryOrderMembers(ids: DeleteIdsRequest)
    ensures DeleteSections in DeleteQueryOrder(ids) <==> ids.sectionIds != []
    ensures DeleteQuestions in DeleteQueryOrder(ids) <==> ids.questionIds != []
    ensures DeleteOptions in DeleteQueryOrder(ids) <==> ids.optionIds != []
    ensures DeleteQueryOrder(ids) == [] <==> IsAllEmpty(ids)
  {
    StepMembers(DeleteSections, ids.sectionIds != []);
    StepMembers(DeleteQuestions, ids.questionIds != []);
    StepMembers(DeleteOptions, ids.optionIds != []);
  }

  /** The deletes come sections, then questions, then options. */
  lemma DeleteQueryOrderInFlow(ids: DeleteIdsRequest)
    ensures InFlowOrder(DeleteQueryOrder(ids), 4, 7)
  {
    ThreeStepsInFlow(DeleteSections, DeleteQuestions, DeleteOptions, ids.sectionIds != [], ids.questionIds != [], ids.optionIds != []);
  }

  /** The deletes, each only when its list is non-empty, stopping at the first error; with no
      transaction, each delete that went through stays. */
  method DeleteQuery(db: Store, ids: DeleteIdsRequest, faults: set<Stmt>) returns (r: Result<(), Stmt>)
    modifies db`sections, db`questions, db`options, db`trace
    ensures r == Outcome(DeleteQueryOrder(ids), faults)
    ensures db.trace == old(db.trace) + Executed(DeleteQueryOrder(ids), faults)
    ensures db.sections == if Applied(DeleteSections, DeleteQueryOrder(ids), faults) then DeleteWhereIn(old(db.sections), ids.sectionIds) else old(db.sections)
    ensures db.questions == if Applied(DeleteQuestions, DeleteQueryOrder(ids), faults) then DeleteWhereIn(old(db.questions), ids.questionIds) else old(db.questions)
    ensures db.options == if Applied(DeleteOptions, DeleteQueryOrder(ids), faults) then DeleteWhereIn(old(db.options), ids.optionIds) else old(db.options)
  {
    ghost var pre := db.trace;
    ghost var a, b, c := Step(DeleteSections, ids.sectionIds != []), Step(DeleteQuestions, ids.questionIds != []),
                         Step(DeleteOptions, ids.optionIds != []);
    RunSeq(pre, a + b, c, faults);
    RunSeq(pre, a, b, faults);
    DeleteQueryApplied(ids, faults);
    if ids.sectionIds != [] {
      RunOne(DeleteSections, faults);
      var ok := db.DeleteSectionsIn(ids.sectionIds, faults);
      if !ok {
        return Err(DeleteSections);
      }
    }
    if ids.questionIds != [] {
      RunOne(DeleteQuestions, faults);
      var ok := db.DeleteQuestionsIn(ids.questionIds, faults);
      if !ok {
        return Err(DeleteQuestions);
      }
    }
    if ids.optionIds != [] {
      RunOne(DeleteOptions, faults);
      var ok := db.DeleteOptionsIn(ids.optionIds, faults);
      if !ok {
        return Err(DeleteOptions);
      }
    }
    return Ok(());
  }

  /** Which deletes of `delete_query` take effect: each one whose list is non-empty, provided it
      and every earlier issued delete went through. */
  lemma DeleteQueryApplied(ids: DeleteIdsRequest, faults: set<Stmt>)
    ensures Applied(DeleteSections, DeleteQueryOrder(ids), faults) <==> ids.sectionIds != [] && DeleteSections !in faults
    ensures Applied(DeleteQuestions, DeleteQueryOrder(ids), faults) <==>
      ids.questionIds != [] && DeleteQuestions !in faults && (ids.sectionIds != [] ==> DeleteSections !in faults)
    ensures Applied(DeleteOptions, DeleteQueryOrder(ids), faults) <==>
      ids.optionIds != [] && DeleteOptions !in faults && (ids.sectionIds != [] ==> DeleteSections !in faults)
      && (ids.questionIds != [] ==> DeleteQuestions !in faults)
  {
    StepRun(DeleteSections, ids.sectionIds != [], faults);
    StepRun(DeleteQuestions, ids.questionIds != [], faults);
    StepRun(DeleteOptions, ids.optionIds != [], faults);
    ThreeSteps(Step(DeleteSections, ids.sectionIds != []), Step(DeleteQuestions, ids.questionIds != []),
               Step(DeleteOptions, ids.optionIds != []), faults);
  }

  // ---- delete (edit.rs:210-231) ----

  /** What `delete` ends up deleting: `prepare` (`DeletionData::new` followed by
      `filter_deletions`) applied to the requested ids and the fetched triples with NULLs as 0. */
  function DeleteIds(requested: DeleteIdsRequest, fetched: seq<IdTriple>,
                     prepare: (DeleteIdsRequest, seq<(int, int, int)>) -> DeleteIdsRequest): DeleteIdsRequest {
    prepare(requested, GenerateFinalResponse(fetched))
  }

  /** The statements `delete` issues when it ends up deleting `ids`: the id fetch, then the
      deletes. */
  function DeleteOrder(ids: DeleteIdsRequest): seq<Stmt> {
    [FetchIds] + DeleteQueryOrder(ids)
  }

  /** `delete`: fetch the exam's id triples (`fetched` is what the query returns when it does not
      fail), then `delete_query`. A failed fetch deletes nothing. */
  method Delete(db: Store, requested: DeleteIdsRequest, fetched: seq<IdTriple>,
                prepare: (DeleteIdsRequest, seq<(int, int, int)>) -> DeleteIdsRequest, faults: set<Stmt>)
    returns (r: Result<(), Stmt>)
    modifies db`sections, db`questions, db`options, db`trace
    ensures r == Outcome(DeleteOrder(DeleteIds(requested, fetched, prepare)), faults)
    ensures db.trace == old(db.trace) + Executed(DeleteOrder(DeleteIds(requested, fetched, prepare)), faults)
    ensures FetchIds in faults ==> db.State() == old(db.State())
    ensures FetchIds !in faults ==>
      var ids := DeleteIds(requested, fetched, prepare);
      && db.sections == (if Applied(DeleteSections, DeleteQueryOrder(ids), faults) then DeleteWhereIn(old(db.sections), ids.sectionIds) else old(db.sections))
      && db.questions == (if Applied(DeleteQuestions, DeleteQueryOrder(ids), faults) then DeleteWhereIn(old(db.questions), ids.questionIds) else old(db.questions))
      && db.options == (if Applied(DeleteOptions, DeleteQueryOrder(ids), faults) then DeleteWhereIn(old(db.options), ids.optionIds) else old(db.options))
  {
    ghost var pre := db.trace;
    RunSeq(pre, [FetchIds], DeleteQueryOrder(DeleteIds(requested, fetched, prepare)), faults);
    RunOne(FetchIds, faults);
    var ok := db.Exec(FetchIds, faults);
    if !ok {
      return Err(FetchIds);
    }
    var finalResponses := GenerateFinalResponse(fetched);
    var ids := prepare(requested, finalResponses);
    r := DeleteQuery(db, ids, faults);
  }

  // ---- edit_exam (edit.rs:458-483) ----

  /** `models::EditExam` as `edit_exam` and `delete` use it (its definition is not part of this
      model). */
  datatype EditExam = EditExam(
    examId: ExamId,
    sections: seq<Section>,
    questions: seq<Question>,
    options: seq<OptionItem>,
    delete: DeleteIdsRequest)

  /** The three updates, each only when its list is non-empty. */
  function UpdateOrder(req: EditExam): seq<Stmt> {
    Step(UpdateSections, req.sections != []) + Step(UpdateQuestions, req.questions != [])
      + Step(UpdateOptions, req.options != [])
  }

  /** The statements `edit_exam` issues: the updates, then, unless there is nothing to delete,
      the deletion. */
  function EditOrder(req: EditExam, deleteIds: DeleteIdsRequest): seq<Stmt> {
    UpdateOrder(req) + (if IsAllEmpty(req.delete) then [] else DeleteOrder(deleteIds))
  }

  /** Each update is issued exactly when its list is non-empty, and nothing else is. */
  lemma UpdateOrderMembers(req: EditExam)
    ensures UpdateSections in UpdateOrder(req) <==> req.sections != []
    ensures UpdateQuestions in UpdateOrder(req) <==> req.questions != []
    ensures UpdateOptions in UpdateOrder(req) <==> req.options != []
    ensures FetchIds !in UpdateOrder(req)
  {
    StepMembers(UpdateSections, req.sections != []);
    StepMembers(UpdateQuestions, req.questions != []);
    StepMembers(UpdateOptions, req.options != []);
  }

  /** The updates come sections, questions, options. */
  lemma UpdateOrderInFlow(req: EditExam)
    ensures InFlowOrder(UpdateOrder(req), 0, 3)
  {
    ThreeStepsInFlow(UpdateSections, UpdateQuestions, UpdateOptions, req.sections != [], req.questions != [], req.options != []);
  }

  /** The deletion path starts with the id fetch and then runs the deletes in order. */
  lemma DeleteOrderInFlow(ids: DeleteIdsRequest)
    ensures InFlowOrder(DeleteOrder(ids), 3, 7)
    ensures DeleteOrder(ids)[0] == FetchIds
  {
    DeleteQueryOrderInFlow(ids);
    assert InFlowOrder([FetchIds], 3, 4);
    InFlowOrderAppend([FetchIds], DeleteQueryOrder(ids), 3, 4, 7);
  }

  /** Each update runs exactly when its list is non-empty, and the deletion (which starts with
      the id fetch) exactly when the delete payload is not all empty. */
  lemma EditOrderMembers(req: EditExam, deleteIds: DeleteIdsRequest)
    ensures UpdateSections in EditOrder(req, deleteIds) <==> req.sections != []
    ensures UpdateQuestions in EditOrder(req, deleteIds) <==> req.questions != []
    ensures UpdateOptions in EditOrder(req, deleteIds) <==> req.options != []
    ensures FetchIds in EditOrder(req, deleteIds) <==> !IsAllEmpty(req.delete)
  {
    var tail := if IsAllEmpty(req.delete) then [] else DeleteOrder(deleteIds);
    assert EditOrder(req, deleteIds) == UpdateOrder(req) + tail;
    UpdateOrderMembers(req);
    DeleteOrderMembers(deleteIds);
  }

  /** The deletion path holds the id fetch and no update. */
  lemma DeleteOrderMembers(ids: DeleteIdsRequest)
    ensures FetchIds in DeleteOrder(ids)
    ensures UpdateSections !in DeleteOrder(ids) && UpdateQuestions !in DeleteOrder(ids) && UpdateOptions !in DeleteOrder(ids)
  {
    DeleteOrderInFlow(ids);
    OutsideRanks(DeleteOrder(ids), 3, 7, UpdateSections);
    OutsideRanks(DeleteOrder(ids), 3, 7, UpdateQuestions);
    OutsideRanks(DeleteOrder(ids), 3, 7, UpdateOptions);
  }

  /** Everything comes in flow order: the sections, questions and options updates, then the id
      fetch, then the deletes; so the deletion runs after all updates. */
  lemma EditOrderInFlow(req: EditExam, deleteIds: DeleteIdsRequest)
    ensures InFlowOrder(EditOrder(req, deleteIds), 0, 7)
  {
    var tail := if IsAllEmpty(req.delete) then [] else DeleteOrder(deleteIds);
    UpdateOrderInFlow(req);
    if !IsAllEmpty(req.delete) {
      DeleteOrderInFlow(deleteIds);
    }
    InFlowOrderAppend(UpdateOrder(req), tail, 0, 3, 7);
  }

  /** `edit_exam`: the conditional updates in order, then the conditional deletion, the first
      error returned and nothing after it run. `newSections`, `newQuestions` and `newOptions` are
      the tables the updates leave. */
  method EditExamRoute(db: Store, req: EditExam, fetched: seq<IdTriple>,
                       prepare: (DeleteIdsRequest, seq<(int, int, int)>) -> DeleteIdsRequest,
                       newSections: map<int, SectionsModel>, newQuestions: map<int, QuestionsModel>,
                       newOptions: map<int, OptionsModel>, faults: set<Stmt>)
    returns (r: Result<(), Stmt>)
    modifies db`sections, db`questions, db`options, db`trace
    ensures r == Outcome(EditOrder(req, DeleteIds(req.delete, fetched, prepare)), faults)
    ensures db.trace == old(db.trace) + Executed(EditOrder(req, DeleteIds(req.delete, fetched, prepare)), faults)
    ensures var ids := DeleteIds(req.delete, fetched, prepare);
      var order := EditOrder(req, ids);
      && db.sections == Edited(old(db.sections), newSections, UpdateSections, DeleteSections, ids.sectionIds, order, faults)
      && db.questions == Edited(old(db.questions), newQuestions, UpdateQuestions, DeleteQuestions, ids.questionIds, order, faults)
      && db.options == Edited(old(db.options), newOptions, UpdateOptions, DeleteOptions, ids.optionIds, order, faults)
  {
    ghost var pre := db.trace;
    ghost var ids := DeleteIds(req.delete, fetched, prepare);
    ghost var tail := if IsAllEmpty(req.delete) then [] else DeleteOrder(ids);
    RunSeq(pre, UpdateOrder(req), tail, faults);
    EditAppliedPair(UpdateSections, DeleteSections, req, ids, faults);
    EditAppliedPair(UpdateQuestions, DeleteQuestions, req, ids, faults);
    EditAppliedPair(UpdateOptions, DeleteOptions, req, ids, faults);
    r := Updates(db, req, newSections, newQuestions, newOptions, faults);
    if r.Err? {
      return;
    }
    if !IsAllEmpty(req.delete) {
      r := Delete(db, req.delete, fetched, prepare, faults);
    } else {
      assert Executed([], faults) == [] && Outcome([], faults) == Ok(());
    }
  }

  /** A table after `edit_exam`: the update's result if the update took effect, then the
      deletion of `deleted` from it if the delete took effect. */
  function Edited<R>(before: map<int, R>, updated: map<int, R>, update: Stmt, delete: Stmt, deleted: seq<int>,
                     order: seq<Stmt>, faults: set<Stmt>): map<int, R> {
    var t := if Applied(update, order, faults) then updated else before;
    if Applied(delete, order, faults) then DeleteWhereIn(t, deleted) else t
  }

  /** `EditApplied` for the update and the delete of one table. */
  lemma EditAppliedPair(u: Stmt, d: Stmt, req: EditExam, ids: DeleteIdsRequest, faults: set<Stmt>)
    requires || (u == UpdateSections && d == DeleteSections)
             || (u == UpdateQuestions && d == DeleteQuestions)
             || (u == UpdateOptions && d == DeleteOptions)
    ensures Applied(u, EditOrder(req, ids), faults) <==> Applied(u, UpdateOrder(req), faults)
    ensures Applied(d, EditOrder(req, ids), faults) <==>
      Outcome(UpdateOrder(req), faults).Ok? && !IsAllEmpty(req.delete) && FetchIds !in faults && Applied(d, DeleteQueryOrder(ids), faults)
  {
    DeleteOrderMembers(ids);
    StepMembers(UpdateSections, req.sections != []);
    StepMembers(UpdateQuestions, req.questions != []);
    StepMembers(UpdateOptions, req.options != []);
    assert d !in UpdateOrder(req);
    EditApplied(u, req, ids, faults);
    EditApplied(d, req, ids, faults);
  }

  /** An update takes effect in `edit_exam` exactly when it does among the updates; a delete
      takes effect exactly when every update went through, there is something to delete, the id
      fetch went through, and it takes effect in `delete_query`. */
  lemma EditApplied(s: Stmt, req: EditExam, ids: DeleteIdsRequest, faults: set<Stmt>)
    ensures s !in DeleteOrder(ids) ==> (Applied(s, EditOrder(req, ids), faults) <==> Applied(s, UpdateOrder(req), faults))
    ensures s !in UpdateOrder(req) && s != FetchIds ==>
      (Applied(s, EditOrder(req, ids), faults) <==>
        Outcome(UpdateOrder(req), faults).Ok? && !IsAllEmpty(req.delete) && FetchIds !in faults && Applied(s, DeleteQueryOrder(ids), faults))
  {
    var tail := if IsAllEmpty(req.delete) then [] else DeleteOrder(ids);
    assert EditOrder(req, ids) == UpdateOrder(req) + tail;
    AppliedAppend(s, UpdateOrder(req), tail, faults);
    AppliedAppend(s, [FetchIds], DeleteQueryOrder(ids), faults);
    AppliedOne(s, FetchIds, faults);
    RunOne(FetchIds, faults);
    if Applied(s, tail, faults) {
      AppliedInOrder(s, tail, faults);
    }
    if Applied(s, UpdateOrder(req), faults) {
      AppliedInOrder(s, UpdateOrder(req), faults);
    }
  }

  /** The three conditional updates of edit.rs:463-475. */
  method Updates(db: Store, req: EditExam, newSections: map<int, SectionsModel>, newQuestions: map<int, QuestionsModel>,
                 newOptions: map<int, OptionsModel>, faults: set<Stmt>)
    returns (r: Result<(), Stmt>)
    modifies db`sections, db`questions, db`options, db`trace
    ensures r == Outcome(UpdateOrder(req), faults)
    ensures db.trace == old(db.trace) + Executed(UpdateOrder(req), faults)
    ensures db.sections == if Applied(UpdateSections, UpdateOrder(req), faults) then newSections else old(db.sections)
    ensures db.questions == if Applied(UpdateQuestions, UpdateOrder(req), faults) then newQuestions else old(db.questions)
    ensures db.options == if Applied(UpdateOptions, UpdateOrder(req), faults) then newOptions else old(db.options)
  {
    ghost var pre := db.trace;
    ghost var a, b, c := Step(UpdateSections, req.sections != []), Step(UpdateQuestions, req.questions != []),
                         Step(UpdateOptions, req.options != []);
    RunSeq(pre, a + b, c, faults);
    RunSeq(pre, a, b, faults);
    UpdateOrderApplied(req, faults);
    if req.sections != [] {
      RunOne(UpdateSections, faults);
      var ok := db.UpdateSectionsTo(newSections, faults);
      if !ok {
        return Err(UpdateSections);
      }
    }
    if req.questions != [] {
      RunOne(UpdateQuestions, faults);
      var ok := db.UpdateQuestionsTo(newQuestions, faults);
      if !ok {
        return Err(UpdateQuestions);
      }
    }
    if req.options != [] {
      RunOne(UpdateOptions, faults);
      var ok := db.UpdateOptionsTo(newOptions, faults);
      if !ok {
        return Err(UpdateOptions);
      }
    }
    return Ok(());
  }

  /** Which updates of `edit_exam` take effect: each one whose list is non-empty, provided it and
      every earlier issued update went through. */
  lemma UpdateOrderApplied(req: EditExam, faults: set<Stmt>)
    ensures Applied(UpdateSections, UpdateOrder(req), faults) <==> req.sections != [] && UpdateSections !in faults
    ensures Applied(UpdateQuestions, UpdateOrder(req), faults) <==>
      req.questions != [] && UpdateQuestions !in faults && (req.sections != [] ==> UpdateSections !in faults)
    ensures Applied(UpdateOptions, UpdateOrder(req), faults) <==>
      req.options != [] && UpdateOptions !in faults && (req.sections != [] ==> UpdateSections !in faults)
      && (req.questions != [] ==> UpdateQuestions !in faults)
  {
    StepRun(UpdateSections, req.sections != [], faults);
    StepRun(UpdateQuestions, req.questions != [], faults);
    StepRun(UpdateOptions, req.options != [], faults);
    ThreeSteps(Step(UpdateSections, req.sections != []), Step(UpdateQuestions, req.questions != []),
               Step(UpdateOptions, req.options != []), faults);
  }
}
