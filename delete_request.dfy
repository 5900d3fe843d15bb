/** `DeleteIdsRequest::is_all_empty` (model/delete.rs:11-15; model/request.rs:58-62 is a copy). */
module DeleteRequest {
  import opened Schema

  /** True exactly when there is nothing to delete. */
  function IsAllEmpty(req: DeleteIdsRequest): (b: bool)
    ensures b <==> |req.sectionIds| + |req.questionIds| + |req.optionIds| == 0
    ensures !b <==> req.sectionIds != [] || req.questionIds != [] || req.optionIds != []
  {
    req.sectionIds == [] && req.questionIds == [] && req.optionIds == []
  }

  /** Only the lengths of the three lists matter, never the ids in them. */
  lemma IsAllEmptyByLengths(a: DeleteIdsRequest, b: DeleteIdsRequest)
    requires |a.sectionIds| == |b.sectionIds| && |a.questionIds| == |b.questionIds| && |a.optionIds| == |b.optionIds|
    ensures IsAllEmpty(a) == IsAllEmpty(b)
  {
  }
}
