/** The row-to-response conversions of model/response.rs:6-23 (model/exam.rs:33-50 repeats them
    line for line). */
module Response {
  import opened Wrappers
  import opened Schema

  /** `From<ExamDescriptionModel> for ExamDescription`: every field copied, a missing description
      replaced by the empty string (`unwrap_or_default`). */
  function ToExamDescription(m: ExamDescriptionModel): (d: ExamDescription)
    ensures d.id == m.id && d.examId == m.examId && d.title == m.title
    ensures d.duration == m.duration && d.passingScore == m.passingScore
    ensures m.description.None? ==> d.description == ""
    ensures m.description.Some? ==> d.description == m.description.value
  {
    ExamDescription(m.id, m.examId, m.title, m.description.UnwrapOr(""), m.duration, m.passingScore)
  }

  /** `From<ExamModel> for ExamIdResponse`. */
  function ToExamIdResponse(m: ExamModel): (r: ExamIdResponse)
    ensures r.id == m.id
  {
    ExamIdResponse(m.id)
  }

  /** The row a response describes, with the description stored as present. */
  function FromExamDescription(d: ExamDescription): ExamDescriptionModel {
    ExamDescriptionModel(d.id, d.examId, d.title, Some(d.description), d.duration, d.passingScore)
  }

  /** A row with a description is recovered from its response; a row without one reads back as
      a row whose description is the empty string, so the conversion cannot tell the two apart. */
  lemma ExamDescriptionRoundTrip(m: ExamDescriptionModel)
    ensures m.description.Some? ==> FromExamDescription(ToExamDescription(m)) == m
    ensures m.description.None? ==> FromExamDescription(ToExamDescription(m)) == m.(description := Some(""))
    ensures ToExamDescription(m.(description := None)) == ToExamDescription(m.(description := Some("")))
  {
  }

  /** Different rows give different descriptions except for exactly that `None`/`Some("")` pair. */
  lemma ExamDescriptionInjective(m1: ExamDescriptionModel, m2: ExamDescriptionModel)
    requires ToExamDescription(m1) == ToExamDescription(m2)
    ensures m1.(description := None) == m2.(description := None)
    ensures m1.description.UnwrapOr("") == m2.description.UnwrapOr("")
  {
  }

  /** The id response loses nothing: the row is recovered from it. */
  lemma ExamIdRoundTrip(m: ExamModel)
    ensures ExamModel(ToExamIdResponse(m).id) == m
  {
  }
}
