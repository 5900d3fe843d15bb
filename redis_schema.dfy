/** The Redis key scheme and hash field names of db.rs (`RedisSchema`, db.rs:31-51). */
module RedisSchema {

  /** `exam_key` (db.rs:34-36). */
  function ExamKey(examId: string): string {
    "exam:" + examId
  }

  /** `question_key` (db.rs:38-40). */
  function QuestionKey(examId: string, questionId: string): string {
    "exam:" + examId + ":question:" + questionId
  }

  const FieldName := "name"
  const FieldDetails := "details"
  const FieldDuration := "duration"
  const FieldOptions := "options"
  const FieldCorrectOption := "correct_option"
  const FieldMarks := "marks"
  const FieldSection := "section"
  const FieldSectionId := "section_id"
  const FieldQuestionIds := "question_ids"

  /** The nine field names, in declaration order. */
  const Fields: seq<string> := [FieldName, FieldDetails, FieldDuration, FieldOptions, FieldCorrectOption,
                                FieldMarks, FieldSection, FieldSectionId, FieldQuestionIds]

  /** No two field constants are the same string, so no two fields of a hash overwrite each other. */
  lemma FieldsDistinct()
    ensures |Fields| == 9
    ensures forall i, j :: 0 <= i < j < |Fields| ==> Fields[i] != Fields[j]
  {
  }

  /** A question key is its exam's key followed by ":question:" and the question id; in
      particular the exam key followed by ':' is a prefix of it. */
  lemma QuestionKeyExtendsExamKey(examId: string, questionId: string)
    ensures QuestionKey(examId, questionId) == ExamKey(examId) + ":question:" + questionId
    ensures |ExamKey(examId)| < |QuestionKey(examId, questionId)|
    ensures QuestionKey(examId, questionId)[..|ExamKey(examId)| + 1] == ExamKey(examId) + ":"
  {
    var k := QuestionKey(examId, questionId);
    assert k == ExamKey(examId) + ":" + ("question:" + questionId);
  }

  /** When exam ids contain no ':', a question key names its exam and question uniquely. */
  lemma QuestionKeyInjective(e1: string, q1: string, e2: string, q2: string)
    requires ':' !in e1 && ':' !in e2
    requires QuestionKey(e1, q1) == QuestionKey(e2, q2)
    ensures e1 == e2 && q1 == q2
  {
    var k := QuestionKey(e1, q1);
    FirstColonAfterPrefix(e1, q1);
    FirstColonAfterPrefix(e2, q2);
    assert |e1| == |e2|;
    assert e1 == k[5..5 + |e1|] == e2;
    assert q1 == k[5 + |e1| + 10..] == q2;
  }

  /** In a question key whose exam id has no ':', the first ':' after "exam:" ends the exam id. */
  lemma FirstColonAfterPrefix(examId: string, questionId: string)
    requires ':' !in examId
    ensures forall i :: 5 <= i < 5 + |examId| ==> QuestionKey(examId, questionId)[i] != ':'
    ensures QuestionKey(examId, questionId)[5 + |examId|] == ':'
  {
    var k := QuestionKey(examId, questionId);
    forall i | 5 <= i < 5 + |examId|
      ensures k[i] != ':'
    {
      assert k[i] == examId[i - 5];
    }
  }

  /** Without the restriction on exam ids the keys collide: exam "a" with question "b:question:c"
      and exam "a:question:b" with question "c" share a key. */
  lemma QuestionKeyCollision()
    ensures QuestionKey("a", "b:question:c") == QuestionKey("a:question:b", "c")
  {
  }

  /** Two question keys of the same exam are equal exactly when their question ids are. */
  lemma QuestionKeyDistinct(examId: string, q1: string, q2: string)
    ensures QuestionKey(examId, q1) == QuestionKey(examId, q2) <==> q1 == q2
  {
    var p := QuestionKey(examId, "");
    assert QuestionKey(examId, q1) == p + q1 && QuestionKey(examId, q2) == p + q2;
    assert (p + q1)[|p|..] == q1 && (p + q2)[|p|..] == q2;
  }
}
