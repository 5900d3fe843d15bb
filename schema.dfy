/** The shapes of the exam tree: the table rows of database/schema.rs, the request and response
    wrappers of model/request.rs, model/response.rs, model/section.rs, model/question.rs and
    model/option.rs, and the older request types of models.rs. Rust's `i32` columns are `int`
    here; no value in this layer is computed, so their width plays no part. */
module Schema {
  import opened Wrappers

  // ---- table rows (database/schema.rs) ----

  datatype ExamModel = ExamModel(id: int)

  datatype ExamDescriptionModel = ExamDescriptionModel(
    id: int,
    examId: int,
    title: string,
    description: Option<string>,
    duration: int,
    passingScore: int)

  datatype CorrectOptionModel = CorrectOptionModel(optionId: int)

  datatype OptionsModel = OptionsModel(
    id: int,
    questionId: int,
    text: string,
    isCorrect: Option<bool>)

  datatype QuestionsModel = QuestionsModel(
    id: int,
    sectionId: int,
    text: string,
    description: Option<string>,
    marks: int)

  datatype SectionsModel = SectionsModel(id: int, detailsId: int, title: string)

  /** One row of the section/question/option join that the read path regroups. */
  datatype SectionRow = SectionRow(
    sectionId: int,
    sectionTitle: string,
    sectionDetailsId: int,
    questionId: int,
    questionText: string,
    questionDescription: Option<string>,
    questionMarks: int,
    optionId: int,
    optionText: string,
    optionIsCorrect: Option<bool>)

  // ---- responses (model/response.rs; model/exam.rs repeats the same shapes) ----

  datatype OptionResponseModel = OptionResponseModel(base: OptionsModel)

  datatype QuestionResponse = QuestionResponse(base: QuestionsModel, options: seq<OptionResponseModel>)

  datatype SectionResponse = SectionResponse(base: SectionsModel, questions: seq<QuestionResponse>)

  datatype ExamDescription = ExamDescription(
    id: int,
    examId: int,
    title: string,
    description: string,
    duration: int,
    passingScore: int)

  datatype ExamIdResponse = ExamIdResponse(id: int)

  datatype ExamResponse = ExamResponse(
    examId: ExamIdResponse,
    description: ExamDescription,
    sections: seq<SectionResponse>)

  // ---- requests (model/request.rs, model/exam.rs) ----

  datatype OptionRequestModel = OptionRequestModel(base: OptionsModel)

  datatype QuestionRequest = QuestionRequest(base: QuestionsModel, options: seq<OptionRequestModel>)

  datatype SectionRequest = SectionRequest(base: SectionsModel, questions: seq<QuestionRequest>)

  datatype ExamIdRequestModel = ExamIdRequestModel(base: ExamModel)

  datatype ExamDescriptionRequest = ExamDescriptionRequest(base: ExamDescriptionModel)

  datatype ExamRequest = ExamRequest(
    examId: ExamIdRequestModel,
    description: ExamDescriptionRequest,
    sections: seq<SectionRequest>)

  datatype DeleteIdsRequest = DeleteIdsRequest(
    sectionIds: seq<int>,
    questionIds: seq<int>,
    optionIds: seq<int>)

  datatype EditExamRequest = EditExamRequest(
    examId: ExamIdRequestModel,
    description: ExamDescriptionRequest,
    sections: seq<SectionRequest>,
    delete: DeleteIdsRequest)
}

/** The request types of the older create/edit path (models.rs:12-54). Rust's `models::Option`
    is `OptionItem` here, to keep it apart from the `Option` wrapper. */
module Models {

  datatype ExamDescription = ExamDescription(
    title: string,
    description: string,
    duration: int,
    passingScore: int)

  datatype Section = Section(id: int, title: string)

  datatype Question = Question(
    id: int,
    sectionId: int,
    text: string,
    description: string,
    marks: int)

  datatype OptionItem = OptionItem(id: int, questionId: int, text: string, isCorrect: bool)

  datatype ExamId = ExamId(examId: int)

  datatype Exam = Exam(
    examDescription: ExamDescription,
    sections: seq<Section>,
    questions: seq<Question>,
    options: seq<OptionItem>)
}
