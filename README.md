# ilmiya exam service — a Dafny model of its data layer

ilmiya is an Actix-web service that stores exams. An exam is a title and description, a list of
sections, the questions of each section and the options of each question. It keeps them in
PostgreSQL, or as hashes in Redis, and also asks an LLM to generate multiple-choice distractors.
This project models the core of that service in Dafny and proves what it promises:

- **Exam tree in SQL.**
  - Flattening a nested exam into column vectors for the bulk insert.
  - The five-statement insert transaction, with insert-or-ignore on sections, questions and options.
  - Regrouping the flat join rows of a read back into a map of sections.
  - The read orchestration and the row-to-response conversions.
  - Deletion by id and by id sets, inside transactions.
- **Older sea_orm routes.**
  - The create route: random five-digit ids, row construction, the `correct_option` filter and statement order.
  - The edit route: the conditional, ordered updates and deletes, with no transaction.
- **Redis layout.**
  - The key scheme and field names.
  - The atomic pipeline that writes an exam and its questions.
  - The defaults used when reading hashes back.
  - The question id taken from a key's last segment.
  - Grouping fetched questions by section.
- **Small pure parts.**
  - `AppError`'s `Display` text, its HTTP response and the `From` conversions.
  - Prompt template selection, trimming and `{placeholder}` substitution.
  - Language gating of the prompt builders and the MCQ handlers' error pipeline.
  - The LLM request and response types, the status check and the first-candidate text extraction.
  - The JSON-shape dispatch of the Quran decoder.
  - `is_all_empty`.

The database is the class `Store.Store`:
- It holds one map per table and a ghost trace of the statements issued.
- A transaction is a snapshot and then a commit, or a restore of the snapshot.
- Environmental failures the model cannot see (a lost connection, a constraint that is not modelled) are a `faults: set<Stmt>` parameter. On the read path they are the inputs `examFails` and `descriptionFails` of the first two fetches, and a `None` for the joined rows.
- The first failing statement in program order decides the error.

The Redis server is the class `RedisExam.RedisStore`. It holds a map from key to hash. `MULTI`/`EXEC` is modelled as applying every command of the pipeline or none, and an `EXEC` error as one that applied nothing.

Parts of the environment are parameters of the model:
- JSON (serde) encoding and decoding;
- the HTTP reply of the LLM;
- the uuids and random draws;
- the reason phrase of a status code.

## Model

| member | source | states |
|---|---|---|
| Parse.MapToSectionResponse | src/utils/parse.rs:8-78 | The loop over the rows returns `Ok` of exactly the map the row-at-a-time specification `Regroup` builds; it never returns an error. |
| Parse.Regroup | src/utils/parse.rs:13-72 | Computes the map after each row in turn is added to the section of its id, the section created from that row when absent. It is the specification of the loop; its contents are stated by the lemmas below. |
| Parse.AddQuestionOption | src/utils/parse.rs:40-73 | One row's update of its section: the option goes to the first question with the row's question id, or a new question holding just that option is appended. |
| Parse.FindQuestion | src/utils/parse.rs:40-43 | The index found is the first question with the id, or the length when there is none. |
| Parse.RegroupIsExpected | src/utils/parse.rs:13-72 | The map has a key exactly for the section ids that occur in the rows. Each value equals an independent description built only from that section's rows: its base comes from its first row, it has one question per distinct question id in first-seen order, and each question holds the options of its rows in row order. |
| Parse.RegroupKeys | src/utils/parse.rs:13-27 | The key set is exactly the set of section ids of the rows. |
| Parse.RegroupSectionFromFirstRow | src/utils/parse.rs:16-27 | A section's base fields come from the first row with that section id; later rows never overwrite them. |
| Parse.RegroupSectionContents | src/utils/parse.rs:30-72 | Each section carries its own id. Its question ids are pairwise distinct, in first-seen order, and each question belongs to that section. Every option of a question carries that question's id. |
| Parse.RegroupOptionTotal | src/utils/parse.rs:45-70 | Every row adds exactly one option: the options across the map total the number of rows. |
| InsertQueries.FlattenQuestions | src/database/queries/insert.rs:184-210 | The nested loops fill the five question vectors and the four option vectors. The vectors have equal lengths, follow section-then-question(-then-option) order, and hold each question's own `section_id`. A missing description becomes "" and a missing `is_correct` becomes false. |
| InsertQueries.PushOptions | src/database/queries/insert.rs:203-208 | The inner loop appends one column entry per option of the question, in order, and keeps the column invariant. |
| InsertQueries.SectionRowsSpec | src/database/queries/insert.rs:176-180 | One section row per input section, in order, each with the section's id and title and `description.base.id` as its details id. |
| InsertQueries.QuestionBatch | src/database/queries/insert.rs:212-219 | Zipping the question columns gives exactly one row per flattened question, built from that question. |
| InsertQueries.OptionBatch | src/database/queries/insert.rs:223-230 | Zipping the option columns gives exactly one row per flattened option, built from that option. |
| InsertQueries.DetailsRowOf | src/database/queries/insert.rs:36-55 | The details row copies the description's id, title, description, duration and passing score, and the exam id. |
| InsertQueries.InsertFailing | src/database/queries/insert.rs:17-55 | The exam and details inserts fail on an id already present (no conflict clause). Every other statement fails only when the environment rejects it. |
| InsertQueries.InsertExamTx | src/database/queries/insert.rs:162-236 | The statements run exam → details → sections → questions → options → commit and stop at the first failure, whose error is returned. On success the tables are the inserted state; on any failure every table is as before. |
| InsertQueries.InsertRows | src/database/queries/insert.rs:168-174 | The exam row and then the details row: outcome, trace and new tables. |
| InsertQueries.InsertBatches | src/database/queries/insert.rs:176-231 | The three insert-or-ignore batches in order: outcome, trace and new tables. |
| InsertQueries.InsertQuestionsAndOptions | src/database/queries/insert.rs:212-231 | The question batch and then the option batch, each insert-or-ignore. |
| InsertQueries.BuildBatches | src/database/queries/insert.rs:184-210 | The question and option rows built from the flattened columns equal the rows mapped directly from the nested exam. |
| Store.InsertOrIgnoreSpec | src/database/queries/insert.rs:73 | After insert-or-ignore the keys are the old keys plus the batch's ids. Existing rows are unchanged. A new id takes the first row carrying it. |
| Store.InsertNewSpec | src/routes/create.rs:104-150 | A plain batch insert succeeds exactly when no id is taken or repeated. It then adds every row under its id and keeps every old row. |
| Store.DeleteWhereIn | src/database/queries/delete.rs:80-89 | `DELETE ... WHERE id = ANY(ids)` removes exactly the listed ids and leaves every other row unchanged. |
| Store.ExecutedIsPrefix | src/database/queries/insert.rs:168-233 | The statements issued form a prefix of the program order, ending at the first failing one. The outcome is that statement's error, or `Ok` when none fails. |
| Store.StopsAfter | src/database/queries/insert.rs:168-233 | Once a statement fails, nothing after it is issued and its error is returned. |
| Store.Store.Restore | src/database/queries/insert.rs:163-166 | Rollback: every table returns to the snapshot and the trace is kept. |
| Store.Store.InsertIntoExams | src/database/queries/insert.rs:17-26 | `INSERT INTO exams` succeeds only on a new id, and then adds just that row. |
| Store.Store.InsertIntoExamDescriptions | src/database/queries/insert.rs:36-55 | `INSERT INTO exam_descriptions` succeeds only on a new id, and then adds just that row. |
| Store.Store.InsertOrIgnoreSections | src/database/queries/insert.rs:63-84 | `ON CONFLICT (id) DO NOTHING` into `sections`: only that table changes, to the insert-or-ignore result. |
| Store.Store.InsertOrIgnoreQuestions | src/database/queries/insert.rs:92-117 | The same for `questions`. |
| Store.Store.InsertOrIgnoreOptions | src/database/queries/insert.rs:125-148 | The same for `options`. |
| Store.Store.InsertIntoExam | src/routes/create.rs:71-76 | The sea_orm exam insert succeeds only on a new id. |
| Store.Store.InsertIntoDetails | src/routes/create.rs:79-89 | The sea_orm details insert succeeds only on a new id. |
| Store.Store.InsertManySections | src/routes/create.rs:104 | `insert_many` of sections: all rows are added, or it fails and nothing changes. |
| Store.Store.InsertManyQuestions | src/routes/create.rs:119 | `insert_many` of questions: all or nothing. |
| Store.Store.InsertManyOptions | src/routes/create.rs:135 | `insert_many` of options: all or nothing. |
| Store.Store.InsertManyCorrectOptions | src/routes/create.rs:148-150 | The `correct_option` rows are appended. |
| Store.Store.UpdateSectionsTo | src/routes/edit.rs:264-283 | The sections update replaces the table with the given result, or fails and changes nothing. |
| Store.Store.UpdateQuestionsTo | src/routes/edit.rs:329-356 | The same for questions. |
| Store.Store.UpdateOptionsTo | src/routes/edit.rs:399-425 | The same for options. |
| Store.Store.DeleteFromExams | src/database/queries/delete.rs:28-37 | `DELETE FROM exams WHERE id = $1` removes that id only. |
| Store.Store.DeleteSectionsIn | src/database/queries/delete.rs:79-89 | Removes exactly the listed section ids. |
| Store.Store.DeleteQuestionsIn | src/database/queries/delete.rs:91-102 | Removes exactly the listed question ids. |
| Store.Store.DeleteOptionsIn | src/database/queries/delete.rs:104-115 | Removes exactly the listed option ids. |
| DeleteQueries.DeleteExamTx | src/database/queries/delete.rs:25-42 | Begin, delete, commit. On success only the `exams` row with the id is gone; on any failure the tables are unchanged. |
| DeleteQueries.DeleteExamSucceeds | src/database/queries/delete.rs:26-39 | `delete_exam` succeeds exactly when none of its three statements fails. An absent id is no error, since the affected-row count is not checked. |
| DeleteQueries.ExamDeletedSpec | src/database/queries/delete.rs:28-37 | The id is absent afterwards, every other exam row is kept unchanged, and no other table changes. |
| DeleteQueries.ExamDeletedIdempotent | src/database/queries/delete.rs:28-37 | Deleting twice is deleting once, and deleting an absent id changes nothing. |
| DeleteQueries.DeleteRelatedTx | src/database/queries/delete.rs:73-120 | Sections, then questions, then options, then commit. On success each table loses exactly its listed ids; on any failure every table is unchanged. |
| DeleteQueries.DeleteRelated | src/database/queries/delete.rs:79-115 | The three deletes in order, stopping at the first failure. |
| DeleteQueries.RelatedDeletedSpec | src/database/queries/delete.rs:79-115 | No listed id remains in its table, every other row is untouched, and the other tables are unchanged. |
| DeleteQueries.RelatedEmptyRunsAnyway | src/database/queries/delete.rs:79-115 | With all lists empty, all five statements still run and succeed, and nothing is deleted. |
| DeleteQueries.RelatedSucceeds | src/database/queries/delete.rs:77-117 | The transaction succeeds exactly when none of its five statements fails. |
| ReadQueries.FetchExamId | src/database/queries/read.rs:20-33 | `Ok` of the stored row exactly when the id is in `exam` and the query itself does not fail; otherwise the fetch error. |
| ReadQueries.FetchExamDescription | src/database/queries/read.rs:47-69 | `Ok` of a `details` row of that exam exactly when one exists and the query itself does not fail; otherwise an error, never an empty description. |
| ReadQueries.ReadExamData | src/database/queries/read.rs:144-156 | A missing exam row or a failed exam fetch is the first error. Then comes a missing description or a failed description fetch, then a failed join fetch. On success the exam id and description come through the `From` conversions and the sections are the regrouped map's values, one per key. Conversely, when the exam row and a description exist and none of the three fetches fails, the read succeeds. |
| ReadQueries.ReadSections | src/database/queries/read.rs:147-149 | The sections returned are one per distinct section id of the fetched rows, each carrying its id, and every row's section appears. |
| ReadQueries.ReadSectionsJoined | src/database/queries/read.rs:104-109 | When the rows come from the inner joins, every section returned is a stored section whose details row belongs to the exam. |
| Response.ToExamDescription | src/model/response.rs:6-17 | `id`, `exam_id`, `title`, `duration` and `passing_score` are copied; a `None` description becomes "" and `Some(s)` becomes `s`. |
| Response.ToExamIdResponse | src/model/response.rs:19-23 | The response id is the model's id. |
| Response.ExamDescriptionRoundTrip | src/model/response.rs:6-17 | Converting back recovers the row, except that `None` comes back as `Some("")`; `None` and `Some("")` convert alike. |
| Response.ExamDescriptionInjective | src/model/response.rs:6-17 | Equal responses come from rows that differ at most in `None` versus `Some("")`. |
| Response.ExamIdRoundTrip | src/model/response.rs:19-23 | The exam model is recovered from its response. |
| DeleteRequest.IsAllEmpty | src/model/delete.rs:11-15 | True exactly when all three lists are empty; false as soon as any one is non-empty. |
| DeleteRequest.IsAllEmptyByLengths | src/model/delete.rs:12-14 | The answer depends only on the list lengths, not on the ids. |
| EditRoute.GenerateFinalResponse | src/routes/edit.rs:80-87 | The output has one triple per input triple. |
| EditRoute.GenerateFinalResponseSpec | src/routes/edit.rs:80-87 | Each output triple is the input triple at the same position with every `None` replaced by 0 and every `Some(v)` by `v`. |
| EditRoute.GenerateFinalResponseAppend | src/routes/edit.rs:83-86 | The map works element by element: the result on a concatenation is the concatenation of the results. |
| EditRoute.GenerateFinalResponseExample | src/routes/edit.rs:71-78 | The documented example: `(1,2,3), (4,None,6), (None,None,None)` gives `(1,2,3), (4,0,6), (0,0,0)`. |
| EditRoute.DeleteQueryOrderMembers | src/routes/edit.rs:140-168 | A delete statement is issued exactly when its list is non-empty, and none is issued when all lists are empty. |
| EditRoute.DeleteQueryOrderInFlow | src/routes/edit.rs:140-168 | The issued deletes are in the order sections, questions, options. |
| EditRoute.DeleteQuery | src/routes/edit.rs:130-171 | The conditional deletes run in order and the first error stops the rest. A table changes exactly when its delete was issued and did not fail; a delete that went through stays applied when a later one fails. |
| EditRoute.DeleteQueryApplied | src/routes/edit.rs:140-168 | A table's delete is applied exactly when its list is non-empty, it does not fail, and no earlier issued delete failed. |
| EditRoute.Delete | src/routes/edit.rs:210-231 | The id triples are fetched first; a failed fetch deletes nothing and returns its error. Otherwise `delete_query` runs on the prepared ids. |
| EditRoute.UpdateOrderMembers | src/routes/edit.rs:462-475 | Each update runs exactly when its list is non-empty. |
| EditRoute.UpdateOrderInFlow | src/routes/edit.rs:462-475 | The updates run in the order sections, questions, options. |
| EditRoute.DeleteOrderInFlow | src/routes/edit.rs:214-225 | The fetch comes first, then the deletes in their order. |
| EditRoute.DeleteOrderMembers | src/routes/edit.rs:214-225 | `delete` always fetches and never updates. |
| EditRoute.EditOrderMembers | src/routes/edit.rs:462-480 | `edit_exam` runs each update exactly when its list is non-empty, and deletion exactly when the delete payload is not all empty. |
| EditRoute.EditOrderInFlow | src/routes/edit.rs:458-483 | All updates come before deletion, and every step keeps its place in the order. |
| EditRoute.EditExamRoute | src/routes/edit.rs:458-483 | The steps run in that order. The first failure returns its error and later steps do not run; earlier steps stay applied. Each of `sections`, `questions` and `options` ends as the old table, replaced by its update result when that update went through, and then stripped of its fetched delete ids when its delete went through (`Edited`). |
| EditRoute.EditAppliedPair | src/routes/edit.rs:458-483 | In `edit_exam` a table's update goes through exactly as in the updates alone. Its delete goes through exactly when all updates succeeded, the payload is not all empty, the id fetch succeeded and the delete goes through in `delete_query`'s own order. |
| EditRoute.EditApplied | src/routes/edit.rs:458-483 | A statement outside the delete part is applied in `edit_exam` exactly as in the updates alone. A statement outside the updates, other than the id fetch, is applied exactly when all updates succeeded, the payload is not all empty, the id fetch succeeded and the statement is applied in `delete_query`'s order. |
| EditRoute.Updates | src/routes/edit.rs:462-475 | The three conditional updates, stopping at the first failure. Each table is its update's result when that update went through and is unchanged otherwise. |
| EditRoute.UpdateOrderApplied | src/routes/edit.rs:462-475 | An update goes through exactly when its list is non-empty, it does not fail, and no earlier issued update failed. |
| CreateRoute.GetRandomInt | src/routes/create.rs:30-35 | With overflow checks on, a value exists exactly for sizes 1..9; sizes 0 and 10 and above panic. The value lies in [10^(size-1), 10^size - 1]. |
| CreateRoute.GetRandomIntReaches | src/routes/create.rs:30-35 | Every value of that range is drawn by some draw. |
| CreateRoute.GetRandomIntDigits | src/routes/create.rs:11-15 | For 1 ≤ size ≤ 9 the value has exactly `size` decimal digits; size 2 gives 10..99. |
| CreateRoute.Pow10FitsI32 | src/routes/create.rs:31-32 | `10_i32.pow(e)` fits in an `i32` exactly when e ≤ 9. |
| CreateRoute.Pow10 | src/routes/create.rs:31-32 | Computes the power of ten that `10_i32.pow` computes, without the overflow; it is at least 1. |
| CreateRoute.DigitsOfRange | src/routes/create.rs:11-15 | Every value of [10^(k-1), 10^k - 1] has exactly `k` decimal digits. |
| CreateRoute.FiveDigitId | src/routes/create.rs:69-80 | The exam and details ids are five-digit numbers, 10000..99999. |
| CreateRoute.DetailsRowReadBack | src/routes/create.rs:79-87 | The details row stores the description as `Some`, so reading it back gives the request's fields unchanged. |
| CreateRoute.RowsSpec | src/routes/create.rs:92-135 | Section, question and option rows correspond one-to-one and in order with the input lists. Sections point at the details id, question descriptions are `Some` and `is_correct` is `Some(opt.is_correct)`. |
| CreateRoute.CorrectOptionsSelect | src/routes/create.rs:138-146 | The `correct_option` rows are exactly the ids of the options with `is_correct`, in input order. |
| CreateRoute.CreateFailingSpec | src/routes/create.rs:71-150 | The exam and details inserts fail on a taken id. A batch fails when any of its ids is taken or repeated. The other statements fail only when the environment rejects them. |
| CreateRoute.Insert | src/routes/create.rs:66-155 | Runs begin → exam → details → sections → questions → options → `correct_option` → commit and stops at the first failure. A failure leaves every table unchanged. Success returns the exam id that was inserted. |
| CreateRoute.InsertTx | src/routes/create.rs:67-152 | The transaction once the ids are drawn: outcome, trace and new tables. |
| CreateRoute.CreateRows | src/routes/create.rs:71-89 | The exam and details inserts. |
| CreateRoute.CreateBatches | src/routes/create.rs:92-150 | The four batches in order. |
| CreateRoute.CreateSectionsAndQuestions | src/routes/create.rs:92-119 | The section batch, then the question batch. |
| CreateRoute.CreateOptionsAndCorrect | src/routes/create.rs:121-150 | The option batch, then the `correct_option` batch. |
| CreateRoute.CreatedSpec | src/routes/create.rs:69-150 | After a commit, the exam and details rows are stored under the drawn ids. Every section points at the details row, every option keeps its `is_correct`, and the `correct_option` rows gained are the correct options. |
| CreateRoute.CreateWentThrough | src/routes/create.rs:71-135 | A committed `insert` met no taken exam or details id, and its section and option batches inserted cleanly. |
| CreateRoute.RunsThroughIfOk | src/routes/create.rs:67-152 | When the run succeeds, no statement of the order failed. |
| RedisSchema.QuestionKeyExtendsExamKey | src/db.rs:34-40 | `question_key(e, q)` is `exam_key(e) + ":question:" + q` and has `exam_key(e) + ":"` as a prefix. |
| RedisSchema.QuestionKeyInjective | src/db.rs:38-40 | When neither exam id contains ':', equal question keys have equal exam and question ids. |
| RedisSchema.QuestionKeyCollision | src/db.rs:38-40 | Without that condition keys collide: ("a", "b:question:c") and ("a:question:b", "c") give the same key. |
| RedisSchema.QuestionKeyDistinct | src/db.rs:38-40 | Within one exam, two question keys are equal exactly when the question ids are. |
| RedisSchema.FieldsDistinct | src/db.rs:42-50 | The nine field names are pairwise distinct. |
| RedisExam.ShortUuidOfUuid | src/routes/exam.rs:14-17 | The first four characters of a uuid's text are lower-case hex, so a short id never contains ':' or '-'. |
| RedisExam.ShortUuid | src/routes/exam.rs:14-17 | Computes the first `length` characters of the uuid's text. |
| RedisExam.LastSegmentSpec | src/routes/exam.rs:172 | `split(':').last()` is a suffix of the key without ':', preceded by ':' unless it is the whole key. |
| RedisExam.LastSegment | src/routes/exam.rs:172 | Computes the text after the last ':', or the whole key when it has none. |
| RedisExam.LastSegmentOfQuestionKey | src/routes/exam.rs:172 | The id read back from `question_key(e, q)` is `q` whenever `q` has no ':'. |
| RedisExam.FetchExamMetadataSpec | src/routes/exam.rs:109-131 | An `HGETALL` error becomes `RedisError`. Otherwise a missing name or details field reads as "", and a missing or non-`u32` duration reads as 0. |
| RedisExam.FetchExamMetadata | src/routes/exam.rs:109-131 | Computes the metadata from `HGETALL`'s answer; stated by `RedisExam.FetchExamMetadataSpec`. |
| RedisExam.ReadQuestionSpec | src/routes/exam.rs:151-174 | Missing name and section read as "". Missing options read as the decoding of "[]", which is `[]` when the decoder reads "[]" as the empty list; undecodable options read as `[]` and decodable ones as their decoding. Marks are the parsed `u32`, or 0 when missing or not a `u32`. The id is the key's last segment and the exam id is the caller's. |
| RedisExam.ReadQuestion | src/routes/exam.rs:150-177 | Computes one spawned task's question from its key's hash; stated by `RedisExam.ReadQuestionSpec`. |
| RedisExam.GroupedSpec | src/routes/exam.rs:180-188 | The buckets are exactly the sections seen, and each bucket is the subsequence of questions with that section, in order. |
| RedisExam.Grouped | src/routes/exam.rs:180-188 | Computes the section map after each question in turn is pushed onto its section's bucket. |
| RedisExam.GroupedMembers | src/routes/exam.rs:180-188 | Every question lands in the bucket named by its section, and a bucket holds only questions of its section. |
| RedisExam.GroupedTotal | src/routes/exam.rs:180-188 | The bucket sizes sum to the number of questions. |
| RedisExam.FetchedSpec | src/routes/exam.rs:145-183 | One question per key, in key order, each read from its own key's hash; a failing `HGETALL` reads as an empty hash. |
| RedisExam.FetchQuestions | src/routes/exam.rs:133-193 | A `KEYS` error becomes `RedisError`. Otherwise the result is the grouping of the questions fetched in key order. |
| RedisExam.FetchQuestionsSpec | src/routes/exam.rs:145-188 | The result has one question per matched key. Each id is the key's last segment. The buckets are the sections read, and their sizes total the number of keys. |
| RedisExam.RedisStore.Exec | src/routes/exam.rs:81-84 | The atomic pipeline applies every command in order, or fails and changes nothing (an error after the server ran `EXEC` is not modelled). |
| RedisExam.BuildPipeline | src/routes/exam.rs:51-79 | The loop builds the exam's `HSET` and then one `HSET` per question, in order. |
| RedisExam.QuestionCommandsSpec | src/routes/exam.rs:63-78 | The i-th question command writes the key of the i-th short id with the name, the encoded options (or "" when encoding fails), the marks and the section. |
| RedisExam.InsertExamIntoRedis | src/routes/exam.rs:43-87 | A pool error becomes `PoolError` and an `EXEC` error `RedisError`, both modelled with the hashes unchanged. Otherwise the pipeline is applied and the exam's short id is returned. |
| RedisExam.ExamKeyNotQuestionKey | src/db.rs:34-40 | An exam's hash key is never one of its question keys. |
| RedisExam.QuestionKeyMatches | src/routes/exam.rs:137 | Every question key of the exam matches the `KEYS` pattern `question_key(e, "*")`. |
| RedisExam.ExamReadBack | src/routes/exam.rs:54-61 | After the pipeline, `fetch_exam_metadata` reads back the name, the details and the duration that were written. |
| RedisExam.QuestionReadBack | src/routes/exam.rs:63-78 | After the pipeline, a question whose short id no later question shares reads back exactly: text, options, marks, section and id. This needs the options to round-trip through JSON. |
| RedisExam.SharedShortIdKeepsLater | src/routes/exam.rs:64 | When two questions draw the same short id, the later hash overwrites the earlier one and only the later question can be read back. |
| RedisExam.ApplyAllLastWrite | src/routes/exam.rs:81-84 | A key's hash after the pipeline is its last command's fields applied over the state before that command. |
| Errors.DisplayInjective | src/errors.rs:20-33 | Each variant has its own prefix, so different errors never print alike. |
| Errors.Display | src/errors.rs:20-33 | Computes the variant's fixed prefix followed by the wrapped error's text; `Errors.DisplayInjective` states what it keeps. |
| Errors.ErrorResponse | src/errors.rs:36-53 | Computes the status and the `{error, message}` body; stated by `Errors.ErrorResponseSpec`. |
| Errors.Convert | src/errors.rs:56-96 | Computes the `From` conversion of a library error; stated by `Errors.ConvertSpec`. |
| Errors.ErrorResponseSpec | src/errors.rs:36-53 | Only `NotFound` is 404 "Not Found", only `SystemTimeError` is 400 "Bad Request", and every other variant is 500 "Internal Server Error". The message is the `Display` string. |
| Errors.ErrorResponseInjective | src/errors.rs:36-53 | Equal response bodies come from equal errors. |
| Errors.ConvertSpec | src/errors.rs:56-96 | Each `From` wraps the error, unchanged, in its same-named variant. No conversion gives `NotFound`, and different sources give different variants. |
| Errors.ConvertStatus | src/errors.rs:56-96 | A converted error is a 400 exactly when it came from a `SystemTimeError`, and a 500 otherwise. |
| Prompts.TrimSpec | src/utils/prompts.rs:55-56 | `trim` is the input without its leading and trailing whitespace, and nothing more is removed. |
| Prompts.Trim | src/utils/prompts.rs:55-56 | Computes `str::trim`, leading whitespace and then trailing whitespace removed; stated by `Prompts.TrimSpec`. |
| Prompts.TrimIgnoresPadding | src/utils/prompts.rs:55-56 | Added leading or trailing whitespace does not change the trimmed text. |
| Prompts.TrimIdempotent | src/utils/prompts.rs:55-56 | Trimming twice is trimming once. |
| Prompts.ReplaceAbsent | src/utils/prompts.rs:54-56 | `replace` with a pattern that does not occur returns the text unchanged. |
| Prompts.Replace | src/utils/prompts.rs:54-56 | Computes `str::replace`: a left-to-right scan that replaces each non-overlapping occurrence and does not rescan the replacement. |
| Prompts.ReplaceSelf | src/utils/prompts.rs:54-56 | Replacing a pattern by itself changes nothing. |
| Prompts.ReplaceFirstOccurrence | src/utils/prompts.rs:54-56 | When the first occurrence of the pattern in `a + pat + b` is the one after `a`, the result is `a`, then the replacement, then `b` with its own occurrences replaced. |
| Prompts.ReplaceLeading | src/utils/prompts.rs:54-56 | A leading occurrence is replaced, and the scan continues after it. |
| Prompts.SelectTemplateOwnField | src/utils/prompts.rs:35-52 | Each distractor type selects its own template field and no other. |
| Prompts.SelectTemplate | src/utils/prompts.rs:35-52 | Computes the template field that the distractor type selects. |
| Prompts.FillIgnoresPadding | src/utils/prompts.rs:54-56 | Surrounding whitespace in the question or the answer never changes the prompt. |
| Prompts.Fill | src/utils/prompts.rs:54-56 | Computes the template with "{question}" replaced by the trimmed question and then "{correct_answer}" by the trimmed answer. |
| Prompts.FillWithoutPlaceholders | src/utils/prompts.rs:54-56 | A template without placeholders is returned unchanged. |
| Prompts.FillSubstitutesInsideQuestion | src/utils/prompts.rs:54-56 | The question is substituted first, so a "{correct_answer}" inside it is replaced as well. |
| Mcq.PromptBuildersSpec | src/routes/mcq.rs:23-57 | The contextual builder rejects exactly Arabic with a 400 and fills the Urdu template for Urdu. The verse builder rejects exactly Urdu with a 400 and fills the Arabic template of the given type. |
| Mcq.BuildContextualMcqPrompt | src/routes/mcq.rs:23-37 | Computes the Urdu context prompt, or the 400 for Arabic; stated by `Mcq.PromptBuildersSpec`. |
| Mcq.GetQuranicVerseDistractorPrompt | src/routes/mcq.rs:39-57 | Computes the Arabic verse prompt of a distractor type, or the 400 for Urdu; stated by `Mcq.PromptBuildersSpec`. |
| Mcq.AfterPrompt | src/routes/mcq.rs:66-82 | Computes the LLM call, cleaning and parsing of both handlers; stated by `Mcq.AfterPromptSpec`. |
| Mcq.GenerateMcqOptionsFromContext | src/routes/mcq.rs:59-83 | Computes the context handler's result; stated by `Mcq.ContextHandlerShortCircuits`. |
| Mcq.GenerateQuranicVerseDistractorResponse | src/routes/mcq.rs:85-115 | Computes the verse handler's result; stated by `Mcq.VerseHandlerNeverRejects`. |
| Mcq.EndpointDistractor | src/routes/mcq.rs:117-194 | Computes the distractor type each of the eight wrappers passes; stated by `Mcq.EndpointDistractorBijective`. |
| Mcq.GenerateFor | src/routes/mcq.rs:117-194 | Computes an endpoint's response: the verse handler with the endpoint's own distractor type. |
| Mcq.AfterPromptSpec | src/routes/mcq.rs:99-114 | An LLM failure, a cleaning failure and a parsing failure each become a 500 with their own message prefix, checked in that order. Otherwise the parsed value is returned. |
| Mcq.ContextHandlerShortCircuits | src/routes/mcq.rs:59-83 | An Arabic request fails with the 400 before any LLM call. An Urdu request is the LLM pipeline on the Urdu prompt, and every failure after the prompt step is a 500. |
| Mcq.VerseHandlerNeverRejects | src/routes/mcq.rs:85-115 | The verse handler always passes Arabic, so it never returns the 400; its result is the LLM pipeline on the Arabic prompt. |
| Mcq.EndpointDistractorBijective | src/routes/mcq.rs:117-194 | The eight wrappers pass pairwise different distractor types, and every type has a wrapper. |
| Llm.NewRequestBodySpec | src/model/llm.rs:77-94 | The request has exactly one content with exactly one part, whose text is the prompt. The candidate count is the argument and the temperature is always `Some` of the argument. |
| Llm.FirstTextSpec | src/services/llm.rs:47-54 | There is text exactly when candidates, the first candidate, its content and its first part are all present, and then it is that part's text. |
| Llm.FirstText | src/services/llm.rs:47-52 | Computes the text of the first part of the first candidate's content, if every link exists; stated by `Llm.FirstTextSpec`. |
| Llm.FirstTextIgnoresRest | src/services/llm.rs:50-52 | Later candidates, other fields of the first candidate and the prompt feedback never affect the text. |
| Llm.FirstTextOfReply | src/handlers/llm_response_handler.rs:32-38 | A reply whose first candidate's first part is `t` yields `t`, whatever follows. |
| Llm.TextOfResponseSpec | src/services/llm.rs:32-39 | A non-success status is an error carrying the status and body, and the body is never decoded. Otherwise undecodable JSON, a missing link and the first text are the three outcomes, and `Ok` comes exactly when the whole chain succeeds. |
| Llm.HandleLlmResponseSpec | src/handlers/llm_response_handler.rs:6-42 | The request carries the prompt, `n_guesses` and temperature 0.7. The result equals `send_prompt_to_llm`'s, except that a send failure gets the context message instead of its own text. |
| Llm.HandleLlmResponse | src/handlers/llm_response_handler.rs:6-42 | Computes the request sent and the text or error returned; stated by `Llm.HandleLlmResponseSpec`. |
| Llm.StatusErrorMessage | src/handlers/llm_response_handler.rs:25-27 | The status error text starts with "LLM API Error: ", ends with the body, and differs from every fixed message. |
| Quran.DeserializeDataSpec | src/model/quran.rs:4-19 | An object decodes to `Verse` when it decodes as verse data, and otherwise fails with that error. A string `s` gives `ErrorMessage(s)`. Null, booleans, numbers and arrays give "Unexpected value for QuranData". |
| Quran.DeserializeData | src/model/quran.rs:4-19 | Computes the dispatch on the JSON value's kind; stated by `Quran.DeserializeDataSpec`. |
| Quran.DecoderOnlyForObjects | src/model/quran.rs:10-18 | The verse decoder is consulted only for objects. |
| Quran.ScanError | src/model/quran.rs:21-28 | Computes the first error of serde's walk over the object's known keys, in the object's order: a repeated key is "duplicate field", and otherwise the key's value is decoded at once. |
| Quran.DecodeResponse | src/model/quran.rs:21-28 | Computes the response decoded from an object whose known keys appear in a given order: the walk's first error, then "missing field" for an absent key in declaration order, then the three values. |
| Quran.ScanErrorNone | src/model/quran.rs:21-28 | serde's walk over the object's keys ends without error exactly when no key repeats and every value met decodes. |
| Quran.ScanPrefix | src/model/quran.rs:21-28 | Walking keys that are new and decode only records them as seen. |
| Quran.DecodeResponseOk | src/model/quran.rs:21-28 | A response decodes exactly when `code`, `status` and `data` each appear once and each value decodes; it then holds those values, `data` being the dispatch's result. |
| Quran.DecodeResponseFirstError | src/model/quran.rs:21-28 | The error is that of the first key, in the object's own order, whose value fails; later keys are not looked at. |
| Decimal.ParseNatToString | src/routes/exam.rs:122-125 | A number written by `to_string` and read back by `parse::<u32>` is the same number, when it fits in a `u32`. |
| Decimal.NatToStringSpec | src/routes/exam.rs:59 | `to_string` writes a non-empty string of digits, with no leading zero, whose value is the number. |
| Decimal.NatToString | src/routes/exam.rs:59 | Computes `to_string` of a number, most significant digit first. |
| Decimal.ParseU32Spec | src/routes/exam.rs:124 | A parsed value fits in a `u32`, and the text parsed starts with a digit or with a '+' followed by more. "", "+" and "-" do not parse. |
| Decimal.ParseU32 | src/routes/exam.rs:124 | Computes `parse::<u32>`: an optional '+', then one or more digits whose value fits in a `u32`. |

## Left out

- The HTTP server, routing, CORS and handler glue (`main.rs`, `routes/mod.rs`, `fetch.rs`, `delete.rs`, `quran.rs`) are not modelled. These are thin wrappers.
- `fetch_exam_from_redis` and `get_exam`/`create_exam` (`routes/exam.rs:89-107`, `195-207`) are not modelled. They only pass the results of the modelled functions into the response.
- Connection pools, environment loading and `RedisClient` are I/O. A pool failure is an input of `InsertExamIntoRedis`.
- The network clients are not modelled. The LLM reply is the input `Reply`, and the Quran API client is not modelled.
- sqlx and sea_orm themselves are not modelled. Each table is a map from id to row.
- The `update_section`, `update_question` and `update_option` bodies are not modelled. What one `update_many` with several chained filters does is decided by sea_orm. Each update is one statement whose resulting table is a parameter.
- Delete cascades are not modelled. They depend on migrations that are not shown, so a delete removes only its own table's rows.
- `DeletionData::new`, `filter_deletions` and `EditExam` are not part of this model. `delete` takes the preparation of the delete ids as an opaque function parameter.
- No round trip is stated from the SQL insert to the SQL read. The insert writes `exams`/`exam_descriptions`/`exam_description_id` while the read uses `exam`/`details`/`details_id`, and the Store keeps those tables apart.
- The decoding of NULLs in the left-joined columns into `SectionRow` is sqlx behaviour and is not modelled. Every row is taken as fully populated.
- Randomness is modelled as parameters. `rand` is a draw parameter and `Uuid::new_v4` is an input string; only range and length bounds are proved.
- The spawned `HGETALL` tasks of `fetch_questions` are modelled sequentially, in the order in which they are awaited.
- The order in which `HashMap`s iterate is not modelled. `KEYS` answers some enumeration of the matching keys, and `read_exam_data` returns the map's values in an order that is not specified.
- The `KEYS` glob is not modelled as a glob. The pattern matches by its literal prefix, and exam ids are taken to hold no glob characters.
- The temperature is kept as a bit pattern. No floating-point arithmetic happens.
- Prompt content (`formatter.rs`) and template file loading are not modelled. Templates are a record of strings.
- `gen_options.rs` is not part of this model. It calls template functions that do not exist.
- `clean_llm_json_output`, `map_to_prompt_language` and the exactly-four-options check are not part of this model. Cleaning and parsing are function parameters of the MCQ handlers.
- The request and response types of `send_prompt_to_llm` (`LLMRequest`, `LLMResponse`) are not part of this model. Its parse is modelled over the `ApiResponse` shape.
- `send_prompt_to_llm` is called by `mcq.rs` without its `api_url`. The model omits the URL and the HTTP exchange.
- `StatusCode`'s reason phrase is a parameter of the error text.
- The JSON encoding and decoding done by serde are function parameters, for verse data, question options and the LLM response.
- The Redis-side exam types (`models::Exam`, `QuestionResponse`, `ExamMetadata`) are not part of this model, so their shapes are inferred from their uses. Duration and marks are taken as `u32` and options as a list of strings.
- `FromQueryResult` and `parse_query_to_model` (`models.rs`) are sea_orm glue and are not modelled.
- `Parse.MapToSectionResponse` uses a `map` in place of a `HashMap`. Only the map's contents are stated, not its iteration order.
- `EditRoute.Delete` states its deletes against the prepared ids, not against the requested ones, because `filter_deletions` is not part of this model.
- `RedisExam.FetchQuestions` assumes the `KEYS` answer lists every matching key exactly once.
- `RedisExam.QuestionReadBack` is stated only for questions whose short id no later question of the same exam draws. With a shared id the later write wins, as `RedisExam.SharedShortIdKeepsLater` states.
- CreateRoute.GetRandomInt: models `size - 1` and `10_i32.pow` as built with overflow checks, where an overflow panics and gives no value. In a release build they wrap instead, so size 0 gives 0 and size 10 gives a value in [1_000_000_000, 1_410_065_407]; the model does not capture that.
- RedisExam.RedisStore.Exec: an error returned after the server has already run `EXEC` (a connection lost while the reply is read) is not modelled. The writes are then applied although the call fails, while the model treats every `EXEC` error as applying nothing. The same holds for `RedisExam.InsertExamIntoRedis`.
- Quran.DecodeResponse: the line and column that serde_json appends to its error messages are not modelled. Unknown keys are skipped, as serde does, and are not listed in the key order.
- Logging is not modelled: the `error!` calls in `error_response` (`errors.rs:37`) and in the MCQ handlers' error paths (`mcq.rs:68-78`, `100-110`) only write to the log and do not change the result.
