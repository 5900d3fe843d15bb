/** The Redis exam routes of routes/exam.rs: writing an exam as one hash plus one hash per
    question in an atomic pipeline (`insert_exam_into_redis`), and reading it back with defaults
    for missing or unreadable fields (`fetch_exam_metadata`, `fetch_questions`), the questions
    grouped by their section. The exam and question types of this path are not part of this
    model; their shapes are read off the fields these functions use. The server is a `RedisStore`
    holding every hash by key; connection failures, failing commands and the UUIDs drawn are
    parameters, and JSON encoding of a question's options (taken to be a list of texts) is a pair
    of parameters. */
module RedisExam {
  import opened Wrappers
  import opened Seqs
  import opened Decimal
  import opened RedisSchema
  import Errors

  // ---- short ids (exam.rs:14-17) ----

  predicate IsLowerHex(c: char) {
    '0' <= c <= '9' || 'a' <= c <= 'f'
  }

  /** The hyphenated lower-case text `Uuid::to_string` writes: 36 characters, hyphens at 8, 13,
      18 and 23, hex digits elsewhere. */
  predicate IsUuidText(u: string) {
    && |u| == 36
    && (forall i :: 0 <= i < 36 ==> if i in {8, 13, 18, 23} then u[i] == '-' else IsLowerHex(u[i]))
  }

  /** `get_short_uuid(length)` given the drawn UUID's text: its first `length` characters. */
  function ShortUuid(u: string, length: nat): string {
    if length <= |u| then u[..length] else u
  }

  /** A four-character short id of a UUID is four hex digits: it holds no ':' (so it can be an
      exam or question id in a key) and no '-'. */
  lemma ShortUuidOfUuid(u: string)
    requires IsUuidText(u)
    ensures |ShortUuid(u, 4)| == 4
    ensures forall i :: 0 <= i < 4 ==> IsLowerHex(ShortUuid(u, 4)[i])
    ensures ':' !in ShortUuid(u, 4) && '-' !in ShortUuid(u, 4)
  {
    var s := ShortUuid(u, 4);
    forall i | 0 <= i < 4
      ensures IsLowerHex(s[i])
    {
      assert s[i] == u[i];
      assert i !in {8, 13, 18, 23};
    }
  }

  // ---- question id from a key (exam.rs:172) ----

  /** `s.split(':').last()`: the text after the last ':', or all of `s` when it has none. */
  function LastSegment(s: string): string {
    if s == [] then []
    else if s[|s| - 1] == ':' then []
    else LastSegment(s[..|s| - 1]) + [s[|s| - 1]]
  }

  /** The last segment is a suffix of the key without ':', and it is preceded by a ':' unless it
      is the whole key. */
  lemma {:induction false} LastSegmentSpec(s: string)
    ensures |LastSegment(s)| <= |s|
    ensures LastSegment(s) == s[|s| - |LastSegment(s)|..]
    ensures ':' !in LastSegment(s)
    ensures |LastSegment(s)| < |s| ==> s[|s| - |LastSegment(s)| - 1] == ':'
  {
    if s != [] && s[|s| - 1] != ':' {
      var p, c := s[..|s| - 1], s[|s| - 1];
      LastSegmentSpec(p);
      var l := LastSegment(p);
      assert LastSegment(s) == l + [c];
      assert s == p + [c];
      assert s[|s| - |l| - 1..] == p[|p| - |l|..] + [c];
      if |l| < |p| {
        assert s[|s| - |l| - 2] == p[|p| - |l| - 1];
      }
    }
  }

  /** A segment without ':' after a ':' is the last segment. */
  lemma {:induction false} LastSegmentAfterColon(p: string, q: string)
    requires |p| > 0 && p[|p| - 1] == ':' && ':' !in q
    ensures LastSegment(p + q) == q
  {
    if q != [] {
      var q' := q[..|q| - 1];
      LastSegmentAfterColon(p, q');
      assert (p + q)[..|p + q| - 1] == p + q';
    } else {
      assert p + q == p;
    }
  }

  /** The id read back from a question key is the question id the key was built from, as long as
      that id has no ':'. */
  lemma LastSegmentOfQuestionKey(examId: string, questionId: string)
    requires ':' !in questionId
    ensures LastSegment(QuestionKey(examId, questionId)) == questionId
  {
    var p := "exam:" + examId + ":question:";
    assert QuestionKey(examId, questionId) == p + questionId;
    LastSegmentAfterColon(p, questionId);
  }

  // ---- reading hashes ----

  /** `map.get(field)` on the `HashMap` returned by HGETALL. */
  function Get(h: map<string, string>, field: string): Option<string> {
    if field in h then Some(h[field]) else None
  }

  datatype ExamMetadata = ExamMetadata(examName: string, details: string, duration: nat)

  /** The hash fields turned into metadata (exam.rs:114-130). */
  function MetadataOf(h: map<string, string>): ExamMetadata {
    ExamMetadata(
      Get(h, FieldName).UnwrapOr(""),
      Get(h, FieldDetails).UnwrapOr(""),
      if FieldDuration in h && ParseU32(h[FieldDuration]).Some? then ParseU32(h[FieldDuration]).value else 0)
  }

  /** `fetch_exam_metadata` (exam.rs:109-131): HGETALL's result, then the fields with defaults.
      A failing HGETALL is a `RedisError` by the `From` conversion. */
  function FetchExamMetadata(hgetall: Result<map<string, string>, string>): Result<ExamMetadata, Errors.AppError> {
    match hgetall
    case Err(e) => Err(Errors.Convert(Errors.FromRedis, e))
    case Ok(h) => Ok(MetadataOf(h))
  }

  /** Only a failed HGETALL fails, as a `RedisError` with its text. A present name or details is
      returned as stored and a missing one is ""; a duration is its value when it parses as a
      `u32` and 0 when it is missing or does not parse. */
  lemma FetchExamMetadataSpec(hgetall: Result<map<string, string>, string>)
    ensures FetchExamMetadata(hgetall).Err? <==> hgetall.Err?
    ensures hgetall.Err? ==> FetchExamMetadata(hgetall).error == Errors.RedisError(hgetall.error)
    ensures hgetall.Ok? ==>
      var h, m := hgetall.value, FetchExamMetadata(hgetall).value;
      && (m.examName == if FieldName in h then h[FieldName] else "")
      && (m.details == if FieldDetails in h then h[FieldDetails] else "")
      && (FieldDuration !in h ==> m.duration == 0)
      && (FieldDuration in h && ParseU32(h[FieldDuration]).None? ==> m.duration == 0)
      && (FieldDuration in h && ParseU32(h[FieldDuration]).Some? ==> m.duration == ParseU32(h[FieldDuration]).value)
      && m.duration <= U32Max
  {
    if hgetall.Ok? && FieldDuration in hgetall.value {
      ParseU32Spec(hgetall.value[FieldDuration]);
    }
  }

  /** A question as `fetch_questions` returns it. */
  datatype QuestionResponse = QuestionResponse(question: string, options: seq<string>, marks: nat, section: string,
                                                  questionId: string, examId: string)

  /** One spawned task of `fetch_questions` (exam.rs:150-177): the hash of `key` with defaults.
      `decodeOptions` is `serde_json::from_str` on the options text. */
  function ReadQuestion(key: string, h: map<string, string>, examId: string, decodeOptions: string -> Option<seq<string>>): QuestionResponse {
    QuestionResponse(
      Get(h, FieldName).UnwrapOr(""),
      decodeOptions(Get(h, FieldOptions).UnwrapOr("[]")).UnwrapOr([]),
      if FieldMarks in h && ParseU32(h[FieldMarks]).Some? then ParseU32(h[FieldMarks]).value else 0,
      Get(h, FieldSection).UnwrapOr(""),
      LastSegment(key),
      examId)
  }

  /** Missing fields read as "" and missing options as the decoding of "[]" (the empty list
      when the decoder reads "[]" as such); options that do not decode are empty; marks are the
      parsed `u32`, or 0 when missing or not a `u32`; the question id is the key's last
      segment and the exam id is the one asked for. */
  lemma ReadQuestionSpec(key: string, h: map<string, string>, examId: string, decodeOptions: string -> Option<seq<string>>)
    ensures var q := ReadQuestion(key, h, examId, decodeOptions);
      && (q.question == if FieldName in h then h[FieldName] else "")
      && (q.section == if FieldSection in h then h[FieldSection] else "")
      && (FieldOptions !in h ==> q.options == decodeOptions("[]").UnwrapOr([]))
      && (FieldOptions !in h && decodeOptions("[]") == Some([]) ==> q.options == [])
      && (FieldOptions in h && decodeOptions(h[FieldOptions]).None? ==> q.options == [])
      && (FieldOptions in h && decodeOptions(h[FieldOptions]).Some? ==> q.options == decodeOptions(h[FieldOptions]).value)
      && (FieldMarks in h && ParseU32(h[FieldMarks]).Some? ==> q.marks == ParseU32(h[FieldMarks]).value)
      && (FieldMarks in h && ParseU32(h[FieldMarks]).None? ==> q.marks == 0)
      && (FieldMarks !in h ==> q.marks == 0)
      && ':' !in q.questionId && |q.questionId| <= |key| && q.questionId == key[|key| - |q.questionId|..]
      && q.examId == examId
  {
    LastSegmentSpec(key);
  }

  // ---- grouping by section (exam.rs:180-192) ----

  /** The section map after pushing the questions in order: `entry(section).or_insert_with(Vec::new).push(question)`. */
  function Grouped(qs: seq<QuestionResponse>): map<string, seq<QuestionResponse>> {
    if qs == [] then map[]
    else
      var m := Grouped(qs[..|qs| - 1]);
      var q := qs[|qs| - 1];
      m[q.section := (if q.section in m then m[q.section] else []) + [q]]
  }

  /** Independent reference: the questions of one section, in order. */
  function OfSection(qs: seq<QuestionResponse>, section: string): seq<QuestionResponse> {
    if qs == [] then []
    else OfSection(qs[..|qs| - 1], section) + (if qs[|qs| - 1].section == section then [qs[|qs| - 1]] else [])
  }

  /** The sections that occur among the questions. */
  function SectionsOf(qs: seq<QuestionResponse>): set<string> {
    set q | q in qs :: q.section
  }

  /** Buckets exist exactly for the sections seen, and each bucket holds exactly the questions of
      its section, in the order they were fetched. */
  lemma {:induction false} GroupedSpec(qs: seq<QuestionResponse>)
    ensures Grouped(qs).Keys == SectionsOf(qs)
    ensures forall s :: s in Grouped(qs) ==> Grouped(qs)[s] == OfSection(qs, s)
  {
    if qs != [] {
      var p := qs[..|qs| - 1];
      var q := qs[|qs| - 1];
      GroupedSpec(p);
      assert qs == p + [q];
      assert SectionsOf(qs) == SectionsOf(p) + {q.section} by {
        forall x | x in SectionsOf(qs) ensures x in SectionsOf(p) + {q.section} {
          var y :| y in qs && y.section == x;
          if y != q { assert y in p; }
        }
        forall x | x in SectionsOf(p) ensures x in SectionsOf(qs) {
          var y :| y in p && y.section == x;
          assert y in qs;
        }
      }
      forall s | s in Grouped(qs) ensures Grouped(qs)[s] == OfSection(qs, s) {
        if s != q.section {
          assert OfSection(qs, s) == OfSection(p, s);
        } else if q.section !in Grouped(p) {
          OfSectionEmpty(p, s);
        }
      }
    }
  }

  /** A section no question has is empty in the reference. */
  lemma {:induction false} OfSectionEmpty(qs: seq<QuestionResponse>, section: string)
    requires section !in SectionsOf(qs)
    ensures OfSection(qs, section) == []
  {
    if qs != [] {
      var p := qs[..|qs| - 1];
      assert SectionsOf(p) <= SectionsOf(qs) by {
        forall x | x in SectionsOf(p) ensures x in SectionsOf(qs) {
          var y :| y in p && y.section == x;
          assert y in qs;
        }
      }
      assert qs[|qs| - 1] in qs;
      OfSectionEmpty(p, section);
    }
  }

  /** Every question in a bucket belongs to that bucket's section. */
  lemma {:induction false} OfSectionMembers(qs: seq<QuestionResponse>, section: string)
    ensures forall q :: q in OfSection(qs, section) ==> q.section == section && q in qs
  {
    if qs != [] {
      var p := qs[..|qs| - 1];
      OfSectionMembers(p, section);
      assert forall q :: q in p ==> q in qs;
    }
  }

  /** The size of each bucket. */
  function Sizes(m: map<string, seq<QuestionResponse>>): map<string, nat> {
    map s | s in m :: |m[s]|
  }

  /** Grouping loses and duplicates nothing: the buckets hold as many questions as were fetched. */
  lemma {:induction false} GroupedTotal(qs: seq<QuestionResponse>)
    ensures Sum(Sizes(Grouped(qs))) == |qs|
  {
    if qs == [] {
      assert Sizes(Grouped(qs)) == map[];
    } else {
      var p := qs[..|qs| - 1];
      var q := qs[|qs| - 1];
      GroupedTotal(p);
      var m := Grouped(p);
      var c := Sizes(m);
      var n := (if q.section in m then |m[q.section]| else 0) + 1;
      assert Sizes(Grouped(qs)) == c[q.section := n];
      SumUpdate(c, q.section, n);
      if q.section in m {
        SumRemove(c, q.section);
      } else {
        assert c - {q.section} == c;
      }
    }
  }

  /** The server's hashes, by key. */
  class RedisStore {
    var hashes: map<string, map<string, string>>

    constructor (hashes: map<string, map<string, string>>)
      ensures this.hashes == hashes
    {
      this.hashes := hashes;
    }

    /** MULTI ... EXEC of a pipeline: every command applied in order, or, when the transaction
        fails with `failure`, none of them. */
    method Exec(pipe: seq<Command>, failure: Option<string>) returns (r: Result<(), string>)
      modifies this
      ensures failure.Some? ==> r == Err(failure.value) && hashes == old(hashes)
      ensures failure.None? ==> r == Ok(()) && hashes == ApplyAll(old(hashes), pipe)
    {
      if failure.Some? {
        return Err(failure.value);
      }
      hashes := ApplyAll(hashes, pipe);
      r := Ok(());
    }
  }

  /** HGETALL of a key: its hash, or an empty map when there is none. */
  function HashAt(hashes: map<string, map<string, string>>, key: string): map<string, string> {
    if key in hashes then hashes[key] else map[]
  }

  /** The keys KEYS "exam:{id}:question:*" matches: those that start with the pattern's literal
      part (the id is taken literally; the ids this code draws hold no glob characters). */
  predicate MatchesQuestionPattern(key: string, examId: string) {
    var p := QuestionKey(examId, "");
    |p| <= |key| && key[..|p|] == p
  }

  function MatchingKeys(hashes: map<string, map<string, string>>, examId: string): set<string> {
    set k | k in hashes && MatchesQuestionPattern(k, examId)
  }

  /** What the spawned tasks yield, in key order; a failing HGETALL reads as an empty hash. */
  function Fetched(hashes: map<string, map<string, string>>, keys: seq<string>, failing: set<string>,
                      examId: string, decodeOptions: string -> Option<seq<string>>): seq<QuestionResponse> {
    if keys == [] then []
    else
      var k := keys[|keys| - 1];
      Fetched(hashes, keys[..|keys| - 1], failing, examId, decodeOptions)
        + [ReadQuestion(k, if k in failing then map[] else HashAt(hashes, k), examId, decodeOptions)]
  }

  /** One fetched question per key, in key order, each read from its own key. */
  lemma {:induction false} FetchedSpec(hashes: map<string, map<string, string>>, keys: seq<string>, failing: set<string>,
                                          examId: string, decodeOptions: string -> Option<seq<string>>)
    ensures |Fetched(hashes, keys, failing, examId, decodeOptions)| == |keys|
    ensures forall i :: 0 <= i < |keys| ==>
      Fetched(hashes, keys, failing, examId, decodeOptions)[i]
        == ReadQuestion(keys[i], if keys[i] in failing then map[] else HashAt(hashes, keys[i]), examId, decodeOptions)
  {
    if keys != [] {
      FetchedSpec(hashes, keys[..|keys| - 1], failing, examId, decodeOptions);
    }
  }

  /** `fetch_questions` (exam.rs:133-193). `keys` is what KEYS answered (every matching key once,
      in the server's order) or its error; a key in `failing` is one whose HGETALL fails. The
      tasks are awaited in spawn order, so the grouping sees the questions in key order. */
  method FetchQuestions(db: RedisStore, examId: string, keys: Result<seq<string>, string>, failing: set<string>,
                           decodeOptions: string -> Option<seq<string>>)
    returns (r: Result<map<string, seq<QuestionResponse>>, Errors.AppError>)
    requires keys.Ok? ==> Enumerates(keys.value, MatchingKeys(db.hashes, examId))
    ensures keys.Err? ==> r == Err(Errors.RedisError(keys.error))
    ensures keys.Ok? ==> r == Ok(Grouped(Fetched(db.hashes, keys.value, failing, examId, decodeOptions)))
  {
    if keys.Err? {
      return Err(Errors.RedisError(keys.error));
    }
    var questionKeys := keys.value;
    var tasks: seq<QuestionResponse> := [];
    var i := 0;
    while i < |questionKeys|
      invariant 0 <= i <= |questionKeys|
      invariant tasks == Fetched(db.hashes, questionKeys[..i], failing, examId, decodeOptions)
    {
      var key := questionKeys[i];
      var metadata := if key in failing then map[] else HashAt(db.hashes, key);
      FetchedStep(db.hashes, questionKeys, i, failing, examId, decodeOptions);
      tasks := tasks + [ReadQuestion(key, metadata, examId, decodeOptions)];
      i := i + 1;
    }
    assert questionKeys[..i] == questionKeys;
    var sectionMap: map<string, seq<QuestionResponse>> := map[];
    var j := 0;
    while j < |tasks|
      invariant 0 <= j <= |tasks|
      invariant sectionMap == Grouped(tasks[..j])
    {
      var question := tasks[j];
      GroupedStep(tasks, j);
      sectionMap := sectionMap[question.section := (if question.section in sectionMap then sectionMap[question.section] else []) + [question]];
      j := j + 1;
    }
    assert tasks[..j] == tasks;
    r := Ok(sectionMap);
  }

  /** Fetching one more key appends the question read from it. */
  lemma FetchedStep(hashes: map<string, map<string, string>>, keys: seq<string>, i: int, failing: set<string>,
                    examId: string, decodeOptions: string -> Option<seq<string>>)
    requires 0 <= i < |keys|
    ensures Fetched(hashes, keys[..i + 1], failing, examId, decodeOptions)
      == Fetched(hashes, keys[..i], failing, examId, decodeOptions)
         + [ReadQuestion(keys[i], if keys[i] in failing then map[] else HashAt(hashes, keys[i]), examId, decodeOptions)]
  {
    assert keys[..i + 1][..i] == keys[..i];
  }

  /** Grouping one more question appends it to the bucket of its section. */
  lemma GroupedStep(qs: seq<QuestionResponse>, j: int)
    requires 0 <= j < |qs|
    ensures var m := Grouped(qs[..j]);
      Grouped(qs[..j + 1]) == m[qs[j].section := (if qs[j].section in m then m[qs[j].section] else []) + [qs[j]]]
  {
    assert qs[..j + 1][..j] == qs[..j];
  }

  /** Every question in a bucket has that bucket's section and was fetched, and every fetched
      question is in the bucket of its section. */
  lemma GroupedMembers(qs: seq<QuestionResponse>)
    ensures forall s, q :: s in Grouped(qs) && q in Grouped(qs)[s] ==> q.section == s && q in qs
    ensures forall i :: 0 <= i < |qs| ==> qs[i].section in Grouped(qs) && qs[i] in Grouped(qs)[qs[i].section]
  {
    GroupedSpec(qs);
    forall s | s in Grouped(qs) ensures forall q :: q in Grouped(qs)[s] ==> q.section == s && q in qs {
      OfSectionMembers(qs, s);
    }
    forall i | 0 <= i < |qs| ensures qs[i].section in Grouped(qs) && qs[i] in Grouped(qs)[qs[i].section] {
      assert qs[i] in qs;
      OfSectionContains(qs, i);
    }
  }

  /** What `fetch_questions` promises its caller: one question per matched key, carrying the exam
      id asked for and the last segment of its key; buckets exist only for the sections seen; and
      the buckets hold as many questions as KEYS matched. */
  lemma FetchQuestionsSpec(hashes: map<string, map<string, string>>, keys: seq<string>, failing: set<string>,
                           examId: string, decodeOptions: string -> Option<seq<string>>)
    ensures |Fetched(hashes, keys, failing, examId, decodeOptions)| == |keys|
    ensures forall i :: 0 <= i < |keys| ==>
      && Fetched(hashes, keys, failing, examId, decodeOptions)[i].questionId == LastSegment(keys[i])
      && Fetched(hashes, keys, failing, examId, decodeOptions)[i].examId == examId
    ensures Grouped(Fetched(hashes, keys, failing, examId, decodeOptions)).Keys
      == SectionsOf(Fetched(hashes, keys, failing, examId, decodeOptions))
    ensures Sum(Sizes(Grouped(Fetched(hashes, keys, failing, examId, decodeOptions)))) == |keys|
  {
    var qs := Fetched(hashes, keys, failing, examId, decodeOptions);
    FetchedSpec(hashes, keys, failing, examId, decodeOptions);
    GroupedSpec(qs);
    GroupedTotal(qs);
  }

  /** Each question is in the reference bucket of its own section. */
  lemma {:induction false} OfSectionContains(qs: seq<QuestionResponse>, i: int)
    requires 0 <= i < |qs|
    ensures qs[i] in OfSection(qs, qs[i].section)
  {
    var p := qs[..|qs| - 1];
    if i < |qs| - 1 {
      assert qs[i] == p[i];
      OfSectionContains(p, i);
    }
  }

  // ---- writing an exam (exam.rs:43-87) ----

  /** A question of the exam as this path writes it. */
  datatype RedisQuestion = RedisQuestion(question: string, options: seq<string>, marks: nat, section: string)

  /** The exam as this path writes it; `questions` are the values of its question map, in
      iteration order (their keys are not used). */
  datatype RedisExamInput = RedisExamInput(examName: string, details: string, duration: nat, questions: seq<RedisQuestion>)

  /** One queued `hset_multiple`. */
  datatype Command = HSetMultiple(key: string, fields: seq<(string, string)>)

  /** The exam hash's fields (exam.rs:54-61). */
  function ExamFields(exam: RedisExamInput): seq<(string, string)> {
    [(FieldName, exam.examName), (FieldDetails, exam.details), (FieldDuration, NatToString(exam.duration))]
  }

  /** A question hash's fields (exam.rs:67-78); options that do not encode are written as "". */
  function QuestionFields(q: RedisQuestion, encodeOptions: seq<string> -> Option<string>): seq<(string, string)> {
    [(FieldName, q.question), (FieldOptions, encodeOptions(q.options).UnwrapOr("")),
     (FieldMarks, NatToString(q.marks)), (FieldSection, q.section)]
  }

  /** The id of the `i`-th question: the short form of the UUID drawn for it. */
  function QuestionIdOf(uuids: seq<string>, i: int): string
    requires 0 <= i < |uuids|
  {
    ShortUuid(uuids[i], 4)
  }

  /** The commands queued by the loop over the questions, one per question in order. */
  function QuestionCommands(examId: string, qs: seq<RedisQuestion>, uuids: seq<string>,
                            encodeOptions: seq<string> -> Option<string>): (r: seq<Command>)
    requires |uuids| == |qs|
    ensures |r| == |qs|
  {
    if qs == [] then []
    else
      var n := |qs| - 1;
      QuestionCommands(examId, qs[..n], uuids[..n], encodeOptions)
        + [HSetMultiple(QuestionKey(examId, QuestionIdOf(uuids, n)), QuestionFields(qs[n], encodeOptions))]
  }

  /** The whole pipeline: the exam hash, then one hash per question. */
  function Pipeline(examId: string, exam: RedisExamInput, uuids: seq<string>, encodeOptions: seq<string> -> Option<string>): seq<Command>
    requires |uuids| == |exam.questions|
  {
    [HSetMultiple(ExamKey(examId), ExamFields(exam))] + QuestionCommands(examId, exam.questions, uuids, encodeOptions)
  }

  /** HSET of several fields: each pair sets its field, later pairs winning. */
  function SetFields(h: map<string, string>, fs: seq<(string, string)>): map<string, string> {
    if fs == [] then h
    else SetFields(h, fs[..|fs| - 1])[fs[|fs| - 1].0 := fs[|fs| - 1].1]
  }

  /** One command applied to the server's hashes; a missing hash starts empty. */
  function Apply(hashes: map<string, map<string, string>>, c: Command): map<string, map<string, string>> {
    hashes[c.key := SetFields(HashAt(hashes, c.key), c.fields)]
  }

  /** The commands applied in order. */
  function ApplyAll(hashes: map<string, map<string, string>>, pipe: seq<Command>): map<string, map<string, string>> {
    if pipe == [] then hashes else Apply(ApplyAll(hashes, pipe[..|pipe| - 1]), pipe[|pipe| - 1])
  }

  /** The pipeline the loop builds (exam.rs:51-79), with the question ids drawn inside the loop. */
  method BuildPipeline(examId: string, exam: RedisExamInput, uuids: seq<string>, encodeOptions: seq<string> -> Option<string>)
    returns (pipe: seq<Command>)
    requires |uuids| == |exam.questions|
    ensures pipe == Pipeline(examId, exam, uuids, encodeOptions)
  {
    pipe := [HSetMultiple(ExamKey(examId), ExamFields(exam))];
    var i := 0;
    while i < |exam.questions|
      invariant 0 <= i <= |exam.questions|
      invariant pipe == [HSetMultiple(ExamKey(examId), ExamFields(exam))]
                        + QuestionCommands(examId, exam.questions[..i], uuids[..i], encodeOptions)
    {
      var question := exam.questions[i];
      var questionId := ShortUuid(uuids[i], 4);
      assert exam.questions[..i + 1][..i] == exam.questions[..i];
      assert uuids[..i + 1][..i] == uuids[..i];
      pipe := pipe + [HSetMultiple(QuestionKey(examId, questionId), QuestionFields(question, encodeOptions))];
      i := i + 1;
    }
    assert exam.questions[..i] == exam.questions && uuids[..i] == uuids;
  }

  /** `insert_exam_into_redis` (exam.rs:43-87). `pool` is the connection pool's error, if any;
      `execError` the error of the atomic pipeline, if any. The exam id is the short form of
      `examUuid`, the `i`-th question's id that of `questionUuids[i]`. */
  method InsertExamIntoRedis(db: RedisStore, exam: RedisExamInput, examUuid: string, questionUuids: seq<string>,
                             encodeOptions: seq<string> -> Option<string>, pool: Option<string>, execError: Option<string>)
    returns (r: Result<string, Errors.AppError>)
    requires |questionUuids| == |exam.questions|
    modifies db
    ensures pool.Some? ==> r == Err(Errors.PoolError(pool.value)) && db.hashes == old(db.hashes)
    ensures pool.None? && execError.Some? ==> r == Err(Errors.RedisError(execError.value)) && db.hashes == old(db.hashes)
    ensures pool.None? && execError.None? ==>
      && r == Ok(ShortUuid(examUuid, 4))
      && db.hashes == ApplyAll(old(db.hashes), Pipeline(ShortUuid(examUuid, 4), exam, questionUuids, encodeOptions))
  {
    if pool.Some? {
      return Err(Errors.PoolError(pool.value));
    }
    var examId := ShortUuid(examUuid, 4);
    var pipe := BuildPipeline(examId, exam, questionUuids, encodeOptions);
    var executed := db.Exec(pipe, execError);
    if executed.Err? {
      return Err(Errors.RedisError(executed.error));
    }
    r := Ok(examId);
  }

  // ---- reading back what was written ----

  /** Applying two pipelines one after the other is applying their concatenation. */
  lemma {:induction false} ApplyAllAppend(hashes: map<string, map<string, string>>, a: seq<Command>, b: seq<Command>)
    ensures ApplyAll(hashes, a + b) == ApplyAll(ApplyAll(hashes, a), b)
  {
    if b == [] {
      assert a + b == a;
    } else {
      ApplyAllAppend(hashes, a, b[..|b| - 1]);
      assert (a + b)[..|a + b| - 1] == a + b[..|b| - 1];
    }
  }

  /** Commands on other keys leave a hash as it was. */
  lemma {:induction false} ApplyAllElsewhere(hashes: map<string, map<string, string>>, pipe: seq<Command>, key: string)
    requires forall j :: 0 <= j < |pipe| ==> pipe[j].key != key
    ensures HashAt(ApplyAll(hashes, pipe), key) == HashAt(hashes, key)
  {
    if pipe != [] {
      ApplyAllElsewhere(hashes, pipe[..|pipe| - 1], key);
    }
  }

  /** The `i`-th queued question command writes the `i`-th question under its own id. */
  lemma {:induction false} QuestionCommandsSpec(examId: string, qs: seq<RedisQuestion>, uuids: seq<string>,
                                                encodeOptions: seq<string> -> Option<string>)
    requires |uuids| == |qs|
    ensures |QuestionCommands(examId, qs, uuids, encodeOptions)| == |qs|
    ensures forall i :: 0 <= i < |qs| ==>
      (QuestionCommands(examId, qs, uuids, encodeOptions)[i]
         == HSetMultiple(QuestionKey(examId, QuestionIdOf(uuids, i)), QuestionFields(qs[i], encodeOptions)))
  {
    if qs != [] {
      var n := |qs| - 1;
      QuestionCommandsSpec(examId, qs[..n], uuids[..n], encodeOptions);
      assert forall i :: 0 <= i < n ==> QuestionIdOf(uuids[..n], i) == QuestionIdOf(uuids, i);
    }
  }

  lemma SetFieldsThree(h: map<string, string>, a: (string, string), b: (string, string), c: (string, string))
    ensures SetFields(h, [a, b, c]) == h[a.0 := a.1][b.0 := b.1][c.0 := c.1]
  {
    assert [a][..0] == [];
    assert SetFields(h, [a]) == h[a.0 := a.1];
    assert [a, b][..1] == [a];
    assert SetFields(h, [a, b]) == SetFields(h, [a])[b.0 := b.1];
    assert [a, b, c][..2] == [a, b];
  }

  lemma SetFieldsFour(h: map<string, string>, a: (string, string), b: (string, string), c: (string, string), d: (string, string))
    ensures SetFields(h, [a, b, c, d]) == h[a.0 := a.1][b.0 := b.1][c.0 := c.1][d.0 := d.1]
  {
    assert [a, b, c, d][..3] == [a, b, c];
    SetFieldsThree(h, a, b, c);
  }

  /** An exam's key is shorter than each of its question keys, so the two never coincide. */
  lemma ExamKeyNotQuestionKey(examId: string, questionId: string)
    ensures ExamKey(examId) != QuestionKey(examId, questionId)
  {
    assert |QuestionKey(examId, questionId)| == |ExamKey(examId)| + 10 + |questionId|;
  }

  /** Every question key this code writes is matched by the KEYS pattern of its exam. */
  lemma QuestionKeyMatches(examId: string, questionId: string)
    ensures MatchesQuestionPattern(QuestionKey(examId, questionId), examId)
  {
    assert QuestionKey(examId, questionId) == QuestionKey(examId, "") + questionId;
  }

  /** After the pipeline, the exam's metadata reads back as written, whatever the hash held
      before: name, details and a duration that fits in a `u32`. */
  lemma ExamReadBack(hashes: map<string, map<string, string>>, examId: string, exam: RedisExamInput, uuids: seq<string>,
                     encodeOptions: seq<string> -> Option<string>)
    requires |uuids| == |exam.questions| && exam.duration <= U32Max
    ensures FetchExamMetadata(Ok(HashAt(ApplyAll(hashes, Pipeline(examId, exam, uuids, encodeOptions)), ExamKey(examId))))
      == Ok(ExamMetadata(exam.examName, exam.details, exam.duration))
  {
    var e := HSetMultiple(ExamKey(examId), ExamFields(exam));
    var qc := QuestionCommands(examId, exam.questions, uuids, encodeOptions);
    ApplyAllAppend(hashes, [e], qc);
    assert ApplyAll(hashes, [e]) == Apply(hashes, e) by {
      assert [e][..0] == [];
    }
    QuestionCommandsSpec(examId, exam.questions, uuids, encodeOptions);
    forall j | 0 <= j < |qc| ensures qc[j].key != ExamKey(examId) {
      ExamKeyNotQuestionKey(examId, QuestionIdOf(uuids, j));
    }
    ApplyAllElsewhere(Apply(hashes, e), qc, ExamKey(examId));
    SetFieldsThree(HashAt(hashes, ExamKey(examId)), ExamFields(exam)[0], ExamFields(exam)[1], ExamFields(exam)[2]);
    ParseNatToString(exam.duration);
  }

  /** The commands after the `i`-th question's write a different key, as long as no later question
      drew the same short id. */
  lemma LaterKeysDiffer(examId: string, exam: RedisExamInput, uuids: seq<string>,
                        encodeOptions: seq<string> -> Option<string>, i: int)
    requires |uuids| == |exam.questions| && 0 <= i < |uuids|
    requires forall j :: i < j < |uuids| ==> QuestionIdOf(uuids, j) != QuestionIdOf(uuids, i)
    ensures forall j :: i + 2 <= j < |Pipeline(examId, exam, uuids, encodeOptions)| ==>
      Pipeline(examId, exam, uuids, encodeOptions)[j].key != QuestionKey(examId, QuestionIdOf(uuids, i))
  {
    var key := QuestionKey(examId, QuestionIdOf(uuids, i));
    var pipe := Pipeline(examId, exam, uuids, encodeOptions);
    var qc := QuestionCommands(examId, exam.questions, uuids, encodeOptions);
    QuestionCommandsSpec(examId, exam.questions, uuids, encodeOptions);
    forall j | i + 2 <= j < |pipe| ensures pipe[j].key != key {
      assert pipe[j] == qc[j - 1];
      QuestionKeyDistinct(examId, QuestionIdOf(uuids, j - 1), QuestionIdOf(uuids, i));
    }
  }

  /** A hash after a pipeline is the one its last write to that key left. */
  lemma ApplyAllLastWrite(hashes: map<string, map<string, string>>, pipe: seq<Command>, m: int, key: string)
    requires 0 <= m < |pipe| && pipe[m].key == key
    requires forall j :: m < j < |pipe| ==> pipe[j].key != key
    ensures HashAt(ApplyAll(hashes, pipe), key) == SetFields(HashAt(ApplyAll(hashes, pipe[..m]), key), pipe[m].fields)
  {
    var before := pipe[..m + 1];
    var after := pipe[m + 1..];
    assert pipe == before + after;
    ApplyAllAppend(hashes, before, after);
    ApplyAllElsewhere(ApplyAll(hashes, before), after, key);
    assert before[..m] == pipe[..m];
  }

  /** After the pipeline, the `i`-th question's hash is what the commands before it left there,
      with the question's four fields set, as long as no later question drew the same short id. */
  lemma QuestionHashAfter(hashes: map<string, map<string, string>>, examId: string, exam: RedisExamInput, uuids: seq<string>,
                          encodeOptions: seq<string> -> Option<string>, i: int)
    requires |uuids| == |exam.questions| && 0 <= i < |uuids|
    requires forall j :: i < j < |uuids| ==> QuestionIdOf(uuids, j) != QuestionIdOf(uuids, i)
    ensures var key := QuestionKey(examId, QuestionIdOf(uuids, i));
      var pipe := Pipeline(examId, exam, uuids, encodeOptions);
      HashAt(ApplyAll(hashes, pipe), key)
        == SetFields(HashAt(ApplyAll(hashes, pipe[..i + 1]), key), QuestionFields(exam.questions[i], encodeOptions))
  {
    var pipe := Pipeline(examId, exam, uuids, encodeOptions);
    QuestionCommandsSpec(examId, exam.questions, uuids, encodeOptions);
    assert pipe[i + 1] == QuestionCommands(examId, exam.questions, uuids, encodeOptions)[i];
    LaterKeysDiffer(examId, exam, uuids, encodeOptions, i);
    ApplyAllLastWrite(hashes, pipe, i + 1, QuestionKey(examId, QuestionIdOf(uuids, i)));
  }

  /** A question hash written over any earlier hash reads back as the question written, under
      the id in its key. */
  lemma ReadWrittenQuestion(h: map<string, string>, examId: string, questionId: string, q: RedisQuestion,
                            encodeOptions: seq<string> -> Option<string>, decodeOptions: string -> Option<seq<string>>)
    requires ':' !in questionId && q.marks <= U32Max
    requires encodeOptions(q.options).Some? && decodeOptions(encodeOptions(q.options).value) == Some(q.options)
    ensures ReadQuestion(QuestionKey(examId, questionId), SetFields(h, QuestionFields(q, encodeOptions)), examId, decodeOptions)
      == QuestionResponse(q.question, q.options, q.marks, q.section, questionId, examId)
  {
    var fs := QuestionFields(q, encodeOptions);
    SetFieldsFour(h, fs[0], fs[1], fs[2], fs[3]);
    ParseNatToString(q.marks);
    LastSegmentOfQuestionKey(examId, questionId);
  }

  /** After the pipeline, the `i`-th question reads back from its key exactly as written, as long
      as its id has no ':', no later question drew the same short id, its marks fit in a `u32` and
      its options survive the JSON round trip. */
  lemma QuestionReadBack(hashes: map<string, map<string, string>>, examId: string, exam: RedisExamInput, uuids: seq<string>,
                         encodeOptions: seq<string> -> Option<string>, decodeOptions: string -> Option<seq<string>>, i: int)
    requires |uuids| == |exam.questions| && 0 <= i < |uuids|
    requires ':' !in QuestionIdOf(uuids, i)
    requires forall j :: i < j < |uuids| ==> QuestionIdOf(uuids, j) != QuestionIdOf(uuids, i)
    requires exam.questions[i].marks <= U32Max
    requires encodeOptions(exam.questions[i].options).Some?
    requires decodeOptions(encodeOptions(exam.questions[i].options).value) == Some(exam.questions[i].options)
    ensures var key := QuestionKey(examId, QuestionIdOf(uuids, i));
      var q := exam.questions[i];
      ReadQuestion(key, HashAt(ApplyAll(hashes, Pipeline(examId, exam, uuids, encodeOptions)), key), examId, decodeOptions)
        == QuestionResponse(q.question, q.options, q.marks, q.section, QuestionIdOf(uuids, i), examId)
  {
    var key := QuestionKey(examId, QuestionIdOf(uuids, i));
    var pipe := Pipeline(examId, exam, uuids, encodeOptions);
    QuestionHashAfter(hashes, examId, exam, uuids, encodeOptions, i);
    ReadWrittenQuestion(HashAt(ApplyAll(hashes, pipe[..i + 1]), key), examId, QuestionIdOf(uuids, i), exam.questions[i],
                        encodeOptions, decodeOptions);
  }

  /** Short ids are only four hex digits, so two questions can draw the same one. Then the later
      question's four fields overwrite the earlier one's hash: reading that key gives the later
      question, and the earlier question is lost. */
  lemma SharedShortIdKeepsLater(hashes: map<string, map<string, string>>, examId: string, exam: RedisExamInput, uuids: seq<string>,
                                encodeOptions: seq<string> -> Option<string>, decodeOptions: string -> Option<seq<string>>, i: int, j: int)
    requires |uuids| == |exam.questions| && 0 <= i < j < |uuids|
    requires QuestionIdOf(uuids, i) == QuestionIdOf(uuids, j) && ':' !in QuestionIdOf(uuids, j)
    requires forall k :: j < k < |uuids| ==> QuestionIdOf(uuids, k) != QuestionIdOf(uuids, j)
    requires exam.questions[j].marks <= U32Max
    requires encodeOptions(exam.questions[j].options).Some?
    requires decodeOptions(encodeOptions(exam.questions[j].options).value) == Some(exam.questions[j].options)
    ensures var key := QuestionKey(examId, QuestionIdOf(uuids, i));
      var q := exam.questions[j];
      ReadQuestion(key, HashAt(ApplyAll(hashes, Pipeline(examId, exam, uuids, encodeOptions)), key), examId, decodeOptions)
        == QuestionResponse(q.question, q.options, q.marks, q.section, QuestionIdOf(uuids, i), examId)
  {
    QuestionReadBack(hashes, examId, exam, uuids, encodeOptions, decodeOptions, j);
  }
}
