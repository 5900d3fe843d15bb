/** The LLM request and response shapes of model/llm.rs, and the two callers that send a prompt
    and pull the generated text out of the reply: `handle_llm_response`
    (handlers/llm_response_handler.rs) and `send_prompt_to_llm` with `parse_llm_response_text`
    (services/llm.rs). The HTTP exchange is an input: either the request could not be sent or
    its body not read, or a status code and a body came back. JSON decoding of the body is a
    parameter, `decode`, since serde is not part of this model. */
module Llm {
  import opened Wrappers
  import Decimal

  /** An `f32` kept as its IEEE 754 bit pattern; nothing here does arithmetic on it. */
  datatype Temperature = Temperature(bits: bv32)

  /** `0.7_f32`, the temperature both callers pass. */
  const SevenTenths: Temperature := Temperature(0x3F33_3333)

  // ---- the request (model/llm.rs:4-26, 77-94) ----

  datatype Part = Part(text: string)

  datatype Content = Content(parts: seq<Part>)

  datatype GenerationConfig = GenerationConfig(candidateCount: nat, temperature: Option<Temperature>)

  datatype RequestBody = RequestBody(contents: seq<Content>, generationConfig: GenerationConfig)

  /** `Content::new` (model/llm.rs:77-83). */
  function NewContent(text: string): Content {
    Content([Part(text)])
  }

  /** `RequestBody::new` (model/llm.rs:85-94). */
  function NewRequestBody(prompt: string, candidateCount: nat, temperature: Temperature): RequestBody {
    RequestBody([NewContent(prompt)], GenerationConfig(candidateCount, Some(temperature)))
  }

  /** The text of the only part of the only content, if the body has that shape. */
  function PromptOf(body: RequestBody): Option<string> {
    if |body.contents| == 1 && |body.contents[0].parts| == 1 then Some(body.contents[0].parts[0].text) else None
  }

  /** A request body carries exactly one content with exactly one part, whose text is the prompt;
      the candidate count is the argument and the temperature is always set. Different prompts
      give different bodies. */
  lemma NewRequestBodySpec(prompt: string, candidateCount: nat, temperature: Temperature)
    ensures PromptOf(NewRequestBody(prompt, candidateCount, temperature)) == Some(prompt)
    ensures NewRequestBody(prompt, candidateCount, temperature).generationConfig.candidateCount == candidateCount
    ensures NewRequestBody(prompt, candidateCount, temperature).generationConfig.temperature == Some(temperature)
  {
  }

  // ---- the response (model/llm.rs:28-65) ----

  datatype SafetyRating = SafetyRating(category: string, probability: string)

  datatype PromptFeedback = PromptFeedback(blockReason: Option<string>, safetyRatings: seq<SafetyRating>)

  datatype PartResponse = PartResponse(text: string)

  datatype ContentResponse = ContentResponse(parts: seq<PartResponse>)

  datatype Candidate = Candidate(
    content: Option<ContentResponse>,
    finishReason: Option<string>,
    safetyRatings: Option<seq<SafetyRating>>)

  datatype ApiResponse = ApiResponse(candidates: Option<seq<Candidate>>, promptFeedback: Option<PromptFeedback>)

  /** `candidates.as_ref().and_then(first).and_then(content).and_then(parts.first).map(text)`
      (llm_response_handler.rs:32-37, services/llm.rs:47-52). */
  function FirstText(r: ApiResponse): Option<string> {
    match r.candidates
    case None => None
    case Some(cs) =>
      if cs == [] then None
      else match cs[0].content
        case None => None
        case Some(c) => if c.parts == [] then None else Some(c.parts[0].text)
  }

  /** There is text exactly when every link of the chain is present, and then it is the first
      part of the first candidate's content. */
  lemma FirstTextSpec(r: ApiResponse)
    ensures FirstText(r).Some? <==>
      && r.candidates.Some? && r.candidates.value != []
      && r.candidates.value[0].content.Some? && r.candidates.value[0].content.value.parts != []
    ensures FirstText(r).Some? ==> FirstText(r).value == r.candidates.value[0].content.value.parts[0].text
  {
  }

  /** Candidates after the first, parts after the first, and everything but the first
      candidate's content never change the extracted text. */
  lemma FirstTextIgnoresRest(c: Candidate, c': Candidate, rest: seq<Candidate>, rest': seq<Candidate>,
                             fb: Option<PromptFeedback>, fb': Option<PromptFeedback>)
    requires c.content == c'.content
    ensures FirstText(ApiResponse(Some([c] + rest), fb)) == FirstText(ApiResponse(Some([c'] + rest'), fb'))
  {
    assert ([c] + rest)[0] == c && ([c'] + rest')[0] == c';
  }

  /** A reply whose first candidate's first part is `t` yields `t`, whatever follows it. */
  lemma FirstTextOfReply(t: string, ps: seq<PartResponse>, cs: seq<Candidate>, fb: Option<PromptFeedback>,
                         finish: Option<string>, ratings: Option<seq<SafetyRating>>)
    ensures FirstText(ApiResponse(Some([Candidate(Some(ContentResponse([PartResponse(t)] + ps)), finish, ratings)] + cs), fb)) == Some(t)
  {
  }

  // ---- the HTTP exchange ----

  /** What came back: the request could not be sent (with the transport's own error text), the
      body could not be read, or a status and a body arrived. */
  datatype Reply = SendFailed(cause: string) | BodyUnreadable | Received(status: nat, body: string)

  /** Why no text was produced. `Transport` is a send error passed on without context (as
      `send_prompt_to_llm` does); `RequestNotSent` is the same failure with the context
      `handle_llm_response` adds. `StatusError` keeps the status and the body it reports. */
  datatype LlmError =
    | Transport(cause: string)
    | RequestNotSent
    | BodyNotRead
    | StatusError(status: nat, body: string)
    | JsonInvalid
    | NoValidText

  /** The text `anyhow` prints for each error: the outermost context, or the `bail!` message.
      `reason` is the canonical reason phrase `StatusCode`'s `Display` appends to the code. */
  function LlmErrorMessage(e: LlmError, reason: nat -> string): string {
    match e
    case Transport(cause) => cause
    case RequestNotSent => "Failed to send request to LLM API"
    case BodyNotRead => "Failed to read LLM response body"
    case StatusError(status, body) => "LLM API Error: " + Decimal.NatToString(status) + " " + reason(status) + " - " + body
    case JsonInvalid => "Failed to parse LLM API JSON"
    case NoValidText => "No valid text in LLM response"
  }

  /** A status error's message shows the status code and the whole body, and differs from every
      fixed message. */
  lemma StatusErrorMessage(status: nat, body: string, reason: nat -> string, e: LlmError)
    requires !e.StatusError? && !e.Transport?
    ensures var m := LlmErrorMessage(StatusError(status, body), reason);
      && m[..15] == "LLM API Error: "
      && m[|m| - |body|..] == body
      && m != LlmErrorMessage(e, reason)
  {
    var m := LlmErrorMessage(StatusError(status, body), reason);
    assert m[..15] == "LLM API Error: ";
    assert m[4] == 'A';
  }

  /** `StatusCode::is_success`. */
  predicate IsSuccess(status: nat) {
    200 <= status <= 299
  }

  /** `parse_llm_response_text` (services/llm.rs:43-54): decode, then follow the chain. */
  function ParseLlmResponseText(body: string, decode: string -> Option<ApiResponse>): Result<string, LlmError> {
    match decode(body)
    case None => Err(JsonInvalid)
    case Some(r) =>
      match FirstText(r)
      case None => Err(NoValidText)
      case Some(t) => Ok(t)
  }

  /** The part both callers share once a status and body have arrived
      (llm_response_handler.rs:25-39, services/llm.rs:35-39): a non-success status is an error
      carrying the body, and only a success is decoded. */
  function TextOfResponse(status: nat, body: string, decode: string -> Option<ApiResponse>): Result<string, LlmError> {
    if !IsSuccess(status) then Err(StatusError(status, body)) else ParseLlmResponseText(body, decode)
  }

  /** `handle_llm_response` (llm_response_handler.rs:6-42): the request it sends, and the text
      or error it returns. */
  function HandleLlmResponse(prompt: string, nGuesses: nat, reply: Reply, decode: string -> Option<ApiResponse>): (RequestBody, Result<string, LlmError>) {
    var request := NewRequestBody(prompt, nGuesses, SevenTenths);
    match reply
    case SendFailed(_) => (request, Err(RequestNotSent))
    case BodyUnreadable => (request, Err(BodyNotRead))
    case Received(status, body) => (request, TextOfResponse(status, body, decode))
  }

  /** `send_prompt_to_llm` (services/llm.rs:14-40). Its request type is not part of this model;
      a send error is returned as it is, without context. */
  function SendPromptToLlm(reply: Reply, decode: string -> Option<ApiResponse>): Result<string, LlmError> {
    match reply
    case SendFailed(cause) => Err(Transport(cause))
    case BodyUnreadable => Err(BodyNotRead)
    case Received(status, body) => TextOfResponse(status, body, decode)
  }

  /** A non-success status is an error that carries the status and body, and the body is never
      decoded: the result is the same whatever `decode` does. A success is the first part of the
      first candidate, "No valid text" when a link of that chain is missing, and a JSON error when
      the body does not decode. */
  lemma TextOfResponseSpec(status: nat, body: string, decode: string -> Option<ApiResponse>, decode': string -> Option<ApiResponse>)
    ensures !IsSuccess(status) ==>
      && TextOfResponse(status, body, decode) == Err(StatusError(status, body))
      && TextOfResponse(status, body, decode) == TextOfResponse(status, body, decode')
    ensures IsSuccess(status) && decode(body).None? ==> TextOfResponse(status, body, decode) == Err(JsonInvalid)
    ensures IsSuccess(status) && decode(body).Some? ==>
      TextOfResponse(status, body, decode) == if FirstText(decode(body).value).Some?
                                              then Ok(FirstText(decode(body).value).value) else Err(NoValidText)
    ensures TextOfResponse(status, body, decode).Ok? <==>
      IsSuccess(status) && decode(body).Some? && FirstText(decode(body).value).Some?
  {
  }

  /** `handle_llm_response` asks for `n_guesses` candidates at temperature 0.7 with the prompt as
      the only part. Its result is what `send_prompt_to_llm` returns for the same reply, except
      that a send error gets the context message instead of its own text. */
  lemma HandleLlmResponseSpec(prompt: string, nGuesses: nat, reply: Reply, decode: string -> Option<ApiResponse>)
    ensures PromptOf(HandleLlmResponse(prompt, nGuesses, reply, decode).0) == Some(prompt)
    ensures HandleLlmResponse(prompt, nGuesses, reply, decode).0.generationConfig == GenerationConfig(nGuesses, Some(SevenTenths))
    ensures !reply.SendFailed? ==> HandleLlmResponse(prompt, nGuesses, reply, decode).1 == SendPromptToLlm(reply, decode)
    ensures reply.SendFailed? ==>
      && HandleLlmResponse(prompt, nGuesses, reply, decode).1 == Err(RequestNotSent)
      && SendPromptToLlm(reply, decode) == Err(Transport(reply.cause))
  {
  }
}
