/** routes/mcq.rs: the language gate in front of the two prompt builders, and the handler
    pipeline prompt, LLM, cleaning, parsing, in which the first failing step decides the HTTP
    error. The LLM exchange for a prompt is a parameter (`reply`, with the body decoder and the
    status reason phrases); cleaning and parsing the model's output are parameters too, since
    `clean_llm_json_output` and the response types' decoders are not part of this model. */
module Mcq {
  import opened Wrappers
  import Prompts
  import Llm

  datatype PromptLanguage = Arabic | Urdu

  /** An `actix_web::Error` built by `ErrorBadRequest` or `ErrorInternalServerError`. */
  datatype HttpError = HttpError(status: nat, message: string)

  function BadRequest(message: string): HttpError {
    HttpError(400, message)
  }

  function InternalServerError(message: string): HttpError {
    HttpError(500, message)
  }

  /** `build_contextual_mcq_prompt` (mcq.rs:23-37): only Urdu has a context template. */
  function BuildContextualMcqPrompt(t: Prompts.PromptTemplates, question: string, answer: string, language: PromptLanguage): Result<string, HttpError> {
    match language
    case Arabic => Err(BadRequest("Arabic language is not supported for this endpoint"))
    case Urdu => Ok(Prompts.UrduPrompt(t, question, answer))
  }

  /** `get_quranic_verse_distractor_prompt` (mcq.rs:39-57): only Arabic has verse templates. */
  function GetQuranicVerseDistractorPrompt(t: Prompts.PromptTemplates, question: string, answer: string,
                                           language: PromptLanguage, d: Prompts.DistractorType): Result<string, HttpError> {
    match language
    case Urdu => Err(BadRequest("Urdu language is not supported for this endpoint"))
    case Arabic => Ok(Prompts.ArabicPrompt(t, question, answer, d))
  }

  /** Each builder rejects exactly the other language with a 400, and otherwise returns its
      template filled with the question and answer. */
  lemma PromptBuildersSpec(t: Prompts.PromptTemplates, question: string, answer: string, language: PromptLanguage, d: Prompts.DistractorType)
    ensures BuildContextualMcqPrompt(t, question, answer, language).Err? <==> language == Arabic
    ensures BuildContextualMcqPrompt(t, question, answer, language).Err? ==>
      BuildContextualMcqPrompt(t, question, answer, language).error.status == 400
    ensures BuildContextualMcqPrompt(t, question, answer, language).Ok? ==>
      BuildContextualMcqPrompt(t, question, answer, language).value == Prompts.Fill(t.promptContextUrdu, question, answer)
    ensures GetQuranicVerseDistractorPrompt(t, question, answer, language, d).Err? <==> language == Urdu
    ensures GetQuranicVerseDistractorPrompt(t, question, answer, language, d).Err? ==>
      GetQuranicVerseDistractorPrompt(t, question, answer, language, d).error.status == 400
    ensures GetQuranicVerseDistractorPrompt(t, question, answer, language, d).Ok? ==>
      GetQuranicVerseDistractorPrompt(t, question, answer, language, d).value == Prompts.Fill(Prompts.SelectTemplate(t, d), question, answer)
  {
  }

  /** The steps after the prompt, shared by both handlers (mcq.rs:67-82, 99-114). `llmLabel` is
      the text put in front of an LLM failure, which the two handlers spell differently. */
  function AfterPrompt<T>(prompt: string, llmLabel: string,
                          reply: string -> Llm.Reply, decode: string -> Option<Llm.ApiResponse>, reason: nat -> string,
                          clean: string -> Result<string, string>, parse: string -> Result<T, string>): Result<T, HttpError> {
    match Llm.SendPromptToLlm(reply(prompt), decode)
    case Err(e) => Err(InternalServerError(llmLabel + Llm.LlmErrorMessage(e, reason)))
    case Ok(raw) =>
      match clean(raw)
      case Err(e) => Err(InternalServerError("Cleaning error: " + e))
      case Ok(text) =>
        match parse(text)
        case Err(e) => Err(InternalServerError("Parsing error: " + e))
        case Ok(response) => Ok(response)
  }

  /** `generate_mcq_options_from_context` (mcq.rs:59-83), from the already mapped language on. */
  function GenerateMcqOptionsFromContext<T>(t: Prompts.PromptTemplates, question: string, answer: string, language: PromptLanguage,
                                            reply: string -> Llm.Reply, decode: string -> Option<Llm.ApiResponse>, reason: nat -> string,
                                            clean: string -> Result<string, string>, parse: string -> Result<T, string>): Result<T, HttpError> {
    match BuildContextualMcqPrompt(t, question, answer, language)
    case Err(e) => Err(e)
    case Ok(prompt) => AfterPrompt(prompt, "LLM API Error: ", reply, decode, reason, clean, parse)
  }

  /** `generate_quranic_verse_distractor_response` (mcq.rs:85-115): always asks for Arabic. */
  function GenerateQuranicVerseDistractorResponse<T>(t: Prompts.PromptTemplates, question: string, answer: string, d: Prompts.DistractorType,
                                                     reply: string -> Llm.Reply, decode: string -> Option<Llm.ApiResponse>, reason: nat -> string,
                                                     clean: string -> Result<string, string>, parse: string -> Result<T, string>): Result<T, HttpError> {
    match GetQuranicVerseDistractorPrompt(t, question, answer, Arabic, d)
    case Err(e) => Err(e)
    case Ok(prompt) => AfterPrompt(prompt, "LLM API error: ", reply, decode, reason, clean, parse)
  }

  /** A step's failure is a 500 whose message starts with that step's label; the steps after it
      are never consulted (swapping `clean` or `parse` for anything else gives the same error);
      and success is the parsed value of the cleaned LLM text. */
  lemma AfterPromptSpec<T>(prompt: string, llmLabel: string,
                           reply: string -> Llm.Reply, decode: string -> Option<Llm.ApiResponse>, reason: nat -> string,
                           clean: string -> Result<string, string>, parse: string -> Result<T, string>,
                           clean': string -> Result<string, string>, parse': string -> Result<T, string>)
    ensures var llm := Llm.SendPromptToLlm(reply(prompt), decode);
      && (llm.Err? ==>
            && AfterPrompt(prompt, llmLabel, reply, decode, reason, clean, parse) == Err(InternalServerError(llmLabel + Llm.LlmErrorMessage(llm.error, reason)))
            && AfterPrompt(prompt, llmLabel, reply, decode, reason, clean, parse) == AfterPrompt(prompt, llmLabel, reply, decode, reason, clean', parse'))
      && (llm.Ok? && clean(llm.value).Err? ==>
            && AfterPrompt(prompt, llmLabel, reply, decode, reason, clean, parse) == Err(InternalServerError("Cleaning error: " + clean(llm.value).error))
            && AfterPrompt(prompt, llmLabel, reply, decode, reason, clean, parse) == AfterPrompt(prompt, llmLabel, reply, decode, reason, clean, parse'))
      && (llm.Ok? && clean(llm.value).Ok? ==>
            AfterPrompt(prompt, llmLabel, reply, decode, reason, clean, parse) ==
              match parse(clean(llm.value).value)
              case Ok(v) => Ok(v)
              case Err(e) => Err(InternalServerError("Parsing error: " + e)))
    ensures AfterPrompt(prompt, llmLabel, reply, decode, reason, clean, parse).Err? ==>
      AfterPrompt(prompt, llmLabel, reply, decode, reason, clean, parse).error.status == 500
  {
  }

  /** A rejected language fails with the 400 before any LLM call: the result is the same whatever
      the LLM, the cleaner or the parser would do. Otherwise the LLM is asked with the Urdu
      context prompt, and every later failure is a 500. */
  lemma ContextHandlerShortCircuits<T>(t: Prompts.PromptTemplates, question: string, answer: string, language: PromptLanguage,
                                       reply: string -> Llm.Reply, decode: string -> Option<Llm.ApiResponse>, reason: nat -> string,
                                       clean: string -> Result<string, string>, parse: string -> Result<T, string>,
                                       reply': string -> Llm.Reply, decode': string -> Option<Llm.ApiResponse>, reason': nat -> string,
                                       clean': string -> Result<string, string>, parse': string -> Result<T, string>)
    ensures language == Arabic ==>
      && GenerateMcqOptionsFromContext(t, question, answer, language, reply, decode, reason, clean, parse)
           == Err(BadRequest("Arabic language is not supported for this endpoint"))
      && GenerateMcqOptionsFromContext(t, question, answer, language, reply', decode', reason', clean', parse')
           == Err(BadRequest("Arabic language is not supported for this endpoint"))
    ensures language == Urdu ==>
      GenerateMcqOptionsFromContext(t, question, answer, language, reply, decode, reason, clean, parse)
        == AfterPrompt(Prompts.UrduPrompt(t, question, answer), "LLM API Error: ", reply, decode, reason, clean, parse)
    ensures GenerateMcqOptionsFromContext(t, question, answer, language, reply, decode, reason, clean, parse).Err? ==>
      (GenerateMcqOptionsFromContext(t, question, answer, language, reply, decode, reason, clean, parse).error.status == 400 <==> language == Arabic)
  {
    if language == Urdu {
      AfterPromptSpec(Prompts.UrduPrompt(t, question, answer), "LLM API Error: ", reply, decode, reason, clean, parse, clean, parse);
    }
  }

  /** The verse handler always builds its prompt, so it never answers 400: it asks the LLM with
      the Arabic template of its distractor type, and any failure is a 500. */
  lemma VerseHandlerNeverRejects<T>(t: Prompts.PromptTemplates, question: string, answer: string, d: Prompts.DistractorType,
                                    reply: string -> Llm.Reply, decode: string -> Option<Llm.ApiResponse>, reason: nat -> string,
                                    clean: string -> Result<string, string>, parse: string -> Result<T, string>)
    ensures GenerateQuranicVerseDistractorResponse(t, question, answer, d, reply, decode, reason, clean, parse)
      == AfterPrompt(Prompts.ArabicPrompt(t, question, answer, d), "LLM API error: ", reply, decode, reason, clean, parse)
    ensures GenerateQuranicVerseDistractorResponse(t, question, answer, d, reply, decode, reason, clean, parse).Err? ==>
      GenerateQuranicVerseDistractorResponse(t, question, answer, d, reply, decode, reason, clean, parse).error.status == 500
  {
    AfterPromptSpec(Prompts.ArabicPrompt(t, question, answer, d), "LLM API error: ", reply, decode, reason, clean, parse, clean, parse);
  }

  /** The eight verse endpoints (mcq.rs:117-194). */
  datatype Endpoint = Collection | Morphological | Diacritic | Phonetic | Grammatical | AlternateVerse | Thematic | Collocational

  /** The distractor type each endpoint passes to the generic handler. */
  function EndpointDistractor(e: Endpoint): Prompts.DistractorType {
    match e
    case Collection => Prompts.Collection
    case Morphological => Prompts.Morphological
    case Diacritic => Prompts.Diacritic
    case Phonetic => Prompts.Phonetic
    case Grammatical => Prompts.Grammatical
    case AlternateVerse => Prompts.AlternateVerse
    case Thematic => Prompts.Thematic
    case Collocational => Prompts.Collocational
  }

  /** An endpoint's response: the generic handler with its own distractor type. */
  function GenerateFor<T>(e: Endpoint, t: Prompts.PromptTemplates, question: string, answer: string,
                          reply: string -> Llm.Reply, decode: string -> Option<Llm.ApiResponse>, reason: nat -> string,
                          clean: string -> Result<string, string>, parse: string -> Result<T, string>): Result<T, HttpError> {
    GenerateQuranicVerseDistractorResponse(t, question, answer, EndpointDistractor(e), reply, decode, reason, clean, parse)
  }

  /** Different endpoints pass different distractor types, every distractor type has an endpoint,
      and so each endpoint prompts with its own template field. */
  lemma EndpointDistractorBijective(e1: Endpoint, e2: Endpoint, d: Prompts.DistractorType)
    ensures EndpointDistractor(e1) == EndpointDistractor(e2) <==> e1 == e2
    ensures exists e :: EndpointDistractor(e) == d
  {
    var e := match d
      case Collection => Collection
      case Morphological => Morphological
      case Diacritic => Diacritic
      case Phonetic => Phonetic
      case Grammatical => Grammatical
      case AlternateVerse => AlternateVerse
      case Thematic => Thematic
      case Collocational => Collocational;
    assert EndpointDistractor(e) == d;
  }
}
