/**
 * `lcats/analysis/llm_extractor.py`: the generic JSON prompt extractor.  The
 * LLM client, the text indexer, the result aligner and validator and the
 * JSON library are parameters; what is modelled is how the extractor builds
 * its prompt, classifies API errors, branches on the reply and records the
 * `last_*` inspection fields.
 */
module LlmExtractor {
  import opened Wrappers
  import opened PyStr
  import opened Json
  import PyFormat
  import Display

  // ---------------------------------------------------------------- _classify_api_error

  /** The categories of `_classify_api_error`. */
  datatype Category = QuotaExceeded | RateLimit | TpmLimit | ContextLength | Auth | Server | UnknownCategory

  function CategoryName(c: Category): string
  {
    match c
    case QuotaExceeded => "quota_exceeded"
    case RateLimit => "rate_limit"
    case TpmLimit => "tpm_limit"
    case ContextLength => "context_length"
    case Auth => "auth"
    case Server => "server"
    case UnknownCategory => "unknown"
  }

  function SuggestedAction(c: Category): string
  {
    match c
    case QuotaExceeded => "stop_job_fix_billing"
    case RateLimit => "retry_with_backoff"
    case TpmLimit => "chunk_or_queue"
    case ContextLength => "shorten_input"
    case Auth => "fix_credentials"
    case Server => "retry_with_backoff"
    case UnknownCategory => "inspect_and_decide"
  }

  /** The job-control flags each category sets. */
  predicate CanRetry(c: Category) { c == RateLimit || c == TpmLimit || c == Server }
  predicate NeedsSmallerRequest(c: Category) { c == TpmLimit || c == ContextLength }
  predicate ShouldAbortBatch(c: Category) { c == QuotaExceeded || c == Auth }

  /** The tests of the table, on the lowercased code and message and the raw status. */
  predicate IsQuota(status: Value, code: string, message: string)
  {
    Contains(code, "insufficient_quota") || Contains(message, "quota") || status == Int(402)
  }

  predicate IsRateLimit(status: Value, code: string, message: string)
  {
    Contains(code, "rate_limit_exceeded") || Contains(message, "rate limit") || status == Int(429)
  }

  predicate IsTpm(message: string)
  {
    Contains(message, "tokens per min") || Contains(message, "tpm")
  }

  predicate IsContextLength(code: string, message: string)
  {
    Contains(code, "context_length_exceeded") || Contains(message, "maximum context length")
  }

  predicate IsAuth(status: Value, message: string)
  {
    status == Int(401) || Contains(message, "api key") || Contains(message, "authentication")
  }

  predicate IsServer(status: Value, message: string)
  {
    status == Int(500) || status == Int(502) || status == Int(503) || status == Int(504) || Contains(message, "overloaded")
  }

  /** The `if`/`elif` chain: the first test that holds decides the category. */
  function Categorize(status: Value, code: string, message: string): Category
  {
    if IsQuota(status, code, message) then QuotaExceeded
    else if IsRateLimit(status, code, message) then (if IsTpm(message) then TpmLimit else RateLimit)
    else if IsContextLength(code, message) then ContextLength
    else if IsAuth(status, message) then Auth
    else if IsServer(status, message) then Server
    else UnknownCategory
  }

  /**
   * The precedence of the table: a quota error wins over everything, a rate
   * limit over everything but quota, and so on down; "unknown" is what is
   * left when no test holds.
   */
  lemma CategorizePrecedence(status: Value, code: string, message: string)
    ensures var c := Categorize(status, code, message);
      && (c == QuotaExceeded <==> IsQuota(status, code, message))
      && ((c == RateLimit || c == TpmLimit) <==> !IsQuota(status, code, message) && IsRateLimit(status, code, message))
      && (c == TpmLimit <==> !IsQuota(status, code, message) && IsRateLimit(status, code, message) && IsTpm(message))
      && (c == ContextLength <==> (!IsQuota(status, code, message) && !IsRateLimit(status, code, message)
            && IsContextLength(code, message)))
      && (c == Auth <==> (!IsQuota(status, code, message) && !IsRateLimit(status, code, message)
            && !IsContextLength(code, message) && IsAuth(status, message)))
      && (c == UnknownCategory <==> (!IsQuota(status, code, message) && !IsRateLimit(status, code, message)
            && !IsContextLength(code, message) && !IsAuth(status, message) && !IsServer(status, message)))
  {
  }

  /**
   * The flags follow the category: quota and auth errors abort the batch,
   * rate limits and server errors can be retried, and the per-minute token
   * limit and context length call for a smaller request; "unknown" sets
   * none.
   */
  lemma CategoryFlags(c: Category)
    ensures ShouldAbortBatch(c) ==> !CanRetry(c) && !NeedsSmallerRequest(c)
    ensures c == TpmLimit <==> CanRetry(c) && NeedsSmallerRequest(c)
    ensures c == UnknownCategory ==> !CanRetry(c) && !NeedsSmallerRequest(c) && !ShouldAbortBatch(c)
    ensures CategoryName(c) == "unknown" <==> c == UnknownCategory
  {
  }

  /** `(payload.get(key) or "").lower()`: a truthy non-string raises AttributeError. */
  function LowerField(payload: map<string, Value>, key: string): (r: Result<string>)
    ensures r.Ok? <==> (!Truthy(GetValue(payload, key)) || GetValue(payload, key).Str?)
    ensures r.Ok? && GetValue(payload, key).Str? ==> r.value == Lower(GetValue(payload, key).s)
  {
    var v := Or(GetValue(payload, key), Str(""));
    if v.Str? then Ok(Lower(v.s))
    else Err(Exception(AttributeError, "'" + TypeName(v) + "' object has no attribute 'lower'"))
  }

  /** The five classification fields. */
  function ClassFields(c: Category): map<string, Value>
  {
    map["category" := Str(CategoryName(c)), "can_retry" := Bool(CanRetry(c)),
        "needs_smaller_request" := Bool(NeedsSmallerRequest(c)), "should_abort_batch" := Bool(ShouldAbortBatch(c)),
        "suggested_action" := Str(SuggestedAction(c))]
  }

  /** The category of a payload whose code and message can be lowercased. */
  function PayloadCategory(payload: map<string, Value>): Option<Category>
  {
    var code := LowerField(payload, "code");
    var message := LowerField(payload, "message");
    if code.Ok? && message.Ok? then Some(Categorize(GetValue(payload, "status"), code.value, message.value)) else None
  }

  /** `_classify_api_error(payload)`: the payload with the classification fields added (they win over payload keys). */
  function ClassifyApiError(payload: map<string, Value>): (r: Result<map<string, Value>>)
    ensures r.Ok? <==> PayloadCategory(payload).Some?
    ensures r.Err? ==> r.error.kind == AttributeError
  {
    var code := LowerField(payload, "code");
    var message := LowerField(payload, "message");
    if code.Err? then Err(code.error)
    else if message.Err? then Err(message.error)
    else Ok(payload + ClassFields(Categorize(GetValue(payload, "status"), code.value, message.value)))
  }

  /**
   * The classified dictionary holds every payload field, except that the
   * five classification fields replace payload entries of the same name.
   */
  lemma ClassifyApiErrorKeeps(payload: map<string, Value>, k: string)
    requires PayloadCategory(payload).Some?
    ensures var r := ClassifyApiError(payload).value; var c := PayloadCategory(payload).value;
      && r.Keys == payload.Keys + ClassFields(c).Keys
      && (k in payload && k !in ClassFields(c) ==> r[k] == payload[k])
  {
  }

  /** The five classification fields name the category, its flags and its suggested action. */
  lemma ClassifyApiErrorFields(payload: map<string, Value>)
    requires PayloadCategory(payload).Some?
    ensures var r := ClassifyApiError(payload).value; var c := PayloadCategory(payload).value;
      && r["category"] == Str(CategoryName(c)) && r["can_retry"] == Bool(CanRetry(c))
      && r["needs_smaller_request"] == Bool(NeedsSmallerRequest(c))
      && r["should_abort_batch"] == Bool(ShouldAbortBatch(c))
      && r["suggested_action"] == Str(SuggestedAction(c))
  {
    var c := PayloadCategory(payload).value;
    ClassFieldsValues(c);
    OverrideWins(payload, ClassFields(c), ["category", "can_retry", "needs_smaller_request", "should_abort_batch", "suggested_action"]);
  }

  lemma ClassFieldsValues(c: Category)
    ensures var m := ClassFields(c);
      && "category" in m && m["category"] == Str(CategoryName(c))
      && "can_retry" in m && m["can_retry"] == Bool(CanRetry(c))
      && "needs_smaller_request" in m && m["needs_smaller_request"] == Bool(NeedsSmallerRequest(c))
      && "should_abort_batch" in m && m["should_abort_batch"] == Bool(ShouldAbortBatch(c))
      && "suggested_action" in m && m["suggested_action"] == Str(SuggestedAction(c))
  {
  }

  /** In `{**d, **m}` the entries of `m` win. */
  lemma OverrideWins(d: map<string, Value>, m: map<string, Value>, ks: seq<string>)
    requires forall i :: 0 <= i < |ks| ==> ks[i] in m
    ensures forall i :: 0 <= i < |ks| ==> (d + m)[ks[i]] == m[ks[i]]
  {
  }

  /** A status of 402 is a quota error whatever the code and message say, and it aborts the batch. */
  lemma Status402IsQuota(payload: map<string, Value>)
    requires GetValue(payload, "status") == Int(402) && PayloadCategory(payload).Some?
    ensures PayloadCategory(payload) == Some(QuotaExceeded)
    ensures ClassifyApiError(payload).value["should_abort_batch"] == Bool(true)
  {
  }

  // ---------------------------------------------------------------- the extractor's world

  /** A chat message `{"role": ..., "content": ...}`. */
  datatype Message = Message(role: string, content: string)

  /** The arguments of `client.chat.completions.create` (the temperature is not modelled). */
  datatype Request = Request(model: string, messages: seq<Message>, forceJson: bool)

  /**
   * A reply of the client: `firstMessage` is the content of
   * `choices[0].message` (a `None` content read as ""), or `None` when there
   * are no choices or the first has no message; `repr` is what
   * `str(response.__dict__)` prints.
   */
  datatype Response = Response(firstMessage: Option<string>, id: Value, usage: Value, statusCode: Value, repr: string)

  /**
   * What the client call does: it raises (carried as the best-effort
   * `status`/`code`/`type`/`message`/`raw` payload that `_normalize_api_error`
   * builds) or it replies.
   */
  datatype Outcome = Raised(payload: map<string, Value>) | Replied(response: Response)

  /** The configuration of a `JSONPromptExtractor`, fixed at construction. An indexer gives (indexed text, index meta). */
  datatype Config = Config(
    client: Request -> Outcome,
    systemPrompt: string, userPromptTemplate: string, outputKey: string, defaultModel: string, forceJson: bool,
    textIndexer: Option<string -> (string, Value)>,
    resultAligner: Option<(Value, string, Value) -> Result<Value>>,
    resultValidator: Option<(Value, string, Value) -> Result<Value>>,
    lib: Display.JsonLib)

  /** The result dictionary of `extract`, one field per key. */
  datatype ExtractResult = ExtractResult(
    storyText: string, modelName: string, messages: seq<Message>, response: Option<Response>,
    responseId: Value, usage: Value, rawOutput: string, parsedOutput: Value, extractedOutput: Value,
    parsingError: Option<string>, extractionError: Option<string>, alignmentError: Option<string>,
    indexMeta: Value, validationReport: Value, validationError: Option<string>,
    apiError: Option<map<string, Value>>)

  /** The fields both placeholders of the user prompt are filled from. */
  function PromptFields(text: string): (r: map<string, string>)
    ensures "indexed_story_text" in r && "story_text" in r && r["indexed_story_text"] == r["story_text"] == text
  {
    map["indexed_story_text" := text, "story_text" := text]
  }

  /** The text the prompt is filled with and the index meta: the indexer's pair, or the raw text and `None`. */
  function ContentSource(cfg: Config, storyText: string): (string, Value)
  {
    if cfg.textIndexer.Some? then cfg.textIndexer.value(storyText) else (storyText, Null)
  }

  /** `_prepare_user_content(story_text)`: the filled-in user prompt (formatting can raise) and the index meta. */
  function PreparedContent(cfg: Config, storyText: string): (Result<string>, Value)
  {
    var (text, meta) := ContentSource(cfg, storyText);
    (PyFormat.Format(cfg.userPromptTemplate, PromptFields(text)), meta)
  }

  /**
   * Without an indexer the prompt is filled with the raw text and the meta
   * is `None`; with one, with the indexed text and the indexer's meta.  A
   * template holding one `{story_text}` or `{indexed_story_text}` field
   * becomes the template with that field replaced by the text.
   */
  lemma PreparedContentMeaning(cfg: Config, storyText: string, pre: string, name: string, post: string)
    requires PyFormat.NoBraces(pre) && PyFormat.NoBraces(post)
    requires name == "story_text" || name == "indexed_story_text"
    requires cfg.userPromptTemplate == pre + "{" + name + "}" + post
    ensures cfg.textIndexer.None? ==> PreparedContent(cfg, storyText) == (Ok(pre + storyText + post), Null)
    ensures cfg.textIndexer.Some? ==> var (text, meta) := cfg.textIndexer.value(storyText);
      PreparedContent(cfg, storyText) == (Ok(pre + text + post), meta)
  {
    var (text, _) := ContentSource(cfg, storyText);
    assert name[0] != '0';
    PyFormat.FormatField(pre, name, post, PromptFields(text));
  }

  /** The two messages: the system prompt, then the user content. */
  function MessagesFor(cfg: Config, content: string): (r: seq<Message>)
    ensures |r| == 2 && r[0] == Message("system", cfg.systemPrompt) && r[1] == Message("user", content)
  {
    [Message("system", cfg.systemPrompt), Message("user", content)]
  }

  /** `model_name or self.default_model`. */
  function ModelFor(cfg: Config, modelName: Option<string>): string
  {
    if modelName.Some? && |modelName.value| > 0 then modelName.value else cfg.defaultModel
  }

  /** The api_error dictionary built for a reply without choices or content. */
  function EmptyResponseError(resp: Response): map<string, Value>
  {
    map["status" := resp.statusCode, "code" := Str("empty_response"), "type" := Str("client_or_server"),
        "message" := Str("No choices/content returned by API."), "raw" := Str(resp.repr),
        "category" := Str("unknown"), "can_retry" := Bool(true), "needs_smaller_request" := Bool(false),
        "should_abort_batch" := Bool(false), "suggested_action" := Str("retry_with_backoff")]
  }

  /** The early-return result when the client raises. */
  function RaisedResult(storyText: string, model: string, messages: seq<Message>, meta: Value,
                        apiError: map<string, Value>): ExtractResult
  {
    ExtractResult(storyText, model, messages, None, Null, Null, "", Null, Null, None, Some("api_error"), None,
                  meta, Null, None, Some(apiError))
  }

  /** `f"{exc!r}"` for a modelled exception. */
  function ExcRepr(e: Exception): string
  {
    KindName(e.kind) + "(" + ReprStr(e.msg) + ")"
  }

  /** The parse of the raw output: `None` for "", a JSONDecodeError caught into `parsing_error`, a ValueError escaping. */
  function ParseRaw(raw: string, lib: Display.JsonLib): (r: Result<(Value, Option<string>)>)
    ensures r.Err? <==> (|raw| > 0 && Display.ExtractJson(raw, false, lib).Err?
      && Display.ExtractJson(raw, false, lib).error.kind != JSONDecodeError)
  {
    if |raw| == 0 then Ok((Null, None))
    else
      var p := Display.ExtractJson(raw, false, lib);
      if p.Ok? then Ok((p.value, None))
      else if p.error.kind == JSONDecodeError then Ok((Null, Some(p.error.msg)))
      else Err(p.error)
  }

  /** The message used when the output key is missing. */
  function MissingKey(key: string): string
  {
    "Expected '" + key + "' key in JSON response."
  }

  /**
   * The `elif` branch, when the parse is a dictionary holding the output key:
   * the aligner and then the validator run (only when the meta is not
   * `None`) with their exceptions recorded, not raised.  Gives
   * (parsed, extracted, extraction error, alignment error, report, validation error).
   */
  datatype Processed = Processed(parsed: Value, extracted: Value, extractionError: Option<string>,
                                 alignmentError: Option<string>, report: Value, validationError: Option<string>)

  function Postprocess(cfg: Config, parsed: Value, storyText: string, meta: Value): Processed
  {
    var aligned := if cfg.resultAligner.Some? && meta != Null then cfg.resultAligner.value(parsed, storyText, meta) else Ok(parsed);
    var p := if aligned.Ok? then aligned.value else parsed;
    var alignmentError := if aligned.Err? then Some("alignment failed: " + ExcRepr(aligned.error)) else None;
    var validated := if cfg.resultValidator.Some? && meta != Null then cfg.resultValidator.value(p, storyText, meta) else Ok(Null);
    var report := if validated.Ok? then validated.value else Null;
    var validationError := if validated.Err? then Some("validation failed: " + ExcRepr(validated.error)) else None;
    var extracted := if p.Obj? then GetValue(p.fields, cfg.outputKey) else Null;
    Processed(p, extracted, if extracted == Null then Some(MissingKey(cfg.outputKey)) else None,
              alignmentError, report, validationError)
  }

  /** Whether the `elif` branch is taken: no api_error and a parsed dictionary that holds the output key. */
  predicate HoldsKey(parsed: Value, key: string)
  {
    parsed.Obj? && key in parsed.fields
  }

  /**
   * Everything after a reply: the result, and the report stored in
   * `last_validation_report` when the `elif` branch runs.
   */
  function AfterReply(cfg: Config, storyText: string, model: string, messages: seq<Message>, meta: Value,
                      resp: Response): Result<(ExtractResult, Option<Value>)>
  {
    var apiError := if resp.firstMessage.None? then Some(EmptyResponseError(resp)) else None;
    var raw := if resp.firstMessage.Some? then resp.firstMessage.value else "";
    var pr := ParseRaw(raw, cfg.lib);
    if pr.Err? then Err(pr.error)
    else
      var (parsed, parsingError) := pr.value;
      if apiError.Some? then
        Ok((ExtractResult(storyText, model, messages, Some(resp), resp.id, resp.usage, raw, parsed, Null,
                          parsingError, Some("api_error"), None, meta, Null, None, apiError), None))
      else if HoldsKey(parsed, cfg.outputKey) then
        var pp := Postprocess(cfg, parsed, storyText, meta);
        Ok((ExtractResult(storyText, model, messages, Some(resp), resp.id, resp.usage, raw, pp.parsed, pp.extracted,
                          parsingError, pp.extractionError, pp.alignmentError, meta, pp.report, pp.validationError,
                          None), Some(pp.report)))
      else
        var err := if parsingError.Some? && |parsingError.value| > 0 then "parsing_error" else MissingKey(cfg.outputKey);
        Ok((ExtractResult(storyText, model, messages, Some(resp), resp.id, resp.usage, raw, parsed, Null,
                          parsingError, Some(err), None, meta, Null, None, None), None))
  }

  /**
   * The JSON-focused extractor.  Its configuration is fixed; the `last_*`
   * fields record the most recent call for inspection.
   */
  class JsonPromptExtractor {
    const cfg: Config
    var lastMessages: Option<seq<Message>>
    var lastResponse: Option<Response>
    var lastRawOutput: Option<string>
    var lastIndexMeta: Value
    var lastValidationReport: Value

    constructor(cfg: Config)
      ensures this.cfg == cfg
      ensures lastMessages == None && lastResponse == None && lastRawOutput == None
      ensures lastIndexMeta == Null && lastValidationReport == Null
    {
      this.cfg := cfg;
      lastMessages := None;
      lastResponse := None;
      lastRawOutput := None;
      lastIndexMeta := Null;
      lastValidationReport := Null;
    }

    /** `_prepare_user_content(story_text)`: the meta is recorded before the template is filled in. */
    method PrepareUserContent(storyText: string) returns (content: Result<string>, meta: Value)
      modifies this`lastIndexMeta
      ensures (content, meta) == PreparedContent(cfg, storyText)
      ensures lastIndexMeta == meta
    {
      if cfg.textIndexer.Some? {
        var (indexedText, indexMeta) := cfg.textIndexer.value(storyText);
        lastIndexMeta := indexMeta;
        content := PyFormat.Format(cfg.userPromptTemplate, PromptFields(indexedText));
        meta := indexMeta;
        return;
      }
      lastIndexMeta := Null;
      content := PyFormat.Format(cfg.userPromptTemplate, PromptFields(storyText));
      meta := Null;
    }

    /** `build_messages(story_text)`: the two messages, without calling the client. */
    method BuildMessages(storyText: string) returns (r: Result<seq<Message>>)
      modifies this`lastIndexMeta
      ensures var (content, meta) := PreparedContent(cfg, storyText);
        && lastIndexMeta == meta
        && (r.Ok? <==> content.Ok?)
        && (r.Ok? ==> r.value == MessagesFor(cfg, content.value))
    {
      var content, _ := PrepareUserContent(storyText);
      if content.Err? {
        return Err(content.error);
      }
      r := Ok(MessagesFor(cfg, content.value));
    }

    /**
     * `extract(story_text, model_name)`: build the messages, call the client,
     * parse, optionally align and validate, and report.
     */
    method Extract(storyText: string, modelName: Option<string>) returns (r: Result<ExtractResult>)
      modifies this
      ensures var (content, meta) := PreparedContent(cfg, storyText);
        && lastIndexMeta == meta
        && (content.Err? ==> (r == Err(content.error) && lastMessages == old(lastMessages)
              && lastResponse == old(lastResponse) && lastRawOutput == old(lastRawOutput)
              && lastValidationReport == old(lastValidationReport)))
        && (content.Ok? ==>
              var model := ModelFor(cfg, modelName);
              var messages := MessagesFor(cfg, content.value);
              && lastMessages == Some(messages)
              && match cfg.client(Request(model, messages, cfg.forceJson))
                 case Raised(payload) =>
                   && r == (match ClassifyApiError(payload)
                            case Err(e) => Err(e)
                            case Ok(apiError) => Ok(RaisedResult(storyText, model, messages, meta, apiError)))
                   && lastResponse == old(lastResponse) && lastRawOutput == old(lastRawOutput)
                   && lastValidationReport == old(lastValidationReport)
                 case Replied(resp) =>
                   var after := AfterReply(cfg, storyText, model, messages, meta, resp);
                   && lastResponse == Some(resp)
                   && lastRawOutput == Some(if resp.firstMessage.Some? then resp.firstMessage.value else "")
                   && (after.Err? ==> r == Err(after.error) && lastValidationReport == old(lastValidationReport))
                   && (after.Ok? ==> (r == Ok(after.value.0)
                         && lastValidationReport == after.value.1.GetOr(old(lastValidationReport)))))
    {
      var model := ModelFor(cfg, modelName);
      var content, meta := PrepareUserContent(storyText);
      if content.Err? {
        return Err(content.error);
      }
      var messages := MessagesFor(cfg, content.value);
      lastMessages := Some(messages);
      var outcome := cfg.client(Request(model, messages, cfg.forceJson));
      if outcome.Raised? {
        var apiError := ClassifyApiError(outcome.payload);
        if apiError.Err? {
          return Err(apiError.error);
        }
        return Ok(RaisedResult(storyText, model, messages, meta, apiError.value));
      }
      var resp := outcome.response;
      lastResponse := Some(resp);
      var raw := if resp.firstMessage.Some? then resp.firstMessage.value else "";
      lastRawOutput := Some(raw);
      var after := AfterReply(cfg, storyText, model, messages, meta, resp);
      if after.Err? {
        return Err(after.error);
      }
      if after.value.1.Some? {
        lastValidationReport := after.value.1.value;
      }
      r := Ok(after.value.0);
    }
  }

  // ---------------------------------------------------------------- what a reply leads to

  /** When the client raises, the result reports "api_error" and holds no output, no parse and no response. */
  lemma RaisedMeaning(storyText: string, model: string, messages: seq<Message>, meta: Value, apiError: map<string, Value>)
    ensures var r := RaisedResult(storyText, model, messages, meta, apiError);
      && r.extractionError == Some("api_error") && r.extractedOutput == Null && r.parsedOutput == Null
      && r.rawOutput == "" && r.response.None? && r.apiError == Some(apiError) && r.indexMeta == meta
  {
  }

  /** A reply without content is reported as a retryable api_error with "empty_response" as its code. */
  lemma EmptyReplyMeaning(cfg: Config, storyText: string, model: string, messages: seq<Message>, meta: Value, resp: Response)
    requires resp.firstMessage.None?
    ensures var a := AfterReply(cfg, storyText, model, messages, meta, resp);
      && a.Ok? && a.value.0.extractionError == Some("api_error") && a.value.0.extractedOutput == Null
      && a.value.1.None?
      && a.value.0.apiError.Some? && a.value.0.apiError.value["code"] == Str("empty_response")
      && a.value.0.apiError.value["can_retry"] == Bool(true)
      && a.value.0.apiError.value["category"] == Str("unknown")
  {
  }

  /**
   * A reply whose parse is a dictionary holding the output key: with no
   * aligner to run, the extracted output is that entry, and the error says
   * the key is missing exactly when the entry is `None`.
   */
  lemma KeyedReplyMeaning(cfg: Config, storyText: string, model: string, messages: seq<Message>, meta: Value,
                          resp: Response, parsed: map<string, Value>)
    requires resp.firstMessage.Some? && |resp.firstMessage.value| > 0
    requires Display.ExtractJson(resp.firstMessage.value, false, cfg.lib) == Ok(Obj(parsed))
    requires cfg.outputKey in parsed && (cfg.resultAligner.None? || meta == Null)
    ensures var a := AfterReply(cfg, storyText, model, messages, meta, resp);
      && a.Ok? && a.value.0.parsedOutput == Obj(parsed) && a.value.0.extractedOutput == parsed[cfg.outputKey]
      && (a.value.0.extractionError.None? <==> parsed[cfg.outputKey] != Null)
      && a.value.0.alignmentError.None? && a.value.0.apiError.None?
      && a.value.1 == Some(a.value.0.validationReport)
  {
  }

  /** A parsed dictionary without the output key gives no output and an error that names the key. */
  lemma MissingKeyMeaning(cfg: Config, storyText: string, model: string, messages: seq<Message>, meta: Value,
                          resp: Response, parsed: map<string, Value>)
    requires resp.firstMessage.Some? && |resp.firstMessage.value| > 0
    requires Display.ExtractJson(resp.firstMessage.value, false, cfg.lib) == Ok(Obj(parsed))
    requires cfg.outputKey !in parsed
    ensures var a := AfterReply(cfg, storyText, model, messages, meta, resp);
      && a.Ok? && a.value.0.extractedOutput == Null
      && a.value.0.extractionError == Some("Expected '" + cfg.outputKey + "' key in JSON response.")
      && a.value.1.None?
  {
  }

  /**
   * The aligner and the validator only run when there is index meta; when
   * they raise, their errors are recorded and the extraction goes on.
   */
  lemma PostprocessMeaning(cfg: Config, parsed: Value, storyText: string, meta: Value)
    ensures meta == Null ==> var p := Postprocess(cfg, parsed, storyText, meta);
      p.parsed == parsed && p.alignmentError.None? && p.validationError.None? && p.report == Null
    ensures meta != Null && cfg.resultAligner.Some? && cfg.resultAligner.value(parsed, storyText, meta).Err? ==>
      var p := Postprocess(cfg, parsed, storyText, meta);
      var e := cfg.resultAligner.value(parsed, storyText, meta).error;
      p.parsed == parsed && p.alignmentError == Some("alignment failed: " + ExcRepr(e))
    ensures meta != Null && cfg.resultAligner.Some? && cfg.resultAligner.value(parsed, storyText, meta).Ok? ==>
      Postprocess(cfg, parsed, storyText, meta).parsed == cfg.resultAligner.value(parsed, storyText, meta).value
  {
  }

  /**
   * Only JSONDecodeError is caught around the parse: the ValueError that
   * `extract_json` raises for a reply with no JSON in it escapes `extract`.
   */
  lemma ValueErrorEscapes(cfg: Config, storyText: string, model: string, messages: seq<Message>, meta: Value,
                          resp: Response)
    requires resp.firstMessage.Some? && |resp.firstMessage.value| > 0
    requires cfg.lib.loads(resp.firstMessage.value).Err? && |cfg.lib.fencedBlocks(resp.firstMessage.value)| == 0
    ensures AfterReply(cfg, storyText, model, messages, meta, resp)
      == Err(Exception(ValueError, "No JSON found in the string."))
  {
  }
}
