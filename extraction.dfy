/**
 * `lcats/extraction.py`: a prompt template pair and the branching of
 * `extract_from_story` over the parsed reply.  The client and the JSON
 * library are parameters.
 */
module Extraction {
  import opened Wrappers
  import opened PyStr
  import opened Json
  import PyFormat
  import Display
  import LlmExtractor

  /** An `ExtractionTemplate`: a name, a system prompt and a user template with a `{story_text}` field. */
  datatype ExtractionTemplate = ExtractionTemplate(name: string, systemTemplate: string, userTemplate: string)
  {
    /** `build_prompt(story_text)`: the system message, then the user template filled with the story. */
    function BuildPrompt(storyText: string): (r: Result<seq<LlmExtractor.Message>>)
      ensures r.Ok? ==> (|r.value| == 2 && r.value[0] == LlmExtractor.Message("system", systemTemplate)
        && r.value[1].role == "user")
      ensures r.Ok? <==> PyFormat.Format(userTemplate, map["story_text" := storyText]).Ok?
    {
      var user := PyFormat.Format(userTemplate, map["story_text" := storyText]);
      if user.Err? then Err(user.error)
      else Ok([LlmExtractor.Message("system", systemTemplate), LlmExtractor.Message("user", user.value)])
    }
  }

  /** A user template holding one `{story_text}` field gives the two messages with the story in its place. */
  lemma BuildPromptSubstitutes(t: ExtractionTemplate, storyText: string, pre: string, post: string)
    requires PyFormat.NoBraces(pre) && PyFormat.NoBraces(post)
    requires t.userTemplate == pre + "{story_text}" + post
    ensures t.BuildPrompt(storyText)
      == Ok([LlmExtractor.Message("system", t.systemTemplate), LlmExtractor.Message("user", pre + storyText + post)])
  {
    var name := "story_text";
    assert name[0] != '0';
    assert t.userTemplate == pre + "{" + name + "}" + post;
    PyFormat.FormatField(pre, name, post, map[name := storyText]);
  }

  /** An `ExtractionResult`. */
  datatype ExtractionResult = ExtractionResult(
    storyText: string, modelName: string, template: ExtractionTemplate, messages: seq<LlmExtractor.Message>,
    rawOutput: string, parsedOutput: Value, parsingError: Option<string>, extractionError: Option<string>,
    extractedOutput: Value)

  /** `summary()`: model, template, event count and any errors, one per line. */
  function Summary(r: ExtractionResult): (s: Result<string>)
    ensures s.Err? <==> Truthy(r.extractedOutput) && Len(r.extractedOutput).Err?
  {
    var count := if Truthy(r.extractedOutput) then Len(r.extractedOutput) else Ok(0);
    if count.Err? then Err(count.error)
    else
      var lines := ["Model: " + r.modelName, "Template: " + r.template.name,
                    "Events extracted: " + NatToString(count.value)]
        + (if r.parsingError.Some? && |r.parsingError.value| > 0 then ["Parsing error: " + r.parsingError.value] else [])
        + (if r.extractionError.Some? && |r.extractionError.value| > 0 then ["Extraction error: " + r.extractionError.value] else []);
      Ok(Join(lines, "\n"))
  }

  /** The error reported when nothing usable was parsed. */
  function NoParsedJson(raw: string): string
  {
    "No parsed JSON found in raw output (length: " + NatToString(|raw|) + " chars)"
  }

  /**
   * The branching on the parse: a falsy parse, a dictionary with `events`,
   * and anything else, where `list(parsed_output.keys())` raises
   * AttributeError for a value that is not a dictionary.  `keyOrder` gives a
   * dictionary's keys in insertion order, which the model's maps do not keep.
   */
  function Outcome(raw: string, parsed: Value, keyOrder: map<string, Value> -> seq<string>): (r: Result<(Value, Option<string>)>)
    ensures !Truthy(parsed) ==> r == Ok((Null, Some(NoParsedJson(raw))))
    ensures Truthy(parsed) && parsed.Obj? && "events" in parsed.fields ==> r == Ok((parsed.fields["events"], None))
    ensures Truthy(parsed) && parsed.Obj? && "events" !in parsed.fields ==> (r.Ok? && r.value.0 == Null
      && r.value.1 == Some("Parsed output missing 'events' key. Found keys: " + ReprStrList(keyOrder(parsed.fields))))
    ensures Truthy(parsed) && !parsed.Obj? ==> r.Err? && r.error.kind == AttributeError
  {
    if !Truthy(parsed) then Ok((Null, Some(NoParsedJson(raw))))
    else if parsed.Obj? && "events" in parsed.fields then Ok((parsed.fields["events"], None))
    else if parsed.Obj? then
      Ok((Null, Some("Parsed output missing 'events' key. Found keys: " + ReprStrList(keyOrder(parsed.fields)))))
    else Err(Exception(AttributeError, "'" + TypeName(parsed) + "' object has no attribute 'keys'"))
  }

  /**
   * `extract_from_story(story_text, template, client, model_name)`.  The
   * client maps the model and the messages to the first choice's content;
   * an `Err` is whatever that call (or reading the content) raised, which
   * propagates, as does a formatting error of the template.
   */
  function ExtractFromStory(storyText: string, template: ExtractionTemplate,
                            client: (string, seq<LlmExtractor.Message>) -> Result<string>,
                            modelName: string, lib: Display.JsonLib,
                            keyOrder: map<string, Value> -> seq<string>): (r: Result<ExtractionResult>)
    ensures r.Ok? ==> (r.value.storyText == storyText && r.value.modelName == modelName && r.value.template == template
      && Ok(r.value.messages) == template.BuildPrompt(storyText)
      && Ok(r.value.rawOutput) == client(modelName, r.value.messages))
  {
    var messages := template.BuildPrompt(storyText);
    if messages.Err? then Err(messages.error)
    else
      var raw := client(modelName, messages.value);
      if raw.Err? then Err(raw.error)
      else
        var p := Display.ExtractJson(raw.value, false, lib);
        var parsed := if p.Ok? then p.value else Null;
        var parsingError := if p.Err? then Some(p.error.msg) else None;
        var o := Outcome(raw.value, parsed, keyOrder);
        if o.Err? then Err(o.error)
        else Ok(ExtractionResult(storyText, modelName, template, messages.value, raw.value, parsed, parsingError,
                                 o.value.1, o.value.0))
  }

  /**
   * Both parse failures (JSONDecodeError and the ValueError of
   * `extract_json`) are caught: the result records the message as
   * `parsing_error`, has no output, and reports that no JSON was parsed.
   */
  lemma ParseErrorCaptured(storyText: string, template: ExtractionTemplate,
                           client: (string, seq<LlmExtractor.Message>) -> Result<string>,
                           modelName: string, lib: Display.JsonLib, keyOrder: map<string, Value> -> seq<string>)
    requires template.BuildPrompt(storyText).Ok?
    requires client(modelName, template.BuildPrompt(storyText).value).Ok?
    requires Display.ExtractJson(client(modelName, template.BuildPrompt(storyText).value).value, false, lib).Err?
    ensures var raw := client(modelName, template.BuildPrompt(storyText).value).value;
      var r := ExtractFromStory(storyText, template, client, modelName, lib, keyOrder);
      && r.Ok? && r.value.parsedOutput == Null && r.value.extractedOutput == Null
      && r.value.parsingError == Some(Display.ExtractJson(raw, false, lib).error.msg)
      && r.value.extractionError == Some(NoParsedJson(raw))
  {
    var raw := client(modelName, template.BuildPrompt(storyText).value).value;
    assert Outcome(raw, Null, keyOrder) == Ok((Null, Some(NoParsedJson(raw))));
  }

  /** A parsed dictionary with `events` gives those events and no error. */
  lemma EventsExtracted(storyText: string, template: ExtractionTemplate,
                        client: (string, seq<LlmExtractor.Message>) -> Result<string>,
                        modelName: string, lib: Display.JsonLib, keyOrder: map<string, Value> -> seq<string>,
                        parsed: map<string, Value>)
    requires template.BuildPrompt(storyText).Ok?
    requires client(modelName, template.BuildPrompt(storyText).value).Ok?
    requires Display.ExtractJson(client(modelName, template.BuildPrompt(storyText).value).value, false, lib) == Ok(Obj(parsed))
    requires "events" in parsed
    ensures var r := ExtractFromStory(storyText, template, client, modelName, lib, keyOrder);
      && r.Ok? && r.value.extractedOutput == parsed["events"] && r.value.extractionError.None?
      && r.value.parsingError.None? && r.value.parsedOutput == Obj(parsed)
  {
    var raw := client(modelName, template.BuildPrompt(storyText).value).value;
    assert Truthy(Obj(parsed));
    assert Outcome(raw, Obj(parsed), keyOrder) == Ok((parsed["events"], None));
  }

  /** A parse that is a non-empty list reaches `parsed_output.keys()` and raises AttributeError. */
  lemma NonEmptyListRaises(storyText: string, template: ExtractionTemplate,
                           client: (string, seq<LlmExtractor.Message>) -> Result<string>,
                           modelName: string, lib: Display.JsonLib, keyOrder: map<string, Value> -> seq<string>,
                           items: seq<Value>)
    requires template.BuildPrompt(storyText).Ok?
    requires client(modelName, template.BuildPrompt(storyText).value).Ok?
    requires Display.ExtractJson(client(modelName, template.BuildPrompt(storyText).value).value, false, lib) == Ok(Arr(items))
    requires |items| > 0
    ensures var r := ExtractFromStory(storyText, template, client, modelName, lib, keyOrder);
      r.Err? && r.error.kind == AttributeError
  {
    var raw := client(modelName, template.BuildPrompt(storyText).value).value;
    assert Truthy(Arr(items));
    assert Outcome(raw, Arr(items), keyOrder).Err?;
  }
}
