/**
 * `lcats/lcats/stories.py`: the story record, its dictionary form and its
 * printed summary.  Field values are JSON values just as the source leaves
 * them unchecked; reading JSON or YAML files is left out.
 */
module Stories {
  import opened Wrappers
  import opened PyStr
  import opened Json
  import StoryAnalysis

  /** A story: its name, body and metadata, as given. */
  datatype Story = Story(name: Value, body: Value, metadata: Value)

  /** `d.get(k, default)`. */
  function GetOr(d: map<string, Value>, k: string, default: Value): (r: Value)
    ensures k in d ==> r == d[k]
    ensures k !in d ==> r == default
  {
    if k in d then d[k] else default
  }

  /** `Story.from_dict(data)`: `data.get` needs a dictionary. */
  function FromDict(data: Value): (r: Result<Story>)
    ensures r.Err? <==> !data.Obj?
    ensures r.Err? ==> r.error == StoryAnalysis.NoAttribute(data, "get")
  {
    match data
    case Obj(d) => Ok(Story(GetOr(d, "name", Str("")), GetOr(d, "body", Str("")), GetOr(d, "metadata", Obj(map[]))))
    case _ => Err(StoryAnalysis.NoAttribute(data, "get"))
  }

  /** `story.to_dict()`. */
  function ToDict(s: Story): (r: map<string, Value>)
    ensures r.Keys == {"name", "body", "metadata"}
  {
    map["name" := s.name, "body" := s.body, "metadata" := s.metadata]
  }

  /** Missing keys give an empty name, an empty body and empty metadata; others are ignored. */
  lemma FromDictDefaults(d: map<string, Value>)
    requires "name" !in d && "body" !in d && "metadata" !in d
    ensures FromDict(Obj(d)) == Ok(Story(Str(""), Str(""), Obj(map[])))
  {
  }

  /** A dictionary with exactly the three keys survives `to_dict(from_dict(d))`. */
  lemma DictRoundTrip(d: map<string, Value>)
    requires d.Keys == {"name", "body", "metadata"}
    ensures FromDict(Obj(d)).Ok? && ToDict(FromDict(Obj(d)).value) == d
  {
    var r := ToDict(FromDict(Obj(d)).value);
    assert forall k :: k in r ==> r[k] == d[k];
  }

  /** Every story survives `from_dict(to_dict(s))`. */
  lemma StoryRoundTrip(s: Story)
    ensures FromDict(Obj(ToDict(s))) == Ok(s)
  {
  }

  const MaxLen := 100
  const Truncated := " ... [truncated]"

  /**
   * The body excerpt of `__str__`: a body of at most 100 characters is shown
   * whole, a longer one as its first 100 characters and " ... [truncated]"
   * (the source strips that text but drops the result).  A list or a
   * dictionary of at most 100 items is shown as `str` of it; a longer list
   * cannot be added to a `str`, a longer dictionary cannot be sliced, and a
   * value without a length raises TypeError.
   */
  function Excerpt(body: Value): (r: Result<string>)
    ensures body.Str? ==> r.Ok?
    ensures body.Str? && |body.s| <= MaxLen ==> r.value == body.s
    ensures body.Str? && |body.s| > MaxLen ==> r.value == body.s[..MaxLen] + Truncated
    ensures r.Ok? ==> (body.Str? || body.Arr? || body.Obj?)
  {
    match body
    case Str(t) => if |t| <= MaxLen then Ok(t) else Ok(t[..MaxLen] + Truncated)
    case Arr(items) =>
      if |items| <= MaxLen then Ok(ToStr(body))
      else Err(Exception(TypeError, "can only concatenate list (not \"str\") to list"))
    case Obj(fields) =>
      if |fields| <= MaxLen then Ok(ToStr(body))
      else Err(Exception(TypeError, "unhashable type: 'slice'"))
    case _ => Err(Exception(TypeError, "object of type '" + TypeName(body) + "' has no len()"))
  }

  /** A string body's excerpt is a prefix of the body, at most 100 characters of it, plus the marker when cut. */
  lemma ExcerptBounds(t: string)
    ensures var e := Excerpt(Str(t)).value;
      |e| <= MaxLen + |Truncated| && (e == t || (e == t[..MaxLen] + Truncated && |t| > MaxLen))
  {
  }

  /** The lines that follow "Author: " in the summary. */
  function Tail(author: string, year: string, excerpt: string): string
  {
    author + "\nYear: " + year + "\nBody Excerpt:\n---" + excerpt + "\n---"
  }

  /** The text of `str(story)`: the excerpt as above, the author and year from the metadata. */
  function Display(s: Story): (r: Result<string>)
    ensures r.Ok? <==> Excerpt(s.body).Ok? && s.metadata.Obj?
  {
    var excerpt := Excerpt(s.body);
    if excerpt.Err? then Err(excerpt.error)
    else if !s.metadata.Obj? then Err(StoryAnalysis.NoAttribute(s.metadata, "get"))
    else
      var author := ToStr(GetOr(s.metadata.fields, "author", Str("Unknown")));
      var year := ToStr(GetOr(s.metadata.fields, "year", Str("N/A")));
      Ok(Head(s.name) + Tail(author, year, excerpt.value))
  }

  /** The summary's first line and the start of its second. */
  function Head(name: Value): string
  {
    "Story: " + ToStr(name) + "\nAuthor: "
  }

  /** The summary starts with the name line, and its metadata errors are AttributeErrors. */
  lemma DisplayShape(s: Story)
    ensures Display(s).Ok? ==> StartsWith(Display(s).value, Head(s.name))
    ensures Excerpt(s.body).Ok? && !s.metadata.Obj? ==> Display(s).error.kind == AttributeError
  {
    if Display(s).Ok? {
      var t := Display(s).value;
      var h := Head(s.name);
      assert t[..|h|] == h;
    }
  }

  /** Without an author or a year the summary shows "Unknown" and "N/A". */
  lemma DisplayFallbacks(name: Value, body: string, metadata: map<string, Value>)
    requires "author" !in metadata && "year" !in metadata
    ensures Display(Story(name, Str(body), Obj(metadata)))
      == Ok(Head(name) + Tail("Unknown", "N/A", Excerpt(Str(body)).value))
  {
  }
}
