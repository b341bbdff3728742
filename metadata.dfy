/**
 * `lcats/gettenberg/metadata.py`: metadata fields read from "Field:" lines
 * of a Gutenberg header, and the field dispatch over the catalogue cache,
 * whose database query is a parameter.
 */
module Metadata {
  import opened Wrappers
  import opened PyStr
  import opened Json
  import Values

  /** The header prefix of each supported field name, singular or plural. */
  function Prefix(field: string): (r: Option<string>)
    ensures r.Some? <==> field in {"title", "titles", "author", "authors", "language", "languages", "subject", "subjects"}
    ensures r.Some? ==> |r.value| > 0 && r.value[|r.value| - 1] == ':'
  {
    if field == "title" || field == "titles" then Some("title:")
    else if field == "author" || field == "authors" then Some("author:")
    else if field == "language" || field == "languages" then Some("language:")
    else if field == "subject" || field == "subjects" then Some("subject:")
    else None
  }

  function Unsupported(field: string): Exception
  {
    Exception(ValueError, "Unsupported metadata field: " + field)
  }

  /**
   * What one header line gives for the prefix `want`: when the lowercased
   * line starts with it, the text after the line's first ':' (present, as
   * `want` ends in one), stripped.
   */
  function LineValue(want: string, line: string): (r: Option<string>)
    requires |want| > 0 && want[|want| - 1] == ':'
    ensures r.Some? <==> StartsWith(Lower(line), want)
  {
    if StartsWith(Lower(line), want) then
      ColonFound(want, line);
      Some(Strip(line[Find(line, ":") + 1..]))
    else None
  }

  /** A line whose lowercase form starts with `want` has a ':' no later than `want`'s last character. */
  lemma ColonFound(want: string, line: string)
    requires |want| > 0 && want[|want| - 1] == ':' && StartsWith(Lower(line), want)
    ensures 0 <= Find(line, ":") < |want|
  {
    var k := |want| - 1;
    assert Lower(line)[k] == want[k] == LowerChar(line[k]);
    assert line[k..k + 1] == [line[k]] == ":";
    assert MatchAt(line, ":", k);
  }

  /** The values of all header lines, as `LineValue` gives them. */
  function LineValues(want: string, header: seq<string>): (r: seq<Option<string>>)
    requires |want| > 0 && want[|want| - 1] == ':'
    ensures |r| == |header| && forall i :: 0 <= i < |header| ==> r[i] == LineValue(want, header[i])
  {
    seq(|header|, i requires 0 <= i < |header| => LineValue(want, header[i]))
  }

  /** The set of the present values. */
  function Present(values: seq<Option<string>>): (r: set<string>)
  {
    if |values| == 0 then {}
    else Present(values[..|values| - 1]) + (if values[|values| - 1].Some? then {values[|values| - 1].value} else {})
  }

  /** A value is in the set exactly when some line gave it. */
  lemma {:induction false} PresentMeaning(values: seq<Option<string>>)
    ensures forall s :: s in Present(values) <==> Some(s) in values
  {
    if |values| > 0 {
      var init := values[..|values| - 1];
      PresentMeaning(init);
      assert values == init + [values[|values| - 1]];
    }
  }

  /** The collecting loop of `get_metadata_from_header`. */
  method Collect(values: seq<Option<string>>) returns (vals: set<string>)
    ensures vals == Present(values)
  {
    vals := {};
    for i := 0 to |values|
      invariant vals == Present(values[..i])
    {
      assert values[..i + 1][..i] == values[..i];
      if values[i].Some? {
        vals := vals + {values[i].value};
      }
    }
    assert values[..|values|] == values;
  }

  /** What `get_metadata_from_header(field, header)` returns or raises. */
  function FromHeader(field: string, header: seq<string>): Result<set<string>>
  {
    var want := Prefix(field);
    if want.None? then Err(Unsupported(field))
    else Ok(Present(LineValues(Lower(want.value), header)))
  }

  /** `get_metadata_from_header(field, header)`. */
  method GetMetadataFromHeader(field: string, header: seq<string>) returns (r: Result<set<string>>)
    ensures r == FromHeader(field, header)
  {
    var want := Prefix(field);
    if want.None? {
      return Err(Unsupported(field));
    }
    var prefix := Lower(want.value);
    var vals := Collect(LineValues(prefix, header));
    return Ok(vals);
  }

  /**
   * For a supported field the result is the set of the values of the lines
   * that start, in any case, with the field's prefix; an unsupported field
   * raises ValueError.
   */
  lemma FromHeaderMeaning(field: string, header: seq<string>)
    ensures Prefix(field).None? ==> FromHeader(field, header) == Err(Unsupported(field))
    ensures Prefix(field).Some? ==> (FromHeader(field, header).Ok?
      && var want := Lower(Prefix(field).value);
      forall s :: s in FromHeader(field, header).value <==>
        exists i :: 0 <= i < |header| && StartsWith(Lower(header[i]), want) && LineValue(want, header[i]) == Some(s))
  {
    if Prefix(field).Some? {
      var want := Lower(Prefix(field).value);
      var values := LineValues(want, header);
      PresentMeaning(values);
      forall s | Some(s) in values
        ensures exists i :: 0 <= i < |header| && StartsWith(Lower(header[i]), want) && LineValue(want, header[i]) == Some(s)
      {
        var i :| 0 <= i < |values| && values[i] == Some(s);
        assert LineValue(want, header[i]) == Some(s);
      }
    }
  }

  /** A header in which no line starts with the prefix gives the empty set. */
  lemma NoMatchEmpty(field: string, header: seq<string>)
    requires Prefix(field).Some?
    requires forall i :: 0 <= i < |header| ==> !StartsWith(Lower(header[i]), Lower(Prefix(field).value))
    ensures FromHeader(field, header) == Ok({})
  {
    var want := Lower(Prefix(field).value);
    var values := LineValues(want, header);
    PresentMeaning(values);
    assert forall i :: 0 <= i < |values| ==> values[i] == None;
    PresentNone(values);
  }

  lemma {:induction false} PresentNone(values: seq<Option<string>>)
    requires forall i :: 0 <= i < |values| ==> values[i] == None
    ensures Present(values) == {}
  {
    if |values| > 0 {
      PresentNone(values[..|values| - 1]);
    }
  }

  /** Singular and plural field names have the same prefix. */
  lemma SingularPlural()
    ensures Prefix("titles") == Prefix("title") && Prefix("authors") == Prefix("author")
    ensures Prefix("languages") == Prefix("language") && Prefix("subjects") == Prefix("subject")
  {
  }

  /** Two field names with the same prefix read the same lines. */
  lemma SamePrefixSameResult(f1: string, f2: string, header: seq<string>)
    requires Prefix(f1) == Prefix(f2) && Prefix(f1).Some?
    ensures FromHeader(f1, header) == FromHeader(f2, header)
  {
  }

  /** A table of the catalogue cache. */
  datatype Table = Titles | Authors | Languages | Subjects

  /** The table `get_metadata_from_cache` reads for a field name. */
  function TableFor(field: string): (r: Option<Table>)
    ensures r.Some? <==> Prefix(field).Some?
  {
    if field == "title" || field == "titles" then Some(Titles)
    else if field == "author" || field == "authors" then Some(Authors)
    else if field == "language" || field == "languages" then Some(Languages)
    else if field == "subject" || field == "subjects" then Some(Subjects)
    else None
  }

  /**
   * `get_metadata_from_cache(cache, field, book_id)`: `query(table, id)` is
   * the cache's rows (or what the query raised, which is re-raised); they go
   * through `strings_from_sql`.  A field name outside the four, singular or
   * plural, raises ValueError before the cache is touched.
   */
  function FromCache(field: string, bookId: int, query: (Table, int) -> Result<seq<Value>>): (r: Result<set<string>>)
    ensures TableFor(field).None? ==> r == Err(Unsupported(field))
    ensures TableFor(field).Some? ==> (var rows := query(TableFor(field).value, bookId);
      r == if rows.Err? then Err(rows.error) else Values.FromSql(rows.value))
  {
    var table := TableFor(field);
    if table.None? then Err(Unsupported(field))
    else
      var rows := query(table.value, bookId);
      if rows.Err? then Err(rows.error) else Values.FromSql(rows.value)
  }

  /** The header and the cache support the same field names. */
  lemma SameFields(field: string, header: seq<string>, bookId: int, query: (Table, int) -> Result<seq<Value>>)
    ensures FromHeader(field, header) == Err(Unsupported(field)) <==> TableFor(field).None?
    ensures TableFor(field).None? ==> FromCache(field, bookId, query) == Err(Unsupported(field))
  {
  }
}
