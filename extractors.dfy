/**
 * `lcats/gatherers/extractors.py`: the older title-to-filename slug and the
 * `Extractor` record that names a story to fetch.
 */
module Extractors {
  import opened Wrappers
  import opened PyStr
  import Names

  /** The characters `re.sub(r"[^a-z0-9\s]", "", ...)` keeps. */
  predicate KeepChar(c: char) { Names.SlugChar(c) || IsSpace(c) }

  /**
   * `title_to_filename(title)`: lowercase, drop everything but `[a-z0-9]` and
   * whitespace, strip, and turn each whitespace run into one `_`.
   */
  function TitleToFilename(title: string): string
  {
    ReplaceRuns(Strip(Filter(Lower(title), KeepChar)), IsSpace, "_")
  }

  /** The stripped, filtered title: only letters, digits and whitespace, no `_`, no whitespace at the ends. */
  lemma StrippedTitle(title: string)
    ensures var t := Strip(Filter(Lower(title), KeepChar));
      && AllChars(t, KeepChar) && KeptChars(t, IsSpace, Names.SlugOrUnderscore) && Absent(t, '_')
      && (t == [] || (!IsSpace(t[0]) && !IsSpace(t[|t| - 1])))
  {
    var f := Filter(Lower(title), KeepChar);
    StripByKeeps(f, IsSpace, KeepChar, '_');
    KeepCharsOnly(Strip(f));
  }

  lemma KeepCharsOnly(t: string)
    requires AllChars(t, KeepChar)
    ensures KeptChars(t, IsSpace, Names.SlugOrUnderscore) && Absent(t, '_')
  {
  }

  /**
   * The slug is made of `[a-z0-9_]` only, has no `_` at either end and no
   * `__`: so whenever it is not empty it is a well-formed basename in the
   * sense of `names.py`.
   */
  lemma TitleToFilenameShape(title: string)
    ensures var r := TitleToFilename(title);
      && AllChars(r, Names.SlugOrUnderscore)
      && NoDouble(r, '_')
      && (r == [] || (r[0] != '_' && r[|r| - 1] != '_'))
      && (r == [] || Names.SlugShape(r))
  {
    var t := Strip(Filter(Lower(title), KeepChar));
    StrippedTitle(title);
    ReplaceRunsChars(t, IsSpace, "_", Names.SlugOrUnderscore);
    ReplaceRunsNoDouble(t, IsSpace, '_');
    if |t| > 0 {
      ReplaceRunsLast(t, IsSpace, "_");
    }
  }

  /** Letters and digits survive in order: only whitespace and punctuation are dropped or turned into `_`. */
  lemma TitleToFilenameKeepsAlnum(title: string)
    ensures Filter(TitleToFilename(title), Names.SlugChar) == Filter(Lower(title), Names.SlugChar)
  {
    var l := Lower(title);
    var f := Filter(l, KeepChar);
    var t := Strip(f);
    assert DropsClass(f, IsSpace, Names.SlugChar);
    FilterStripBy(f, IsSpace, Names.SlugChar);
    SuffixDropsStrip(f);
    assert Filter("_", Names.SlugChar) == "";
    FilterReplaceRuns(t, IsSpace, "_", Names.SlugChar);
    FilterFilter(l, KeepChar, Names.SlugChar);
  }

  lemma SuffixDropsStrip(f: string)
    requires DropsClass(f, IsSpace, Names.SlugChar)
    ensures DropsClass(Strip(f), IsSpace, Names.SlugChar)
  {
  }

  /** A title with no ASCII letter or digit (empty, blank, all punctuation) gives the empty slug. */
  lemma TitleToFilenameEmpty(title: string)
    requires forall i :: 0 <= i < |title| ==> !Names.SlugChar(LowerChar(title[i]))
    ensures TitleToFilename(title) == ""
  {
    var l := Lower(title);
    var f := Filter(l, KeepChar);
    FilterKeeps(l, KeepChar, Names.NotSlug);
    assert IsBlank(f);
    StripEmptyIffBlank(f);
  }

  // ---------------------------------------------------------------- Extractor

  /** An `Extractor`: the story's title and URL, the file to save it as, and optional author and year. */
  datatype Extractor = Extractor(title: string, url: string, file: string, author: Option<string>, year: Option<int>)
  {
    /** `description`: "title by author" for a non-empty author, else the title. */
    function Description(): string
    {
      match author
      case Some(a) => if |a| > 0 then title + " by " + a else title
      case None => title
    }

    /** `repr(extractor)`. */
    function Repr(): string
    {
      "Extractor('" + Description() + "')"
    }
  }

  /** `Extractor(title, url, file, author, year)`: a missing or empty file name is derived from the title. */
  function NewExtractor(title: string, url: string, file: Option<string>, author: Option<string>, year: Option<int>): (e: Extractor)
    ensures e.title == title && e.url == url && e.author == author && e.year == year
  {
    var f := if file.Some? && |file.value| > 0 then file.value else TitleToFilename(title);
    Extractor(title, url, f, author, year)
  }

  /** An explicit file name is kept; otherwise the file is the title's slug, a well-formed basename or empty. */
  lemma NewExtractorFile(title: string, url: string, file: Option<string>, author: Option<string>, year: Option<int>)
    ensures var e := NewExtractor(title, url, file, author, year);
      && (file.Some? && file.value != "" ==> e.file == file.value)
      && (file.None? || file.value == "" ==> e.file == TitleToFilename(title) && (e.file == "" || Names.SlugShape(e.file)))
  {
    var e := NewExtractor(title, url, file, author, year);
    if file.None? || file.value == "" {
      assert e.file == TitleToFilename(title);
      TitleToFilenameShape(title);
    }
  }

  /** The description names the author exactly when one is given, and `repr` wraps it in `Extractor('...')`. */
  lemma DescriptionMeaning(e: Extractor)
    ensures (e.author.Some? && e.author.value != "") ==> e.Description() == e.title + " by " + e.author.value
    ensures (e.author.None? || e.author.value == "") ==> e.Description() == e.title
    ensures var r := e.Repr();
      && |r| == |e.Description()| + 13
      && r[..11] == "Extractor('" && r[11..|r| - 2] == e.Description() && r[|r| - 2..] == "')"
  {
  }
}
