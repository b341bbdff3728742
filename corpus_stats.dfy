/**
 * `compute_corpus_stats` of `lcats/lcats/analysis/corpus_surveyor.py`: one
 * row per story, duplicates (same normalised title and same lowercased
 * authors) dropped, and one row per author aggregating the body metrics of
 * their stories.  Reading and parsing a file is the parameter `load` (None
 * for a file that cannot be read or parsed, which is skipped), the token
 * counter is the parameter `tokens`, and the bytes-literal parser is
 * `parse`.  The dedupe loop is stated for any extraction `extract`; the
 * statistics use `Extractor(parse)`.
 */
module CorpusStats {
  import opened Wrappers
  import opened PyStr
  import Json
  import Sorting
  import StoryAnalysis
  import CorpusSurveyor

  type Path = CorpusSurveyor.Path

  // ---------------------------------------------------------------- stories

  /** The uniqueness key: the normalised title and the sorted lowercased authors. */
  datatype Key = Key(title: string, authors: seq<string>)

  function LowerAll(names: seq<string>): (r: seq<string>)
    ensures |r| == |names| && forall k :: 0 <= k < |names| ==> r[k] == Lower(names[k])
  {
    seq(|names|, k requires 0 <= k < |names| => Lower(names[k]))
  }

  function StoryKey(title: string, authors: seq<string>): Key
  {
    Key(StoryAnalysis.NormalizeTitle(title), Sorting.SortBy(LowerAll(authors), Sorting.StrLe))
  }

  /** The key's title, then `::` and the authors joined by `;` when there are any. */
  function StoryId(k: Key): (r: string)
    ensures |k.authors| == 0 ==> r == k.title
    ensures |k.authors| > 0 ==> StartsWith(r, k.title + "::") && r[|k.title| + 2..] == Join(k.authors, ";")
  {
    if |k.authors| > 0 then k.title + "::" + Join(k.authors, ";") else k.title
  }

  /** The key depends on the authors only through their lowercased multiset: order and case do not matter. */
  lemma StoryKeyIgnoresOrder(title: string, a1: seq<string>, a2: seq<string>)
    requires multiset(LowerAll(a1)) == multiset(LowerAll(a2))
    ensures StoryKey(title, a1) == StoryKey(title, a2)
  {
    StrLeTotalPreorder();
    var s1 := Sorting.SortBy(LowerAll(a1), Sorting.StrLe);
    var s2 := Sorting.SortBy(LowerAll(a2), Sorting.StrLe);
    Sorting.SortBySorted(LowerAll(a1), Sorting.StrLe);
    Sorting.SortBySorted(LowerAll(a2), Sorting.StrLe);
    SortedUnique(s1, s2);
  }

  lemma StrLeTotalPreorder()
    ensures Sorting.TotalPreorder(Sorting.StrLe)
  {
    forall a, b ensures Sorting.StrLe(a, b) || Sorting.StrLe(b, a) {
      Sorting.StrLeTotal(a, b);
    }
    forall a, b, c | Sorting.StrLe(a, b) && Sorting.StrLe(b, c) ensures Sorting.StrLe(a, c) {
      Sorting.StrLeTrans(a, b, c);
    }
  }

  /** The head of a sorted sequence is below all its elements. */
  lemma SortedHeadLe(s: seq<string>, z: string)
    requires Sorting.SortedBy(s, Sorting.StrLe) && z in s
    ensures Sorting.StrLe(s[0], z)
  {
    var j :| 0 <= j < |s| && s[j] == z;
    if j == 0 {
      Sorting.StrLeTotal(z, z);
    }
  }

  lemma SortedTail(s: seq<string>)
    requires |s| > 0 && Sorting.SortedBy(s, Sorting.StrLe)
    ensures Sorting.SortedBy(s[1..], Sorting.StrLe)
  {
    var t := s[1..];
    forall i, j | 0 <= i < j < |t| ensures Sorting.StrLe(t[i], t[j]) {
      assert t[i] == s[i + 1] && t[j] == s[j + 1];
    }
  }

  lemma TailMultiset(s1: seq<string>, s2: seq<string>)
    requires |s1| > 0 && |s2| > 0 && s1[0] == s2[0] && multiset(s1) == multiset(s2)
    ensures multiset(s1[1..]) == multiset(s2[1..])
  {
    assert s1 == [s1[0]] + s1[1..] && s2 == [s2[0]] + s2[1..];
    assert multiset(s1[1..]) == multiset(s1) - multiset{s1[0]};
    assert multiset(s2[1..]) == multiset(s2) - multiset{s2[0]};
  }

  /** Two sorted permutations of each other are equal. */
  lemma {:induction false} SortedUnique(s1: seq<string>, s2: seq<string>)
    requires Sorting.SortedBy(s1, Sorting.StrLe) && Sorting.SortedBy(s2, Sorting.StrLe)
    requires multiset(s1) == multiset(s2)
    ensures s1 == s2
    decreases |s1|
  {
    assert |s1| == |multiset(s1)| == |multiset(s2)| == |s2|;
    if |s1| > 0 {
      var x, y := s1[0], s2[0];
      assert x in multiset(s2) && y in multiset(s1);
      SortedHeadLe(s1, y);
      SortedHeadLe(s2, x);
      Sorting.StrLeAntisym(x, y);
      SortedTail(s1);
      SortedTail(s2);
      TailMultiset(s1, s2);
      SortedUnique(s1[1..], s2[1..]);
      assert s1 == [x] + s1[1..] && s2 == [x] + s2[1..];
    }
  }

  /** A story row. */
  datatype StoryRow = StoryRow(
    path: string, storyId: string, title: string, authors: seq<string>, nAuthors: nat,
    titleWords: nat, titleChars: nat, titleTokens: nat,
    bodyWords: nat, bodyChars: nat, bodyTokens: nat)

  function MakeRow(p: Path, key: Key, s: StoryAnalysis.TitleAuthorsBody, tokens: string -> nat): (r: StoryRow)
    ensures r.storyId == StoryId(key) && r.title == s.title && r.authors == s.authors && r.nAuthors == |s.authors|
  {
    StoryRow(CorpusSurveyor.PathStr(p), StoryId(key), s.title, s.authors, |s.authors|,
      StoryAnalysis.WordCount(s.title), |s.title|, tokens(s.title),
      StoryAnalysis.WordCount(s.body), |s.body|, tokens(s.body))
  }

  /** The key of a row, recomputed from its title and authors. */
  function RowKey(row: StoryRow, keyOf: (string, seq<string>) -> Key): Key
  {
    keyOf(row.title, row.authors)
  }

  /** The uniqueness key of `compute_corpus_stats`. */
  function KeyFn(): (string, seq<string>) -> Key
  {
    (title: string, authors: seq<string>) => StoryKey(title, authors)
  }

  /** `extract_title_authors_body(data)` on a loaded JSON value: only a dictionary has `get`. */
  function Story(data: Json.Value, parse: string -> Option<string>): Result<StoryAnalysis.TitleAuthorsBody>
  {
    if data.Obj? then StoryAnalysis.ExtractTitleAuthorsBody(data.fields, parse)
    else Err(StoryAnalysis.NoAttribute(data, "get"))
  }

  /** The extraction the statistics use, with the bytes-literal parser `parse`. */
  function Extractor(parse: string -> Option<string>): Json.Value -> Result<StoryAnalysis.TitleAuthorsBody>
  {
    d => Story(d, parse)
  }

  /** The rows so far and the keys seen. */
  datatype Survey = Survey(rows: seq<StoryRow>, seen: set<Key>)

  /** One file of the loop: unreadable files are skipped, an extraction error escapes. */
  function Step(st: Survey, p: Path, load: Path -> Option<Json.Value>, extract: Json.Value -> Result<StoryAnalysis.TitleAuthorsBody>,
      keyOf: (string, seq<string>) -> Key,
                tokens: string -> nat, dedupe: bool): Result<Survey>
  {
    match load(p)
    case None => Ok(st)
    case Some(data) =>
      match extract(data)
      case Err(e) => Err(e)
      case Ok(s) =>
        var key := keyOf(s.title, s.authors);
        if dedupe && key in st.seen then Ok(st)
        else Ok(Survey(st.rows + [MakeRow(p, key, s, tokens)], st.seen + {key}))
  }

  /** The loop over all `paths`, stopping at the first error. */
  function Surveyed(paths: seq<Path>, load: Path -> Option<Json.Value>, extract: Json.Value -> Result<StoryAnalysis.TitleAuthorsBody>,
      keyOf: (string, seq<string>) -> Key,
                    tokens: string -> nat, dedupe: bool): Result<Survey>
  {
    if |paths| == 0 then Ok(Survey([], {}))
    else
      match Surveyed(paths[..|paths| - 1], load, extract, keyOf, tokens, dedupe)
      case Err(e) => Err(e)
      case Ok(st) => Step(st, paths[|paths| - 1], load, extract, keyOf, tokens, dedupe)
  }

  lemma {:induction false} FirstErrorWins(paths: seq<Path>, k: nat, load: Path -> Option<Json.Value>,
                                          extract: Json.Value -> Result<StoryAnalysis.TitleAuthorsBody>,
      keyOf: (string, seq<string>) -> Key, tokens: string -> nat, dedupe: bool)
    requires k <= |paths| && Surveyed(paths[..k], load, extract, keyOf, tokens, dedupe).Err?
    ensures Surveyed(paths, load, extract, keyOf, tokens, dedupe) == Surveyed(paths[..k], load, extract, keyOf, tokens, dedupe)
    decreases |paths| - k
  {
    if k < |paths| {
      assert paths[..k + 1][..k] == paths[..k];
      FirstErrorWins(paths, k + 1, load, extract, keyOf, tokens, dedupe);
    } else {
      assert paths[..k] == paths;
    }
  }

  /**
   * The loop of `compute_corpus_stats` over `paths`, for an extraction
   * `extract` and a key `keyOf`: the rows, or what the extraction raised.
   */
  method SurveyLoop(paths: seq<Path>, load: Path -> Option<Json.Value>, extract: Json.Value -> Result<StoryAnalysis.TitleAuthorsBody>,
                    keyOf: (string, seq<string>) -> Key, tokens: string -> nat, dedupe: bool) returns (r: Result<seq<StoryRow>>)
    ensures var s := Surveyed(paths, load, extract, keyOf, tokens, dedupe);
      r == if s.Err? then Err(s.error) else Ok(s.value.rows)
  {
    var seenKeys: set<Key> := {};
    var storyRows: seq<StoryRow> := [];
    for i := 0 to |paths|
      invariant Surveyed(paths[..i], load, extract, keyOf, tokens, dedupe) == Ok(Survey(storyRows, seenKeys))
    {
      assert paths[..i + 1][..i] == paths[..i];
      var p := paths[i];
      var loaded := load(p);
      if loaded.None? {
        continue;
      }
      var story := extract(loaded.value);
      if story.Err? {
        FirstErrorWins(paths, i + 1, load, extract, keyOf, tokens, dedupe);
        return Err(story.error);
      }
      var s := story.value;
      var key := keyOf(s.title, s.authors);
      if dedupe && key in seenKeys {
        continue;
      }
      seenKeys := seenKeys + {key};
      storyRows := storyRows + [MakeRow(p, key, s, tokens)];
    }
    assert paths[..|paths|] == paths;
    return Ok(storyRows);
  }

  /** The story rows of `compute_corpus_stats(paths, dedupe=dedupe)`, or what the extraction raised. */
  method StoryStats(paths: seq<Path>, load: Path -> Option<Json.Value>, parse: string -> Option<string>,
                    tokens: string -> nat, dedupe: bool) returns (r: Result<seq<StoryRow>>)
    ensures var s := Surveyed(paths, load, Extractor(parse), KeyFn(), tokens, dedupe);
      r == if s.Err? then Err(s.error) else Ok(s.value.rows)
  {
    r := SurveyLoop(paths, load, Extractor(parse), KeyFn(), tokens, dedupe);
  }

  /** `compute_corpus_stats(paths, dedupe=dedupe)`: the story rows and the author rows built from them. */
  method ComputeCorpusStats(paths: seq<Path>, load: Path -> Option<Json.Value>, parse: string -> Option<string>,
                            tokens: string -> nat, dedupe: bool) returns (r: Result<(seq<StoryRow>, seq<AuthorRow>)>)
    ensures var s := Surveyed(paths, load, Extractor(parse), KeyFn(), tokens, dedupe);
      r == if s.Err? then Err(s.error) else Ok((s.value.rows, AuthorStats(s.value.rows)))
  {
    var rows := StoryStats(paths, load, parse, tokens, dedupe);
    if rows.Err? {
      return Err(rows.error);
    }
    return Ok((rows.value, AuthorStats(rows.value)));
  }

  /** The distinct keys of the rows. */
  ghost predicate KeysOf(rows: seq<StoryRow>, seen: set<Key>, keyOf: (string, seq<string>) -> Key)
  {
    forall k :: k in seen <==> exists i :: 0 <= i < |rows| && RowKey(rows[i], keyOf) == k
  }

  /** The key of what the file gives, when it is read and extracted. */
  function FileKey(p: Path, load: Path -> Option<Json.Value>, extract: Json.Value -> Result<StoryAnalysis.TitleAuthorsBody>, keyOf: (string, seq<string>) -> Key): Option<Key>
  {
    if load(p).Some? && extract(load(p).value).Ok? then
      var s := extract(load(p).value).value;
      Some(keyOf(s.title, s.authors))
    else None
  }

  /**
   * What one step does to the survey: either nothing (the file is not read,
   * or with `dedupe` its key was seen), or the file's row is appended and
   * its key seen.
   */
  lemma StepShape(st: Survey, p: Path, load: Path -> Option<Json.Value>, extract: Json.Value -> Result<StoryAnalysis.TitleAuthorsBody>,
      keyOf: (string, seq<string>) -> Key,
                  tokens: string -> nat, dedupe: bool)
    requires Step(st, p, load, extract, keyOf, tokens, dedupe).Ok?
    ensures var st2 := Step(st, p, load, extract, keyOf, tokens, dedupe).value; var fk := FileKey(p, load, extract, keyOf);
      || (st2 == st && (fk.None? || (dedupe && fk.value in st.seen)))
      || (fk.Some? && !(dedupe && fk.value in st.seen) && Appended(st, st2, fk.value, keyOf))
  {
    var st2 := Step(st, p, load, extract, keyOf, tokens, dedupe).value;
    if load(p).Some? {
      var s := extract(load(p).value).value;
      var key := keyOf(s.title, s.authors);
      if !(dedupe && key in st.seen) {
        var row := MakeRow(p, key, s, tokens);
        assert st2.rows == st.rows + [row];
        assert st2.rows[..|st.rows|] == st.rows;
      }
    }
  }

  /** `st2` is `st` with one row of key `k` appended and `k` seen. */
  predicate Appended(st: Survey, st2: Survey, k: Key, keyOf: (string, seq<string>) -> Key)
  {
    |st2.rows| == |st.rows| + 1 && st2.rows[..|st.rows|] == st.rows
    && RowKey(st2.rows[|st.rows|], keyOf) == k && st2.seen == st.seen + {k}
  }

  lemma KeysOfAppended(st: Survey, st2: Survey, k: Key, keyOf: (string, seq<string>) -> Key)
    requires KeysOf(st.rows, st.seen, keyOf) && Appended(st, st2, k, keyOf)
    ensures KeysOf(st2.rows, st2.seen, keyOf)
  {
    forall j ensures j in st2.seen <==> exists i :: 0 <= i < |st2.rows| && RowKey(st2.rows[i], keyOf) == j {
      if j in st.seen {
        var i :| 0 <= i < |st.rows| && RowKey(st.rows[i], keyOf) == j;
        assert st2.rows[i] == st.rows[i];
      }
      if i :| 0 <= i < |st2.rows| && RowKey(st2.rows[i], keyOf) == j {
        if i < |st.rows| {
          assert st2.rows[i] == st.rows[i];
        }
      }
    }
  }

  lemma DistinctAppended(st: Survey, st2: Survey, k: Key, keyOf: (string, seq<string>) -> Key)
    requires KeysOf(st.rows, st.seen, keyOf) && Appended(st, st2, k, keyOf) && k !in st.seen
    requires forall i, j :: 0 <= i < j < |st.rows| ==> RowKey(st.rows[i], keyOf) != RowKey(st.rows[j], keyOf)
    ensures forall i, j :: 0 <= i < j < |st2.rows| ==> RowKey(st2.rows[i], keyOf) != RowKey(st2.rows[j], keyOf)
  {
    forall i, j | 0 <= i < j < |st2.rows| ensures RowKey(st2.rows[i], keyOf) != RowKey(st2.rows[j], keyOf) {
      assert st2.rows[i] == st.rows[i];
      if j < |st.rows| {
        assert st2.rows[j] == st.rows[j];
      }
    }
  }

  /** The survey after the first `|paths|` files, as one more step on the survey before the last. */
  lemma SurveyedLast(paths: seq<Path>, load: Path -> Option<Json.Value>, extract: Json.Value -> Result<StoryAnalysis.TitleAuthorsBody>,
      keyOf: (string, seq<string>) -> Key,
                     tokens: string -> nat, dedupe: bool)
    requires |paths| > 0 && Surveyed(paths, load, extract, keyOf, tokens, dedupe).Ok?
    ensures var init := Surveyed(paths[..|paths| - 1], load, extract, keyOf, tokens, dedupe);
      && init.Ok?
      && Step(init.value, paths[|paths| - 1], load, extract, keyOf, tokens, dedupe).Ok?
      && Surveyed(paths, load, extract, keyOf, tokens, dedupe).value == Step(init.value, paths[|paths| - 1], load, extract, keyOf, tokens, dedupe).value
  {
  }

  /** The seen keys are exactly the rows' keys. */
  lemma {:induction false} SurveyedKeys(paths: seq<Path>, load: Path -> Option<Json.Value>, extract: Json.Value -> Result<StoryAnalysis.TitleAuthorsBody>,
      keyOf: (string, seq<string>) -> Key,
                                        tokens: string -> nat, dedupe: bool)
    requires Surveyed(paths, load, extract, keyOf, tokens, dedupe).Ok?
    ensures var st := Surveyed(paths, load, extract, keyOf, tokens, dedupe).value; KeysOf(st.rows, st.seen, keyOf)
  {
    if |paths| > 0 {
      var init := paths[..|paths| - 1];
      var p := paths[|paths| - 1];
      SurveyedLast(paths, load, extract, keyOf, tokens, dedupe);
      SurveyedKeys(init, load, extract, keyOf, tokens, dedupe);
      var st0 := Surveyed(init, load, extract, keyOf, tokens, dedupe).value;
      var st := Surveyed(paths, load, extract, keyOf, tokens, dedupe).value;
      StepShape(st0, p, load, extract, keyOf, tokens, dedupe);
      var fk := FileKey(p, load, extract, keyOf);
      if st != st0 {
        KeysOfAppended(st0, st, fk.value, keyOf);
      }
    }
  }

  /** With `dedupe`, no two rows share a key. */
  lemma {:induction false} SurveyedDistinct(paths: seq<Path>, load: Path -> Option<Json.Value>, extract: Json.Value -> Result<StoryAnalysis.TitleAuthorsBody>,
      keyOf: (string, seq<string>) -> Key,
                                            tokens: string -> nat)
    requires Surveyed(paths, load, extract, keyOf, tokens, true).Ok?
    ensures var st := Surveyed(paths, load, extract, keyOf, tokens, true).value;
      forall i, j :: 0 <= i < j < |st.rows| ==> RowKey(st.rows[i], keyOf) != RowKey(st.rows[j], keyOf)
  {
    if |paths| > 0 {
      var init := paths[..|paths| - 1];
      var p := paths[|paths| - 1];
      SurveyedLast(paths, load, extract, keyOf, tokens, true);
      SurveyedDistinct(init, load, extract, keyOf, tokens);
      SurveyedKeys(init, load, extract, keyOf, tokens, true);
      var st0 := Surveyed(init, load, extract, keyOf, tokens, true).value;
      var st := Surveyed(paths, load, extract, keyOf, tokens, true).value;
      StepShape(st0, p, load, extract, keyOf, tokens, true);
      var fk := FileKey(p, load, extract, keyOf);
      if st != st0 {
        DistinctAppended(st0, st, fk.value, keyOf);
      }
    }
  }

  /** Every file that is read and extracted has its key among the seen keys. */
  lemma {:induction false} SurveyedCovers(paths: seq<Path>, load: Path -> Option<Json.Value>, extract: Json.Value -> Result<StoryAnalysis.TitleAuthorsBody>,
      keyOf: (string, seq<string>) -> Key,
                                          tokens: string -> nat, dedupe: bool)
    requires Surveyed(paths, load, extract, keyOf, tokens, dedupe).Ok?
    ensures var st := Surveyed(paths, load, extract, keyOf, tokens, dedupe).value;
      forall i :: 0 <= i < |paths| && FileKey(paths[i], load, extract, keyOf).Some? ==> FileKey(paths[i], load, extract, keyOf).value in st.seen
  {
    if |paths| > 0 {
      var init := paths[..|paths| - 1];
      var p := paths[|paths| - 1];
      SurveyedLast(paths, load, extract, keyOf, tokens, dedupe);
      SurveyedCovers(init, load, extract, keyOf, tokens, dedupe);
      var st0 := Surveyed(init, load, extract, keyOf, tokens, dedupe).value;
      StepShape(st0, p, load, extract, keyOf, tokens, dedupe);
      forall i | 0 <= i < |init| ensures paths[i] == init[i] {
      }
    }
  }

  /** A file that cannot be read changes nothing. */
  lemma UnreadableSkipped(st: Survey, p: Path, load: Path -> Option<Json.Value>, extract: Json.Value -> Result<StoryAnalysis.TitleAuthorsBody>,
      keyOf: (string, seq<string>) -> Key,
                          tokens: string -> nat, dedupe: bool)
    requires load(p).None?
    ensures Step(st, p, load, extract, keyOf, tokens, dedupe) == Ok(st)
  {
  }

  /** A loaded value that is not a dictionary raises AttributeError, which escapes the loop. */
  lemma NotDictRaises(paths: seq<Path>, load: Path -> Option<Json.Value>, parse: string -> Option<string>,
                      tokens: string -> nat, dedupe: bool)
    requires |paths| > 0 && load(paths[0]).Some? && !load(paths[0]).value.Obj?
    ensures Surveyed(paths, load, Extractor(parse), KeyFn(), tokens, dedupe).Err?
    ensures Surveyed(paths, load, Extractor(parse), KeyFn(), tokens, dedupe).error.kind == AttributeError
  {
    assert paths[..1] == [paths[0]];
    assert paths[..1][..0] == [];
    FirstErrorWins(paths, 1, load, Extractor(parse), KeyFn(), tokens, dedupe);
  }

  // ---------------------------------------------------------------- authors

  /** An author row. */
  datatype AuthorRow = AuthorRow(author: string, stories: nat, bodyWords: nat, bodyChars: nat, bodyTokens: nat)

  /** The non-empty author strings of the rows. */
  function AuthorNames(rows: seq<StoryRow>): (r: set<string>)
    ensures forall a :: a in r <==> a != "" && exists i :: 0 <= i < |rows| && a in rows[i].authors
  {
    set i, a | 0 <= i < |rows| && a in rows[i].authors && a != "" :: a
  }

  /** How many times `a` is listed among `authors` (each listing is a row of the exploded table). */
  function Occurrences(authors: seq<string>, a: string): nat
  {
    multiset(authors)[a]
  }

  /** The sum of `f` over the exploded rows of author `a`. */
  function SumFor(rows: seq<StoryRow>, a: string, f: StoryRow -> nat): nat
  {
    if |rows| == 0 then 0
    else SumFor(rows[..|rows| - 1], a, f) + Occurrences(rows[|rows| - 1].authors, a) * f(rows[|rows| - 1])
  }

  /** The story ids listing `a`. */
  function StoryIdsOf(rows: seq<StoryRow>, a: string): set<string>
  {
    set i | 0 <= i < |rows| && a in rows[i].authors :: rows[i].storyId
  }

  /** The aggregation of one author group. */
  function Aggregate(rows: seq<StoryRow>, a: string): AuthorRow
  {
    AuthorRow(a, |StoryIdsOf(rows, a)|, SumFor(rows, a, BodyWords), SumFor(rows, a, BodyChars), SumFor(rows, a, BodyTokens))
  }

  function BodyWords(r: StoryRow): nat { r.bodyWords }
  function BodyChars(r: StoryRow): nat { r.bodyChars }
  function BodyTokens(r: StoryRow): nat { r.bodyTokens }

  /** More stories first, then more body words. */
  predicate AuthorRowLe(x: AuthorRow, y: AuthorRow)
  {
    x.stories > y.stories || (x.stories == y.stories && x.bodyWords >= y.bodyWords)
  }

  lemma AuthorRowLeTotalPreorder()
    ensures Sorting.TotalPreorder(AuthorRowLe)
  {
  }

  /** The groups in ascending author order, as `groupby` yields them. */
  function Groups(rows: seq<StoryRow>): seq<AuthorRow>
  {
    var names := StoryAnalysis.SortedKeys(AuthorNames(rows));
    seq(|names|, k requires 0 <= k < |names| => Aggregate(rows, names[k]))
  }

  /** There is one group per author name, holding that author's aggregation. */
  lemma GroupsMeaning(rows: seq<StoryRow>)
    ensures forall x :: x in Groups(rows) <==> x.author in AuthorNames(rows) && x == Aggregate(rows, x.author)
  {
    var names := StoryAnalysis.SortedKeys(AuthorNames(rows));
    var g := Groups(rows);
    forall x ensures x in g <==> x.author in AuthorNames(rows) && x == Aggregate(rows, x.author) {
      if x in g {
        var k :| 0 <= k < |g| && g[k] == x;
        assert x == Aggregate(rows, names[k]);
      }
      if x.author in AuthorNames(rows) && x == Aggregate(rows, x.author) {
        var k :| 0 <= k < |names| && names[k] == x.author;
        assert g[k] == x;
      }
    }
  }

  /** The `author_stats` rows. */
  function AuthorStats(rows: seq<StoryRow>): seq<AuthorRow>
  {
    Sorting.SortBy(Groups(rows), AuthorRowLe)
  }

  /**
   * `author_stats`: one row per non-empty author string, each the
   * aggregation of that author's stories (`stories` counting distinct story
   * ids), in order of more stories, then more body words.
   */
  lemma AuthorStatsMeaning(rows: seq<StoryRow>)
    ensures var r := AuthorStats(rows);
      && (forall x :: x in r <==> x.author in AuthorNames(rows) && x == Aggregate(rows, x.author))
      && (forall x :: x in r ==> x.author != "" && x.stories == |StoryIdsOf(rows, x.author)|)
      && Sorting.SortedBy(r, AuthorRowLe)
  {
    var g := Groups(rows);
    var r := AuthorStats(rows);
    GroupsMeaning(rows);
    AuthorRowLeTotalPreorder();
    Sorting.SortBySorted(g, AuthorRowLe);
    forall x ensures x in r <==> x in g {
      assert x in r <==> x in multiset(r);
      assert x in g <==> x in multiset(g);
    }
  }

  /** A story listing its author twice adds its body twice to the sums but once to `stories`. */
  lemma RepeatedAuthor(row: StoryRow, a: string)
    requires a != "" && row.authors == [a, a]
    ensures Aggregate([row], a).stories == 1
    ensures Aggregate([row], a).bodyWords == 2 * row.bodyWords
  {
    assert multiset(row.authors)[a] == 2;
    assert [row][..0] == [];
    assert SumFor([row], a, BodyWords) == Occurrences(row.authors, a) * row.bodyWords;
    assert a in [row][0].authors;
    assert StoryIdsOf([row], a) == {row.storyId};
  }

  /** No stories, no author rows. */
  lemma NoStoriesNoAuthors()
    ensures AuthorStats([]) == []
  {
    assert AuthorNames([]) == {};
  }
}
