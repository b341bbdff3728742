/**
 * `lcats/gatherers/mass_quantities/parser.py`: the metadata filters of the
 * Gutenberg bulk gatherer and the line- and paragraph-level rules that
 * strip headers from a story body.  The title heuristics that rest on
 * `difflib` similarity are not part of this model.
 */
module Parser {
  import opened Wrappers
  import opened PyStr

  // ---------------------------------------------------------------- int()

  /** The digits of a Python integer literal: single underscores may separate digits. */
  predicate DigitGroups(b: string)
  {
    && |b| > 0 && IsAsciiDigit(b[0]) && IsAsciiDigit(b[|b| - 1])
    && (forall i :: 0 <= i < |b| ==> IsAsciiDigit(b[i]) || b[i] == '_')
    && (forall i :: 0 <= i < |b| - 1 ==> !(b[i] == '_' && b[i + 1] == '_'))
  }

  /** The value of a string of decimal digits. */
  function DigitValue(c: char): nat
  {
    if IsAsciiDigit(c) then c as int - '0' as int else 0
  }

  /** The value of a string of decimal digits. */
  function DigitsValue(ds: string): nat
  {
    if |ds| == 0 then 0 else DigitsValue(ds[..|ds| - 1]) * 10 + DigitValue(ds[|ds| - 1])
  }

  /** `int(s)` on ASCII digits: surrounding whitespace and a sign are allowed; `None` is the ValueError. */
  function ParseInt(s: string): Option<int>
  {
    var t := Strip(s);
    var neg := |t| > 0 && t[0] == '-';
    var body := if |t| > 0 && (t[0] == '-' || t[0] == '+') then t[1..] else t;
    if DigitGroups(body) then
      var v: int := DigitsValue(Filter(body, IsAsciiDigit));
      Some(if neg then -v else v)
    else None
  }

  lemma {:induction false} DigitsValueOfNat(n: nat)
    ensures DigitsValue(NatToString(n)) == n
  {
    var d := NatToString(n);
    if n >= 10 {
      DigitsValueOfNat(n / 10);
      assert d[..|d| - 1] == NatToString(n / 10);
    }
  }

  /** `int(str(n)) == n`: the decimal rendering of a natural number parses back to it. */
  lemma ParseIntNatToString(n: nat)
    ensures ParseInt(NatToString(n)) == Some(n)
  {
    var d := NatToString(n);
    StripBlankFree(d);
    FilterAllKept(d, IsAsciiDigit);
    DigitsValueOfNat(n);
  }

  /** `is_number(s)`: whether `int(s)` succeeds. */
  predicate IsNumber(s: string)
  {
    ParseInt(s).Some?
  }

  // ---------------------------------------------------------------- metadata filters

  /** `only_english(languages, target)`. */
  predicate OnlyEnglish(languages: seq<string>, target: string)
  {
    target in languages && (set l | l in languages) - {target} == {}
  }

  /** The only language is the target: `set(languages) == {target}`. */
  lemma OnlyEnglishMeaning(languages: seq<string>, target: string)
    ensures OnlyEnglish(languages, target) <==> (set l | l in languages) == {target}
  {
    if (set l | l in languages) == {target} {
      assert target in (set l | l in languages);
    }
  }

  predicate Fiction(subject: seq<string>)
  {
    exists piece :: piece in subject && Contains(Strip(Lower(piece)), "fiction")
  }

  predicate ShortStory(subject: seq<string>)
  {
    exists piece :: piece in subject && Contains(Strip(Lower(piece)), "short stor")
  }

  /** A Library of Congress class of American or English literature. */
  predicate LocFiction(subject: seq<string>)
  {
    exists piece :: piece in subject && piece in ["PS", "PR"]
  }

  predicate SubjectOk(subject: seq<string>)
  {
    LocFiction(subject) && (ShortStory(subject) || Fiction(subject))
  }

  /** The class must be an exact "PS" or "PR" entry; a longer entry such as "PS3500" does not count. */
  lemma SubjectOkMeaning(subject: seq<string>)
    ensures SubjectOk(subject) <==> ("PS" in subject || "PR" in subject) && (ShortStory(subject) || Fiction(subject))
  {
  }

  predicate AuthorOk(author: seq<string>)
  {
    |author| > 0
  }

  // ---------------------------------------------------------------- make_title

  lemma SplitHeadPrefix(s: string, sep: string)
    requires |sep| > 0
    ensures Split(s, sep)[0] <= s
  {
  }

  /**
   * `make_title(title)`: a trailing year between 1800 and 1960 on its own
   * line is dropped; otherwise anything after the first CRLF is dropped.
   */
  function MakeTitle(title: string): (r: string)
    ensures r <= title
  {
    var byLine := Split(title, "\n");
    var year := if |byLine| == 2 then ParseInt(byLine[1]) else None;
    if year.Some? && 1800 < year.value < 1960 then
      SplitHeadPrefix(title, "\n");
      byLine[0]
    else
      var byCrlf := Split(title, "\r\n");
      if |byCrlf| != 1 then
        SplitHeadPrefix(title, "\r\n");
        byCrlf[0]
      else title
  }

  lemma SplitTwo(a: string, c: char, b: string)
    requires Absent(a, c) && Absent(b, c)
    ensures Split(a + [c] + b, [c]) == [a, b]
  {
    SplitFirst(a, c, b);
    SplitAbsent(b, c);
  }

  /** A title with a year strictly between 1800 and 1960 on a second line loses the year. */
  lemma MakeTitleDropsYear(a: string, y: nat)
    requires Absent(a, '\n') && 1800 < y < 1960
    ensures MakeTitle(a + "\n" + NatToString(y)) == a
  {
    var d := NatToString(y);
    assert Absent(d, '\n');
    SplitTwo(a, '\n', d);
    assert a + "\n" + d == a + ['\n'] + d;
    ParseIntNatToString(y);
  }

  /** A text without '\r', or without '\n', has no CRLF to split on. */
  lemma NoCrlf(s: string)
    requires Absent(s, '\r') || Absent(s, '\n')
    ensures Split(s, "\r\n") == [s]
  {
    forall j | 0 <= j ensures !MatchAt(s, "\r\n", j) {
      if j + 2 <= |s| {
        assert s[j..j + 2][0] == s[j] && s[j..j + 2][1] == s[j + 1];
      }
    }
  }

  /** A year outside the open range is kept, so a title ending in 1960 is left as it is. */
  lemma MakeTitleKeepsOtherYears(a: string, y: nat)
    requires Absent(a, '\n') && Absent(a, '\r') && !(1800 < y < 1960)
    ensures MakeTitle(a + "\n" + NatToString(y)) == a + "\n" + NatToString(y)
  {
    var d := NatToString(y);
    var t := a + "\n" + d;
    assert Absent(d, '\n') && Absent(d, '\r');
    SplitTwo(a, '\n', d);
    assert t == a + ['\n'] + d;
    ParseIntNatToString(y);
    ConcatAbsent(a, "\n", '\r');
    ConcatAbsent(a + "\n", d, '\r');
    NoCrlf(t);
  }

  /** A title without a line break is returned unchanged. */
  lemma MakeTitleNoBreak(t: string)
    requires Absent(t, '\n')
    ensures MakeTitle(t) == t
  {
    SplitAbsent(t, '\n');
    NoCrlf(t);
  }

  // ---------------------------------------------------------------- chaptered

  const ContentsLines := ["contents", "contents."]
  const FirstMarkers := ["i", "i.", "chapter i", "chapter 1", "chapter i.", "chap. i.", "part i"]
  const SecondMarkers := ["ii", "ii.", "chapter ii", "chapter 2", "chapter ii.", "chap. ii.", "part ii"]

  /** `line.strip().lower()`. */
  function NormLine(line: string): string
  {
    Lower(Strip(line))
  }

  /** What `chaptered` sees in a line. */
  datatype LineKind = ContentsLine | FirstMarker | SecondMarker | OtherLine

  function Kind(line: string): LineKind
  {
    var s := NormLine(line);
    if s in ContentsLines then ContentsLine
    else if s in FirstMarkers then FirstMarker
    else if s in SecondMarkers then SecondMarker
    else OtherLine
  }

  /**
   * No normalised line is in both marker lists, so classifying a line as
   * one kind loses none of the source's two separate increments.
   */
  lemma MarkerListsDisjoint(s: string)
    ensures !(s in FirstMarkers && s in SecondMarkers)
  {
  }

  function LineKinds(lines: seq<string>): (r: seq<LineKind>)
    ensures |r| == |lines| && forall i :: 0 <= i < |lines| ==> r[i] == Kind(lines[i])
  {
    seq(|lines|, i requires 0 <= i < |lines| => Kind(lines[i]))
  }

  /** The number of first- and second-chapter marker lines. */
  function Markers(kinds: seq<LineKind>): nat
  {
    if |kinds| == 0 then 0
    else Markers(kinds[..|kinds| - 1]) + (if kinds[|kinds| - 1] in {FirstMarker, SecondMarker} then 1 else 0)
  }

  /** Each line counts at most once. */
  lemma {:induction false} MarkersAtMostLines(kinds: seq<LineKind>)
    ensures Markers(kinds) <= |kinds|
  {
    if |kinds| > 0 {
      MarkersAtMostLines(kinds[..|kinds| - 1]);
    }
  }

  /** The loop of `chaptered` over the classified lines: a contents line ends it at once. */
  method ScanLines(kinds: seq<LineKind>) returns (r: bool)
    ensures r <==> ContentsLine in kinds || Markers(kinds) >= 2
  {
    var result := 0;
    for i := 0 to |kinds|
      invariant result == Markers(kinds[..i])
      invariant ContentsLine !in kinds[..i]
    {
      var kind := kinds[i];
      if kind == ContentsLine {
        return true;
      }
      if kind == FirstMarker {
        result := result + 1;
      }
      if kind == SecondMarker {
        result := result + 1;
      }
      assert kinds[..i + 1] == kinds[..i] + [kind];
    }
    assert kinds[..|kinds|] == kinds;
    return result >= 2;
  }

  /**
   * `chaptered(text)`: a contents line, or at least two marker lines (a
   * lone "I" may be an accident).
   */
  method Chaptered(text: string) returns (r: bool)
    ensures var kinds := LineKinds(Split(text, "\n"));
      r <==> ContentsLine in kinds || Markers(kinds) >= 2
  {
    var kinds := LineKinds(Split(text, "\n"));
    r := ScanLines(kinds);
  }

  // ---------------------------------------------------------------- intrusive_paragraph

  /** A line indented by exactly four spaces and not opening a quotation. */
  predicate IndentedLine(line: string)
  {
    |line| >= 5 && line[..4] == "    " && line[4] != ' ' && line[4] != '\U{201C}'
  }

  /**
   * What `intrusive_paragraph(p)` returns: IndexError if some line is
   * exactly four spaces (it reads `line[4]`), otherwise whether `p` is
   * non-empty and every non-empty line is an indented one.
   */
  function Intrusive(p: string): Result<bool>
  {
    var lines := Split(p, "\n");
    if exists i :: 0 <= i < |lines| && lines[i] == "    " then Err(Exception(IndexError, "string index out of range"))
    else Ok(|p| > 0 && forall i :: 0 <= i < |lines| && |lines[i]| > 0 ==> IndentedLine(lines[i]))
  }

  method IntrusiveParagraph(p: string) returns (r: Result<bool>)
    ensures r == Intrusive(p)
  {
    var result := true;
    if |p| == 0 {
      result := false;
    }
    var lines := Split(p, "\n");
    for i := 0 to |lines|
      invariant forall j :: 0 <= j < i ==> lines[j] != "    "
      invariant result == (|p| > 0 && forall j :: 0 <= j < i && |lines[j]| > 0 ==> IndentedLine(lines[j]))
    {
      var line := lines[i];
      if |line| == 0 {
        continue;
      }
      var indented := PyPrefix(line, 4) == "    ";
      if indented && |line| <= 4 {
        return Err(Exception(IndexError, "string index out of range"));
      }
      if indented && line[4] == '\U{201C}' {
        result := false;
      }
      if indented && line[4] != ' ' {
        continue;
      }
      result := false;
    }
    return Ok(result);
  }

  /** The empty paragraph is not intrusive, and a line of exactly four spaces raises. */
  lemma IntrusiveEdges()
    ensures Intrusive("") == Ok(false)
    ensures Intrusive("    ").Err? && Intrusive("    ").error.kind == IndexError
  {
    SplitAbsent("", '\n');
    SplitAbsent("    ", '\n');
    assert Split("    ", "\n")[0] == "    ";
  }

  // ---------------------------------------------------------------- line rules

  predicate LineContainsTranscriberInfo(line: string)
  {
    var s := Lower(Strip(line));
    StartsWith(s, "transcriber") || StartsWith(s, "[transcriber") || StartsWith(s, "_transcriber")
  }

  predicate LineContainsIllustration(line: string)
  {
    var s := Lower(Strip(line));
    StartsWith(s, "illustrat") || StartsWith(s, "[illustrat") || StartsWith(s, "_illustrat")
  }

  /** `is_blank_line(line)`: empty, indented, or a newline followed by a space. */
  predicate IsBlankLine(line: string)
  {
    |line| == 0 || line[0] == ' ' || PyPrefix(line, 2) == "\n "
  }

  /** A line opening with "by". */
  predicate ByLine(s: string)
  {
    s == "by" || StartsWith(s, "by ") || StartsWith(s, "_by ") || StartsWith(s, "_by_")
  }

  /**
   * One pen name (`"Last, First"`) against the line: both names and fewer
   * than `limit` words, or a "by" line that is short or has both names.
   */
  predicate PenNameOnLine(line: string, author: string, limit: int)
  {
    var parts := Split(author, ",");
    var last := Lower(Strip(parts[0]));
    var first := if |parts| < 2 then "" else Lower(Strip(parts[1]));
    var stripped := Lower(Strip(line));
    var short := |SplitWs(line)| < limit;
    var both := Contains(stripped, first) && Contains(stripped, last);
    (both && short) || (ByLine(stripped) && (short || both))
  }

  /** `pen_names(name)`: the name, then its pen names from the given table. */
  function PenNames(name: string, penNames: map<string, seq<string>>): (r: seq<string>)
    ensures |r| >= 1 && r[0] == name
  {
    [name] + (if name in penNames then penNames[name] else [])
  }

  /** `line_contains_author(line, authors, alias, limit)`; the pen-name table is a parameter. */
  predicate LineContainsAuthor(line: string, authors: seq<string>, penNames: map<string, seq<string>>, limit: int)
    decreases |authors|
  {
    if |authors| == 1 then exists a :: a in PenNames(authors[0], penNames) && PenNameOnLine(line, a, limit)
    else if |authors| == 2 then
      LineContainsAuthor(line, [authors[0]], penNames, limit * 2) && LineContainsAuthor(line, [authors[1]], penNames, limit * 2)
    else false
  }

  /** More than two authors (or none) never match; two authors must both match, with twice the word limit. */
  lemma LineContainsAuthorArity(line: string, authors: seq<string>, penNames: map<string, seq<string>>, limit: int)
    ensures |authors| != 1 && |authors| != 2 ==> !LineContainsAuthor(line, authors, penNames, limit)
    ensures |authors| == 2 ==> (LineContainsAuthor(line, authors, penNames, limit) <==>
      (exists a :: a in PenNames(authors[0], penNames) && PenNameOnLine(line, a, limit * 2))
      && (exists b :: b in PenNames(authors[1], penNames) && PenNameOnLine(line, b, limit * 2)))
  {
  }

  // ---------------------------------------------------------------- names_match

  /** The tokens of `name2` after lowercasing and turning commas into spaces. */
  function NameTokens(name2: string): seq<string>
  {
    SplitWs(Replace(Replace(Lower(Strip(name2)), ", ", " "), ",", " "))
  }

  /** How many of the hits are true. */
  function Count(hits: seq<bool>): (m: nat)
    ensures m <= |hits|
  {
    if |hits| == 0 then 0
    else Count(hits[..|hits| - 1]) + (if hits[|hits| - 1] then 1 else 0)
  }

  /** For each token, whether it occurs in `name1`. */
  function Hits(name1: string, tokens: seq<string>): (r: seq<bool>)
    ensures |r| == |tokens| && forall i :: 0 <= i < |tokens| ==> (r[i] <==> Contains(name1, tokens[i]))
  {
    seq(|tokens|, i requires 0 <= i < |tokens| => Contains(name1, tokens[i]))
  }

  /** The counting loop of `names_match`. */
  method CountHits(hits: seq<bool>) returns (matches: nat)
    ensures matches == Count(hits)
  {
    matches := 0;
    for i := 0 to |hits|
      invariant matches == Count(hits[..i])
    {
      if hits[i] {
        matches := matches + 1;
      }
      assert hits[..i + 1][..i] == hits[..i];
    }
    assert hits[..|hits|] == hits;
  }

  /**
   * `names_match(name1, name2)`: every token of `name2` occurs in `name1`,
   * or `name2` has more than two tokens and at least two occur.
   */
  method NamesMatch(name1: string, name2: string) returns (r: bool)
    ensures var tokens := NameTokens(name2);
      var m := Count(Hits(Lower(Strip(name1)), tokens));
      r <==> m == |tokens| || (|tokens| > 2 && m >= 2)
  {
    var n1 := Lower(Strip(name1));
    var tokens := NameTokens(name2);
    var matches := CountHits(Hits(n1, tokens));
    if matches == |tokens| {
      r := true;
    } else if matches == 0 {
      r := false;
    } else if matches > |tokens| {
      r := false;
    } else if |tokens| > 2 && matches >= 2 {
      r := true;
    } else {
      r := false;
    }
  }

  /** A blank `name2` has no tokens, so it matches every `name1`. */
  lemma NamesMatchBlank(name1: string, name2: string)
    requires IsBlank(name2)
    ensures NameTokens(name2) == [] && Count(Hits(Lower(Strip(name1)), NameTokens(name2))) == |NameTokens(name2)|
  {
    StripEmptyIffBlank(name2);
  }

  // ---------------------------------------------------------------- fix_body

  /**
   * A paragraph `fix_body` drops while it is still in the header: a
   * transcriber or illustration note, an etext credit, an author line, or
   * an intrusive paragraph (whose IndexError propagates).
   */
  function IsHeader(p: string, authorLine: string -> bool): Result<bool>
  {
    if LineContainsTranscriberInfo(p) || LineContainsIllustration(p) || Contains(p, "This etext was produced")
       || authorLine(p) then Ok(true)
    else Intrusive(p)
  }

  /** The first `k` paragraphs are header paragraphs. */
  predicate LeadingHeaders(paras: seq<string>, k: nat, authorLine: string -> bool)
    requires k <= |paras|
  {
    forall i :: 0 <= i < k ==> IsHeader(paras[i], authorLine) == Ok(true)
  }

  /** The header verdict of each paragraph. */
  function Verdicts(paras: seq<string>, authorLine: string -> bool): (r: seq<Result<bool>>)
    ensures |r| == |paras|
  {
    if |paras| == 0 then []
    else Verdicts(paras[..|paras| - 1], authorLine) + [IsHeader(paras[|paras| - 1], authorLine)]
  }

  lemma {:induction false} VerdictAt(paras: seq<string>, authorLine: string -> bool, i: nat)
    requires i < |paras|
    ensures Verdicts(paras, authorLine)[i] == IsHeader(paras[i], authorLine)
    decreases |paras|
  {
    if i < |paras| - 1 {
      var init := paras[..|paras| - 1];
      VerdictAt(init, authorLine, i);
      assert init[i] == paras[i];
    }
  }

  /** The first `k` verdicts say "header". */
  predicate LeadingTrue(verdicts: seq<Result<bool>>, k: nat)
    requires k <= |verdicts|
  {
    forall i :: 0 <= i < k ==> verdicts[i] == Ok(true)
  }

  /** The verdicts of the first `k` paragraphs say "header" exactly when those paragraphs are header paragraphs. */
  lemma LeadingTrueHeaders(paras: seq<string>, authorLine: string -> bool, k: nat)
    requires k <= |paras|
    ensures LeadingTrue(Verdicts(paras, authorLine), k) <==> LeadingHeaders(paras, k, authorLine)
  {
    var verdicts := Verdicts(paras, authorLine);
    forall i | 0 <= i < k ensures verdicts[i] == IsHeader(paras[i], authorLine) {
      VerdictAt(paras, authorLine, i);
    }
  }

  /**
   * The loop of `fix_body` over the paragraphs and their verdicts: while
   * still in the header a paragraph found to be one is skipped; the first
   * one that is not ends the header, and it and every later paragraph are
   * kept, whatever their verdicts.  `k` is the number of paragraphs
   * dropped, or on an error the paragraph that raised it.
   */
  method DropHeaders(paras: seq<string>, verdicts: seq<Result<bool>>) returns (r: Result<seq<string>>, k: nat)
    requires |verdicts| == |paras|
    ensures k <= |paras| && LeadingTrue(verdicts, k)
    ensures r.Ok? ==> (k < |paras| ==> verdicts[k] == Ok(false)) && r.value == paras[k..]
    ensures r.Err? ==> k < |paras| && verdicts[k] == Err(r.error)
    ensures 0 < |paras| && verdicts[0] == Ok(false) ==> r == Ok(paras)
  {
    var fixed: seq<string> := [];
    var firstTime := true;
    k := 0;
    for i := 0 to |paras|
      invariant 0 <= k <= i
      invariant LeadingTrue(verdicts, k)
      invariant firstTime ==> k == i && fixed == []
      invariant !firstTime ==> k < i && verdicts[k] == Ok(false) && fixed == paras[k..i]
      invariant 0 < i && verdicts[0] == Ok(false) ==> k == 0 && !firstTime
    {
      var p := paras[i];
      if firstTime {
        var verdict := verdicts[i];
        if verdict.Err? {
          return Err(verdict.error), i;
        }
        if verdict.value {
          k := i + 1;
          continue;
        }
        firstTime := false;
      }
      assert paras[k..i + 1] == paras[k..i] + [p];
      fixed := fixed + [p];
    }
    assert paras[0..|paras|] == paras;
    r := Ok(fixed);
  }

  /**
   * `fix_body(text, author, alias)`, with `line_contains_author(., author,
   * alias)` given as `authorLine`: the leading run of header paragraphs
   * (those whose `Verdicts` entry is `Ok(true)`, see `LeadingTrueHeaders`)
   * is dropped and the rest is joined back unchanged, so a text whose first
   * paragraph is no header comes back as it was.
   */
  method FixBody(text: string, authorLine: string -> bool) returns (r: Result<string>)
    ensures var paras := Split(text, "\n\n"); var verdicts := Verdicts(paras, authorLine);
      r.Ok? ==> exists k :: (0 <= k <= |paras| && LeadingTrue(verdicts, k)
        && (k < |paras| ==> verdicts[k] == Ok(false)) && r.value == Join(paras[k..], "\n\n"))
    ensures var paras := Split(text, "\n\n"); var verdicts := Verdicts(paras, authorLine);
      r.Err? ==> exists k :: (0 <= k < |paras| && LeadingTrue(verdicts, k) && verdicts[k] == Err(r.error))
    ensures Verdicts(Split(text, "\n\n"), authorLine)[0] == Ok(false) ==> r == Ok(text)
  {
    var paras := Split(text, "\n\n");
    var verdicts := Verdicts(paras, authorLine);
    var kept, k := DropHeaders(paras, verdicts);
    if kept.Err? {
      r := Err(kept.error);
      assert LeadingTrue(Verdicts(Split(text, "\n\n"), authorLine), k);
      assert Verdicts(Split(text, "\n\n"), authorLine)[k] == Err(r.error);
      assert k < |Split(text, "\n\n")|;
    } else {
      SplitJoin(text, "\n\n");
      r := Ok(Join(kept.value, "\n\n"));
    }
  }
}
