/**
 * `lcats/analysis/story_analysis.py`: keyword extraction and ranking, word
 * and paragraph counts, author and title normalisation, and the extraction
 * of title, authors and body from a story record.
 */
module StoryAnalysis {
  import opened Wrappers
  import opened PyStr
  import Json
  import Sorting
  import TextSegmenter

  // ---------------------------------------------------------------- maximal runs

  /** The length of the run of `p`-characters at the start of `s`. */
  function RunLen(s: string, p: char -> bool): (k: nat)
    ensures k <= |s| && (k < |s| ==> !p(s[k]))
    ensures forall i :: 0 <= i < k ==> p(s[i])
  {
    if |s| == 0 || !p(s[0]) then 0 else 1 + RunLen(s[1..], p)
  }

  /**
   * The maximal runs of characters satisfying `p`, in order: what
   * `re.findall(<class>+, s)` returns, and the non-empty pieces of
   * `re.split(<complement>+, s)`.
   */
  function Runs(s: string, p: char -> bool): seq<string>
    decreases |s|
  {
    if |s| == 0 then []
    else if !p(s[0]) then Runs(s[1..], p)
    else
      var k := RunLen(s, p);
      [s[..k]] + Runs(s[k..], p)
  }

  /** Every run is non-empty, made of `p`-characters, and keeps any class all of `s` is in. */
  lemma {:induction false} RunsChars(s: string, p: char -> bool, q: char -> bool)
    ensures forall k :: 0 <= k < |Runs(s, p)| ==> |Runs(s, p)[k]| > 0 && AllChars(Runs(s, p)[k], p)
    ensures AllChars(s, q) ==> forall k :: 0 <= k < |Runs(s, p)| ==> AllChars(Runs(s, p)[k], q)
    decreases |s|
  {
    if |s| > 0 {
      if !p(s[0]) {
        RunsChars(s[1..], p, q);
      } else {
        var k := RunLen(s, p);
        RunsChars(s[k..], p, q);
        assert Runs(s, p) == [s[..k]] + Runs(s[k..], p);
      }
    }
  }

  /** The concatenation of the runs is exactly the `p`-characters of `s`, in order. */
  function Concat(ws: seq<string>): string
  {
    if |ws| == 0 then "" else ws[0] + Concat(ws[1..])
  }

  lemma {:induction false} RunsConcat(s: string, p: char -> bool)
    ensures Concat(Runs(s, p)) == Filter(s, p)
    decreases |s|
  {
    if |s| > 0 {
      if !p(s[0]) {
        RunsConcat(s[1..], p);
      } else {
        var k := RunLen(s, p);
        RunsConcat(s[k..], p);
        assert Runs(s, p) == [s[..k]] + Runs(s[k..], p);
        FilterAllKept(s[..k], p);
        assert s == s[..k] + s[k..];
        FilterConcat(s[..k], s[k..], p);
      }
    }
  }

  /**
   * The number of positions where a run starts: a `p`-character at the start
   * or after a character outside `p` (`inRun` says whether the character
   * before `s` was a `p`-character).
   */
  function RunStarts(s: string, p: char -> bool, inRun: bool): nat
  {
    if |s| == 0 then 0
    else (if p(s[0]) && !inRun then 1 else 0) + RunStarts(s[1..], p, p(s[0]))
  }

  lemma {:induction false} RunStartsSkip(s: string, p: char -> bool)
    ensures RunStarts(s, p, true) == RunStarts(s[RunLen(s, p)..], p, false)
    decreases |s|
  {
    if |s| > 0 && p(s[0]) {
      RunStartsSkip(s[1..], p);
      assert s[1..][RunLen(s[1..], p)..] == s[RunLen(s, p)..];
    }
  }

  /** There are as many runs as run starts. */
  lemma {:induction false} RunsCount(s: string, p: char -> bool)
    ensures |Runs(s, p)| == RunStarts(s, p, false)
    decreases |s|
  {
    if |s| > 0 {
      if !p(s[0]) {
        RunsCount(s[1..], p);
      } else {
        var k := RunLen(s, p);
        RunsCount(s[k..], p);
        RunStartsSkip(s[1..], p);
        assert s[1..][RunLen(s[1..], p)..] == s[k..];
      }
    }
  }

  lemma {:induction false} RunLenAppend(x: string, z: string, p: char -> bool)
    requires RunLen(x, p) < |x| || z == [] || !p(z[0])
    ensures RunLen(x + z, p) == RunLen(x, p)
    decreases |x|
  {
    if |x| > 0 && p(x[0]) {
      assert (x + z)[1..] == x[1..] + z;
      RunLenAppend(x[1..], z, p);
    } else if |x| == 0 {
      assert x + z == z;
    }
  }

  /** A character outside the class separates the runs on either side of it. */
  lemma {:induction false} RunsSeparated(x: string, c: char, y: string, p: char -> bool)
    requires !p(c)
    ensures Runs(x + [c] + y, p) == Runs(x, p) + Runs(y, p)
    decreases |x|
  {
    var s := x + [c] + y;
    if |x| == 0 {
      assert s[1..] == y;
    } else if !p(x[0]) {
      assert s[1..] == x[1..] + [c] + y;
      RunsSeparated(x[1..], c, y, p);
    } else {
      var k := RunLen(x, p);
      RunLenAppend(x, [c] + y, p);
      assert s == x + ([c] + y);
      assert s[..k] == x[..k];
      assert s[k..] == x[k..] + [c] + y;
      RunsSeparated(x[k..], c, y, p);
    }
  }

  /** A text made only of `p`-characters is one run. */
  lemma RunsSolid(w: string, p: char -> bool)
    requires |w| > 0 && AllChars(w, p)
    ensures Runs(w, p) == [w]
  {
    assert RunLen(w, p) == |w|;
    assert w[..|w|] == w;
  }

  // ---------------------------------------------------------------- get_keywords

  /** The stop words `get_keywords` leaves out. */
  const Stopwords: set<string> := {
    "a", "an", "and", "are", "as", "at", "be", "but", "by", "for", "from",
    "had", "has", "have", "he", "her", "hers", "him", "his", "i", "if", "in",
    "into", "is", "it", "its", "me", "my", "of", "on", "or", "our", "ours",
    "she", "so", "that", "the", "their", "theirs", "them", "they", "this",
    "those", "to", "too", "us", "was", "we", "were", "what", "when", "where",
    "which", "who", "whom", "why", "will", "with", "you", "your", "yours"
  }

  /** The pieces that survive the comprehension of `get_keywords`: at least three letters and not a stop word. */
  function KeepTerms(ws: seq<string>, stop: set<string>): seq<string>
  {
    if |ws| == 0 then []
    else (if |ws[0]| >= 3 && ws[0] !in stop then [ws[0]] else []) + KeepTerms(ws[1..], stop)
  }

  /**
   * `get_keywords(text)` against the stop-word set `stop` (the source always
   * uses `Stopwords`): the letter runs of the lowercased text that are long
   * enough and not stop words.
   */
  function Keywords(text: string, stop: set<string>): seq<string>
  {
    KeepTerms(Runs(Lower(text), IsAsciiLetter), stop)
  }

  /** `get_keywords` with the source's word list. */
  function GetKeywords(text: string): seq<string>
  {
    Keywords(text, Stopwords)
  }

  predicate IsTerm(t: string, stop: set<string>)
  {
    |t| >= 3 && t !in stop && AllChars(t, IsAsciiLower)
  }

  lemma {:induction false} KeepTermsShape(ws: seq<string>, stop: set<string>)
    requires forall k :: 0 <= k < |ws| ==> AllChars(ws[k], IsAsciiLower)
    ensures forall k :: 0 <= k < |KeepTerms(ws, stop)| ==> IsTerm(KeepTerms(ws, stop)[k], stop)
    ensures |KeepTerms(ws, stop)| <= |ws|
    decreases |ws|
  {
    if |ws| > 0 {
      KeepTermsShape(ws[1..], stop);
    }
  }

  lemma {:induction false} KeepTermsAppend(a: seq<string>, b: seq<string>, stop: set<string>)
    ensures KeepTerms(a + b, stop) == KeepTerms(a, stop) + KeepTerms(b, stop)
    decreases |a|
  {
    if |a| == 0 {
      assert a + b == b;
    } else {
      assert (a + b)[1..] == a[1..] + b;
      KeepTermsAppend(a[1..], b, stop);
    }
  }

  /** Every keyword is at least three lowercase ASCII letters and not a stop word. */
  lemma KeywordsShape(text: string, stop: set<string>)
    ensures forall k :: 0 <= k < |Keywords(text, stop)| ==> IsTerm(Keywords(text, stop)[k], stop)
  {
    var l := Lower(text);
    var ws := Runs(l, IsAsciiLetter);
    RunsChars(l, IsAsciiLetter, NotUpper);
    forall k | 0 <= k < |ws| ensures AllChars(ws[k], IsAsciiLower) {
      assert AllChars(ws[k], IsAsciiLetter) && AllChars(ws[k], NotUpper);
    }
    KeepTermsShape(ws, stop);
  }

  predicate NotUpper(c: char) { !IsAsciiUpper(c) }

  /**
   * Keywords keep the order of the text: a non-letter between two texts
   * separates their keywords, which come out one text after the other.
   */
  lemma KeywordsInOrder(a: string, c: char, b: string, stop: set<string>)
    requires !IsAsciiLetter(c)
    ensures Keywords(a + [c] + b, stop) == Keywords(a, stop) + Keywords(b, stop)
  {
    LowerConcat(a + [c], b);
    LowerConcat(a, [c]);
    assert Lower([c]) == [c];
    RunsSeparated(Lower(a), c, Lower(b), IsAsciiLetter);
    KeepTermsAppend(Runs(Lower(a), IsAsciiLetter), Runs(Lower(b), IsAsciiLetter), stop);
  }

  /** A word of three or more letters that is not a stop word is its own keyword, lowercased. */
  lemma KeywordsWord(w: string, stop: set<string>)
    requires |w| >= 3 && AllChars(w, IsAsciiLetter) && Lower(w) !in stop
    ensures Keywords(w, stop) == [Lower(w)]
  {
    var l := Lower(w);
    assert AllChars(l, IsAsciiLetter);
    RunsSolid(l, IsAsciiLetter);
    assert KeepTerms([l], stop) == [l] + KeepTerms([l][1..], stop);
    assert [l][1..] == [];
  }

  /** A text without a run of three letters has no keywords. */
  lemma {:induction false} KeepTermsShort(ws: seq<string>, stop: set<string>)
    requires forall k :: 0 <= k < |ws| ==> |ws[k]| < 3
    ensures KeepTerms(ws, stop) == []
    decreases |ws|
  {
    if |ws| > 0 {
      KeepTermsShort(ws[1..], stop);
    }
  }

  // ---------------------------------------------------------------- top_keywords

  /** One entry `{"term": term, "count": count}` of `top_keywords`. */
  datatype TermCount = TermCount(term: string, count: nat)

  /** The Counter's keys: the distinct tokens in the order they first appear. */
  function Distinct(s: seq<string>): (r: seq<string>)
    ensures forall x :: x in r <==> x in s
    ensures forall i, j :: 0 <= i < j < |r| ==> r[i] != r[j]
  {
    if |s| == 0 then []
    else
      var d := Distinct(s[..|s| - 1]);
      assert forall x :: x in s <==> x in s[..|s| - 1] || x == s[|s| - 1];
      if s[|s| - 1] in d then d else d + [s[|s| - 1]]
  }

  /** `counts.items()`: each distinct token with its number of occurrences. */
  function Tally(tokens: seq<string>): seq<TermCount>
  {
    var d := Distinct(tokens);
    seq(|d|, i requires 0 <= i < |d| => TermCount(d[i], multiset(tokens)[d[i]]))
  }

  /** The sort key `(-count, term)`: higher counts first, ties by ascending term. */
  predicate CountLe(a: TermCount, b: TermCount)
  {
    a.count > b.count || (a.count == b.count && Sorting.StrLe(a.term, b.term))
  }

  /** `top_keywords(tokens, k)`. */
  function TopKeywords(tokens: seq<string>, k: int): seq<TermCount>
  {
    if |tokens| == 0 then [] else PyPrefix(Sorting.SortBy(Tally(tokens), CountLe), k)
  }

  lemma CountLeTotalPreorder()
    ensures Sorting.TotalPreorder(CountLe)
  {
    forall a: TermCount, b: TermCount ensures CountLe(a, b) || CountLe(b, a) {
      Sorting.StrLeTotal(a.term, b.term);
    }
    forall a: TermCount, b: TermCount, c: TermCount | CountLe(a, b) && CountLe(b, c) ensures CountLe(a, c) {
      if a.count == b.count && b.count == c.count {
        Sorting.StrLeTrans(a.term, b.term, c.term);
      }
    }
  }

  /** Every entry of the tally is a token with its true count, and every token has an entry. */
  lemma TallyMeaning(tokens: seq<string>)
    ensures forall e :: e in Tally(tokens) ==> e.term in tokens && e.count == multiset(tokens)[e.term]
    ensures forall t :: t in tokens ==> TermCount(t, multiset(tokens)[t]) in Tally(tokens)
  {
    var d := Distinct(tokens);
    var items := Tally(tokens);
    forall t | t in tokens ensures TermCount(t, multiset(tokens)[t]) in items {
      var i :| 0 <= i < |d| && d[i] == t;
      assert items[i] == TermCount(t, multiset(tokens)[t]);
    }
  }

  /** A sequence without repeated elements has element counts of at most one. */
  lemma {:induction false} NoDupCount<T>(s: seq<T>, x: T)
    requires forall i, j :: 0 <= i < j < |s| ==> s[i] != s[j]
    ensures multiset(s)[x] <= 1
    decreases |s|
  {
    if |s| > 0 {
      var t := s[..|s| - 1];
      assert s == t + [s[|s| - 1]];
      NoDupCount(t, x);
      if x == s[|s| - 1] {
        assert x !in t;
      }
    }
  }

  lemma TwoCopies<T>(s: seq<T>, i: nat, j: nat)
    requires i < j < |s| && s[i] == s[j]
    ensures multiset(s)[s[i]] >= 2
  {
    assert s == s[..j] + [s[j]] + s[j + 1..];
    assert s[i] in s[..j];
  }

  /** The ranked tally: the Counter's items sorted by the key, a permutation of the tally. */
  function Ranked(tokens: seq<string>): seq<TermCount>
  {
    Sorting.SortBy(Tally(tokens), CountLe)
  }

  lemma TopKeywordsPrefix(tokens: seq<string>, k: int)
    requires |tokens| > 0
    ensures TopKeywords(tokens, k) == Ranked(tokens)[..ClampIndex(k, |Ranked(tokens)|)]
  {
  }

  /** No tokens give no entries; otherwise there are `k` entries, or all of them when there are fewer distinct terms. */
  lemma TopKeywordsLength(tokens: seq<string>, k: int)
    ensures tokens == [] ==> TopKeywords(tokens, k) == []
    ensures k >= 0 ==> |TopKeywords(tokens, k)| == if k < |Distinct(tokens)| then k else |Distinct(tokens)|
  {
    if |tokens| > 0 {
      TopKeywordsPrefix(tokens, k);
    }
  }

  /** Every entry is a token with its number of occurrences. */
  lemma TopKeywordsCounts(tokens: seq<string>, k: int)
    ensures forall e :: e in TopKeywords(tokens, k) ==> e.term in tokens && e.count == multiset(tokens)[e.term]
  {
    if |tokens| > 0 {
      TopKeywordsPrefix(tokens, k);
      TallyMeaning(tokens);
      var s := Ranked(tokens);
      forall e | e in TopKeywords(tokens, k) ensures e.term in tokens && e.count == multiset(tokens)[e.term] {
        assert e in s;
        assert e in multiset(s);
      }
    }
  }

  /** The tally has no entry twice, and so neither has its ranking. */
  lemma RankedDistinct(tokens: seq<string>)
    ensures var s := Ranked(tokens); forall i, j :: 0 <= i < j < |s| ==> s[i] != s[j]
  {
    var items := Tally(tokens);
    var d := Distinct(tokens);
    var s := Ranked(tokens);
    forall i, j | 0 <= i < j < |s| ensures s[i] != s[j] {
      if s[i] == s[j] {
        TwoCopies(s, i, j);
        forall a, b | 0 <= a < b < |items| ensures items[a] != items[b] {
          assert items[a].term == d[a] && items[b].term == d[b];
        }
        NoDupCount(items, s[i]);
      }
    }
  }

  /** Entries are ordered by count, highest first, and equal counts by term; no term appears twice. */
  lemma TopKeywordsSorted(tokens: seq<string>, k: int)
    ensures var r := TopKeywords(tokens, k);
      forall i, j :: 0 <= i < j < |r| ==> CountLe(r[i], r[j]) && r[i].term != r[j].term
  {
    if |tokens| > 0 {
      TopKeywordsPrefix(tokens, k);
      CountLeTotalPreorder();
      Sorting.SortBySorted(Tally(tokens), CountLe);
      RankedDistinct(tokens);
      TallyMeaning(tokens);
      var s := Ranked(tokens);
      var r := TopKeywords(tokens, k);
      forall i, j | 0 <= i < j < |r| ensures CountLe(r[i], r[j]) && r[i].term != r[j].term {
        assert r[i] == s[i] && r[j] == s[j];
        assert s[i] in multiset(s) && s[j] in multiset(s);
      }
    }
  }

  /** A true top `k`: every term left out ranks after every term kept. */
  lemma TopKeywordsTop(tokens: seq<string>, k: int, t: string)
    requires t in tokens
    requires forall f :: f in TopKeywords(tokens, k) ==> f.term != t
    ensures forall e :: e in TopKeywords(tokens, k) ==> CountLe(e, TermCount(t, multiset(tokens)[t]))
  {
    TopKeywordsPrefix(tokens, k);
    CountLeTotalPreorder();
    Sorting.SortBySorted(Tally(tokens), CountLe);
    TallyMeaning(tokens);
    var s := Ranked(tokens);
    var r := TopKeywords(tokens, k);
    var m := ClampIndex(k, |s|);
    var x := TermCount(t, multiset(tokens)[t]);
    assert x in multiset(s);
    var j :| 0 <= j < |s| && s[j] == x;
    forall i | 0 <= i < m ensures s[i].term != t {
      assert r[i] == s[i] && r[i] in r;
    }
    assert j >= m;
    forall e | e in r ensures CountLe(e, x) {
      var i :| 0 <= i < |r| && r[i] == e;
      assert s[i] == e;
    }
  }

  // ---------------------------------------------------------------- word_count

  predicate NotSpace(c: char) { !IsSpace(c) }

  /** `word_count(text)`: the number of matches of `\S+`. */
  function WordCount(text: string): nat
  {
    |Runs(text, NotSpace)|
  }

  /** The word count is the number of places where a non-whitespace run begins. */
  lemma WordCountStarts(text: string)
    ensures WordCount(text) == RunStarts(text, NotSpace, false)
  {
    RunsCount(text, NotSpace);
  }

  /** Whitespace between two texts adds their word counts. */
  lemma WordCountAdds(a: string, c: char, b: string)
    requires IsSpace(c)
    ensures WordCount(a + [c] + b) == WordCount(a) + WordCount(b)
  {
    RunsSeparated(a, c, b, NotSpace);
  }

  // ---------------------------------------------------------------- extract_authors

  /**
   * `[str(a).strip() for a in items if str(a).strip()]`, where `str` prints a
   * value (`Json.ToStr`, passed in so that the proofs do not unfold printing).
   */
  function StrippedNames(items: seq<Json.Value>, str: Json.Value -> string): seq<string>
  {
    if |items| == 0 then []
    else
      var t := Strip(str(items[0]));
      (if |t| > 0 then [t] else []) + StrippedNames(items[1..], str)
  }

  /** `extract_authors(author_field)`. */
  function ExtractAuthors(field: Json.Value): seq<string>
  {
    match field
    case Arr(items) => StrippedNames(items, Json.ToStr)
    case Str(s) => if |Strip(s)| > 0 then [Strip(s)] else []
    case _ => []
  }

  /** A stripped text is its own strip. */
  lemma StripIdempotent(s: string)
    ensures Strip(Strip(s)) == Strip(s)
  {
    if |Strip(s)| > 0 {
      StripBlankFree(Strip(s));
    }
  }

  /** A non-empty stripped text. */
  predicate CleanName(t: string)
  {
    |t| > 0 && Strip(t) == t
  }

  /** Every name is non-empty and stripped. */
  predicate AllClean(names: seq<string>)
  {
    forall k :: 0 <= k < |names| ==> CleanName(names[k])
  }

  /** Every entry is a string that is already non-empty and stripped. */
  predicate CleanStrs(items: seq<Json.Value>)
  {
    forall k :: 0 <= k < |items| ==> items[k].Str? && CleanName(items[k].s)
  }

  lemma {:induction false} StrippedNamesClean(items: seq<Json.Value>, str: Json.Value -> string)
    ensures |StrippedNames(items, str)| <= |items|
    ensures AllClean(StrippedNames(items, str))
    decreases |items|
  {
    if |items| > 0 {
      StrippedNamesClean(items[1..], str);
      StripIdempotent(str(items[0]));
    }
  }

  lemma {:induction false} StrippedNamesKeep(items: seq<Json.Value>, str: Json.Value -> string)
    requires CleanStrs(items) && Json.PrintsStrings(str)
    ensures var r := StrippedNames(items, str); |r| == |items| && forall k :: 0 <= k < |items| ==> r[k] == items[k].s
    decreases |items|
  {
    if |items| > 0 {
      assert CleanStrs(items[1..]);
      StrippedNamesKeep(items[1..], str);
      var rest := StrippedNames(items[1..], str);
      assert str(items[0]) == items[0].s;
      assert StrippedNames(items, str) == [items[0].s] + rest;
    }
  }

  /** A list gives its stripped non-blank entries, in order: a list of clean strings is returned as it is. */
  lemma ExtractAuthorsList(items: seq<Json.Value>)
    ensures var r := ExtractAuthors(Json.Arr(items));
      && |r| <= |items|
      && (forall k :: 0 <= k < |r| ==> CleanName(r[k]))
      && (CleanStrs(items) ==> |r| == |items| && forall k :: 0 <= k < |items| ==> r[k] == items[k].s)
  {
    StrippedNamesClean(items, Json.ToStr);
    if CleanStrs(items) {
      Json.ToStrPrintsStrings();
      StrippedNamesKeep(items, Json.ToStr);
    }
  }

  /** A non-blank string gives itself stripped, a blank one nothing. */
  lemma ExtractAuthorsString(s: string)
    ensures IsBlank(s) ==> ExtractAuthors(Json.Str(s)) == []
    ensures !IsBlank(s) ==> ExtractAuthors(Json.Str(s)) == [Strip(s)] && CleanName(Strip(s))
  {
    StripIdempotent(s);
    StripEmptyIffBlank(s);
  }

  /** Anything but a list or a string gives no authors. */
  lemma ExtractAuthorsOther(field: Json.Value)
    requires !field.Arr? && !field.Str?
    ensures ExtractAuthors(field) == []
  {
  }

  // ---------------------------------------------------------------- normalize_title

  /** `normalize_title(s)`: whitespace runs become one space, then strip, then lowercase. */
  function NormalizeTitle(s: string): string
  {
    Lower(Strip(CollapseWs(s)))
  }

  predicate PlainSpace(c: char) { !IsSpace(c) || c == ' ' }

  /** Spaces are plain, never doubled, and not at either end. */
  predicate SingleSpaced(t: string)
  {
    AllChars(t, PlainSpace) && NoDouble(t, ' ') && (t == [] || (t[0] != ' ' && t[|t| - 1] != ' '))
  }

  lemma CollapsedStripped(s: string)
    ensures SingleSpaced(Strip(CollapseWs(s)))
  {
    var c := CollapseWs(s);
    ReplaceRunsChars(s, IsSpace, " ", PlainSpace);
    ReplaceRunsNoDouble(s, IsSpace, ' ');
    StripByKeeps(c, IsSpace, PlainSpace, ' ');
  }

  lemma LowerSingleSpaced(u: string)
    requires SingleSpaced(u)
    ensures SingleSpaced(Lower(u)) && AllChars(Lower(u), NotUpper)
  {
    var t := Lower(u);
    LowerNoUpper(u);
    assert forall i :: 0 <= i < |u| ==> (t[i] == ' ' <==> u[i] == ' ') && (IsSpace(t[i]) <==> IsSpace(u[i]));
  }

  /** The normalised title has single spaces only, none at either end, and no uppercase letter. */
  lemma NormalizeTitleShape(s: string)
    ensures SingleSpaced(NormalizeTitle(s)) && AllChars(NormalizeTitle(s), NotUpper)
  {
    CollapsedStripped(s);
    LowerSingleSpaced(Strip(CollapseWs(s)));
  }

  /** Normalising a normalised title changes nothing. */
  lemma NormalizeTitleIdempotent(s: string)
    ensures NormalizeTitle(NormalizeTitle(s)) == NormalizeTitle(s)
  {
    var t := NormalizeTitle(s);
    NormalizeTitleShape(s);
    assert forall i :: 0 <= i < |t| && IsSpace(t[i]) ==> t[i] == ' ';
    ReplaceRunsIdentity(t, IsSpace, ' ');
    assert CollapseWs(t) == t;
    if |t| > 0 {
      StripBlankFree(t);
    }
    LowerIdempotent(Strip(CollapseWs(s)));
  }

  // ---------------------------------------------------------------- extract_title_authors_body

  /** The keys of a dictionary in ascending order: the model's iteration order for a dictionary. */
  function SortedKeys(keys: set<string>): (r: seq<string>)
    ensures forall x :: x in r <==> x in keys
    decreases |keys|
  {
    if keys == {} then []
    else
      MinKeyExists(keys);
      StrLeAntisymAll();
      var k :| k in keys && forall j :: j in keys ==> Sorting.StrLe(k, j);
      [k] + SortedKeys(keys - {k})
  }

  lemma StrLeAntisymAll()
    ensures forall a, b :: Sorting.StrLe(a, b) && Sorting.StrLe(b, a) ==> a == b
  {
    forall a, b | Sorting.StrLe(a, b) && Sorting.StrLe(b, a) ensures a == b {
      Sorting.StrLeAntisym(a, b);
    }
  }

  lemma {:induction false} MinKeyExists(keys: set<string>)
    requires keys != {}
    ensures exists k :: k in keys && forall j :: j in keys ==> Sorting.StrLe(k, j)
    decreases |keys|
  {
    var x :| x in keys;
    Sorting.StrLeTotal(x, x);
    var rest := keys - {x};
    if rest != {} {
      MinKeyExists(rest);
      var m :| m in rest && forall j :: j in rest ==> Sorting.StrLe(m, j);
      Sorting.StrLeTotal(x, m);
      if Sorting.StrLe(x, m) {
        forall j | j in keys ensures Sorting.StrLe(x, j) {
          if j != x {
            Sorting.StrLeTrans(x, m, j);
          }
        }
      } else {
        assert forall j :: j in keys ==> Sorting.StrLe(m, j);
      }
    }
  }

  /** `data.get("metadata", {}).get(key, default)`; a metadata value that is not a dictionary has no `get`. */
  function MetaGet(data: map<string, Json.Value>, key: string, default: Json.Value): Result<Json.Value>
  {
    var m := if "metadata" in data then data["metadata"] else Json.Obj(map[]);
    if m.Obj? then Ok(if key in m.fields then m.fields[key] else default)
    else Err(NoAttribute(m, "get"))
  }

  /** The `AttributeError` for a method `v` does not have. */
  function NoAttribute(v: Json.Value, attr: string): Exception
  {
    Exception(AttributeError, "'" + Json.TypeName(v) + "' object has no attribute '" + attr + "'")
  }

  /** `v.strip()`, which only strings have. */
  function StripValue(v: Json.Value): Result<string>
  {
    if v.Str? then Ok(Strip(v.s))
    else Err(NoAttribute(v, "strip"))
  }

  /** The placeholder title. */
  const Untitled: string := "<Untitled>"

  /** The title: `name`, else `metadata.name`, else empty, stripped; an empty title is `<Untitled>`. */
  function StoryTitle(data: map<string, Json.Value>): Result<string>
  {
    var name := Json.GetValue(data, "name");
    var v := if Json.Truthy(name) then Ok(name) else
      match MetaGet(data, "name", Json.Null)
      case Ok(m) => Ok(Json.Or(m, Json.Str("")))
      case Err(e) => Err(e);
    match v
    case Err(e) => Err(e)
    case Ok(x) =>
      match StripValue(x)
      case Err(e) => Err(e)
      case Ok(t) => Ok(if |t| == 0 then Untitled else t)
  }

  /** `[a.strip() for a in items if str(a).strip()]`: an entry that prints non-blank must be a string. */
  function StripEntries(items: seq<Json.Value>, str: Json.Value -> string): Result<seq<string>>
  {
    if |items| == 0 then Ok([])
    else
      var keep := |Strip(str(items[0]))| > 0;
      if keep && !items[0].Str? then Err(NoAttribute(items[0], "strip"))
      else
        match StripEntries(items[1..], str)
        case Err(e) => Err(e)
        case Ok(rest) => Ok((if keep then [Strip(items[0].s)] else []) + rest)
  }

  /** The entries iterating `authors or []` visits; a non-empty number or `True` is not iterable. */
  function AuthorItems(v: Json.Value): Result<seq<Json.Value>>
  {
    if !Json.Truthy(v) then Ok([])
    else match v
      case Str(_) => Ok([v])
      case Arr(items) => Ok(items)
      case Obj(fields) =>
        var ks := SortedKeys(fields.Keys);
        Ok(seq(|ks|, i requires 0 <= i < |ks| => Json.Str(ks[i])))
      case _ => Err(Exception(TypeError, "'" + Json.TypeName(v) + "' object is not iterable"))
  }

  /** The authors: `author`, else `metadata.author`, else `[]`; a string is one author; entries stripped, blanks dropped. */
  function StoryAuthors(data: map<string, Json.Value>): Result<seq<string>>
  {
    var a := Json.GetValue(data, "author");
    var v := if Json.Truthy(a) then Ok(a) else MetaGet(data, "author", Json.Arr([]));
    match v
    case Err(e) => Err(e)
    case Ok(x) =>
      match AuthorItems(x)
      case Err(e) => Err(e)
      case Ok(items) => StripEntries(items, Json.ToStr)
  }

  /**
   * `decode_possible_bytes_literal(s)`: a text that, stripped, starts with
   * `b'` or `b"` and is at least three characters long is handed to the
   * literal parser `parse` (Python's `ast.literal_eval` followed by a UTF-8
   * decode); when that yields a byte string its decoding is returned,
   * otherwise `s` itself.
   */
  function DecodeBytesLiteral(s: string, parse: string -> Option<string>): string
  {
    var t := Strip(s);
    if |t| >= 3 && t[0] == 'b' && (t[1] == '\'' || t[1] == '"') && parse(t).Some? then parse(t).value else s
  }

  /** The body: `str(body)` passed through the bytes-literal decoder. */
  function StoryBody(data: map<string, Json.Value>, parse: string -> Option<string>): string
  {
    var b := if "body" in data then data["body"] else Json.Str("");
    DecodeBytesLiteral(Json.ToStr(b), parse)
  }

  datatype TitleAuthorsBody = TitleAuthorsBody(title: string, authors: seq<string>, body: string)

  /** `extract_title_authors_body(data)`. */
  function ExtractTitleAuthorsBody(data: map<string, Json.Value>, parse: string -> Option<string>): Result<TitleAuthorsBody>
  {
    match StoryTitle(data)
    case Err(e) => Err(e)
    case Ok(title) =>
      match StoryAuthors(data)
      case Err(e) => Err(e)
      case Ok(authors) => Ok(TitleAuthorsBody(title, authors, StoryBody(data, parse)))
  }

  /** The decoder leaves alone any text that does not look like a bytes literal. */
  lemma DecodeBytesLiteralPlain(s: string, parse: string -> Option<string>)
    requires var t := Strip(s); |t| < 3 || t[0] != 'b' || (t[1] != '\'' && t[1] != '"')
    ensures DecodeBytesLiteral(s, parse) == s
  {
  }

  /** When the comprehension succeeds, so does it on the tail, and a printed-non-blank head is a string. */
  lemma StripEntriesStep(items: seq<Json.Value>, str: Json.Value -> string)
    requires |items| > 0 && StripEntries(items, str).Ok?
    ensures StripEntries(items[1..], str).Ok?
    ensures var keep := |Strip(str(items[0]))| > 0;
      && (keep ==> items[0].Str?)
      && StripEntries(items, str).value
         == (if keep then [Strip(items[0].s)] else []) + StripEntries(items[1..], str).value
  {
  }

  lemma {:induction false} StripEntriesClean(items: seq<Json.Value>, str: Json.Value -> string)
    requires Json.PrintsStrings(str)
    ensures StripEntries(items, str).Ok? ==> AllClean(StripEntries(items, str).value)
    decreases |items|
  {
    if |items| > 0 && StripEntries(items, str).Ok? {
      StripEntriesStep(items, str);
      StripEntriesClean(items[1..], str);
      if |Strip(str(items[0]))| > 0 {
        assert str(items[0]) == items[0].s;
        StripIdempotent(items[0].s);
      }
    }
  }

  lemma {:induction false} StripEntriesStrings(items: seq<Json.Value>, str: Json.Value -> string)
    requires (forall k :: 0 <= k < |items| ==> items[k].Str?) && Json.PrintsStrings(str)
    ensures StripEntries(items, str) == Ok(StrippedNames(items, str))
    decreases |items|
  {
    if |items| > 0 {
      assert str(items[0]) == items[0].s;
      StripEntriesStrings(items[1..], str);
    }
  }

  /** Whatever the title comes from, it is the placeholder or a non-empty stripped text. */
  lemma StoryTitleClean(data: map<string, Json.Value>)
    ensures StoryTitle(data).Ok? ==> StoryTitle(data).value == Untitled || CleanName(StoryTitle(data).value)
  {
    var name := Json.GetValue(data, "name");
    if StoryTitle(data).Ok? {
      var v := if Json.Truthy(name) then name else Json.Or(MetaGet(data, "name", Json.Null).value, Json.Str(""));
      assert StripValue(v) == Ok(Strip(v.s));
      StripIdempotent(v.s);
    }
  }

  /** A non-blank string `name` gives the title, stripped. */
  lemma StoryTitleFromName(data: map<string, Json.Value>)
    requires "name" in data && data["name"].Str? && !IsBlank(data["name"].s)
    ensures StoryTitle(data) == Ok(Strip(data["name"].s))
  {
    StripEmptyIffBlank(data["name"].s);
  }

  /** A `name` that is truthy but not a string has no `strip`. */
  lemma StoryTitleNotString(data: map<string, Json.Value>)
    requires "name" in data && Json.Truthy(data["name"]) && !data["name"].Str?
    ensures StoryTitle(data).Err? && StoryTitle(data).error.kind == AttributeError
  {
  }

  /** Without a `name`, a non-blank string `metadata.name` gives the title, stripped. */
  lemma StoryTitleFromMetadata(data: map<string, Json.Value>, m: map<string, Json.Value>)
    requires "name" !in data || data["name"] == Json.Str("")
    requires "metadata" in data && data["metadata"] == Json.Obj(m)
    requires "name" in m && m["name"].Str? && !IsBlank(m["name"].s)
    ensures StoryTitle(data) == Ok(Strip(m["name"].s))
  {
    var v := m["name"];
    assert !Json.Truthy(Json.GetValue(data, "name"));
    assert MetaGet(data, "name", Json.Null) == Ok(v);
    assert |Strip(v.s)| > 0 by { StripEmptyIffBlank(v.s); }
    assert Json.Or(v, Json.Str("")) == v;
  }

  /** With neither, the title is `<Untitled>`. */
  lemma StoryTitleUntitled(data: map<string, Json.Value>)
    requires "name" !in data || data["name"] == Json.Str("")
    requires "metadata" !in data
    ensures StoryTitle(data) == Ok(Untitled)
  {
  }

  /** Whatever the authors come from, they are non-empty stripped names. */
  lemma StoryAuthorsClean(data: map<string, Json.Value>)
    ensures StoryAuthors(data).Ok? ==> AllClean(StoryAuthors(data).value)
  {
    var a := Json.GetValue(data, "author");
    var v := if Json.Truthy(a) then Ok(a) else MetaGet(data, "author", Json.Arr([]));
    if v.Ok? && AuthorItems(v.value).Ok? {
      Json.ToStrPrintsStrings();
      StripEntriesClean(AuthorItems(v.value).value, Json.ToStr);
    }
  }

  /** A non-empty list of strings under `author` gives what `extract_authors` gives for it. */
  lemma StoryAuthorsList(data: map<string, Json.Value>, items: seq<Json.Value>)
    requires "author" in data && data["author"] == Json.Arr(items) && |items| > 0
    requires forall k :: 0 <= k < |items| ==> items[k].Str?
    ensures StoryAuthors(data) == Ok(ExtractAuthors(Json.Arr(items)))
  {
    Json.ToStrPrintsStrings();
    StripEntriesStrings(items, Json.ToStr);
  }

  /** A non-empty string under `author` is the one author, stripped, unless it is blank. */
  lemma StoryAuthorsString(data: map<string, Json.Value>, a: string)
    requires "author" in data && data["author"] == Json.Str(a) && |a| > 0
    ensures StoryAuthors(data) == Ok(ExtractAuthors(Json.Str(a)))
  {
    var items := [Json.Str(a)];
    assert AuthorItems(Json.Str(a)) == Ok(items);
    Json.ToStrPrintsStrings();
    StripEntriesStrings(items, Json.ToStr);
    assert items[1..] == [];
    assert StrippedNames(items, Json.ToStr) == (if |Strip(a)| > 0 then [Strip(a)] else []);
  }

  /** A record without `author` and without `metadata` has no authors. */
  lemma StoryAuthorsNone(data: map<string, Json.Value>)
    requires "author" !in data && "metadata" !in data
    ensures StoryAuthors(data) == Ok([])
  {
  }

  /** The record's parts come from `StoryTitle`, `StoryAuthors` and `StoryBody`, and the first failure is the one raised. */
  lemma ExtractTitleAuthorsBodyMeaning(data: map<string, Json.Value>, parse: string -> Option<string>)
    ensures var r := ExtractTitleAuthorsBody(data, parse);
      && (r.Ok? <==> StoryTitle(data).Ok? && StoryAuthors(data).Ok?)
      && (StoryTitle(data).Err? ==> r == Err(StoryTitle(data).error))
      && (r.Ok? ==> (r.value.title == Untitled || CleanName(r.value.title)) && r.value.title == StoryTitle(data).value)
      && (r.Ok? ==> r.value.authors == StoryAuthors(data).value && r.value.body == StoryBody(data, parse))
  {
    StoryTitleClean(data);
  }

  // ---------------------------------------------------------------- count_paragraph

  predicate IsNl(c: char) { c == '\n' }
  predicate NotNl(c: char) { c != '\n' }

  /** `^` under `re.MULTILINE`: the start of the text or just after a newline. */
  predicate LineStart(s: string, p: nat)
    requires p <= |s|
  {
    p == 0 || s[p - 1] == '\n'
  }

  /**
   * Scanning the whitespace run of `s` from `k`, with `n` newlines seen so
   * far, the last of them just before `last`: where a match of
   * `(?:^\s*\n){2,}` ends, if the run holds two newlines or more. Each
   * repetition `^\s*\n` ends just after a newline, so the greedy match ends
   * just after the last newline of the run.
   */
  function SepScan(s: string, k: nat, n: nat, last: nat): (r: Option<nat>)
    requires last <= k <= |s|
    ensures r.Some? ==> last <= r.value <= |s| && (n == 0 ==> k < r.value)
    decreases |s| - k
  {
    if k < |s| && IsSpace(s[k]) then
      if s[k] == '\n' then SepScan(s, k + 1, n + 1, k + 1) else SepScan(s, k + 1, n, last)
    else if n >= 2 then Some(last)
    else None
  }

  /** Where a separator that starts at `p` ends, if one starts there. */
  function SepAt(s: string, p: nat): (r: Option<nat>)
    requires p <= |s|
    ensures r.Some? ==> p < r.value <= |s|
  {
    if LineStart(s, p) then SepScan(s, p, 0, p) else None
  }

  /** A separator is made of whitespace. */
  lemma {:induction false} SepScanSpaces(s: string, k: nat, n: nat, last: nat)
    requires last <= k <= |s| && SepScan(s, k, n, last).Some?
    ensures forall i :: k <= i < SepScan(s, k, n, last).value ==> IsSpace(s[i])
    decreases |s| - k
  {
    if k < |s| && IsSpace(s[k]) {
      if s[k] == '\n' {
        SepScanSpaces(s, k + 1, n + 1, k + 1);
      } else {
        SepScanSpaces(s, k + 1, n, last);
      }
    }
  }

  lemma SepAtSpaces(s: string, p: nat)
    requires p <= |s| && SepAt(s, p).Some?
    ensures forall i :: p <= i < SepAt(s, p).value ==> IsSpace(s[i])
  {
    SepScanSpaces(s, p, 0, p);
  }

  /** Where the leftmost separator at or after `p` starts; it ends where `SepAt` says. */
  function FindSep(s: string, p: nat): (r: Option<nat>)
    requires p <= |s|
    ensures r.Some? ==> p <= r.value <= |s| && SepAt(s, r.value).Some?
    decreases |s| - p
  {
    if SepAt(s, p).Some? then Some(p)
    else if p == |s| then None
    else FindSep(s, p + 1)
  }

  /** `re.split(r"(?:^\s*\n){2,}", s, flags=re.MULTILINE)`. */
  function Chunks(s: string): (r: seq<string>)
    decreases |s|
  {
    match FindSep(s, 0)
    case None => [s]
    case Some(p) => [s[..p]] + Chunks(s[SepAt(s, p).value..])
  }

  /** The number of chunks with something left after `strip()`. */
  function NonBlankCount(cs: seq<string>): nat
  {
    if |cs| == 0 then 0 else (if |Strip(cs[0])| > 0 then 1 else 0) + NonBlankCount(cs[1..])
  }

  /** `count_paragraph(text)` for a string: line endings normalised, split, non-blank chunks counted. */
  function ParagraphCount(text: string): nat
  {
    NonBlankCount(Chunks(TextSegmenter.CanonicalizeText(text)))
  }

  /** `count_paragraph(text)`: a value that is not a string is printed first. */
  function CountParagraph(text: Json.Value): nat
  {
    ParagraphCount(Json.ToStr(text))
  }

  predicate Space(c: char) { IsSpace(c) }

  /** A chunk of a blank text is blank. */
  lemma {:induction false} ChunksOfBlank(s: string)
    requires IsBlank(s)
    ensures NonBlankCount(Chunks(s)) == 0
    decreases |s|
  {
    match FindSep(s, 0) {
      case None =>
        StripEmptyIffBlank(s);
        assert Chunks(s)[1..] == [];
      case Some(p) =>
        var q := SepAt(s, p).value;
        assert IsBlank(s[..p]) && IsBlank(s[q..]);
        StripEmptyIffBlank(s[..p]);
        ChunksOfBlank(s[q..]);
        assert Chunks(s)[1..] == Chunks(s[q..]);
    }
  }

  /** A text with a non-whitespace character has a non-blank chunk: a separator is whitespace only. */
  lemma {:induction false} ChunksOfSolid(s: string, i: nat)
    requires i < |s| && !IsSpace(s[i])
    ensures NonBlankCount(Chunks(s)) > 0
    decreases |s|
  {
    match FindSep(s, 0) {
      case None =>
        StripEmptyIffBlank(s);
      case Some(p) =>
        var q := SepAt(s, p).value;
        SepAtSpaces(s, p);
        assert Chunks(s)[1..] == Chunks(s[q..]);
        if i < p {
          assert s[..p][i] == s[i];
          StripEmptyIffBlank(s[..p]);
        } else {
          assert i >= q;
          assert s[q..][i - q] == s[i];
          ChunksOfSolid(s[q..], i - q);
        }
    }
  }

  lemma CanonicalKeepsBlank(s: string)
    ensures IsBlank(s) <==> IsBlank(TextSegmenter.CanonicalizeText(s))
  {
    var t := Replace(s, "\r\n", "\n");
    var c := TextSegmenter.CanonicalizeText(s);
    if IsBlank(s) {
      assert AllChars(s, Space) && AllChars("\n", Space);
      ReplaceKeeps(s, "\r\n", "\n", Space);
      ReplaceKeeps(t, "\r", "\n", Space);
    }
    if IsBlank(c) {
      assert AllChars(c, Space);
      ReplaceBlankBack(t, "\r", "\n");
      ReplaceBlankBack(s, "\r\n", "\n");
    }
  }

  /** A text is blank when its replacement is, provided the pattern is whitespace. */
  lemma ReplaceBlankBack(s: string, pat: string, rep: string)
    requires |pat| > 0 && AllChars(pat, Space) && AllChars(Replace(s, pat, rep), Space)
    ensures AllChars(s, Space)
  {
    var parts := Split(s, pat);
    JoinPartsKeep(parts, rep, Space);
    JoinKeeps(parts, pat, Space);
    SplitJoin(s, pat);
  }

  lemma {:induction false} JoinPartsKeep(parts: seq<string>, sep: string, q: char -> bool)
    requires AllChars(Join(parts, sep), q)
    ensures forall k :: 0 <= k < |parts| ==> AllChars(parts[k], q)
    decreases |parts|
  {
    if |parts| > 1 {
      var rest := Join(parts[1..], sep);
      assert Join(parts, sep) == parts[0] + sep + rest;
      assert AllChars(parts[0], q) by {
        assert forall i :: 0 <= i < |parts[0]| ==> parts[0][i] == Join(parts, sep)[i];
      }
      assert AllChars(rest, q) by {
        assert forall i :: 0 <= i < |rest| ==> rest[i] == Join(parts, sep)[|parts[0]| + |sep| + i];
      }
      JoinPartsKeep(parts[1..], sep, q);
      assert forall k :: 1 <= k < |parts| ==> parts[k] == parts[1..][k - 1];
    }
  }

  /** `count_paragraph` is 0 exactly for whitespace-only text. */
  lemma ParagraphCountZero(text: string)
    ensures ParagraphCount(text) == 0 <==> IsBlank(text)
  {
    var c := TextSegmenter.CanonicalizeText(text);
    CanonicalKeepsBlank(text);
    if IsBlank(c) {
      ChunksOfBlank(c);
    } else {
      var i :| 0 <= i < |c| && !IsSpace(c[i]);
      ChunksOfSolid(c, i);
    }
  }

  /** Line endings are normalised first: a text and its CR/CRLF-normalised form have the same count. */
  lemma ParagraphCountCanonical(text: string)
    ensures ParagraphCount(TextSegmenter.CanonicalizeText(text)) == ParagraphCount(text)
  {
    TextSegmenter.CanonicalizeTextNoCr(text);
    TextSegmenter.CanonicalizeTextNoCr(TextSegmenter.CanonicalizeText(text));
  }

  // The lemmas below follow the separator search across a junction of two texts.

  /** `a` ends with a character other than whitespace. */
  predicate SolidEnd(a: string) { |a| > 0 && !IsSpace(a[|a| - 1]) }

  /** `b` starts with a character other than whitespace. */
  predicate SolidStart(b: string) { |b| > 0 && !IsSpace(b[0]) }

  function ShiftOpt(o: Option<nat>, d: nat): Option<nat>
  {
    if o.Some? then Some(o.value + d) else None
  }

  lemma {:induction false} SepScanShift(a: string, t: string, k: nat, n: nat, last: nat)
    requires last <= k <= |t|
    ensures SepScan(a + t, |a| + k, n, |a| + last) == ShiftOpt(SepScan(t, k, n, last), |a|)
    decreases |t| - k
  {
    var x := a + t;
    if k < |t| {
      assert x[|a| + k] == t[k];
      if IsSpace(t[k]) {
        if t[k] == '\n' {
          SepScanShift(a, t, k + 1, n + 1, k + 1);
        } else {
          SepScanShift(a, t, k + 1, n, last);
        }
      }
    }
  }

  lemma {:induction false} SepAtShift(a: string, t: string, i: nat)
    requires i <= |t| && (i > 0 || a == [] || a[|a| - 1] == '\n')
    ensures SepAt(a + t, |a| + i) == ShiftOpt(SepAt(t, i), |a|)
  {
    var x := a + t;
    if i > 0 {
      assert x[|a| + i - 1] == t[i - 1];
    }
    assert LineStart(x, |a| + i) == LineStart(t, i);
    SepScanShift(a, t, i, 0, i);
  }

  /** Past a prefix that ends a line, the search sees the rest of the text as a text of its own. */
  lemma {:induction false} FindSepShift(a: string, t: string, i: nat)
    requires i <= |t| && (i > 0 || a == [] || a[|a| - 1] == '\n')
    ensures FindSep(a + t, |a| + i) == ShiftOpt(FindSep(t, i), |a|)
    decreases |t| - i
  {
    SepAtShift(a, t, i);
    if SepAt(t, i).None? && i < |t| {
      FindSepShift(a, t, i + 1);
    }
  }

  lemma {:induction false} SepScanLocal(a: string, t: string, k: nat, n: nat, last: nat)
    requires last <= k < |a| && SolidEnd(a)
    ensures SepScan(a + t, k, n, last) == SepScan(a, k, n, last)
    decreases |a| - k
  {
    var x := a + t;
    assert x[k] == a[k];
    if IsSpace(a[k]) {
      if a[k] == '\n' {
        SepScanLocal(a, t, k + 1, n + 1, k + 1);
      } else {
        SepScanLocal(a, t, k + 1, n, last);
      }
    }
  }

  lemma {:induction false} SepAtLocal(a: string, t: string, p: nat)
    requires p < |a| && SolidEnd(a)
    ensures SepAt(a + t, p) == SepAt(a, p)
  {
    var x := a + t;
    if p > 0 {
      assert x[p - 1] == a[p - 1];
    }
    SepScanLocal(a, t, p, 0, p);
  }

  /** Before a junction after a solid end, the search over the joined text finds what it finds in `a`, or else goes on past the junction. */
  lemma {:induction false} FindSepLocal(a: string, t: string, p: nat)
    requires p <= |a| && SolidEnd(a) && |t| > 0
    ensures FindSep(a, p).Some? ==> FindSep(a + t, p) == FindSep(a, p)
    ensures FindSep(a, p).None? ==> FindSep(a + t, p) == FindSep(a + t, |a| + 1)
    decreases |a| - p
  {
    var x := a + t;
    if p == |a| {
      assert SepAt(a, p).None?;
      assert x[|a| - 1] == a[|a| - 1];
      assert !LineStart(x, p);
    } else {
      SepAtLocal(a, t, p);
      if SepAt(a, p).None? {
        FindSepLocal(a, t, p + 1);
      }
    }
  }

  /** A prefix of `x` that takes in all of a solid `a` is not blank. */
  lemma {:induction false} SolidPrefix(a: string, x: string, k: nat)
    requires SolidEnd(a) && |a| <= k <= |x| && x[..|a|] == a
    ensures |Strip(x[..k])| > 0
  {
    assert x[..k][|a| - 1] == x[..|a|][|a| - 1] == a[|a| - 1];
    NonBlankAt(x[..k], |a| - 1);
  }

  lemma {:induction false} SolidConcat(a: string, y: string)
    requires SolidEnd(a)
    ensures |Strip(a + y)| > 0
  {
    assert (a + y)[|a| - 1] == a[|a| - 1];
    NonBlankAt(a + y, |a| - 1);
  }

  /** A non-empty prefix of a solid-starting `b` is not blank. */
  lemma {:induction false} SolidStartPrefix(b: string, p: nat)
    requires SolidStart(b) && 0 < p <= |b|
    ensures |Strip(b[..p])| > 0
  {
    assert b[..p][0] == b[0];
    NonBlankAt(b[..p], 0);
  }

  lemma ConcatDrop(a: string, b: string, q: nat)
    requires q <= |b|
    ensures (a + b)[|a| + q..] == b[q..]
  {
  }

  lemma {:induction false} NonBlankAt(s: string, i: nat)
    requires i < |s| && !IsSpace(s[i])
    ensures |Strip(s)| > 0
  {
    StripEmptyIffBlank(s);
  }

  lemma {:induction false} SepScanNewlines(w: string, b: string, k: nat, n: nat, last: nat)
    requires last <= k < |w| && n + (|w| - k) >= 2 && AllChars(w, IsNl) && SolidStart(b)
    ensures SepScan(w + b, k, n, last) == Some(|w|)
    decreases |w| - k
  {
    var x := w + b;
    assert x[k] == w[k] == '\n';
    if k + 1 < |w| {
      SepScanNewlines(w, b, k + 1, n + 1, k + 1);
    } else {
      assert x[k + 1] == b[0];
    }
  }

  /** Two or more newlines at a line start, then a solid text: one separator over all of them. */
  lemma {:induction false} NewlinesSep(w: string, b: string)
    requires |w| >= 2 && AllChars(w, IsNl) && SolidStart(b)
    ensures FindSep(w + b, 0) == Some(0) && SepAt(w + b, 0) == Some(|w|)
  {
    SepScanNewlines(w, b, 0, 0, 0);
  }

  /** The chunks of a text with a separator: the text before it, then the chunks of the rest. */
  lemma {:induction false} ChunksStep(s: string)
    requires FindSep(s, 0).Some?
    ensures var p := FindSep(s, 0).value; var q := SepAt(s, p).value;
      NonBlankCount(Chunks(s)) == (if |Strip(s[..p])| > 0 then 1 else 0) + NonBlankCount(Chunks(s[q..]))
  {
    var p := FindSep(s, 0).value;
    var q := SepAt(s, p).value;
    assert Chunks(s) == [s[..p]] + Chunks(s[q..]);
    assert Chunks(s)[1..] == Chunks(s[q..]);
  }

  lemma {:induction false} ChunksNone(s: string)
    requires FindSep(s, 0).None?
    ensures NonBlankCount(Chunks(s)) == if |Strip(s)| > 0 then 1 else 0
  {
    assert Chunks(s) == [s];
    assert Chunks(s)[1..] == [];
  }

  /** Whatever follows a solid text, a separator found inside it splits off the same first chunk. */
  lemma {:induction false} ChunksSomeLocal(a: string, t: string)
    requires SolidEnd(a) && |t| > 0 && FindSep(a, 0).Some?
    ensures var p := FindSep(a, 0).value; var q := SepAt(a, p).value;
      var c := if |Strip(a[..p])| > 0 then 1 else 0;
      && q < |a| && SolidEnd(a[q..])
      && NonBlankCount(Chunks(a)) == c + NonBlankCount(Chunks(a[q..]))
      && NonBlankCount(Chunks(a + t)) == c + NonBlankCount(Chunks(a[q..] + t))
  {
    var x := a + t;
    FindSepLocal(a, t, 0);
    var p := FindSep(a, 0).value;
    var q := SepAt(a, p).value;
    SepAtLocal(a, t, p);
    SepAtSpaces(a, p);
    assert q < |a|;
    var rest := a[q..];
    assert x[..p] == a[..p];
    assert x[q..] == rest + t;
    assert rest[|rest| - 1] == a[|a| - 1];
    ChunksStep(x);
    ChunksStep(a);
  }

  lemma ApartNone(a: string, m: string, b: string)
    requires SolidEnd(a) && SolidStart(b) && |m| >= 3 && AllChars(m, IsNl) && FindSep(a, 0).None?
    ensures NonBlankCount(Chunks(a + m + b)) == 1 + NonBlankCount(Chunks(b))
  {
    var x := a + m + b;
    var pre := a + m[..1];
    ApartPre(a, m[..1], pre);
    ApartSep(a, m, b, x, pre);
    ChunksStepCount(x, |a| + 1, |a| + |m|, b, pre, |a| - 1);
  }

  /** The text before the separator is `a` and one newline, and it is not blank. */
  lemma ApartPre(a: string, n: string, pre: string)
    requires SolidEnd(a) && |n| == 1 && FindSep(a, 0).None? && pre == a + n
    ensures |a| - 1 < |pre| && !IsSpace(pre[|a| - 1])
  {
    assert pre[|a| - 1] == a[|a| - 1];
  }

  /** The first separator of `a + m + b` is `m` without its first newline. */
  lemma {:induction false} ApartSep(a: string, m: string, b: string, x: string, pre: string)
    requires SolidEnd(a) && SolidStart(b) && |m| >= 3 && AllChars(m, IsNl) && FindSep(a, 0).None?
    requires x == a + m + b && pre == a + m[..1]
    ensures SepStep(x, |a| + 1, |a| + |m|, b, pre)
  {
    var t := m + b;
    ConcatAssoc(a, m, b);
    FindSepLocal(a, t, 0);
    var w := m[1..];
    assert x == pre + (w + b);
    assert AllChars(w, IsNl);
    assert pre[|pre| - 1] == '\n';
    NewlinesSep(w, b);
    FindSepShift(pre, w + b, 0);
    SepAtShift(pre, w + b, 0);
    assert x[..|a| + 1] == pre && x[|a| + 1 + |w|..] == b;
  }

  /** `x` is `pre`, the first separator up to `j`, and `b`. */
  predicate SepStep(x: string, k: nat, j: nat, b: string, pre: string)
  {
    k <= j <= |x| && FindSep(x, 0) == Some(k) && SepAt(x, k) == Some(j) && x[j..] == b && x[..k] == pre
  }

  /** One step of the paragraph count: a chunk with text before the separator adds one. */
  lemma ChunksStepCount(x: string, k: nat, j: nat, b: string, pre: string, i: int)
    requires SepStep(x, k, j, b, pre) && 0 <= i < |pre| && !IsSpace(pre[i])
    ensures NonBlankCount(Chunks(x)) == 1 + NonBlankCount(Chunks(b))
  {
    NonBlankAt(pre, i);
    ChunksStep(x);
  }

  lemma ConcatAssoc(a: string, m: string, b: string)
    ensures a + (m + b) == a + m + b
  {
  }

  /** Two or more blank lines between two solid texts separate their paragraphs. */
  lemma {:induction false} ChunksApart(a: string, m: string, b: string)
    requires SolidEnd(a) && SolidStart(b) && |m| >= 3 && AllChars(m, IsNl)
    ensures NonBlankCount(Chunks(a + m + b)) == NonBlankCount(Chunks(a)) + NonBlankCount(Chunks(b))
    decreases |a|
  {
    if FindSep(a, 0).Some? {
      var t := m + b;
      ChunksSomeLocal(a, t);
      var q := SepAt(a, FindSep(a, 0).value).value;
      ChunksApart(a[q..], m, b);
      ConcatAssoc(a[q..], m, b);
      ConcatAssoc(a, m, b);
    } else {
      ApartNone(a, m, b);
      NonBlankAt(a, |a| - 1);
      ChunksNone(a);
    }
  }

  /** No separator starts just inside a single blank line: the search goes on into `b`. */
  lemma {:induction false} JunctionNoSep(a: string, m: string, b: string)
    requires SolidEnd(a) && SolidStart(b) && |m| == 2 && AllChars(m, IsNl)
    ensures FindSep(a + m + b, |a| + 1) == FindSep(a + m + b, |a| + 2)
  {
    var x := a + m + b;
    assert x[|a|] == m[0] == '\n' && x[|a| + 1] == m[1] == '\n' && x[|a| + 2] == b[0];
    assert SepScan(x, |a| + 2, 1, |a| + 2) == None;
    assert SepAt(x, |a| + 1).None?;
  }

  lemma {:induction false} JoinedNone(a: string, m: string, b: string)
    requires SolidEnd(a) && SolidStart(b) && |m| == 2 && AllChars(m, IsNl) && FindSep(a, 0).None?
    ensures NonBlankCount(Chunks(a + m + b)) == NonBlankCount(Chunks(b))
    ensures NonBlankCount(Chunks(a)) == 1
  {
    NonBlankAt(a, |a| - 1);
    ChunksNone(a);
    JoinedFind(a, m, b);
    if FindSep(b, 0).Some? {
      JoinedSome(a, m, b);
    } else {
      JoinedBothNone(a, m, b);
    }
  }

  /** With no separator in `a`, the first separator of `a + m + b` is the first one of `b`, shifted. */
  lemma {:induction false} JoinedFind(a: string, m: string, b: string)
    requires SolidEnd(a) && SolidStart(b) && |m| == 2 && AllChars(m, IsNl) && FindSep(a, 0).None?
    ensures FindSep(a + m + b, 0) == ShiftOpt(FindSep(b, 0), |a| + 2)
  {
    var t := m + b;
    ConcatAssoc(a, m, b);
    FindSepLocal(a, t, 0);
    var pre := a + m;
    JunctionNoSep(a, m, b);
    assert pre[|pre| - 1] == '\n';
    FindSepShift(pre, b, 0);
  }

  lemma {:induction false} JoinedBothNone(a: string, m: string, b: string)
    requires SolidEnd(a) && SolidStart(b) && |m| == 2 && FindSep(b, 0).None?
    requires FindSep(a + m + b, 0).None?
    ensures NonBlankCount(Chunks(a + m + b)) == NonBlankCount(Chunks(b)) == 1
  {
    var t := m + b;
    ConcatAssoc(a, m, b);
    SolidConcat(a, t);
    NonBlankAt(b, 0);
    ChunksNone(a + m + b);
    ChunksNone(b);
  }

  lemma {:induction false} JoinedSome(a: string, m: string, b: string)
    requires SolidEnd(a) && SolidStart(b) && |m| == 2 && AllChars(m, IsNl) && FindSep(b, 0).Some?
    requires FindSep(a + m + b, 0) == ShiftOpt(FindSep(b, 0), |a| + 2)
    ensures NonBlankCount(Chunks(a + m + b)) == NonBlankCount(Chunks(b))
  {
    var pre := a + m;
    var x := pre + b;
    var p := FindSep(b, 0).value;
    var q := SepAt(b, p).value;
    FirstSepPositive(b);
    SepAtShift(pre, b, p);
    var px := |a| + 2 + p;
    var qx := |a| + 2 + q;
    assert FindSep(x, 0) == Some(px) && SepAt(x, px) == Some(qx);
    PrefixOfConcat(a, m, b);
    ConcatDrop(pre, b, q);
    SameTail(a, x, b, px, qx, p, q);
  }

  /** A text that starts solid has no separator at its very start. */
  lemma FirstSepPositive(b: string)
    requires SolidStart(b) && FindSep(b, 0).Some?
    ensures FindSep(b, 0).value > 0
  {
    assert !LineStart(b, 0) || SepScan(b, 0, 0, 0).None?;
  }

  lemma PrefixOfConcat(a: string, m: string, b: string)
    ensures (a + m + b)[..|a|] == a
  {
  }

  /** Two texts whose first chunks are both non-blank and whose rests after the first separator agree have the same count. */
  lemma {:induction false} SameTail(a: string, x: string, b: string, px: nat, qx: nat, pb: nat, qb: nat)
    requires FindSep(x, 0) == Some(px) && SepAt(x, px) == Some(qx)
    requires FindSep(b, 0) == Some(pb) && SepAt(b, pb) == Some(qb)
    requires SolidEnd(a) && |a| <= px && x[..|a|] == a && SolidStart(b) && 0 < pb && x[qx..] == b[qb..]
    ensures NonBlankCount(Chunks(x)) == NonBlankCount(Chunks(b))
  {
    SolidPrefix(a, x, px);
    SolidStartPrefix(b, pb);
    ChunksStep(x);
    ChunksStep(b);
  }

  /** A single blank line between two solid texts does not separate: the last paragraph of one and the first of the other merge. */
  lemma {:induction false} ChunksJoined(a: string, m: string, b: string)
    requires SolidEnd(a) && SolidStart(b) && |m| == 2 && AllChars(m, IsNl)
    ensures NonBlankCount(Chunks(a + m + b)) + 1 == NonBlankCount(Chunks(a)) + NonBlankCount(Chunks(b))
    decreases |a|
  {
    if FindSep(a, 0).Some? {
      var t := m + b;
      ChunksSomeLocal(a, t);
      var q := SepAt(a, FindSep(a, 0).value).value;
      ChunksJoined(a[q..], m, b);
      ConcatAssoc(a[q..], m, b);
      ConcatAssoc(a, m, b);
    } else {
      JoinedNone(a, m, b);
    }
  }

  lemma NoCrConcat(a: string, m: string, b: string)
    requires '\r' !in a && '\r' !in m && '\r' !in b
    ensures '\r' !in a + m + b
  {
  }

  /**
   * Two or more blank lines separate paragraphs: between two texts without
   * carriage returns, one ending and the other starting with a character
   * other than whitespace, a line break and then two or more newlines make
   * the paragraph counts add up.
   */
  lemma ParagraphsSeparated(a: string, w: string, b: string)
    requires '\r' !in a && '\r' !in b && SolidEnd(a) && SolidStart(b)
    requires |w| >= 2 && AllChars(w, IsNl)
    ensures ParagraphCount(a + "\n" + w + b) == ParagraphCount(a) + ParagraphCount(b)
  {
    var m := "\n" + w;
    assert AllChars(m, IsNl) && '\r' !in m;
    NoCrConcat(a, m, b);
    assert a + "\n" + w + b == a + m + b;
    TextSegmenter.CanonicalizeTextNoCr(a + m + b);
    TextSegmenter.CanonicalizeTextNoCr(a);
    TextSegmenter.CanonicalizeTextNoCr(b);
    ChunksApart(a, m, b);
  }

  /** A single blank line does not separate paragraphs: the two texts' counts add up to one more than the joined text's. */
  lemma ParagraphsJoined(a: string, b: string)
    requires '\r' !in a && '\r' !in b && SolidEnd(a) && SolidStart(b)
    ensures ParagraphCount(a + "\n\n" + b) + 1 == ParagraphCount(a) + ParagraphCount(b)
  {
    var m := "\n\n";
    assert AllChars(m, IsNl) && '\r' !in m;
    NoCrConcat(a, m, b);
    TextSegmenter.CanonicalizeTextNoCr(a + m + b);
    TextSegmenter.CanonicalizeTextNoCr(a);
    TextSegmenter.CanonicalizeTextNoCr(b);
    ChunksJoined(a, m, b);
  }
}
