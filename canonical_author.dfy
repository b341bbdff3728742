/**
 * `lcats/utils/canonical_author.py`: parsing personal names into first name,
 * middle names, last name and generational suffix; the `last_first` keys
 * built from them; reading such keys back; and appending author keys to a
 * file name.
 */
module CanonicalAuthor {
  import opened Wrappers
  import opened PyStr

  /**
   * The word lists `parse_name` consults: honorifics to pop, particles that
   * belong with the surname, and generational suffixes with their standard
   * spelling.  Every operation takes them as a parameter; `Standard` holds the
   * lists of `canonical_author.py`.
   */
  datatype Lexicon = Lexicon(honorifics: set<string>, particles: set<string>, suffixes: map<string, string>)

  /** `HONORIFICS`, `SURNAME_PARTICLES` and `SUFFIXES`. */
  const Standard: Lexicon := Lexicon(
    {"mr", "mrs", "ms", "miss", "mx", "dr", "prof", "sir", "madam", "dame", "lord", "lady"},
    {"da", "de", "del", "della", "der", "di", "du", "la", "le", "van", "von", "bin", "binti", "al", "st", "st."},
    map["jr" := "Jr", "sr" := "Sr", "ii" := "II", "iii" := "III", "iv" := "IV", "v" := "V"])

  datatype ParsedName = ParsedName(first: string, middles: seq<string>, last: string, suffix: Option<string>)

  // ---------------------------------------------------------------- tokens

  /** The characters `re.sub(r"[^\w'\- ]+", "", tok)` keeps. */
  predicate CleanKeep(c: char) { IsWordChar(c) || c == '\'' || c == '-' || c == ' ' }

  /** `_clean_token(tok)`: drop dots, repair a mis-decoded apostrophe, strip, keep `[\w'\- ]`. */
  function CleanToken(tok: string): string
  {
    Filter(Strip(Replace(Replace(tok, ".", ""), "\U{e2}\U{20ac}\U{2122}", "'")), CleanKeep)
  }

  /** `_normalize_space(s)`. */
  function NormalizeSpace(s: string): string
  {
    Strip(CollapseWs(s))
  }

  /** `[_clean_token(t).lower() for t in _normalize_space(x).split()]`. */
  function Tokens(x: string): seq<string>
  {
    CleanWords(SplitWs(NormalizeSpace(x)))
  }

  function CleanWords(words: seq<string>): (r: seq<string>)
    ensures |r| == |words|
  {
    if |words| == 0 then [] else [Lower(CleanToken(words[0]))] + CleanWords(words[1..])
  }

  /** `[p.strip() for p in parts if p.strip()]`. */
  function NonBlankStripped(parts: seq<string>): (r: seq<string>)
    ensures forall i :: 0 <= i < |r| ==> r[i] != ""
  {
    if |parts| == 0 then []
    else (if Strip(parts[0]) == "" then [] else [Strip(parts[0])]) + NonBlankStripped(parts[1..])
  }

  // ---------------------------------------------------------------- suffix

  /** The class `[A-Za-z\.]`. */
  predicate TailChar(c: char) { IsAsciiLetter(c) || c == '.' }

  /** The start of the longest suffix of `s` made of characters satisfying `q`. */
  function TrailStart(s: string, q: char -> bool): (k: nat)
    ensures k <= |s|
    ensures forall i :: k <= i < |s| ==> q(s[i])
    ensures k == 0 || !q(s[k - 1])
    decreases |s|
  {
    if |s| > 0 && q(s[|s| - 1]) then TrailStart(s[..|s| - 1], q) else |s|
  }

  /** `TrailStart` is the only position with its two properties. */
  lemma TrailStartUnique(s: string, q: char -> bool, k: nat)
    requires k <= |s| && (forall i :: k <= i < |s| ==> q(s[i])) && (k == 0 || !q(s[k - 1]))
    ensures TrailStart(s, q) == k
  {
    var t := TrailStart(s, q);
    if k > 0 {
      var x := s[k - 1];
      assert t < k ==> q(x);
    }
    if t > 0 {
      var y := s[t - 1];
      assert t > k ==> q(y);
    }
  }

  /**
   * `re.search(r",\s*([A-Za-z\.]+)$", s)`: the position of the comma and the
   * captured word, when the text ends in a comma, optional whitespace and a
   * run of letters and dots.
   */
  function CommaSuffix(s: string): Option<(nat, string)>
  {
    var t := TrailStart(s, TailChar);
    if t == |s| then None
    else
      var j := TrailStart(s[..t], IsSpace);
      if j > 0 && s[j - 1] == ',' then Some((j - 1, s[t..])) else None
  }

  /** `\b` at position `j`: exactly one of the neighbouring characters is a word character. */
  predicate Boundary(s: string, j: nat)
    requires j <= |s|
  {
    (j > 0 && IsWordChar(s[j - 1])) != (j < |s| && IsWordChar(s[j]))
  }

  /** The leftmost word boundary in `[j, |s|)`. */
  function FirstBoundary(s: string, j: nat): (r: Option<nat>)
    requires j <= |s|
    ensures r.Some? ==> j <= r.value < |s| && Boundary(s, r.value)
    decreases |s| - j
  {
    if j >= |s| then None else if Boundary(s, j) then Some(j) else FirstBoundary(s, j + 1)
  }

  /** `re.search(r"\b([A-Za-z\.]+)$", s)`: where the captured trailing word begins. */
  function WordSuffix(s: string): Option<nat>
  {
    FirstBoundary(s, TrailStart(s, TailChar))
  }

  /**
   * The suffix step of `parse_name`: a comma-separated suffix word, or failing
   * that a final suffix word, is standardised and cut off with what precedes
   * it stripped.
   */
  function TakeSuffix(lex: Lexicon, s: string): (string, Option<string>)
  {
    var viaComma :=
      match CommaSuffix(s)
      case Some((c, w)) =>
        var cand := Lower(CleanToken(w));
        if cand in lex.suffixes then Some((Strip(s[..c]), lex.suffixes[cand])) else None
      case None => None;
    if viaComma.Some? then (viaComma.value.0, Some(viaComma.value.1))
    else
      match WordSuffix(s)
      case Some(j) =>
        var cand := Lower(CleanToken(s[j..]));
        if cand in lex.suffixes then (Strip(s[..j]), Some(lex.suffixes[cand])) else (s, None)
      case None => (s, None)
  }

  predicate SuffixWord(lex: Lexicon, w: string)
  {
    |w| > 0 && AllChars(w, TailChar) && Lower(CleanToken(w)) in lex.suffixes
  }

  /** `"Name, Jr."`: a suffix after a comma is captured and removed with the comma. */
  lemma SuffixAfterComma(lex: Lexicon, base: string, w: string)
    requires SuffixWord(lex, w)
    ensures TakeSuffix(lex, base + ", " + w) == (Strip(base), Some(lex.suffixes[Lower(CleanToken(w))]))
  {
    var s := base + ", " + w;
    CommaSuffixOf(base, w);
    assert s[..|base|] == base;
  }

  /** A run of `q` characters appended after a character that is not `q` starts where it was appended. */
  lemma TrailStartAppend(pre: string, w: string, q: char -> bool)
    requires AllChars(w, q) && |pre| > 0 && !q(pre[|pre| - 1])
    ensures TrailStart(pre + w, q) == |pre|
  {
    var s := pre + w;
    forall i | |pre| <= i < |s| ensures q(s[i]) {
      assert s[i] == w[i - |pre|];
    }
    TrailStartUnique(s, q, |pre|);
  }

  lemma CommaSuffixOf(base: string, w: string)
    requires |w| > 0 && AllChars(w, TailChar)
    ensures CommaSuffix(base + ", " + w) == Some((|base|, w))
  {
    var s := base + ", " + w;
    var t := |base| + 2;
    assert TrailStart(s, TailChar) == t by {
      TrailStartAppend(base + ", ", w, TailChar);
    }
    assert TrailStart(s[..t], IsSpace) == t - 1 by {
      assert s[..t] == (base + ",") + " ";
      TrailStartAppend(base + ",", " ", IsSpace);
    }
    assert s[t..] == w;
  }

  /** `"Name Jr."`: a final suffix word is captured and removed when there is no comma before it. */
  lemma SuffixAtEnd(lex: Lexicon, base: string, w: string)
    requires SuffixWord(lex, w) && IsAsciiLetter(w[0])
    requires |base| > 0 && base[|base| - 1] != ',' && !IsSpace(base[|base| - 1])
    ensures TakeSuffix(lex, base + " " + w) == (Strip(base), Some(lex.suffixes[Lower(CleanToken(w))]))
  {
    var s := base + " " + w;
    var t := |base| + 1;
    WordSuffixOf(base, w);
    assert s[t..] == w;
    assert s[..t] == base + " ";
    StripTrailingSpace(base);
  }

  lemma WordSuffixOf(base: string, w: string)
    requires |w| > 0 && AllChars(w, TailChar) && IsAsciiLetter(w[0])
    requires |base| > 0 && base[|base| - 1] != ',' && !IsSpace(base[|base| - 1])
    ensures CommaSuffix(base + " " + w).None?
    ensures WordSuffix(base + " " + w) == Some(|base| + 1)
  {
    var s := base + " " + w;
    var t := |base| + 1;
    assert TrailStart(s, TailChar) == t by {
      TrailStartAppend(base + " ", w, TailChar);
    }
    assert TrailStart(s[..t], IsSpace) == t - 1 by {
      assert s[..t] == base + " ";
      TrailStartAppend(base, " ", IsSpace);
    }
    assert s[t - 2] == base[|base| - 1];
    assert Boundary(s, t);
  }

  lemma StripTrailingSpace(base: string)
    requires |base| > 0 && !IsSpace(base[|base| - 1])
    ensures Strip(base + " ") == Strip(base)
  {
    var l := LStripBy(base, IsSpace);
    var l2 := LStripBy(base + " ", IsSpace);
    LStripAppend(base, " ");
    assert l2 == l + " ";
    assert RStripBy(l + " ", IsSpace) == RStripBy(l, IsSpace);
  }

  lemma {:induction false} LStripAppend(a: string, b: string)
    requires |a| > 0 && !IsSpace(a[|a| - 1])
    ensures LStripBy(a + b, IsSpace) == LStripBy(a, IsSpace) + b
    decreases |a|
  {
    if IsSpace(a[0]) {
      assert (a + b)[1..] == a[1..] + b;
      LStripAppend(a[1..], b);
    }
  }

  // ---------------------------------------------------------------- honorifics and particles

  /** The tokens after popping every leading honorific. */
  function DropHonorifics(lex: Lexicon, ts: seq<string>): seq<string>
  {
    if |ts| > 0 && ts[0] in lex.honorifics then DropHonorifics(lex, ts[1..]) else ts
  }

  /**
   * Only a leading run of honorifics is popped: what remains is a suffix of
   * the tokens, every token before it is an honorific, and it does not start
   * with one.
   */
  lemma {:induction false} DropHonorificsShape(lex: Lexicon, ts: seq<string>)
    ensures var r := DropHonorifics(lex, ts);
      && |r| <= |ts| && r == ts[|ts| - |r|..]
      && (forall i :: 0 <= i < |ts| - |r| ==> ts[i] in lex.honorifics)
      && (r == [] || r[0] !in lex.honorifics)
    decreases |ts|
  {
    if |ts| > 0 && ts[0] in lex.honorifics {
      DropHonorificsShape(lex, ts[1..]);
      var r := DropHonorifics(lex, ts[1..]);
      assert ts[1..][|ts| - 1 - |r|..] == ts[|ts| - |r|..];
      forall i | 0 <= i < |ts| - |r| ensures ts[i] in lex.honorifics {
        if i > 0 {
          assert ts[i] == ts[1..][i - 1];
        }
      }
    }
  }

  /** Tokens that are all honorifics are all popped. */
  lemma {:induction false} DropAllHonorifics(lex: Lexicon, ts: seq<string>)
    requires forall i :: 0 <= i < |ts| ==> ts[i] in lex.honorifics
    ensures DropHonorifics(lex, ts) == []
    decreases |ts|
  {
    if |ts| > 0 {
      assert ts[0] in lex.honorifics;
      DropAllHonorifics(lex, ts[1..]);
    }
  }

  /** Leading honorifics of the first tokens do not depend on what follows them. */
  lemma {:induction false} DropHonorificsAppend(lex: Lexicon, f: seq<string>, l: seq<string>)
    requires DropHonorifics(lex, f) != []
    ensures DropHonorifics(lex, f + l) == DropHonorifics(lex, f) + l
    decreases |f|
  {
    assert (f + l)[0] == f[0];
    if f[0] in lex.honorifics {
      assert DropHonorifics(lex, f) == DropHonorifics(lex, f[1..]);
      assert (f + l)[1..] == f[1..] + l;
      DropHonorificsAppend(lex, f[1..], l);
    } else {
      assert DropHonorifics(lex, f) == f;
    }
  }

  /** Where the block of surname particles ending at position `j` begins. */
  function ParticleStart(lex: Lexicon, ft: seq<string>, j: nat): (k: nat)
    requires j <= |ft|
    ensures k <= j
    ensures forall i :: k <= i < j ==> ft[i] in lex.particles
    ensures k == 0 || ft[k - 1] !in lex.particles
  {
    if j > 0 && ft[j - 1] in lex.particles then ParticleStart(lex, ft, j - 1) else j
  }

  lemma ParticleStartUnique(lex: Lexicon, ft: seq<string>, j: nat, k: nat)
    requires k <= j <= |ft|
    requires forall i :: k <= i < j ==> ft[i] in lex.particles
    requires k == 0 || ft[k - 1] !in lex.particles
    ensures ParticleStart(lex, ft, j) == k
  {
    var t := ParticleStart(lex, ft, j);
    if k > 0 {
      var x := ft[k - 1];
      assert t < k ==> x in lex.particles;
    }
    if t > 0 {
      var y := ft[t - 1];
      assert t > k ==> y in lex.particles;
    }
  }

  // ---------------------------------------------------------------- capitalisation

  /** `p.capitalize()` on ASCII: the first letter upper-case, the rest lower-case. */
  function Capitalize(p: string): string
  {
    if |p| == 0 then "" else [UpperChar(p[0])] + Lower(p[1..])
  }

  function CapitalizeAll(parts: seq<string>): seq<string>
  {
    if |parts| == 0 then [] else [Capitalize(parts[0])] + CapitalizeAll(parts[1..])
  }

  /** `tpart(p)`: apostrophe- or hyphen-separated pieces are capitalised and rejoined with `_`. */
  function TitlePart(p: string): string
  {
    if p == "" then ""
    else if Contains(p, "'") then Join(CapitalizeAll(Split(p, "'")), "_")
    else if Contains(p, "-") then Join(CapitalizeAll(Split(p, "-")), "_")
    else Capitalize(p)
  }

  /** `_tcase(name)`: title-case every space-separated part. */
  function TitleCase(name: string): string
  {
    Join(TitleParts(Split(name, " ")), " ")
  }

  function TitleParts(parts: seq<string>): seq<string>
  {
    if |parts| == 0 then [] else [TitlePart(parts[0])] + TitleParts(parts[1..])
  }

  /** `[_tcase(m) for m in middles if m]`. */
  function TitleMiddles(middles: seq<string>): seq<string>
  {
    if |middles| == 0 then []
    else (if middles[0] == "" then [] else [TitleCase(middles[0])]) + TitleMiddles(middles[1..])
  }

  // ---------------------------------------------------------------- parse_name

  /** `first, *middles = core`, or empty names for an empty core. */
  function FirstAndMiddles(core: seq<string>): (string, seq<string>)
  {
    if |core| == 0 then ("", []) else (core[0], core[1..])
  }

  /**
   * The name from its token lists (last tokens empty unless the name was
   * written `Last, First`), once honorifics are popped: without a comma, a
   * single token is the first name, otherwise the last token and the
   * particles before it are the last name.  No token left at all is the
   * `IndexError` of `ft[-1]`.
   */
  function Assemble(lex: Lexicon, ft: seq<string>, lastTokens: seq<string>): Result<(string, seq<string>, string)>
  {
    if |lastTokens| == 0 then
      if |ft| == 1 then Ok((ft[0], [], ""))
      else if |ft| == 0 then Err(Exception(IndexError, "list index out of range"))
      else
        var k := ParticleStart(lex, ft, |ft| - 1);
        var fm := FirstAndMiddles(ft[..k]);
        Ok((fm.0, fm.1, Join(ft[k..], " ")))
    else
      var fm := FirstAndMiddles(ft);
      Ok((fm.0, fm.1, Join(lastTokens, " ")))
  }

  /** The name from its token lists: honorifics, nickname expansion and title case. */
  function FromTokens(lex: Lexicon, firstTokens: seq<string>, lastTokens: seq<string>, nicknames: map<string, string>,
                      suffix: Option<string>): Result<ParsedName>
  {
    match Assemble(lex, DropHonorifics(lex, firstTokens), lastTokens)
    case Err(e) => Err(e)
    case Ok((first0, middles, last)) =>
      var first := if |nicknames| > 0 && first0 in nicknames then Lower(nicknames[first0]) else first0;
      Ok(ParsedName(TitleCase(first), TitleMiddles(middles), TitleCase(last), suffix))
  }

  /** The text after the punctuation and whitespace normalisation at the top of `parse_name`. */
  function Normalized(raw: string): string
  {
    NormalizeSpace(Replace(Replace(Replace(Strip(raw), " ,", ","), ", ", ", "), "  ", " "))
  }

  /** The first and last token lists: `Last, First` when the text has exactly two non-blank comma parts. */
  function TokenLists(s: string): (seq<string>, seq<string>)
  {
    var parts := NonBlankStripped(Split(s, ","));
    if |parts| == 2 then (Tokens(parts[1]), Tokens(parts[0])) else (Tokens(s), [])
  }

  /** `parse_name(raw, nickname_map=nicknames)`. */
  function ParseName(lex: Lexicon, raw: string, nicknames: map<string, string>): Result<ParsedName>
  {
    if Strip(raw) == "" then Err(Exception(ValueError, "Empty name"))
    else
      var (s, suffix) := TakeSuffix(lex, Normalized(raw));
      var (firstTokens, lastTokens) := TokenLists(s);
      FromTokens(lex, firstTokens, lastTokens, nicknames, suffix)
  }

  /** An empty or blank name raises `ValueError`. */
  lemma ParseNameBlank(lex: Lexicon, raw: string, nicknames: map<string, string>)
    requires IsBlank(raw)
    ensures ParseName(lex, raw, nicknames) == Err(Exception(ValueError, "Empty name"))
  {
    StripEmptyIffBlank(raw);
  }

  /** A name whose only tokens are honorifics has nothing left to index: `IndexError`. */
  lemma OnlyHonorifics(lex: Lexicon, firstTokens: seq<string>, nicknames: map<string, string>, suffix: Option<string>)
    requires forall i :: 0 <= i < |firstTokens| ==> firstTokens[i] in lex.honorifics
    ensures FromTokens(lex, firstTokens, [], nicknames, suffix).Err?
    ensures FromTokens(lex, firstTokens, [], nicknames, suffix).error.kind == IndexError
  {
    DropAllHonorifics(lex, firstTokens);
    assert Assemble(lex, [], []) == Err(Exception(IndexError, "list index out of range"));
  }

  /** A non-empty word of ASCII letters. */
  predicate LetterWord(w: string)
  {
    |w| > 0 && AllChars(w, IsAsciiLetter)
  }

  /** A word of ASCII letters whose lower-case form is an honorific and not a suffix. */
  predicate HonorificWord(lex: Lexicon, w: string)
  {
    LetterWord(w) && Lower(w) in lex.honorifics && Lower(w) !in lex.suffixes
  }

  /**
   * `parse_name("Dr.")` raises `IndexError`, and so does any other lone
   * honorific with a dot: the dot is cleaned away, the token is popped as an
   * honorific, and `ft[-1]` finds nothing.
   */
  lemma ParseNameLoneHonorific(lex: Lexicon, w: string, nicknames: map<string, string>)
    requires HonorificWord(lex, w)
    ensures ParseName(lex, w + ".", nicknames).Err? && ParseName(lex, w + ".", nicknames).error.kind == IndexError
  {
    LoneHonorificParse(lex, w, nicknames);
    OnlyHonorifics(lex, [Lower(w)], nicknames, None);
  }

  /** The lone honorific with a dot parses as the single first token, with no suffix. */
  lemma LoneHonorificParse(lex: Lexicon, w: string, nicknames: map<string, string>)
    requires HonorificWord(lex, w)
    ensures ParseName(lex, w + ".", nicknames) == FromTokens(lex, [Lower(w)], [], nicknames, None)
  {
    LoneHonorificTokens(lex, w);
  }

  /** The lone honorific with a dot has no suffix and is the single first token. */
  lemma LoneHonorificTokens(lex: Lexicon, w: string)
    requires HonorificWord(lex, w)
    ensures Strip(w + ".") != ""
    ensures TakeSuffix(lex, Normalized(w + ".")) == (w + ".", None)
    ensures TokenLists(w + ".") == ([Lower(w)], [])
  {
    StripBlankFree(w + ".");
    NormalizedWord(w);
    TakeSuffixWord(lex, w);
    NoCommaParts(w);
    TokensWord(w);
  }

  lemma NoCommaParts(w: string)
    requires LetterWord(w)
    ensures NonBlankStripped(Split(w + ".", ",")) == [w + "."]
  {
    var s := w + ".";
    assert Absent(s, ',');
    SplitAbsent(s, ',');
    assert Strip(s) == s by { StripBlankFree(s); }
  }

  /** `parse_name("Dr.")` with the lists of `canonical_author.py`. */
  lemma ParseNameDoctor()
    ensures var r := ParseName(Standard, "Dr" + ".", map[]); r.Err? && r.error.kind == IndexError
  {
    assert HonorificWord(Standard, "Dr") by {
      assert Lower("Dr") == "dr";
    }
    ParseNameLoneHonorific(Standard, "Dr", map[]);
  }

  /** A word of letters with a dot after it holds no whitespace. */
  lemma WordDotNoSpace(w: string)
    requires LetterWord(w)
    ensures NoSpace(w + ".")
  {
    var s := w + ".";
    forall i | 0 <= i < |s| ensures !IsSpace(s[i]) {
      if i < |w| {
        assert s[i] == w[i];
      }
    }
  }

  lemma NormalizeSpaceWord(w: string)
    requires LetterWord(w)
    ensures NormalizeSpace(w + ".") == w + "."
  {
    var s := w + ".";
    assert CollapseWs(s) == s by { ReplaceRunsIdentity(s, IsSpace, ' '); }
    StripBlankFree(s);
  }

  lemma NormalizedWord(w: string)
    requires LetterWord(w)
    ensures Normalized(w + ".") == w + "."
  {
    var s := w + ".";
    assert Absent(s, ' ') && Absent(s, ',');
    NormalizeSpaceWord(w);
    var r0 := Strip(s);
    assert r0 == s by { StripBlankFree(s); }
    var r1 := Replace(r0, " ,", ",");
    assert r1 == s by { ReplaceHeadAbsent(s, " ,", ","); }
    var r2 := Replace(r1, ", ", ", ");
    assert r2 == s by { ReplaceHeadAbsent(s, ", ", ", "); }
    var r3 := Replace(r2, "  ", " ");
    assert r3 == s by { ReplaceHeadAbsent(s, "  ", " "); }
  }

  lemma CleanWord(w: string)
    requires LetterWord(w)
    ensures CleanToken(w + ".") == w
  {
    assert Split(w + ".", ".") == [w, ""] by {
      assert w + "." == w + ['.'] + "";
      SplitFirst(w, '.', "");
      SplitAbsent("", '.');
    }
    assert Join([w, ""], "") == w;
    assert Replace(w, "\U{e2}\U{20ac}\U{2122}", "'") == w by {
      ReplaceHeadAbsent(w, "\U{e2}\U{20ac}\U{2122}", "'");
    }
    assert Strip(w) == w by { StripBlankFree(w); }
    FilterAllKept(w, CleanKeep);
  }

  lemma TokensWord(w: string)
    requires LetterWord(w)
    ensures Tokens(w + ".") == [Lower(w)]
  {
    var s := w + ".";
    WordsOfWord(w);
    CleanWord(w);
    assert CleanWords([s]) == [Lower(w)];
  }

  lemma WordsOfWord(w: string)
    requires LetterWord(w)
    ensures SplitWs(NormalizeSpace(w + ".")) == [w + "."]
  {
    NormalizeSpaceWord(w);
    WordDotNoSpace(w);
    SplitWsSolid(w + ".");
  }

  lemma TakeSuffixWord(lex: Lexicon, w: string)
    requires HonorificWord(lex, w)
    ensures TakeSuffix(lex, w + ".") == (w + ".", None)
  {
    var s := w + ".";
    assert TrailStart(s, TailChar) == 0 by {
      TrailStartUnique(s, TailChar, 0);
    }
    assert WordSuffix(s) == Some(0) by {
      assert Boundary(s, 0);
    }
    assert Lower(CleanToken(s[0..])) !in lex.suffixes by {
      assert s[0..] == s;
      CleanWord(w);
    }
  }

  /**
   * `"Last, First Middle"` and `"First Middle Last"` parse alike: with the
   * first tokens `f` (not all honorifics, not ending in a particle) and last
   * tokens `l` made of particles and a final surname, the comma form and the
   * plain form give the same name.
   */
  lemma CommaFormAgrees(lex: Lexicon, f: seq<string>, l: seq<string>, nicknames: map<string, string>, suffix: Option<string>)
    requires EndsOnName(lex, DropHonorifics(lex, f)) && SurnameTokens(lex, l)
    ensures FromTokens(lex, f, l, nicknames, suffix) == FromTokens(lex, f + l, [], nicknames, suffix)
  {
    DropHonorificsAppend(lex, f, l);
    AssembleJoined(lex, DropHonorifics(lex, f), l, DropHonorifics(lex, f + l));
  }

  /** Tokens that do not end on a surname particle. */
  predicate EndsOnName(lex: Lexicon, ts: seq<string>)
  {
    ts != [] && ts[|ts| - 1] !in lex.particles
  }

  /** Surname tokens: particles, then the surname itself. */
  predicate SurnameTokens(lex: Lexicon, l: seq<string>)
  {
    |l| > 0 && forall i :: 0 <= i < |l| - 1 ==> l[i] in lex.particles
  }

  /**
   * Before title-casing: first tokens ending on a non-particle, then last
   * tokens made of particles and a surname, assemble to the same first,
   * middle and last names apart (the comma form) or joined (the plain form).
   */
  lemma AssembleJoined(lex: Lexicon, df: seq<string>, l: seq<string>, ft: seq<string>)
    requires EndsOnName(lex, df) && SurnameTokens(lex, l)
    requires ft == df + l
    ensures Assemble(lex, df, l) == Assemble(lex, ft, [])
  {
    forall i | |df| <= i < |ft| - 1 ensures ft[i] in lex.particles {
      assert ft[i] == l[i - |df|];
    }
    ParticleStartUnique(lex, ft, |ft| - 1, |df|);
    assert ft[..|df|] == df && ft[|df|..] == l;
  }

  /**
   * Without a comma the surname is the last token together with every
   * particle directly before it; the first name and middle names are what
   * precedes that block.
   */
  lemma PlainFormSurname(lex: Lexicon, ft: seq<string>)
    requires |ft| >= 2
    ensures var r := Assemble(lex, ft, []);
      && r.Ok?
      && (exists k ::
            && 0 <= k <= |ft| - 1
            && (forall i :: k <= i < |ft| - 1 ==> ft[i] in lex.particles)
            && (k == 0 || ft[k - 1] !in lex.particles)
            && r.value.2 == Join(ft[k..], " ")
            && r.value.0 == (if k == 0 then "" else ft[0])
            && r.value.1 == (if k == 0 then [] else ft[1..k]))
  {
    var k := ParticleStart(lex, ft, |ft| - 1);
    assert k > 0 ==> ft[..k][1..] == ft[1..k];
  }

  /** A single remaining token is the first name, and the last name is empty. */
  lemma SingleTokenIsFirst(lex: Lexicon, ft: seq<string>)
    requires |ft| == 1
    ensures Assemble(lex, ft, []) == Ok((ft[0], [], ""))
  {
  }

  // ---------------------------------------------------------------- the loops of parse_name

  /** The loop `while first_tokens and first_tokens[0] in HONORIFICS: first_tokens.pop(0)`. */
  method PopHonorifics(lex: Lexicon, tokens: seq<string>) returns (ft: seq<string>)
    ensures ft == DropHonorifics(lex, tokens)
  {
    ft := tokens;
    while |ft| > 0 && ft[0] in lex.honorifics
      invariant DropHonorifics(lex, ft) == DropHonorifics(lex, tokens)
      decreases |ft|
    {
      ft := ft[1..];
    }
  }

  /** The loop that walks left from the last token gathering surname particles into `last_group`. */
  method GatherSurname(lex: Lexicon, ft: seq<string>) returns (lastGroup: seq<string>, coreEnd: nat)
    requires |ft| >= 2
    ensures coreEnd == ParticleStart(lex, ft, |ft| - 1)
    ensures lastGroup == ft[coreEnd..]
  {
    lastGroup := [ft[|ft| - 1]];
    var i := |ft| - 2;
    while i >= 0 && ft[i] in lex.particles
      invariant -1 <= i <= |ft| - 2
      invariant lastGroup == ft[i + 1..]
      invariant forall k :: i + 1 <= k < |ft| - 1 ==> ft[k] in lex.particles
      decreases i + 1
    {
      assert [ft[i]] + ft[i + 1..] == ft[i..];
      lastGroup := [ft[i]] + lastGroup;
      i := i - 1;
    }
    coreEnd := i + 1;
    ParticleStartUnique(lex, ft, |ft| - 1, coreEnd);
  }

  /** `parse_name(raw, nickname_map=nicknames)` as the source runs it, loops included. */
  method ParseNameLoops(lex: Lexicon, raw: string, nicknames: map<string, string>) returns (r: Result<ParsedName>)
    ensures r == ParseName(lex, raw, nicknames)
  {
    if Strip(raw) == "" {
      return Err(Exception(ValueError, "Empty name"));
    }
    var (s, suffix) := TakeSuffix(lex, Normalized(raw));
    var (firstTokens, lastTokens) := TokenLists(s);
    var ft := PopHonorifics(lex, firstTokens);
    var first, middles, last;
    if |lastTokens| == 0 {
      if |ft| == 1 {
        first, middles, last := ft[0], [], "";
      } else if |ft| == 0 {
        return Err(Exception(IndexError, "list index out of range"));
      } else {
        var lastGroup, coreEnd := GatherSurname(lex, ft);
        last := Join(lastGroup, " ");
        var fm := FirstAndMiddles(ft[..coreEnd]);
        first, middles := fm.0, fm.1;
      }
    } else {
      last := Join(lastTokens, " ");
      var fm := FirstAndMiddles(ft);
      first, middles := fm.0, fm.1;
    }
    if |nicknames| > 0 && first in nicknames {
      first := Lower(nicknames[first]);
    }
    r := Ok(ParsedName(TitleCase(first), TitleMiddles(middles), TitleCase(last), suffix));
  }

  // ---------------------------------------------------------------- canonical_key

  /** `s.replace(" ", "_")`: a one-character pattern is replaced character by character. */
  function SpacesToUnderscores(s: string): (r: string)
    ensures |r| == |s| && ' ' !in r
    ensures forall i :: 0 <= i < |s| ==> r[i] == (if s[i] == ' ' then '_' else s[i])
  {
    seq(|s|, i requires 0 <= i < |s| => if s[i] == ' ' then '_' else s[i])
  }

  /** `"_".join(filter(None, [a, b]))`. */
  function JoinNonEmpty(a: string, b: string): string
  {
    if a != "" && b != "" then a + "_" + b else a + b
  }

  /**
   * The key `canonical_key` builds from a parsed name: `last_first`,
   * optionally followed by `_` and the middles and suffix, with spaces turned
   * into `_`, in the requested case.
   */
  function KeyOf(p: ParsedName, includeMiddles: bool, includeSuffix: bool, keyCase: string): Result<string>
  {
    var withMiddles := includeMiddles && |p.middles| > 0;
    var withSuffix := includeSuffix && p.suffix.Some? && p.suffix.value != "";
    var key0 := JoinNonEmpty(p.last, p.first);
    var tail := (if withMiddles then p.middles else []) + (if withSuffix then [p.suffix.value] else []);
    var key1 := if withMiddles || withSuffix then key0 + "_" + Join(tail, " ") else key0;
    var key := SpacesToUnderscores(key1);
    if keyCase == "lower" then Ok(Lower(key))
    else if keyCase == "upper" then Ok(Upper(key))
    else if keyCase == "title" then Ok(key)
    else Err(Exception(ValueError, "case must be one of: lower, upper, title"))
  }

  /** `canonical_key(name, nickname_map=..., include_middles=..., include_suffix=..., case=...)`. */
  function CanonicalKey(lex: Lexicon, name: string, nicknames: map<string, string>, includeMiddles: bool,
                        includeSuffix: bool, keyCase: string): Result<string>
  {
    match ParseName(lex, name, nicknames)
    case Err(e) => Err(e)
    case Ok(p) => KeyOf(p, includeMiddles, includeSuffix, keyCase)
  }

  /** The default key has no space, and for a name with both parts is lower-case `last_first`. */
  lemma KeyOfDefault(p: ParsedName)
    ensures var k := KeyOf(p, false, false, "lower");
      && k.Ok?
      && ' ' !in k.value
      && (p.last != "" && p.first != "" ==>
            k.value == Lower(SpacesToUnderscores(p.last)) + "_" + Lower(SpacesToUnderscores(p.first)))
  {
    if p.last != "" && p.first != "" {
      var a := SpacesToUnderscores(p.last);
      var b := SpacesToUnderscores(p.first);
      assert SpacesToUnderscores(p.last + "_" + p.first) == a + "_" + b;
      LowerConcat(a + "_", b);
      LowerConcat(a, "_");
    }
  }

  /** Any case other than lower, upper or title raises `ValueError`; the three cases agree up to case. */
  lemma KeyOfCases(p: ParsedName, includeMiddles: bool, includeSuffix: bool, keyCase: string)
    ensures KeyOf(p, includeMiddles, includeSuffix, keyCase).Err? <==> keyCase !in {"lower", "upper", "title"}
    ensures keyCase !in {"lower", "upper", "title"} ==>
      KeyOf(p, includeMiddles, includeSuffix, keyCase).error.kind == ValueError
    ensures var t := KeyOf(p, includeMiddles, includeSuffix, "title").value;
      && KeyOf(p, includeMiddles, includeSuffix, "lower") == Ok(Lower(t))
      && KeyOf(p, includeMiddles, includeSuffix, "upper") == Ok(Upper(t))
  {
  }

  /** The default key of a parsed name. */
  lemma CanonicalKeyDefault(lex: Lexicon, name: string, nicknames: map<string, string>)
    requires ParseName(lex, name, nicknames).Ok?
    ensures var p := ParseName(lex, name, nicknames).value;
      var k := CanonicalKey(lex, name, nicknames, false, false, "lower");
      && k.Ok?
      && ' ' !in k.value
      && (p.last != "" && p.first != "" ==>
            k.value == Lower(SpacesToUnderscores(p.last)) + "_" + Lower(SpacesToUnderscores(p.first)))
  {
    KeyOfDefault(ParseName(lex, name, nicknames).value);
  }

  /** A parse error comes through; otherwise only a bad case is an error. */
  lemma CanonicalKeyErrors(lex: Lexicon, name: string, nicknames: map<string, string>, includeMiddles: bool,
                           includeSuffix: bool, keyCase: string)
    ensures ParseName(lex, name, nicknames).Err? ==>
      CanonicalKey(lex, name, nicknames, includeMiddles, includeSuffix, keyCase) == Err(ParseName(lex, name, nicknames).error)
    ensures ParseName(lex, name, nicknames).Ok? ==>
      (CanonicalKey(lex, name, nicknames, includeMiddles, includeSuffix, keyCase).Err?
       <==> keyCase !in {"lower", "upper", "title"})
  {
    if ParseName(lex, name, nicknames).Ok? {
      KeyOfCases(ParseName(lex, name, nicknames).value, includeMiddles, includeSuffix, keyCase);
    }
  }

  // ---------------------------------------------------------------- last_name, first_name

  /** `last_name(key)`: the first two `_`-parts of a three-part key, else the first part. */
  function LastName(key: string): string
  {
    var parts := Split(key, "_");
    if |parts| == 3 then parts[0] + "_" + parts[1] else parts[0]
  }

  /** `first_name(key)`: the third part of a three-part key, nothing for one part, else the second part. */
  function FirstName(key: string): string
  {
    var parts := Split(key, "_");
    if |parts| == 3 then parts[2] else if |parts| == 1 then "" else parts[1]
  }

  /** Reading back the parts of keys whose parts contain no `_`: one part is a last name only. */
  lemma LastFirstOfKey1(a: string)
    requires Absent(a, '_')
    ensures LastName(a) == a && FirstName(a) == ""
  {
    SplitAbsent(a, '_');
  }

  /** Two parts are `last_first`. */
  lemma LastFirstOfKey2(a: string, b: string)
    requires Absent(a, '_') && Absent(b, '_')
    ensures LastName(a + "_" + b) == a && FirstName(a + "_" + b) == b
  {
    SplitAbsent(b, '_');
    SplitFirst(a, '_', b);
  }

  /** Three parts are a two-part last name and a first name. */
  lemma LastFirstOfKey3(a: string, b: string, c: string)
    requires Absent(a, '_') && Absent(b, '_') && Absent(c, '_')
    ensures LastName(a + "_" + b + "_" + c) == a + "_" + b && FirstName(a + "_" + b + "_" + c) == c
  {
    SplitAbsent(c, '_');
    SplitFirst(b, '_', c);
    assert a + "_" + b + "_" + c == a + ['_'] + (b + ['_'] + c);
    SplitFirst(a, '_', b + "_" + c);
  }

  // ---------------------------------------------------------------- add_authors

  /** The key of every author, in order; the first failure is raised. */
  function AuthorKeys(keyOf: string -> Result<string>, authors: seq<string>): Result<seq<string>>
  {
    if |authors| == 0 then Ok([])
    else
      match AuthorKeys(keyOf, authors[..|authors| - 1])
      case Err(e) => Err(e)
      case Ok(ks) =>
        match keyOf(authors[|authors| - 1])
        case Err(e) => Err(e)
        case Ok(k) => Ok(ks + [k])
  }

  /** Once a prefix of the authors fails, the whole list fails the same way. */
  lemma {:induction false} AuthorKeysErrExtends(keyOf: string -> Result<string>, authors: seq<string>, j: nat)
    requires j <= |authors| && AuthorKeys(keyOf, authors[..j]).Err?
    ensures AuthorKeys(keyOf, authors) == AuthorKeys(keyOf, authors[..j])
    decreases |authors| - j
  {
    if j < |authors| {
      var m := |authors| - 1;
      assert authors[..m][..j] == authors[..j];
      AuthorKeysErrExtends(keyOf, authors[..m], j);
    } else {
      assert authors[..j] == authors;
    }
  }

  /** `canonical_key(author)` with every option at its default. */
  function DefaultKey(lex: Lexicon): string -> Result<string>
  {
    name => CanonicalKey(lex, name, map[], false, false, "lower")
  }

  /** `file_name.split(ext)[0]`: the text before the first occurrence of the extension. */
  function BeforeExt(fileName: string, ext: string): Result<string>
  {
    if ext == "" then Err(Exception(ValueError, "empty separator")) else Ok(Split(fileName, ext)[0])
  }

  /** `file_name[:max_len]` when the name is longer than `max_len`. */
  function Truncate(s: string, maxLen: int): string
  {
    if |s| > maxLen then PyPrefix(s, maxLen) else s
  }

  /**
   * What `add_authors(file_name, authors, ext, max_len)` returns, with the
   * author keys made by `keyOf` (`canonical_key(author)` is
   * `DefaultKey(Standard)`).
   */
  function AddAuthorsResult(keyOf: string -> Result<string>, fileName: string, authors: seq<string>,
                            ext: string, maxLen: int): Result<string>
  {
    match BeforeExt(fileName, ext)
    case Err(e) => Err(e)
    case Ok(base) =>
      match AuthorKeys(keyOf, authors)
      case Err(e) => Err(e)
      case Ok(keys) => Ok(Truncate(base + "__" + Join(keys, "-") + ext, maxLen))
  }

  /**
   * The name is the text before the extension, `__`, the keys joined by `-`
   * and the extension, cut to `max_len` characters when longer; an empty
   * extension and a failing key are errors.
   */
  lemma AddAuthorsShape(keyOf: string -> Result<string>, fileName: string, authors: seq<string>,
                        ext: string, maxLen: int)
    ensures var r := AddAuthorsResult(keyOf, fileName, authors, ext, maxLen);
      && (r.Ok? <==> ext != "" && AuthorKeys(keyOf, authors).Ok?)
      && (ext == "" ==> r.error.kind == ValueError)
      && (r.Ok? ==>
            var full := Split(fileName, ext)[0] + "__" + Join(AuthorKeys(keyOf, authors).value, "-") + ext;
            && (|full| <= maxLen ==> r.value == full)
            && (0 <= maxLen < |full| ==> r.value == full[..maxLen] && |r.value| == maxLen))
  {
  }

  /** `add_authors(file_name, authors, ext, max_len)`, accumulating the name in a loop. */
  method AddAuthors(keyOf: string -> Result<string>, fileName: string, authors: seq<string>, ext: string, maxLen: int)
    returns (r: Result<string>)
    ensures r == AddAuthorsResult(keyOf, fileName, authors, ext, maxLen)
  {
    if ext == "" {
      return Err(Exception(ValueError, "empty separator"));
    }
    ghost var prefix := Split(fileName, ext)[0] + "__";
    var name := Split(fileName, ext)[0] + "__";
    ghost var keys: seq<string> := [];
    var first := true;
    for j := 0 to |authors|
      invariant first <==> j == 0
      invariant AuthorKeys(keyOf, authors[..j]) == Ok(keys)
      invariant |keys| == j
      invariant name == prefix + Join(keys, "-")
    {
      if first {
        first := false;
      } else {
        name := name + "-";
      }
      var k := keyOf(authors[j]);
      assert authors[..j + 1][..j] == authors[..j];
      if k.Err? {
        AuthorKeysErrExtends(keyOf, authors, j + 1);
        return Err(k.error);
      }
      if j > 0 {
        JoinAppend(keys, k.value, "-");
        assert name + k.value == prefix + (Join(keys, "-") + "-" + k.value);
      } else {
        assert keys + [k.value] == [k.value];
      }
      name := name + k.value;
      keys := keys + [k.value];
    }
    assert authors[..|authors|] == authors;
    name := name + ext;
    if |name| > maxLen {
      name := PyPrefix(name, maxLen);
    }
    r := Ok(name);
  }
}
