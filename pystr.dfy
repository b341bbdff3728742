/**
 * The Python `str` operations the core relies on, with Python's own semantics:
 * `isspace`, `strip`, `split`/`join`, `find`, `replace`, slicing with negative
 * and out-of-range bounds, `re.sub` over a character class, and integer
 * formatting.  Case mapping is ASCII-only.
 */
module PyStr {

  /** Python's `str.isspace` on a single character (the `\s` class of `re`). */
  predicate IsSpace(c: char)
  {
    ('\t' <= c <= '\r') || ('\U{1c}' <= c <= '\U{1f}') || c == ' ' || c == '\U{85}' || c == '\U{a0}'
    || c == '\U{1680}' || ('\U{2000}' <= c <= '\U{200a}') || c == '\U{2028}' || c == '\U{2029}'
    || c == '\U{202f}' || c == '\U{205f}' || c == '\U{3000}'
  }

  predicate IsAsciiDigit(c: char) { '0' <= c <= '9' }
  predicate IsAsciiLower(c: char) { 'a' <= c <= 'z' }
  predicate IsAsciiUpper(c: char) { 'A' <= c <= 'Z' }
  predicate IsAsciiLetter(c: char) { IsAsciiLower(c) || IsAsciiUpper(c) }
  predicate IsAsciiAlnum(c: char) { IsAsciiLetter(c) || IsAsciiDigit(c) }
  /** The ASCII part of `re`'s `\w`. */
  predicate IsWordChar(c: char) { IsAsciiAlnum(c) || c == '_' }

  function LowerChar(c: char): char { if IsAsciiUpper(c) then (c as int + 32) as char else c }
  function UpperChar(c: char): char { if IsAsciiLower(c) then (c as int - 32) as char else c }

  /** `s.lower()` on ASCII letters. */
  function Lower(s: string): (r: string)
    ensures |r| == |s| && forall i :: 0 <= i < |s| ==> r[i] == LowerChar(s[i])
  {
    seq(|s|, i requires 0 <= i < |s| => LowerChar(s[i]))
  }

  /** `s.upper()` on ASCII letters. */
  function Upper(s: string): (r: string)
    ensures |r| == |s| && forall i :: 0 <= i < |s| ==> r[i] == UpperChar(s[i])
  {
    seq(|s|, i requires 0 <= i < |s| => UpperChar(s[i]))
  }

  lemma LowerNoUpper(s: string)
    ensures forall i :: 0 <= i < |Lower(s)| ==> !IsAsciiUpper(Lower(s)[i])
  {
  }

  lemma LowerIdempotent(s: string)
    ensures Lower(Lower(s)) == Lower(s)
  {
  }

  /** Lowercasing changes nothing in a string without uppercase letters. */
  lemma LowerFixed(s: string)
    requires forall i :: 0 <= i < |s| ==> !IsAsciiUpper(s[i])
    ensures Lower(s) == s
  {
    assert forall i :: 0 <= i < |s| ==> Lower(s)[i] == s[i];
  }

  lemma LowerConcat(a: string, b: string)
    ensures Lower(a + b) == Lower(a) + Lower(b)
  {
  }

  // ---------------------------------------------------------------- strip

  /** `s.lstrip(chars)` where `p` tells which characters are stripped. */
  function LStripBy(s: string, p: char -> bool): (r: string)
    decreases |s|
    ensures |r| <= |s| && r == s[|s| - |r|..]
    ensures r == [] || !p(r[0])
    ensures forall i :: 0 <= i < |s| - |r| ==> p(s[i])
  {
    if |s| > 0 && p(s[0]) then LStripBy(s[1..], p) else s
  }

  /** `s.rstrip(chars)` where `p` tells which characters are stripped. */
  function RStripBy(s: string, p: char -> bool): (r: string)
    decreases |s|
    ensures |r| <= |s| && r == s[..|r|]
    ensures r == [] || !p(r[|r| - 1])
    ensures forall i :: |r| <= i < |s| ==> p(s[i])
  {
    if |s| > 0 && p(s[|s| - 1]) then RStripBy(s[..|s| - 1], p) else s
  }

  function StripBy(s: string, p: char -> bool): string
  {
    RStripBy(LStripBy(s, p), p)
  }

  function LStrip(s: string): string { LStripBy(s, IsSpace) }
  function RStrip(s: string): string { RStripBy(s, IsSpace) }

  /** `s.strip()`. */
  function Strip(s: string): (r: string)
    ensures r == [] || (!IsSpace(r[0]) && !IsSpace(r[|r| - 1]))
  {
    StripBy(s, IsSpace)
  }

  /** Every character is whitespace (so that `not s.strip()` holds). */
  predicate IsBlank(s: string)
  {
    forall i :: 0 <= i < |s| ==> IsSpace(s[i])
  }

  lemma StripEmptyIffBlank(s: string)
    ensures Strip(s) == [] <==> IsBlank(s)
  {
    var l := LStripBy(s, IsSpace);
    assert Strip(s) == RStripBy(l, IsSpace);
    assert IsBlank(s) ==> l == [];
  }

  lemma StripBlankFree(s: string)
    requires |s| > 0 && !IsSpace(s[0]) && !IsSpace(s[|s| - 1])
    ensures Strip(s) == s
  {
  }

  // ---------------------------------------------------------------- prefixes, search

  predicate StartsWith(s: string, prefix: string) { prefix <= s }

  predicate EndsWith(s: string, suffix: string)
  {
    |suffix| <= |s| && s[|s| - |suffix|..] == suffix
  }

  /** `pat` occurs in `s` at position `j`. */
  predicate MatchAt(s: string, pat: string, j: int)
  {
    0 <= j && j + |pat| <= |s| && s[j..j + |pat|] == pat
  }

  /**
   * `s.find(pat, start)` for `start >= 0`: the leftmost occurrence at or after
   * `start`, or -1.  As in Python, a start beyond the end finds nothing, not
   * even the empty string.
   */
  function FindFrom(s: string, pat: string, start: nat): (r: int)
    decreases |s| - start
    ensures r == -1 || (start <= r && MatchAt(s, pat, r))
    ensures forall j :: start <= j && (r == -1 || j < r) ==> !MatchAt(s, pat, j)
  {
    if start + |pat| > |s| then -1
    else if s[start..start + |pat|] == pat then start
    else FindFrom(s, pat, start + 1)
  }

  /** `s.find(pat)`. */
  function Find(s: string, pat: string): int
  {
    FindFrom(s, pat, 0)
  }

  /** `pat in s`. */
  predicate Contains(s: string, pat: string)
  {
    Find(s, pat) >= 0
  }

  lemma ContainsAt(s: string, pat: string, j: nat)
    requires MatchAt(s, pat, j)
    ensures Contains(s, pat)
  {
  }

  lemma FindFromHere(s: string, pat: string, start: nat)
    requires MatchAt(s, pat, start)
    ensures FindFrom(s, pat, start) == start
  {
  }

  // ---------------------------------------------------------------- split and join

  /** `s.split(sep)` for a non-empty separator. */
  function Split(s: string, sep: string): (r: seq<string>)
    requires |sep| > 0
    decreases |s|
    ensures |r| >= 1
  {
    var i := Find(s, sep);
    if i < 0 then [s] else [s[..i]] + Split(s[i + |sep|..], sep)
  }

  /** `sep.join(parts)`. */
  function Join(parts: seq<string>, sep: string): string
  {
    if |parts| == 0 then ""
    else if |parts| == 1 then parts[0]
    else parts[0] + sep + Join(parts[1..], sep)
  }

  lemma {:induction false} SplitJoin(s: string, sep: string)
    requires |sep| > 0
    ensures Join(Split(s, sep), sep) == s
    decreases |s|
  {
    var i := Find(s, sep);
    if i >= 0 {
      var rest := s[i + |sep|..];
      var parts := Split(rest, sep);
      SplitJoin(rest, sep);
      assert Split(s, sep) == [s[..i]] + parts;
      JoinCons(s[..i], parts, sep);
      assert MatchAt(s, sep, i);
      assert s == s[..i] + s[i..i + |sep|] + rest;
    }
  }

  lemma JoinCons(x: string, rest: seq<string>, sep: string)
    requires |rest| > 0
    ensures Join([x] + rest, sep) == x + sep + Join(rest, sep)
  {
    assert ([x] + rest)[1..] == rest;
  }

  lemma {:induction false} JoinAppend(parts: seq<string>, x: string, sep: string)
    requires |parts| > 0
    ensures Join(parts + [x], sep) == Join(parts, sep) + sep + x
    decreases |parts|
  {
    if |parts| == 1 {
      assert parts + [x] == [parts[0], x];
    } else {
      JoinAppend(parts[1..], x, sep);
      assert (parts + [x])[1..] == parts[1..] + [x];
    }
  }

  /** A one-character separator absent from `s` is found nowhere. */
  lemma {:induction false} FindAbsent(s: string, c: char, start: nat)
    requires Absent(s, c)
    ensures FindFrom(s, [c], start) == -1
    decreases |s| - start
  {
    if start + 1 <= |s| {
      assert s[start..start + 1] == [s[start]];
      FindAbsent(s, c, start + 1);
    }
  }

  /** Splitting on a one-character separator absent from `s` gives `[s]`. */
  lemma SplitAbsent(s: string, c: char)
    requires Absent(s, c)
    ensures Split(s, [c]) == [s]
  {
    FindAbsent(s, c, 0);
  }

  /** Splitting `a + c + b` on `c`, where `c` is absent from `a`, gives `a` and then the split of `b`. */
  lemma SplitFirst(a: string, c: char, b: string)
    requires Absent(a, c)
    ensures Split(a + [c] + b, [c]) == [a] + Split(b, [c])
  {
    var s := a + [c] + b;
    forall j | 0 <= j < |a| ensures !MatchAt(s, [c], j) {
      assert s[j..j + 1] == [a[j]];
    }
    assert MatchAt(s, [c], |a|);
    assert Find(s, [c]) == |a|;
    assert s[..|a|] == a && s[|a| + 1..] == b;
  }

  /** `s.replace(pat, rep)` for a non-empty `pat`. */
  function Replace(s: string, pat: string, rep: string): string
    requires |pat| > 0
  {
    Join(Split(s, pat), rep)
  }

  lemma {:induction false} ReplaceAbsent(s: string, pat: string, rep: string)
    requires |pat| > 0 && !Contains(s, pat)
    ensures Replace(s, pat, rep) == s
  {
  }

  /** Every piece of a split is made of characters of the text. */
  lemma {:induction false} SplitKeeps(s: string, sep: string, q: char -> bool)
    requires |sep| > 0 && AllChars(s, q)
    ensures forall k :: 0 <= k < |Split(s, sep)| ==> AllChars(Split(s, sep)[k], q)
    decreases |s|
  {
    var i := Find(s, sep);
    if i >= 0 {
      var rest := s[i + |sep|..];
      SplitKeeps(rest, sep, q);
      assert Split(s, sep) == [s[..i]] + Split(rest, sep);
    }
  }

  /** Joining pieces and a separator that all satisfy `q` gives a text that does. */
  lemma {:induction false} JoinKeeps(parts: seq<string>, sep: string, q: char -> bool)
    requires AllChars(sep, q) && forall k :: 0 <= k < |parts| ==> AllChars(parts[k], q)
    ensures AllChars(Join(parts, sep), q)
    decreases |parts|
  {
    if |parts| > 1 {
      JoinKeeps(parts[1..], sep, q);
      AllCharsConcat(parts[0], sep, q);
      AllCharsConcat(parts[0] + sep, Join(parts[1..], sep), q);
    }
  }

  /** Replacing with a text whose characters satisfy `q` keeps every character satisfying `q`. */
  lemma ReplaceKeeps(s: string, pat: string, rep: string, q: char -> bool)
    requires |pat| > 0 && AllChars(s, q) && AllChars(rep, q)
    ensures AllChars(Replace(s, pat, rep), q)
  {
    SplitKeeps(s, pat, q);
    JoinKeeps(Split(s, pat), rep, q);
  }

  /** A pattern whose first character does not occur in `s` is found nowhere. */
  lemma {:induction false} FindHeadAbsent(s: string, pat: string, start: nat)
    requires |pat| > 0 && Absent(s, pat[0])
    ensures FindFrom(s, pat, start) == -1
    decreases |s| - start
  {
    if start + |pat| <= |s| {
      assert s[start..start + |pat|][0] == s[start];
      FindHeadAbsent(s, pat, start + 1);
    }
  }

  /** Replacing a pattern whose first character does not occur in `s` changes nothing. */
  lemma ReplaceHeadAbsent(s: string, pat: string, rep: string)
    requires |pat| > 0 && Absent(s, pat[0])
    ensures Replace(s, pat, rep) == s
  {
    FindHeadAbsent(s, pat, 0);
  }

  /** The position of the first whitespace character, or `|s|`. */
  function FirstSpace(s: string): (k: nat)
    ensures k <= |s| && (k < |s| ==> IsSpace(s[k]))
    ensures forall i :: 0 <= i < k ==> !IsSpace(s[i])
  {
    if |s| == 0 || IsSpace(s[0]) then 0 else 1 + FirstSpace(s[1..])
  }

  /** No character of `w` is whitespace. */
  predicate NoSpace(w: string)
  {
    forall i :: 0 <= i < |w| ==> !IsSpace(w[i])
  }

  /** `s.split()`: the maximal runs of non-whitespace characters, in order. */
  function SplitWs(s: string): (r: seq<string>)
    decreases |s|
  {
    var t := LStrip(s);
    if |t| == 0 then [] else
      var k := FirstSpace(t);
      LStripStartsSolid(s);
      [t[..k]] + SplitWs(t[k..])
  }

  /** A word without whitespace is split into itself. */
  lemma SplitWsSolid(s: string)
    requires |s| > 0 && NoSpace(s)
    ensures SplitWs(s) == [s]
  {
    FirstSpaceSolid(s);
    assert LStrip(s) == s;
    assert s[..|s|] == s && SplitWs(s[|s|..]) == [];
  }

  lemma {:induction false} FirstSpaceSolid(s: string)
    requires NoSpace(s)
    ensures FirstSpace(s) == |s|
  {
    if |s| > 0 {
      FirstSpaceSolid(s[1..]);
    }
  }

  lemma LStripStartsSolid(s: string)
    ensures LStrip(s) == [] || !IsSpace(LStrip(s)[0])
  {
  }

  lemma {:induction false} SplitWsWords(s: string)
    ensures forall k :: 0 <= k < |SplitWs(s)| ==> |SplitWs(s)[k]| > 0 && NoSpace(SplitWs(s)[k])
    decreases |s|
  {
    var t := LStrip(s);
    if |t| > 0 {
      var k := FirstSpace(t);
      LStripStartsSolid(s);
      SplitWsWords(t[k..]);
      var rest := SplitWs(t[k..]);
      assert SplitWs(s) == [t[..k]] + rest;
      WordsCons(t, k, rest);
    }
  }

  /** A first word of solid characters in front of solid words gives solid words. */
  lemma WordsCons(t: string, k: nat, rest: seq<string>)
    requires 0 < k <= |t| && forall i :: 0 <= i < k ==> !IsSpace(t[i])
    requires forall j :: 0 <= j < |rest| ==> |rest[j]| > 0 && NoSpace(rest[j])
    ensures forall j :: 0 <= j < |[t[..k]] + rest| ==> |([t[..k]] + rest)[j]| > 0 && NoSpace(([t[..k]] + rest)[j])
  {
    assert NoSpace(t[..k]);
  }

  /** `re.sub(<class>+, rep, s)`: every maximal run of characters satisfying `p` becomes `rep`. */
  function ReplaceRuns(s: string, p: char -> bool, rep: string): string
    decreases |s|
  {
    if |s| == 0 then ""
    else if p(s[0]) then rep + ReplaceRuns(LStripBy(s, p), p, rep)
    else [s[0]] + ReplaceRuns(s[1..], p, rep)
  }

  /** Every character of `s` satisfies `q`. */
  predicate AllChars(s: string, q: char -> bool)
  {
    forall i :: 0 <= i < |s| ==> q(s[i])
  }

  /** No two adjacent characters of `s` are both `c`. */
  predicate NoDouble(s: string, c: char)
  {
    forall i :: 0 <= i < |s| - 1 ==> !(s[i] == c && s[i + 1] == c)
  }

  lemma AllCharsConcat(a: string, b: string, q: char -> bool)
    requires AllChars(a, q) && AllChars(b, q)
    ensures AllChars(a + b, q)
  {
  }

  /** Nothing is stripped from a string whose ends are outside the class. */
  lemma StripByUntouched(s: string, p: char -> bool)
    requires |s| > 0 ==> !p(s[0]) && !p(s[|s| - 1])
    ensures StripBy(s, p) == s
  {
    assert LStripBy(s, p) == s;
  }

  lemma LStripByShorter(s: string, p: char -> bool)
    requires |s| > 0 && p(s[0])
    ensures |LStripBy(s, p)| < |s|
  {
  }

  /** Every character of `s` outside the class `p` satisfies `q`. */
  predicate KeptChars(s: string, p: char -> bool, q: char -> bool)
  {
    forall i :: 0 <= i < |s| && !p(s[i]) ==> q(s[i])
  }

  lemma SuffixKept(s: string, k: nat, p: char -> bool, q: char -> bool)
    requires k <= |s| && KeptChars(s, p, q)
    ensures KeptChars(s[k..], p, q)
  {
    var t := s[k..];
    forall i | 0 <= i < |t| && !p(t[i]) ensures q(t[i]) {
      assert t[i] == s[k + i];
    }
  }

  /** The output of `ReplaceRuns` is made of replacement characters and the kept characters of `s`. */
  lemma {:induction false} ReplaceRunsChars(s: string, p: char -> bool, rep: string, q: char -> bool)
    requires AllChars(rep, q)
    requires KeptChars(s, p, q)
    ensures AllChars(ReplaceRuns(s, p, rep), q)
    decreases |s|
  {
    if |s| > 0 {
      if p(s[0]) {
        var t := LStripBy(s, p);
        LStripByShorter(s, p);
        SuffixKept(s, |s| - |t|, p, q);
        ReplaceRunsChars(t, p, rep, q);
        AllCharsConcat(rep, ReplaceRuns(t, p, rep), q);
      } else {
        ReplaceRunsChars(s[1..], p, rep, q);
        AllCharsConcat([s[0]], ReplaceRuns(s[1..], p, rep), q);
      }
    }
  }

  /** `c` does not occur in `s`. */
  predicate Absent(s: string, c: char)
  {
    forall i :: 0 <= i < |s| ==> s[i] != c
  }

  lemma ConcatAbsent(s: string, t: string, c: char)
    requires Absent(s, c) && Absent(t, c)
    ensures Absent(s + t, c)
  {
    forall i | 0 <= i < |s + t| ensures (s + t)[i] != c {
      if i >= |s| {
        assert (s + t)[i] == t[i - |s|];
      }
    }
  }

  lemma SuffixAbsent(s: string, k: nat, c: char)
    requires k <= |s| && Absent(s, c)
    ensures Absent(s[k..], c)
  {
    assert forall i :: 0 <= i < |s| - k ==> s[k..][i] == s[k + i];
  }

  /**
   * Replacing every run by a single character `c` that is either in the class
   * or absent from the text leaves no two adjacent `c`s; the output is empty
   * exactly when the input is, and starts with `c` exactly when the input
   * starts inside a run.
   */
  lemma {:induction false} ReplaceRunsNoDouble(s: string, p: char -> bool, c: char)
    requires p(c) || Absent(s, c)
    ensures NoDouble(ReplaceRuns(s, p, [c]), c)
    ensures |ReplaceRuns(s, p, [c])| == 0 <==> |s| == 0
    ensures |s| > 0 ==> ReplaceRuns(s, p, [c])[0] == (if p(s[0]) then c else s[0])
    decreases |s|
  {
    if |s| > 0 {
      var r := ReplaceRuns(s, p, [c]);
      if p(s[0]) {
        var t := LStripBy(s, p);
        LStripByShorter(s, p);
        if !p(c) {
          SuffixAbsent(s, |s| - |t|, c);
        }
        ReplaceRunsNoDouble(t, p, c);
        var rt := ReplaceRuns(t, p, [c]);
        assert r == [c] + rt;
        assert |rt| > 0 ==> rt[0] == t[0] && t[0] != c;
      } else {
        if !p(c) {
          SuffixAbsent(s, 1, c);
        }
        ReplaceRunsNoDouble(s[1..], p, c);
        assert r == [s[0]] + ReplaceRuns(s[1..], p, [c]);
      }
    }
  }

  /** A text that ends outside a run keeps its last character. */
  lemma {:induction false} ReplaceRunsLast(s: string, p: char -> bool, rep: string)
    requires |s| > 0 && !p(s[|s| - 1])
    ensures var r := ReplaceRuns(s, p, rep); |r| > 0 && r[|r| - 1] == s[|s| - 1]
    decreases |s|
  {
    var r := ReplaceRuns(s, p, rep);
    if p(s[0]) {
      var t := LStripBy(s, p);
      LStripByShorter(s, p);
      assert |t| > 0 && t[|t| - 1] == s[|s| - 1];
      ReplaceRunsLast(t, p, rep);
      assert r == rep + ReplaceRuns(t, p, rep);
    } else if |s| > 1 {
      ReplaceRunsLast(s[1..], p, rep);
      assert r == [s[0]] + ReplaceRuns(s[1..], p, rep);
    }
  }

  /** A one-character replacement never lengthens the text. */
  lemma {:induction false} ReplaceRunsShorter(s: string, p: char -> bool, c: char)
    ensures |ReplaceRuns(s, p, [c])| <= |s|
    decreases |s|
  {
    if |s| > 0 {
      if p(s[0]) {
        LStripByShorter(s, p);
        ReplaceRunsShorter(LStripBy(s, p), p, c);
      } else {
        ReplaceRunsShorter(s[1..], p, c);
      }
    }
  }

  /** When every run is already the single character `c`, replacing runs by `c` changes nothing. */
  lemma {:induction false} ReplaceRunsIdentity(s: string, p: char -> bool, c: char)
    requires forall i :: 0 <= i < |s| && p(s[i]) ==> s[i] == c
    requires forall i :: 0 <= i < |s| - 1 ==> !(p(s[i]) && p(s[i + 1]))
    ensures ReplaceRuns(s, p, [c]) == s
    decreases |s|
  {
    if |s| > 0 {
      ReplaceRunsIdentity(s[1..], p, c);
      if p(s[0]) {
        assert |s| == 1 || !p(s[1]);
        assert LStripBy(s, p) == LStripBy(s[1..], p) == s[1..];
      }
      assert s == [s[0]] + s[1..];
    }
  }

  /** Stripping keeps a character-class property and the absence of doubled characters. */
  lemma StripByKeeps(s: string, p: char -> bool, q: char -> bool, c: char)
    ensures |StripBy(s, p)| <= |s|
    ensures AllChars(s, q) ==> AllChars(StripBy(s, p), q)
    ensures NoDouble(s, c) ==> NoDouble(StripBy(s, p), c)
    ensures var r := StripBy(s, p); r == [] || (!p(r[0]) && !p(r[|r| - 1]))
  {
    var l := LStripBy(s, p);
    var r := RStripBy(l, p);
    SliceKeeps(s, l, r, q, c);
    if r != [] {
      assert r[0] == l[0];
    }
  }

  /** A slice `r` of `s` keeps a character-class property and the absence of doubled characters. */
  lemma SliceKeeps(s: string, l: string, r: string, q: char -> bool, c: char)
    requires |l| <= |s| && l == s[|s| - |l|..] && |r| <= |l| && r == l[..|r|]
    ensures AllChars(s, q) ==> AllChars(r, q)
    ensures NoDouble(s, c) ==> NoDouble(r, c)
  {
    var a := |s| - |l|;
    assert forall i :: 0 <= i < |r| ==> r[i] == s[a + i];
  }

  /** A prefix keeps a character-class property and the absence of doubled characters. */
  lemma PrefixKeeps(s: string, k: nat, q: char -> bool, c: char)
    requires k <= |s|
    ensures AllChars(s, q) ==> AllChars(s[..k], q)
    ensures NoDouble(s, c) ==> NoDouble(s[..k], c)
  {
  }

  /** `re.sub(r"\s+", " ", s)`. */
  function CollapseWs(s: string): string
  {
    ReplaceRuns(s, IsSpace, " ")
  }

  /** `re.sub(<class>, "", s)`: keep only the characters satisfying `keep`. */
  function Filter(s: string, keep: char -> bool): (r: string)
    ensures |r| <= |s|
    ensures AllChars(r, keep)
  {
    if |s| == 0 then "" else (if keep(s[0]) then [s[0]] else "") + Filter(s[1..], keep)
  }

  lemma {:induction false} FilterAllKept(s: string, keep: char -> bool)
    requires forall i :: 0 <= i < |s| ==> keep(s[i])
    ensures Filter(s, keep) == s
    decreases |s|
  {
    if |s| > 0 {
      FilterAllKept(s[1..], keep);
    }
  }

  lemma {:induction false} FilterConcat(a: string, b: string, keep: char -> bool)
    ensures Filter(a + b, keep) == Filter(a, keep) + Filter(b, keep)
    decreases |a|
  {
    if |a| > 0 {
      assert (a + b)[0] == a[0] && (a + b)[1..] == a[1..] + b;
      FilterConcat(a[1..], b, keep);
    } else {
      assert a + b == b;
    }
  }

  /** Filtering keeps any property all the input characters have. */
  lemma {:induction false} FilterKeeps(s: string, keep: char -> bool, q: char -> bool)
    requires AllChars(s, q)
    ensures AllChars(Filter(s, keep), q)
    decreases |s|
  {
    if |s| > 0 {
      FilterKeeps(s[1..], keep, q);
      AllCharsConcat(if keep(s[0]) then [s[0]] else "", Filter(s[1..], keep), q);
    }
  }

  lemma {:induction false} FilterNone(s: string, keep: char -> bool)
    requires forall i :: 0 <= i < |s| ==> !keep(s[i])
    ensures Filter(s, keep) == ""
    decreases |s|
  {
    if |s| > 0 {
      FilterNone(s[1..], keep);
    }
  }

  /** Filtering by `k1` and then by a narrower `k2` is filtering by `k2`. */
  lemma {:induction false} FilterFilter(s: string, k1: char -> bool, k2: char -> bool)
    requires forall c :: k2(c) ==> k1(c)
    ensures Filter(Filter(s, k1), k2) == Filter(s, k2)
    decreases |s|
  {
    if |s| > 0 {
      FilterFilter(s[1..], k1, k2);
      var head := if k1(s[0]) then [s[0]] else "";
      FilterConcat(head, Filter(s[1..], k1), k2);
    }
  }

  /** Every character of `s` in the class `p` is one that `keep` drops. */
  predicate DropsClass(s: string, p: char -> bool, keep: char -> bool)
  {
    forall i :: 0 <= i < |s| && p(s[i]) ==> !keep(s[i])
  }

  lemma SuffixDrops(s: string, k: nat, p: char -> bool, keep: char -> bool)
    requires k <= |s| && DropsClass(s, p, keep)
    ensures DropsClass(s[k..], p, keep)
  {
    assert forall i :: 0 <= i < |s| - k ==> s[k..][i] == s[k + i];
  }

  /** A prefix of characters the filter drops does not change the filtered text. */
  lemma {:induction false} FilterDropPrefix(s: string, k: nat, keep: char -> bool)
    requires k <= |s| && forall i :: 0 <= i < k ==> !keep(s[i])
    ensures Filter(s, keep) == Filter(s[k..], keep)
    decreases k
  {
    if k > 0 {
      FilterDropPrefix(s[1..], k - 1, keep);
      assert s[1..][k - 1..] == s[k..];
    }
  }

  /** A suffix of characters the filter drops does not change the filtered text. */
  lemma FilterDropSuffix(s: string, k: nat, keep: char -> bool)
    requires k <= |s| && forall i :: k <= i < |s| ==> !keep(s[i])
    ensures Filter(s, keep) == Filter(s[..k], keep)
  {
    assert s == s[..k] + s[k..];
    FilterConcat(s[..k], s[k..], keep);
    FilterNone(s[k..], keep);
  }

  /** Stripping characters the filter drops anyway does not change the filtered text. */
  lemma FilterStripBy(s: string, p: char -> bool, keep: char -> bool)
    requires DropsClass(s, p, keep)
    ensures Filter(StripBy(s, p), keep) == Filter(s, keep)
  {
    var l := LStripBy(s, p);
    var a := |s| - |l|;
    FilterDropPrefix(s, a, keep);
    SuffixDrops(s, a, p, keep);
    var r := RStripBy(l, p);
    FilterDropSuffix(l, |r|, keep);
  }

  /** Replacing runs of dropped characters by dropped characters does not change the filtered text. */
  lemma {:induction false} FilterReplaceRuns(s: string, p: char -> bool, rep: string, keep: char -> bool)
    requires DropsClass(s, p, keep) && Filter(rep, keep) == ""
    ensures Filter(ReplaceRuns(s, p, rep), keep) == Filter(s, keep)
    decreases |s|
  {
    if |s| > 0 {
      if p(s[0]) {
        var t := LStripBy(s, p);
        var a := |s| - |t|;
        LStripByShorter(s, p);
        SuffixDrops(s, a, p, keep);
        FilterReplaceRuns(t, p, rep, keep);
        FilterConcat(rep, ReplaceRuns(t, p, rep), keep);
        FilterDropPrefix(s, a, keep);
      } else {
        SuffixDrops(s, 1, p, keep);
        FilterReplaceRuns(s[1..], p, rep, keep);
        FilterConcat([s[0]], ReplaceRuns(s[1..], p, rep), keep);
      }
    }
  }

  // ---------------------------------------------------------------- slicing

  /** Python's normalisation of one slice bound for a sequence of length `n`. */
  function ClampIndex(i: int, n: nat): (r: nat)
    ensures r <= n
  {
    if i < 0 then (if i + n < 0 then 0 else i + n) else if i > n then n else i
  }

  /** `s[lo:hi]` with Python's treatment of negative and out-of-range bounds. */
  function PySlice<T>(s: seq<T>, lo: int, hi: int): (r: seq<T>)
    ensures 0 <= lo <= hi <= |s| ==> r == s[lo..hi]
    ensures |r| <= |s|
  {
    var a := ClampIndex(lo, |s|);
    var b := ClampIndex(hi, |s|);
    if a < b then s[a..b] else []
  }

  /** `s[:k]`. */
  function PyPrefix<T>(s: seq<T>, k: int): (r: seq<T>)
    ensures 0 <= k <= |s| ==> r == s[..k]
    ensures k >= |s| ==> r == s
  {
    PySlice(s, 0, k)
  }

  // ---------------------------------------------------------------- integers

  function DigitChar(d: nat): char
    requires d < 10
  {
    ('0' as int + d) as char
  }

  /** `str(n)` for a natural number. */
  function NatToString(n: nat): (r: string)
    ensures |r| >= 1
    ensures forall i :: 0 <= i < |r| ==> IsAsciiDigit(r[i])
  {
    if n < 10 then [DigitChar(n)] else NatToString(n / 10) + [DigitChar(n % 10)]
  }

  /** `str(i)`. */
  function IntToString(i: int): string
  {
    if i < 0 then "-" + NatToString(-i) else NatToString(i)
  }

  /** `f"{n:04d}"` for a natural number: zero-padded to at least four digits. */
  function Pad4(n: nat): (r: string)
    ensures |r| >= 4
  {
    var d := NatToString(n);
    if |d| >= 4 then d else seq(4 - |d|, _ => '0') + d
  }

  /**
   * `repr(s)`: single-quoted, or double-quoted when only single quotes occur.
   * Only the backslash, the quote, `\n`, `\r` and `\t` are escaped; other
   * non-printable characters are kept as they are.
   */
  function ReprStr(s: string): string
  {
    var q := if '\'' in s && '"' !in s then '"' else '\'';
    [q] + EscapeBody(s, q) + [q]
  }

  function EscapeBody(s: string, q: char): string
  {
    if |s| == 0 then ""
    else
      var c := s[0];
      var e :=
        if c == '\\' then "\\\\"
        else if c == q then ['\\', q]
        else if c == '\n' then "\\n"
        else if c == '\r' then "\\r"
        else if c == '\t' then "\\t"
        else [c];
      e + EscapeBody(s[1..], q)
  }

  /** `repr(list_of_str)`. */
  function ReprStrList(xs: seq<string>): string
  {
    "[" + Join(seq(|xs|, i requires 0 <= i < |xs| => ReprStr(xs[i])), ", ") + "]"
  }
}
