/**
 * `lcats/gettenberg/headers.py`: the non-blank lines of a Gutenberg
 * text's header, the part before "*** START".  A byte string is modelled
 * as a `string` whose characters are its bytes; UTF-8 decoding with errors
 * ignored is a parameter.
 */
module Headers {
  import opened Wrappers
  import opened PyStr

  /** The argument: bytes, or a `str`, on which `partition(b"...")` raises TypeError. */
  datatype Text = Bytes(bytes: string) | Chars(chars: string)

  const StartMarker := "*** START"

  /** The whitespace `bytes.strip()` removes. */
  predicate IsByteSpace(c: char) { c == ' ' || ('\t' <= c <= '\r') }

  /** A line boundary of `bytes.splitlines()`. */
  predicate IsBreak(c: char) { c == '\n' || c == '\r' }

  /** `s.partition(sep)[0]`: everything before the first `sep`, or all of `s`. */
  function Before(s: string, sep: string): (r: string)
    ensures r <= s
    ensures Find(s, sep) < 0 ==> r == s
    ensures Find(s, sep) >= 0 ==> MatchAt(s, sep, |r|) && forall j :: 0 <= j < |r| ==> !MatchAt(s, sep, j)
  {
    var i := Find(s, sep);
    if i < 0 then s else s[..i]
  }

  /** The first line boundary at or after `i`, or `|s|`. */
  function BreakFrom(s: string, i: nat): (r: nat)
    requires i <= |s|
    decreases |s| - i
    ensures i <= r <= |s| && (r < |s| ==> IsBreak(s[r]))
    ensures forall j :: i <= j < r ==> !IsBreak(s[j])
  {
    if i == |s| || IsBreak(s[i]) then i else BreakFrom(s, i + 1)
  }

  /**
   * `bytes.splitlines()`: lines end at "\n", "\r" or "\r\n", which are
   * dropped, and a final line boundary does not start an empty line.
   */
  function SplitLines(s: string): (r: seq<string>)
    decreases |s|
    ensures forall k, j :: 0 <= k < |r| && 0 <= j < |r[k]| ==> !IsBreak(r[k][j])
    ensures |s| == 0 <==> r == []
  {
    if |s| == 0 then []
    else
      var j := BreakFrom(s, 0);
      if j == |s| then [s]
      else
        var next := if s[j] == '\r' && j + 1 < |s| && s[j + 1] == '\n' then j + 2 else j + 1;
        [s[..j]] + SplitLines(s[next..])
  }

  /** Each line stripped of byte whitespace and decoded. */
  function Decoded(lines: seq<string>, decode: string -> string): (r: seq<string>)
    ensures |r| == |lines| && forall k :: 0 <= k < |lines| ==> r[k] == decode(StripBy(lines[k], IsByteSpace))
  {
    seq(|lines|, k requires 0 <= k < |lines| => decode(StripBy(lines[k], IsByteSpace)))
  }

  /** The lines that are not empty, in order. */
  function NonEmpty(lines: seq<string>): (r: seq<string>)
    ensures forall k :: 0 <= k < |r| ==> r[k] != "" && r[k] in lines
    ensures forall k :: 0 <= k < |lines| && lines[k] != "" ==> lines[k] in r
  {
    if |lines| == 0 then []
    else (if lines[0] != "" then [lines[0]] else []) + NonEmpty(lines[1..])
  }

  /** Filtering is done line by line, so the kept lines come in the order of the source lines. */
  lemma {:induction false} NonEmptyAppend(a: seq<string>, b: seq<string>)
    ensures NonEmpty(a + b) == NonEmpty(a) + NonEmpty(b)
  {
    if |a| > 0 {
      assert (a + b)[1..] == a[1..] + b;
      NonEmptyAppend(a[1..], b);
    } else {
      assert a + b == b;
    }
  }

  /** `list(get_text_header_lines(text))`. */
  function HeaderLines(text: Text, decode: string -> string): (r: Result<seq<string>>)
    ensures r.Err? <==> text.Chars?
    ensures r.Err? ==> r.error.kind == TypeError
    ensures r.Ok? ==> forall k :: 0 <= k < |r.value| ==> r.value[k] != ""
  {
    match text
    case Chars(_) => Err(Exception(TypeError, "must be str, not bytes"))
    case Bytes(b) => Ok(NonEmpty(Decoded(SplitLines(Before(b, StartMarker)), decode)))
  }

  /** A found occurrence is still the first one once more text follows. */
  lemma {:induction false} FindFromExtend(s: string, t: string, pat: string, start: nat)
    requires FindFrom(s, pat, start) >= 0
    ensures FindFrom(s + t, pat, start) == FindFrom(s, pat, start)
    decreases |s| - start
  {
    assert (s + t)[start..start + |pat|] == s[start..start + |pat|];
    if s[start..start + |pat|] != pat {
      FindFromExtend(s, t, pat, start + 1);
    }
  }

  /** Nothing after the first "*** START" is read: the rest of the text makes no difference. */
  lemma HeaderIgnoresRest(pre: string, rest: string, decode: string -> string)
    ensures HeaderLines(Bytes(pre + StartMarker + rest), decode) == HeaderLines(Bytes(pre + StartMarker), decode)
  {
    var s := pre + StartMarker;
    assert MatchAt(s, StartMarker, |pre|);
    FindFromExtend(s, rest, StartMarker, 0);
    var i := Find(s, StartMarker);
    assert (s + rest)[..i] == s[..i];
  }

  /** Stripping leaves no stripped character at either end. */
  lemma StripByEnds(s: string, p: char -> bool)
    ensures var r := StripBy(s, p); r == [] || (!p(r[0]) && !p(r[|r| - 1]))
  {
    var l := LStripBy(s, p);
    var r := RStripBy(l, p);
    if r != [] {
      assert r[0] == l[0];
    }
  }

  /**
   * With a decoder that changes nothing (an ASCII header), every yielded
   * line is stripped: it neither starts nor ends with byte whitespace.
   */
  lemma AsciiLinesStripped(b: string)
    ensures var r := HeaderLines(Bytes(b), s => s).value;
      forall k :: 0 <= k < |r| ==> !IsByteSpace(r[k][0]) && !IsByteSpace(r[k][|r[k]| - 1])
  {
    var lines := SplitLines(Before(b, StartMarker));
    var d := Decoded(lines, s => s);
    var r := NonEmpty(d);
    forall k | 0 <= k < |r| ensures !IsByteSpace(r[k][0]) && !IsByteSpace(r[k][|r[k]| - 1]) {
      var j :| 0 <= j < |d| && d[j] == r[k];
      StripByEnds(lines[j], IsByteSpace);
    }
  }
}
