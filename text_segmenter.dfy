/**
 * Paragraph indexing and anchor alignment of `lcats/analysis/text_segmenter.py`
 * (lines 1-226 of that file also appear, unchanged, as
 * `lcats/analysis/text_indexing.py`).  A story is split into paragraphs
 * whose absolute `(start, end)` character spans are recorded; an LLM reports
 * each segment by 1-based paragraph ids and verbatim anchor strings, and the
 * aligner turns those into character offsets.
 */
module TextSegmenter {
  import opened Wrappers
  import opened PyStr
  import opened Json

  /** A `(start, end)` pair of absolute character offsets. */
  type Span = (int, int)

  // ---------------------------------------------------------------- single-character replacement

  /** Every occurrence of the character `a` replaced by `b`. */
  function MapChar(s: string, a: char, b: char): (r: string)
    ensures |r| == |s|
    ensures forall i :: 0 <= i < |s| ==> r[i] == if s[i] == a then b else s[i]
  {
    seq(|s|, i requires 0 <= i < |s| => if s[i] == a then b else s[i])
  }

  lemma MapCharConcat(x: string, y: string, a: char, b: char)
    ensures MapChar(x + y, a, b) == MapChar(x, a, b) + MapChar(y, a, b)
  {
  }

  /** When the first character of `pat` never occurs in `s`, neither does `pat`. */
  lemma FirstCharAbsent(s: string, pat: string)
    requires |pat| > 0 && pat[0] !in s
    ensures Find(s, pat) == -1
  {
  }

  /** No character before the first match of the one-character pattern `[a]` is `a`. */
  lemma BeforeFirstChar(s: string, a: char)
    ensures var i := Find(s, [a]);
      (i == -1 ==> a !in s) && (i != -1 ==> 0 <= i < |s| && s[i] == a && a !in s[..i])
  {
    var i := Find(s, [a]);
    forall j | 0 <= j < |s| && (i == -1 || j < i) ensures s[j] != a {
      assert !MatchAt(s, [a], j);
      assert s[j..j + 1] == [s[j]];
    }
    if i != -1 {
      assert MatchAt(s, [a], i);
      assert s[i..i + 1] == [s[i]];
    }
  }

  /** `s.replace(a, b)` for one-character strings is a character map. */
  lemma {:induction false} ReplaceOneChar(s: string, a: char, b: char)
    ensures Replace(s, [a], [b]) == MapChar(s, a, b)
    decreases |s|
  {
    var i := Find(s, [a]);
    BeforeFirstChar(s, a);
    if i < 0 {
      assert MapChar(s, a, b) == s;
    } else {
      ReplaceOneCharAt(s, a, b, i);
      ReplaceOneChar(s[i + 1..], a, b);
      MapCharAt(s, a, b, i);
    }
  }

  /** At the first `a`, replacing splits into the part before, `b`, and the replaced rest. */
  lemma ReplaceOneCharAt(s: string, a: char, b: char, i: int)
    requires i == Find(s, [a]) && 0 <= i < |s| && s[i] == a && a !in s[..i]
    ensures Replace(s, [a], [b]) == s[..i] + [b] + Replace(s[i + 1..], [a], [b])
  {
    var pre := s[..i];
    var parts := Split(s[i + 1..], [a]);
    assert Split(s, [a]) == [pre] + parts;
    JoinCons(pre, parts, [b]);
  }

  /** Mapping `a` to `b` in a string whose first `a` is at `i`. */
  lemma MapCharAt(s: string, a: char, b: char, i: int)
    requires 0 <= i < |s| && s[i] == a && a !in s[..i]
    ensures MapChar(s, a, b) == s[..i] + [b] + MapChar(s[i + 1..], a, b)
  {
    var pre, rest := s[..i], s[i + 1..];
    assert MapChar(pre, a, b) == pre;
    assert MapChar([a], a, b) == [b];
    assert s == pre + [a] + rest;
    MapCharConcat(pre + [a], rest, a, b);
    MapCharConcat(pre, [a], a, b);
  }

  // ---------------------------------------------------------------- canonicalize_text

  /** `canonicalize_text`: CRLF, then any remaining CR, become LF. */
  function CanonicalizeText(s: string): string
  {
    Replace(Replace(s, "\r\n", "\n"), "\r", "\n")
  }

  /** The canonical text has no carriage return, and a text without one is left as it is. */
  lemma CanonicalizeTextNoCr(s: string)
    ensures '\r' !in CanonicalizeText(s)
    ensures '\r' !in s ==> CanonicalizeText(s) == s
  {
    var t := Replace(s, "\r\n", "\n");
    ReplaceOneChar(t, '\r', '\n');
    assert CanonicalizeText(s) == MapChar(t, '\r', '\n');
    if '\r' !in s {
      FirstCharAbsent(s, "\r\n");
      ReplaceAbsent(s, "\r\n", "\n");
      assert MapChar(s, '\r', '\n') == s;
    }
  }

  // ---------------------------------------------------------------- build_paragraph_index

  /**
   * The contract of `build_paragraph_index`: the parts are `text.split(sep)`,
   * there is one span per part and `text[s:e]` is that part, and the spans are
   * contiguous: the first starts at 0, each next one starts `|sep|` after the
   * previous end, and the last ends at `|text|`.
   */
  predicate IsParagraphIndex(text: string, sep: string, parts: seq<string>, spans: seq<Span>)
    requires |sep| > 0
  {
    && parts == Split(text, sep)
    && |spans| == |parts| && |spans| > 0
    && spans[0].0 == 0
    && spans[|spans| - 1].1 == |text|
    && (forall k :: 0 <= k < |spans| ==>
          0 <= spans[k].0 <= spans[k].1 <= |text| && text[spans[k].0..spans[k].1] == parts[k])
    && (forall k :: 0 < k < |spans| ==> spans[k].0 == spans[k - 1].1 + |sep|)
  }

  /** A join starts with its first part, followed by the separator and the join of the rest. */
  lemma JoinHead(parts: seq<string>, sep: string)
    requires |parts| > 0
    ensures var t := Join(parts, sep);
      |parts[0]| <= |t| && t[..|parts[0]|] == parts[0]
      && (|parts| == 1 ==> t == parts[0])
      && (|parts| > 1 ==> |parts[0]| + |sep| <= |t| && t[|parts[0]| + |sep|..] == Join(parts[1..], sep))
  {
    if |parts| > 1 {
      var t := Join(parts, sep);
      assert t == parts[0] + sep + Join(parts[1..], sep);
      assert t == parts[0] + (sep + Join(parts[1..], sep));
    }
  }

  /** Reading `text[i:]` as the join of the remaining chunks: the next chunk sits at `i`. */
  lemma ChunkStep(text: string, chunks: seq<string>, idx: nat, i: nat, sep: string)
    requires |sep| > 0 && idx < |chunks| && i <= |text| && text[i..] == Join(chunks[idx..], sep)
    ensures MatchAt(text, chunks[idx], i)
    ensures idx + 1 < |chunks| ==>
      i + |chunks[idx]| + |sep| <= |text| && text[i + |chunks[idx]| + |sep|..] == Join(chunks[idx + 1..], sep)
    ensures idx + 1 == |chunks| ==> i + |chunks[idx]| == |text|
  {
    var rest := chunks[idx..];
    var t := Join(rest, sep);
    JoinHead(rest, sep);
    assert rest[0] == chunks[idx];
    ShiftMatch(text, i, t, chunks[idx]);
    if idx + 1 < |chunks| {
      ChunkStepRest(text, chunks, idx, i, sep, rest, t);
    } else {
      assert |rest| == 1;
    }
  }

  /** The rest of `text[i:]`, after the next chunk and a separator, is the join of the chunks after it. */
  lemma ChunkStepRest(text: string, chunks: seq<string>, idx: nat, i: nat, sep: string, rest: seq<string>, t: string)
    requires idx + 1 < |chunks| && rest == chunks[idx..] && i <= |text| && text[i..] == t
    requires |rest[0]| + |sep| <= |t| && t[|rest[0]| + |sep|..] == Join(rest[1..], sep)
    ensures i + |chunks[idx]| + |sep| <= |text| && text[i + |chunks[idx]| + |sep|..] == Join(chunks[idx + 1..], sep)
  {
    assert rest[1..] == chunks[idx + 1..];
    ShiftRest(text, i, t, |chunks[idx]| + |sep|, Join(chunks[idx + 1..], sep));
  }

  /** A prefix of the suffix `text[i..]` occurs in `text` at `i`. */
  lemma ShiftMatch(text: string, i: nat, t: string, c: string)
    requires i <= |text| && text[i..] == t && |c| <= |t| && t[..|c|] == c
    ensures MatchAt(text, c, i)
  {
    assert text[i..i + |c|] == t[..|c|];
  }

  /** A suffix of the suffix `text[i..]` is a suffix of `text`. */
  lemma ShiftRest(text: string, i: nat, t: string, k: nat, r: string)
    requires i <= |text| && text[i..] == t && k <= |t| && t[k..] == r
    ensures i + k <= |text| && text[i + k..] == r
  {
    assert text[i + k..] == t[k..];
  }

  /** The spans recorded for the first `idx` chunks. */
  ghost predicate SpansSoFar(text: string, chunks: seq<string>, spans: seq<Span>, sep: string)
    requires |spans| <= |chunks|
  {
    && (forall k :: 0 <= k < |spans| ==>
          0 <= spans[k].0 && spans[k].1 == spans[k].0 + |chunks[k]| && MatchAt(text, chunks[k], spans[k].0))
    && (forall k, l :: 0 <= k && l == k + 1 && l < |spans| ==> spans[l].0 == spans[k].1 + |sep|)
  }

  lemma SpansExtend(text: string, chunks: seq<string>, spans: seq<Span>, sep: string, j: int)
    requires |spans| < |chunks| && SpansSoFar(text, chunks, spans, sep)
    requires MatchAt(text, chunks[|spans|], j)
    requires |spans| > 0 ==> j == spans[|spans| - 1].1 + |sep|
    ensures SpansSoFar(text, chunks, spans + [(j, j + |chunks[|spans|]|)], sep)
  {
  }

  /** One round of the loop below: the chunk is found at `i`, and past it and the separator the rest of the join begins. */
  lemma ChunkSpansStep(text: string, chunks: seq<string>, spans: seq<Span>, sep: string, i: nat)
    requires |sep| > 0 && |spans| < |chunks| && i <= |text| && text[i..] == Join(chunks[|spans|..], sep)
    requires |spans| > 0 ==> i == spans[|spans| - 1].1 + |sep|
    requires SpansSoFar(text, chunks, spans, sep)
    ensures FindFrom(text, chunks[|spans|], i) == i
    ensures SpansSoFar(text, chunks, spans + [(i, i + |chunks[|spans|]|)], sep)
    ensures |spans| + 1 < |chunks| ==>
      i + |chunks[|spans|]| + |sep| <= |text| && text[i + |chunks[|spans|]| + |sep|..] == Join(chunks[|spans| + 1..], sep)
    ensures |spans| + 1 == |chunks| ==> i + |chunks[|spans|]| == |text|
  {
    ChunkStep(text, chunks, |spans|, i, sep);
    FindFromHere(text, chunks[|spans|], i);
    SpansExtend(text, chunks, spans, sep, i);
  }

  /** All chunks recorded, from 0 to the end of the text: the index is complete. */
  lemma SpansComplete(text: string, sep: string, chunks: seq<string>, spans: seq<Span>)
    requires |sep| > 0 && chunks == Split(text, sep) && |spans| == |chunks|
    requires SpansSoFar(text, chunks, spans, sep)
    requires spans[0].0 == 0 && spans[|spans| - 1].1 == |text|
    ensures IsParagraphIndex(text, sep, chunks, spans)
  {
    forall k | 0 <= k < |spans|
      ensures 0 <= spans[k].0 <= spans[k].1 <= |text| && text[spans[k].0..spans[k].1] == chunks[k]
    {
      assert MatchAt(text, chunks[k], spans[k].0);
    }
  }

  /**
   * The loop of `build_paragraph_index` over the chunks of `text`: each chunk
   * is searched from the running position `i`, which then moves past the chunk
   * and the splitter.
   */
  method ChunkSpans(text: string, chunks: seq<string>, splitter: string) returns (parts: seq<string>, spans: seq<Span>)
    requires |splitter| > 0 && |chunks| > 0 && text == Join(chunks, splitter)
    ensures parts == chunks && |spans| == |chunks|
    ensures SpansSoFar(text, chunks, spans, splitter)
    ensures spans[0].0 == 0 && spans[|spans| - 1].1 == |text|
  {
    parts := [];
    spans := [];
    var i := 0;
    var idx := 0;
    assert chunks[0..] == chunks && text[0..] == text;
    while idx < |chunks|
      invariant 0 <= idx <= |chunks|
      invariant parts == chunks[..idx] && |spans| == idx
      invariant 0 <= i
      invariant idx < |chunks| ==> i <= |text| && text[i..] == Join(chunks[idx..], splitter)
      invariant idx == 0 ==> i == 0
      invariant idx > 0 ==> spans[0].0 == 0 && i == spans[idx - 1].1 + |splitter|
      invariant idx == |chunks| ==> spans[idx - 1].1 == |text|
      invariant SpansSoFar(text, chunks, spans, splitter)
    {
      var chunk := chunks[idx];
      ChunkSpansStep(text, chunks, spans, splitter, i);
      var j := FindFrom(text, chunk, i);
      if j == -1 {
        j := i;
      }
      assert j == i;
      var k := j + |chunk|;
      parts := parts + [chunk];
      spans := spans + [(j, k)];
      i := k + |splitter|;
      idx := idx + 1;
      assert chunks[..idx] == chunks[..idx - 1] + [chunk];
    }
    assert chunks[..idx] == chunks;
  }

  /** `build_paragraph_index(text, splitter)`; an empty splitter raises ValueError, as `str.split` does. */
  method BuildParagraphIndex(text: string, splitter: string) returns (r: Result<(seq<string>, seq<Span>)>)
    ensures |splitter| == 0 ==> r == Err(Exception(ValueError, "empty separator"))
    ensures |splitter| > 0 ==> r.Ok? && IsParagraphIndex(text, splitter, r.value.0, r.value.1)
  {
    if |splitter| == 0 {
      return Err(Exception(ValueError, "empty separator"));
    }
    var chunks := Split(text, splitter);
    SplitJoin(text, splitter);
    var parts, spans := ChunkSpans(text, chunks, splitter);
    SpansComplete(text, splitter, chunks, spans);
    return Ok((parts, spans));
  }

  // ---------------------------------------------------------------- add_paragraph_markers

  /** The `[P%04d] ` marker of the paragraph with 1-based number `k`. */
  function Marker(k: nat): string
  {
    "[P" + Pad4(k) + "] "
  }

  /** `"".join(xs)`. */
  function Concat(xs: seq<string>): string
  {
    if |xs| == 0 then "" else xs[0] + Concat(xs[1..])
  }

  /** The piece the generator of `add_paragraph_markers` produces for paragraph `idx`. */
  function MarkedPiece(paragraphs: seq<string>, idx: nat, delimiter: string): string
    requires idx < |paragraphs|
  {
    Marker(idx + 1) + paragraphs[idx] + (if idx < |paragraphs| - 1 then delimiter else "")
  }

  /** `add_paragraph_markers(paragraphs, delimiter)`. */
  function AddParagraphMarkers(paragraphs: seq<string>, delimiter: string): string
  {
    Concat(seq(|paragraphs|, idx requires 0 <= idx < |paragraphs| => MarkedPiece(paragraphs, idx, delimiter)))
  }

  /** Strings each followed by the delimiter except the last, concatenated, are their join. */
  lemma {:induction false} ConcatDelimited(m: seq<string>, d: string)
    ensures Concat(seq(|m|, k requires 0 <= k < |m| => m[k] + (if k < |m| - 1 then d else ""))) == Join(m, d)
    decreases |m|
  {
    var pieces := seq(|m|, k requires 0 <= k < |m| => m[k] + (if k < |m| - 1 then d else ""));
    if |m| == 1 {
      assert m[0] + "" == m[0];
      assert pieces == [m[0]];
      assert Concat(pieces) == m[0] + Concat([]);
    } else if |m| > 1 {
      var tail := m[1..];
      ConcatDelimited(tail, d);
      assert pieces[1..] == seq(|tail|, k requires 0 <= k < |tail| => tail[k] + (if k < |tail| - 1 then d else ""));
      assert pieces[0] == m[0] + d;
    }
  }

  /**
   * The k-th paragraph (1-based) is prefixed with `[P%04d] `, and the delimiter
   * appears only between paragraphs: the result is the delimiter-join of the
   * marked paragraphs.
   */
  lemma AddParagraphMarkersIsJoin(paragraphs: seq<string>, delimiter: string)
    ensures AddParagraphMarkers(paragraphs, delimiter)
      == Join(seq(|paragraphs|, k requires 0 <= k < |paragraphs| => Marker(k + 1) + paragraphs[k]), delimiter)
  {
    var m := seq(|paragraphs|, k requires 0 <= k < |paragraphs| => Marker(k + 1) + paragraphs[k]);
    ConcatDelimited(m, delimiter);
    var marked := seq(|paragraphs|, idx requires 0 <= idx < |paragraphs| => MarkedPiece(paragraphs, idx, delimiter));
    var pieces := seq(|m|, k requires 0 <= k < |m| => m[k] + (if k < |m| - 1 then delimiter else ""));
    forall k | 0 <= k < |m| ensures marked[k] == pieces[k] {
      assert m[k] == Marker(k + 1) + paragraphs[k];
    }
    assert marked == pieces;
  }

  // ---------------------------------------------------------------- find_anchor_in_range

  /** `_norm_ws`: every whitespace run becomes a single space (the ends are not trimmed). */
  function NormWs(s: string): string
  {
    CollapseWs(s)
  }

  /**
   * `start_guess`: `max(0, int(pos_n * (len(segment) / max(1, len(seg_n))) - 20))`,
   * computed exactly rather than in floating point.
   */
  function StartGuess(posN: nat, segLen: nat, segNLen: nat): nat
  {
    var m := if segNLen > 1 then segNLen else 1;
    var x := (posN * segLen - 20 * m) / m;
    if x > 0 then x else 0
  }

  /** A slice of a slice is a slice. */
  lemma SubSlice(s: string, lo: int, hi: int, p: int, q: int)
    requires 0 <= lo <= hi <= |s| && 0 <= p <= q <= hi - lo
    ensures s[lo..hi][p..q] == s[lo + p..lo + q]
  {
    var w := s[lo..hi];
    assert forall t :: 0 <= t < q - p ==> w[p..q][t] == w[p + t] == s[lo + p + t];
  }

  /** `s[lo:hi]` read at offset `p` is `s` read at offset `lo + p`, with `lo` clamped. */
  lemma SliceWindow(s: string, a: int, b: int, p: int, len: nat)
    requires len > 0 && 0 <= p && p + len <= |PySlice(s, a, b)|
    ensures ClampIndex(a, |s|) + p + len <= ClampIndex(b, |s|)
    ensures PySlice(s, a, b)[p..p + len] == s[ClampIndex(a, |s|) + p..ClampIndex(a, |s|) + p + len]
  {
    var lo := ClampIndex(a, |s|);
    var hi := ClampIndex(b, |s|);
    if lo < hi {
      assert PySlice(s, a, b) == s[lo..hi];
      SubSlice(s, lo, hi, p, p + len);
    }
  }

  /** A match inside a slice of `s` is a match inside `s`. */
  lemma MatchInSlice(s: string, pat: string, a: int, b: int, p: int)
    requires |pat| > 0 && MatchAt(PySlice(s, a, b), pat, p)
    ensures ClampIndex(a, |s|) + p + |pat| <= ClampIndex(b, |s|)
    ensures MatchAt(s, pat, ClampIndex(a, |s|) + p)
  {
    SliceWindow(s, a, b, p, |pat|);
  }

  /** No match inside the clamped window when the slice search fails. */
  lemma NoMatchInWindow(text: string, anchor: string, lo: int, hi: int)
    requires |anchor| > 0 && Find(PySlice(text, lo, hi), anchor) == -1
    ensures forall j :: ClampIndex(lo, |text|) <= j && j + |anchor| <= ClampIndex(hi, |text|) ==> !MatchAt(text, anchor, j)
  {
    var a := ClampIndex(lo, |text|);
    var b := ClampIndex(hi, |text|);
    forall j | a <= j && j + |anchor| <= b
      ensures !MatchAt(text, anchor, j)
    {
      assert PySlice(text, lo, hi) == text[a..b];
      SliceWindow(text, lo, hi, j - a, |anchor|);
      assert !MatchAt(PySlice(text, lo, hi), anchor, j - a);
    }
  }

  /**
   * The whitespace-insensitive fallback of `find_anchor_in_range` searches a
   * window cut out of the segment, so once the exact search of the whole
   * segment has failed it cannot succeed, wherever the window starts.
   */
  lemma WindowNeverMatches(segment: string, anchor: string, g: int, w: int)
    requires |anchor| > 0 && Find(segment, anchor) == -1
    ensures Find(PySlice(segment, g, g + w), anchor) == -1
  {
    var f := Find(PySlice(segment, g, g + w), anchor);
    if f != -1 {
      MatchInSlice(segment, anchor, g, g + w, f);
      assert false;
    }
  }

  /**
   * The fallback branch: locate the whitespace-normalised anchor in the
   * normalised segment, guess a start in the original segment, and search the
   * anchor verbatim in a window of `len(anchor) + 200` characters from there.
   * The offset is relative to the segment.
   */
  function FallbackSearch(segment: string, anchor: string): (r: Option<int>)
    requires |anchor| > 0
    ensures r.Some? ==> MatchAt(segment, anchor, r.value)
  {
    var ancN := NormWs(anchor);
    var segN := NormWs(segment);
    var posN := Find(segN, ancN);
    if posN == -1 then None
    else
      var g := StartGuess(posN, |segment|, |segN|);
      var window := PySlice(segment, g, g + |anchor| + 200);
      var pos2 := Find(window, anchor);
      if pos2 == -1 then None
      else
        MatchInSlice(segment, anchor, g, g + |anchor| + 200, pos2);
        Some(g + pos2)
  }

  /** `find_anchor_in_range(text, anchor, lo, hi)`. */
  function FindAnchorInRange(text: string, anchor: string, lo: int, hi: int): (r: Option<int>)
    ensures IsBlank(anchor) ==> r == None
    ensures r.Some? && 0 <= lo <= hi <= |text| ==>
      lo <= r.value && r.value + |anchor| <= hi && MatchAt(text, anchor, r.value)
    ensures r.None? && !IsBlank(anchor) && 0 <= lo <= hi <= |text| ==>
      forall j :: lo <= j && j + |anchor| <= hi ==> !MatchAt(text, anchor, j)
  {
    if IsBlank(anchor) then None
    else
      var segment := PySlice(text, lo, hi);
      var pos := Find(segment, anchor);
      if pos != -1 then
        MatchInSlice(text, anchor, lo, hi, pos);
        Some(lo + pos)
      else
        NoMatchInWindow(text, anchor, lo, hi);
        match FallbackSearch(segment, anchor)
        case Some(p) => Some(lo + p)
        case None => None
  }

  /** The result is that of the exact search alone: the fallback never contributes. */
  lemma AnchorFallbackNeverFinds(text: string, anchor: string, lo: int, hi: int)
    ensures !IsBlank(anchor) ==>
      FindAnchorInRange(text, anchor, lo, hi)
        == (var pos := Find(PySlice(text, lo, hi), anchor); if pos != -1 then Some(lo + pos) else None)
  {
    StripEmptyIffBlank(anchor);
    if !IsBlank(anchor) {
      var segment := PySlice(text, lo, hi);
      if Find(segment, anchor) == -1 {
        var f := FallbackSearch(segment, anchor);
      }
    }
  }

  // ---------------------------------------------------------------- align_segment

  /** `max(1, min(id, n)) - 1`: a 1-based paragraph id clamped to a 0-based index. */
  function ClampId(id: int, n: nat): int
  {
    (if id < n then (if id > 1 then id else 1) else (if n > 1 then n else 1)) - 1
  }

  lemma ClampIdRange(id: int, n: nat)
    requires n > 0
    ensures 0 <= ClampId(id, n) < n
    ensures 1 <= id <= n ==> ClampId(id, n) == id - 1
    ensures id < 1 ==> ClampId(id, n) == 0
    ensures id > n ==> ClampId(id, n) == n - 1
  {
  }

  /** The paragraph index pair `(sp, ep)`, with a reversed end lifted to the start. */
  function ParagraphRange(startId: int, endId: int, n: nat): (int, int)
  {
    var sp := ClampId(startId, n);
    var ep := ClampId(endId, n);
    (sp, if ep < sp then sp else ep)
  }

  /** `0 <= s < len(text)`, `0 < e <= len(text)` and `e > s`. */
  predicate ValidTextSpan(text: string, s: int, e: int)
  {
    0 <= s < |text| && 0 < e <= |text| && e > s
  }

  /**
   * `align_segment(text, para_spans, start_par_id, end_par_id, start_exact,
   * end_exact)`.  Indexing an empty `para_spans` raises IndexError.
   */
  function AlignSegment(text: string, paraSpans: seq<Span>, startId: int, endId: int,
                        startExact: string, endExact: string): (r: Result<Option<Span>>)
    ensures |paraSpans| == 0 <==> r.Err?
    ensures r.Err? ==> r.error.kind == IndexError
    ensures r.Ok? && r.value.Some? ==> 0 <= r.value.value.0 < r.value.value.1 <= |text|
  {
    var n := |paraSpans|;
    var (sp, ep) := ParagraphRange(startId, endId, n);
    if n == 0 then Err(Exception(IndexError, "list index out of range"))
    else
      ClampIdRange(startId, n);
      ClampIdRange(endId, n);
      var lo := paraSpans[sp].0;
      var hi := paraSpans[ep].1;
      var sIdx :=
        if !IsBlank(startExact) then
          (match FindAnchorInRange(text, startExact, lo, hi) case Some(p) => p case None => lo)
        else lo;
      var eIdx :=
        if !IsBlank(endExact) then
          (match FindAnchorInRange(text, endExact, sIdx, hi) case Some(p) => p + |endExact| case None => hi)
        else hi;
      if ValidTextSpan(text, sIdx, eIdx) then Ok(Some((sIdx, eIdx))) else Ok(None)
  }

  /** With blank anchors the segment is the span of its paragraphs, when that span is valid. */
  lemma AlignBlankAnchors(text: string, paraSpans: seq<Span>, startId: int, endId: int,
                          startExact: string, endExact: string)
    requires |paraSpans| > 0 && IsBlank(startExact) && IsBlank(endExact)
    ensures var (sp, ep) := ParagraphRange(startId, endId, |paraSpans|);
      0 <= sp <= ep < |paraSpans|
      && var lo := paraSpans[sp].0;
      var hi := paraSpans[ep].1;
      AlignSegment(text, paraSpans, startId, endId, startExact, endExact)
        == Ok(if ValidTextSpan(text, lo, hi) then Some((lo, hi)) else None)
  {
    ClampIdRange(startId, |paraSpans|);
    ClampIdRange(endId, |paraSpans|);
  }

  /**
   * When the anchors occur verbatim inside the paragraph window, the aligned
   * segment starts at an occurrence of the start anchor and ends just after an
   * occurrence of the end anchor.
   */
  lemma AlignFollowsAnchors(text: string, paraSpans: seq<Span>, startId: int, endId: int,
                            startExact: string, endExact: string)
    requires |paraSpans| > 0
    requires var (sp, ep) := ParagraphRange(startId, endId, |paraSpans|);
      0 <= sp < |paraSpans| && 0 <= ep < |paraSpans| && 0 <= paraSpans[sp].0 <= paraSpans[ep].1 <= |text|
    requires AlignSegment(text, paraSpans, startId, endId, startExact, endExact).Ok?
    requires AlignSegment(text, paraSpans, startId, endId, startExact, endExact).value.Some?
    ensures var (sp, ep) := ParagraphRange(startId, endId, |paraSpans|);
      var (s, e) := AlignSegment(text, paraSpans, startId, endId, startExact, endExact).value.value;
      ((!IsBlank(startExact) && FindAnchorInRange(text, startExact, paraSpans[sp].0, paraSpans[ep].1).Some?)
         ==> MatchAt(text, startExact, s))
      && ((!IsBlank(endExact) && s <= paraSpans[ep].1 && FindAnchorInRange(text, endExact, s, paraSpans[ep].1).Some?)
         ==> e >= |endExact| && MatchAt(text, endExact, e - |endExact|))
  {
    ClampIdRange(startId, |paraSpans|);
    ClampIdRange(endId, |paraSpans|);
  }

  // ---------------------------------------------------------------- paragraph_text_indexer

  /** The `index_meta` dictionary handed from the indexer to the aligner and the auditor. */
  datatype IndexMeta = IndexMeta(canonicalText: string, splitter: string, paraSpans: seq<Span>, nParagraphs: nat)

  /** `paragraph_text_indexer(story_text)`. */
  method ParagraphTextIndexer(storyText: string) returns (indexed: string, meta: IndexMeta)
    ensures meta.canonicalText == CanonicalizeText(storyText) && '\r' !in meta.canonicalText
    ensures meta.splitter == "\n\n"
    ensures meta.nParagraphs == |meta.paraSpans|
    ensures IsParagraphIndex(meta.canonicalText, "\n\n", Split(meta.canonicalText, "\n\n"), meta.paraSpans)
    ensures indexed == AddParagraphMarkers(Split(meta.canonicalText, "\n\n"), "\n\n")
  {
    var text := CanonicalizeText(storyText);
    CanonicalizeTextNoCr(storyText);
    var idx := BuildParagraphIndex(text, "\n\n");
    var (paragraphs, paraSpans) := idx.value;
    indexed := AddParagraphMarkers(paragraphs, "\n\n");
    meta := IndexMeta(text, "\n\n", paraSpans, |paragraphs|);
  }

  // ---------------------------------------------------------------- segments_result_aligner

  /** Every value is a dictionary. */
  predicate AllObjects(items: seq<Value>)
  {
    forall k :: 0 <= k < |items| ==> items[k].Obj?
  }

  /**
   * The auditor's `list(parsed_output.get("segments") or [])` with the
   * `seg.get(...)` that follows on each element: a missing or falsy value is
   * no segments; a truthy int or bool is not iterable (`TypeError`); any
   * other value that is not a list of dictionaries yields an element without
   * `get` (`AttributeError`: a string and a dictionary iterate to strings).
   */
  function SegmentList(v: Option<Value>): (r: Result<seq<map<string, Value>>>)
    ensures v.None? || !Truthy(v.value) ==> r == Ok([])
    ensures r.Err? <==> v.Some? && Truthy(v.value) && !(v.value.Arr? && AllObjects(v.value.items))
    ensures r.Err? ==> (r.error.kind == TypeError <==> v.value.Int? || v.value.Bool?)
    ensures r.Err? ==> r.error.kind == TypeError || r.error.kind == AttributeError
    ensures r.Ok? && v.Some? && v.value.Arr? ==>
      |r.value| == |v.value.items| && forall k :: 0 <= k < |r.value| ==> v.value.items[k] == Obj(r.value[k])
  {
    if v.None? || !Truthy(v.value) then Ok([])
    else match v.value
      case Arr(items) =>
        if AllObjects(items) then Ok(ObjFields(items))
        else Err(Exception(AttributeError, "segment has no attribute 'get'"))
      case Str(_) => Err(Exception(AttributeError, "'str' object has no attribute 'get'"))
      case Obj(_) => Err(Exception(AttributeError, "'str' object has no attribute 'get'"))
      case _ => Err(Exception(TypeError, "segments is not iterable"))
  }

  /**
   * The aligner's `list(obj.get("segments") or [])` followed by `dict(seg)`
   * on each element: a missing or falsy value is no segments; a list gives
   * the dictionaries of its elements; a string iterates to one-character
   * strings, which `dict` rejects; a dictionary iterates to its keys, of which
   * only the empty string converts (to `{}`); an int or bool is not iterable.
   */
  function AlignerSegments(v: Option<Value>): (r: Result<seq<map<string, Value>>>)
    ensures v.None? || !Truthy(v.value) ==> r == Ok([])
    ensures v.Some? && v.value.Arr? ==>
      (r.Ok? <==> forall k :: 0 <= k < |v.value.items| ==> DictOf(v.value.items[k]).Ok?)
      && (r.Ok? ==> |r.value| == |v.value.items| && forall k :: 0 <= k < |r.value| ==> DictOf(v.value.items[k]) == Ok(r.value[k]))
    ensures v.Some? && v.value.Arr? && AllObjects(v.value.items) ==>
      r.Ok? && forall k :: 0 <= k < |r.value| ==> v.value.items[k] == Obj(r.value[k])
    ensures v.Some? && Truthy(v.value) && v.value.Str? ==> r.Err? && r.error.kind == ValueError
    ensures v.Some? && Truthy(v.value) && v.value.Obj? ==>
      (r.Ok? <==> v.value.fields.Keys == {""}) && (r.Ok? ==> r.value == [map[]]) && (r.Err? ==> r.error.kind == ValueError)
    ensures v.Some? && Truthy(v.value) && (v.value.Int? || v.value.Bool?) ==> r.Err? && r.error.kind == TypeError
  {
    if v.None? || !Truthy(v.value) then Ok([])
    else match v.value
      case Arr(items) => DictsOfOk(items); DictsOf(items)
      case Str(s) => Err(DictOf(Str([s[0]])).error)
      case Obj(f) =>
        if f.Keys == {""} then Ok([map[]])
        else Err(Exception(ValueError, "dictionary update sequence element #0 has length 1; 2 is required"))
      case _ => Err(Exception(TypeError, "object is not iterable"))
  }

  /** The dictionaries of a list of values that are all dictionaries. */
  function ObjFields(items: seq<Value>): (r: seq<map<string, Value>>)
    requires forall k :: 0 <= k < |items| ==> items[k].Obj?
    ensures |r| == |items| && forall k :: 0 <= k < |r| ==> items[k] == Obj(r[k])
  {
    if |items| == 0 then [] else [items[0].fields] + ObjFields(items[1..])
  }

  /** An anchor argument `seg.get(key, "")`: `None` when the call raises (`.strip()` on a non-string). */
  function AnchorArg(seg: map<string, Value>, key: string): Option<string>
  {
    if key !in seg then Some("")
    else match seg[key]
      case Str(s) => Some(s)
      case v => if Truthy(v) then None else Some("")
  }

  /** One aligner step: `align_segment` on the segment's fields, any exception read as no span. */
  function AlignSegmentValue(text: string, paraSpans: seq<Span>, seg: map<string, Value>): (r: Option<Span>)
    ensures r.Some? ==> 0 <= r.value.0 < r.value.1 <= |text|
  {
    var sid := AsInt(GetValue(seg, "start_par_id"));
    var eid := AsInt(GetValue(seg, "end_par_id"));
    var sx := AnchorArg(seg, "start_exact");
    var ex := AnchorArg(seg, "end_exact");
    if sid.None? || eid.None? || sx.None? || ex.None? then None
    else
      var a := AlignSegment(text, paraSpans, sid.value, eid.value, sx.value, ex.value);
      if a.Err? then None else a.value
  }

  /** The segment after alignment: offsets filled in when alignment succeeds, otherwise untouched. */
  function AlignedSegment(text: string, paraSpans: seq<Span>, seg: map<string, Value>): map<string, Value>
  {
    match AlignSegmentValue(text, paraSpans, seg)
    case Some((s, e)) => seg["start_char" := Int(s)]["end_char" := Int(e)]
    case None => seg
  }

  /** The text the aligner and the auditor work on: `index_meta.get("canonical_text") or story_text`. */
  function WorkingText(meta: IndexMeta, storyText: string): string
  {
    if |meta.canonicalText| > 0 then meta.canonicalText else storyText
  }

  /**
   * `segments_result_aligner(parsed_output, story_text, index_meta)`: a copy of
   * the object whose segments, in the same order, are copies with
   * `start_char`/`end_char` set exactly when alignment succeeds.
   */
  method SegmentsResultAligner(parsed: map<string, Value>, storyText: string, meta: IndexMeta)
    returns (r: Result<map<string, Value>>)
    ensures AlignerSegments(Get(parsed, "segments")).Err? <==> r.Err?
    ensures r.Err? ==> r == Err(AlignerSegments(Get(parsed, "segments")).error)
    ensures r.Ok? ==>
      var segs := AlignerSegments(Get(parsed, "segments")).value;
      var text := WorkingText(meta, storyText);
      r.value == parsed["segments" := Arr(seq(|segs|, k requires 0 <= k < |segs| =>
        Obj(AlignedSegment(text, meta.paraSpans, segs[k]))))]
  {
    var text := WorkingText(meta, storyText);
    var paraSpans := meta.paraSpans;
    var segsR := AlignerSegments(Get(parsed, "segments"));
    if segsR.Err? {
      return Err(segsR.error);
    }
    var segs := segsR.value;
    var fixed: seq<Value> := [];
    for idx := 0 to |segs|
      invariant fixed == seq(idx, k requires 0 <= k < idx => Obj(AlignedSegment(text, paraSpans, segs[k])))
    {
      var seg := segs[idx];
      var span := AlignSegmentValue(text, paraSpans, seg);
      if span.Some? {
        seg := seg["start_char" := Int(span.value.0)]["end_char" := Int(span.value.1)];
      }
      fixed := fixed + [Obj(seg)];
    }
    return Ok(parsed["segments" := Arr(fixed)]);
  }

  /**
   * Segment count and order are kept; a segment that aligns gets offsets
   * `0 <= start_char < end_char <= |text|` and keeps every other field, and a
   * segment that does not align is left exactly as it was.
   */
  lemma AlignedSegmentSpec(text: string, paraSpans: seq<Span>, seg: map<string, Value>)
    ensures var out := AlignedSegment(text, paraSpans, seg);
      && out.Keys >= seg.Keys
      && (forall k :: k in seg && k != "start_char" && k != "end_char" ==> out[k] == seg[k])
      && (AlignSegmentValue(text, paraSpans, seg).None? ==> out == seg)
      && (AlignSegmentValue(text, paraSpans, seg).Some? ==>
            "start_char" in out && "end_char" in out
            && out["start_char"].Int? && out["end_char"].Int?
            && 0 <= out["start_char"].i < out["end_char"].i <= |text|)
  {
  }
}
