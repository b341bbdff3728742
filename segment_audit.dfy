/**
 * The auditing half of `lcats/analysis/text_segmenter.py`: preview
 * normalisation, span validity, union coverage, the gap/overlap scan, the
 * anchor-versus-offset audit and the report of `segments_auditor`.
 */
module SegmentAudit {
  import opened Wrappers
  import opened PyStr
  import opened Json
  import opened Sorting
  import Display
  import TextSegmenter

  // ---------------------------------------------------------------- _normalize_preview

  const ParagraphSep: char := '\U{2029}'

  predicate IsNewline(c: char) { c == '\n' }

  /** The characters of `[ \t\U{a0}]`. */
  predicate IsBlankRunChar(c: char) { c == ' ' || c == '\t' || c == '\U{a0}' }

  /** `re.sub(r"\n{2,}", "\u2029", s)`: a run of two or more newlines becomes one paragraph separator. */
  function NewlineRuns(s: string): string
    decreases |s|
  {
    if |s| == 0 then ""
    else if s[0] == '\n' then
      var t := LStripBy(s, IsNewline);
      if |s| - |t| >= 2 then [ParagraphSep] + NewlineRuns(t) else "\n" + NewlineRuns(t)
    else [s[0]] + NewlineRuns(s[1..])
  }

  /** The first three steps: canonical line ends, paragraph marks, single newlines as spaces. */
  function PreviewMarked(s: string): string
  {
    Replace(NewlineRuns(TextSegmenter.CanonicalizeText(s)), "\n", " ")
  }

  /** Then blank runs become one space and the ends are trimmed. */
  function PreviewTrimmed(s: string): string
  {
    Strip(ReplaceRuns(PreviewMarked(s), IsBlankRunChar, " "))
  }

  /** `_normalize_preview(s)` (also `normalize_preview` of `scene_analysis.py`). */
  function NormalizePreview(s: string): string
  {
    if |s| == 0 then "" else Replace(PreviewTrimmed(s), [ParagraphSep], "\n")
  }

  lemma {:induction false} NewlineRunsChars(s: string)
    ensures forall c :: c in NewlineRuns(s) ==> c in s || c == ParagraphSep
    decreases |s|
  {
    if |s| > 0 {
      if s[0] == '\n' {
        var t := LStripBy(s, IsNewline);
        NewlineRunsChars(t);
        assert forall c :: c in t ==> c in s;
      } else {
        NewlineRunsChars(s[1..]);
      }
    }
  }

  /** `re.sub(<class>+, rep, s)` keeps no character of the class except those of `rep`. */
  lemma {:induction false} ReplaceRunsChars(s: string, p: char -> bool, rep: string)
    ensures forall c :: c in ReplaceRuns(s, p, rep) ==> (c in s && !p(c)) || c in rep
    decreases |s|
  {
    if |s| > 0 {
      if p(s[0]) {
        var t := LStripBy(s, p);
        ReplaceRunsChars(t, p, rep);
        assert forall c :: c in t ==> c in s;
      } else {
        ReplaceRunsChars(s[1..], p, rep);
      }
    }
  }

  /** Text where no character of the class follows a character of the class. */
  predicate NoAdjacent(s: string, p: char -> bool)
  {
    forall i :: 0 <= i < |s| - 1 ==> !(p(s[i]) && p(s[i + 1]))
  }

  lemma ReplaceRunsHead(s: string, p: char -> bool, rep: string)
    requires |s| > 0 && !p(s[0])
    ensures ReplaceRuns(s, p, rep) == [s[0]] + ReplaceRuns(s[1..], p, rep)
  {
  }

  /** With a one-character replacement of the class, every run is left as a single character. */
  lemma {:induction false} ReplaceRunsSingle(s: string, p: char -> bool, rep: char)
    requires p(rep)
    ensures NoAdjacent(ReplaceRuns(s, p, [rep]), p)
    ensures |s| > 0 && !p(s[0]) ==> |ReplaceRuns(s, p, [rep])| > 0 && ReplaceRuns(s, p, [rep])[0] == s[0]
    decreases |s|
  {
    if |s| > 0 {
      if p(s[0]) {
        var t := LStripBy(s, p);
        ReplaceRunsSingle(t, p, rep);
        var r := ReplaceRuns(t, p, [rep]);
        assert ReplaceRuns(s, p, [rep]) == [rep] + r;
        assert r == [] || !p(r[0]);
      } else {
        ReplaceRunsSingle(s[1..], p, rep);
        ReplaceRunsHead(s, p, [rep]);
        var r := ReplaceRuns(s[1..], p, [rep]);
        assert ReplaceRuns(s, p, [rep]) == [s[0]] + r;
      }
    }
  }

  /** `s.strip(chars)` is a contiguous piece of `s`. */
  lemma StripByIsSlice(s: string, p: char -> bool)
    ensures var a := |s| - |LStripBy(s, p)|;
      0 <= a && a + |StripBy(s, p)| <= |s| && StripBy(s, p) == s[a..a + |StripBy(s, p)|]
  {
    var l := LStripBy(s, p);
    var r := RStripBy(l, p);
    var a := |s| - |l|;
    assert l == s[a..];
    assert r == l[..|r|];
    TextSegmenter.SubSlice(s, a, |s|, 0, |r|);
  }

  lemma NoAdjacentSlice(s: string, p: char -> bool, a: int, b: int)
    requires 0 <= a <= b <= |s| && NoAdjacent(s, p)
    ensures NoAdjacent(s[a..b], p)
  {
    var t := s[a..b];
    forall i | 0 <= i < |t| - 1 ensures !(p(t[i]) && p(t[i + 1])) {
      assert t[i] == s[a + i] && t[i + 1] == s[a + i + 1];
    }
  }

  lemma PreviewMarkedNoCr(s: string)
    ensures '\r' !in PreviewMarked(s)
  {
    var s1 := TextSegmenter.CanonicalizeText(s);
    TextSegmenter.CanonicalizeTextNoCr(s);
    var s2 := NewlineRuns(s1);
    NewlineRunsChars(s1);
    TextSegmenter.ReplaceOneChar(s2, '\n', ' ');
    assert PreviewMarked(s) == TextSegmenter.MapChar(s2, '\n', ' ');
  }

  /** A character that may stand in a collapsed preview: no carriage return, and no blank but the space. */
  predicate SingleBlank(c: char)
  {
    c != '\r' && (c == ' ' || !IsBlankRunChar(c))
  }

  /** A slice keeps a property of every character. */
  lemma AllCharsSlice(x: string, lo: int, hi: int, q: char -> bool)
    requires 0 <= lo <= hi <= |x| && AllChars(x, q)
    ensures AllChars(x[lo..hi], q)
  {
    forall i | 0 <= i < hi - lo ensures q(x[lo..hi][i]) {
      assert x[lo..hi][i] == x[lo + i];
    }
  }

  /** After the blank runs are collapsed, every character is a single space or not blank at all. */
  lemma CollapsedBlanks(s3: string)
    requires '\r' !in s3
    ensures var x := ReplaceRuns(s3, IsBlankRunChar, " ");
      && AllChars(x, SingleBlank)
      && NoAdjacent(x, IsBlankRunChar)
  {
    var x := ReplaceRuns(s3, IsBlankRunChar, " ");
    ReplaceRunsChars(s3, IsBlankRunChar, " ");
    ReplaceRunsSingle(s3, IsBlankRunChar, ' ');
    forall i | 0 <= i < |x| ensures SingleBlank(x[i]) {
      assert x[i] in x;
    }
  }

  /** Stripping keeps a contiguous piece, so the facts about each character and each pair survive. */
  lemma StrippedBlanks(x: string, p: char -> bool)
    requires AllChars(x, SingleBlank) && NoAdjacent(x, IsBlankRunChar)
    ensures var t := StripBy(x, p);
      AllChars(t, SingleBlank) && NoAdjacent(t, IsBlankRunChar)
  {
    var l := LStripBy(x, p);
    SliceBlanks(x, l, |x| - |l|, |x|);
    SliceBlanks(l, RStripBy(l, p), 0, |RStripBy(l, p)|);
  }

  /** A slice keeps both facts about the blanks. */
  lemma SliceBlanks(x: string, t: string, lo: int, hi: int)
    requires 0 <= lo <= hi <= |x| && t == x[lo..hi]
    requires AllChars(x, SingleBlank) && NoAdjacent(x, IsBlankRunChar)
    ensures AllChars(t, SingleBlank) && NoAdjacent(t, IsBlankRunChar)
  {
    NoAdjacentSlice(x, IsBlankRunChar, lo, hi);
    AllCharsSlice(x, lo, hi, SingleBlank);
  }

  lemma PreviewTrimmedShape(s: string)
    ensures var t := PreviewTrimmed(s);
      && AllChars(t, SingleBlank)
      && (t == [] || (!IsSpace(t[0]) && !IsSpace(t[|t| - 1])))
      && NoAdjacent(t, IsBlankRunChar)
  {
    var s3 := PreviewMarked(s);
    PreviewMarkedNoCr(s);
    CollapsedBlanks(s3);
    StrippedBlanks(ReplaceRuns(s3, IsBlankRunChar, " "), IsSpace);
  }

  /**
   * The preview of the empty string is empty; otherwise the preview has no
   * carriage return, tab, no-break space or paragraph separator; it is
   * trimmed; and it never holds two spaces in a row.
   */
  lemma NormalizePreviewShape(s: string)
    ensures s == "" ==> NormalizePreview(s) == ""
    ensures var r := NormalizePreview(s);
      && '\r' !in r && '\t' !in r && '\U{a0}' !in r && ParagraphSep !in r
      && (r == [] || (!IsSpace(r[0]) && !IsSpace(r[|r| - 1])))
      && NoAdjacent(r, c => c == ' ')
  {
    if |s| > 0 {
      var t := PreviewTrimmed(s);
      PreviewTrimmedShape(s);
      TextSegmenter.ReplaceOneChar(t, ParagraphSep, '\n');
      var r := NormalizePreview(s);
      assert r == TextSegmenter.MapChar(t, ParagraphSep, '\n');
      forall i | 0 <= i < |r| - 1 ensures !(r[i] == ' ' && r[i + 1] == ' ') {
        assert !(IsBlankRunChar(t[i]) && IsBlankRunChar(t[i + 1]));
      }
    }
  }

  /** `_sm(text)`: the normalised preview, shortened to 160 characters. */
  function Preview(text: string): (r: string)
    ensures |r| <= 160
  {
    Display.SmOk(NormalizePreview(text), 160, "...");
    Display.Sm(NormalizePreview(text), 160, "...").value
  }

  // ---------------------------------------------------------------- _valid_span

  /** `_valid_span(s, e, n)`: both are integers (booleans included) and `0 <= s < e <= n`. */
  predicate ValidSpan(s: Value, e: Value, n: int)
  {
    AsInt(s).Some? && AsInt(e).Some? && 0 <= AsInt(s).value < AsInt(e).value <= n
  }

  // ---------------------------------------------------------------- _union_coverage

  /** The integers in `[a, b)`. */
  ghost function Range(a: int, b: int): set<int>
    decreases b - a
  {
    if b <= a then {} else Range(a, b - 1) + {b - 1}
  }

  lemma {:induction false} RangeMember(a: int, b: int, p: int)
    ensures p in Range(a, b) <==> a <= p < b
    decreases b - a
  {
    if a < b {
      RangeMember(a, b - 1, p);
    }
  }

  lemma {:induction false} RangeCard(a: int, b: int)
    requires a <= b
    ensures |Range(a, b)| == b - a
    decreases b - a
  {
    if a < b {
      RangeCard(a, b - 1);
      RangeMember(a, b - 1, b - 1);
    }
  }

  /** The positions covered by some `[s, e)` of `spans`. */
  ghost function Covered(spans: seq<Span>): set<int>
  {
    if |spans| == 0 then {} else Covered(spans[..|spans| - 1]) + Range(spans[|spans| - 1].0, spans[|spans| - 1].1)
  }

  type Span = (int, int)

  lemma {:induction false} CoveredMember(spans: seq<Span>, p: int)
    ensures p in Covered(spans) <==> exists x :: x in spans && x.0 <= p < x.1
    decreases |spans|
  {
    if |spans| > 0 {
      var init := spans[..|spans| - 1];
      CoveredMember(init, p);
      RangeMember(spans[|spans| - 1].0, spans[|spans| - 1].1, p);
      assert spans == init + [spans[|spans| - 1]];
      assert forall x :: x in spans <==> x in init || x == spans[|spans| - 1];
    }
  }

  /** Coverage depends only on which spans there are, not on their order. */
  lemma CoveredOrderFree(a: seq<Span>, b: seq<Span>)
    requires multiset(a) == multiset(b)
    ensures Covered(a) == Covered(b)
  {
    forall p ensures p in Covered(a) <==> p in Covered(b) {
      CoveredMember(a, p);
      CoveredMember(b, p);
      assert forall x :: x in a <==> x in multiset(a);
      assert forall x :: x in b <==> x in multiset(b);
    }
  }

  /** The sum of the lengths `e - s`. */
  function SumLengths(spans: seq<Span>): int
  {
    if |spans| == 0 then 0 else SumLengths(spans[..|spans| - 1]) + (spans[|spans| - 1].1 - spans[|spans| - 1].0)
  }

  lemma {:induction false} CoveredAtMostSum(spans: seq<Span>)
    requires forall k :: 0 <= k < |spans| ==> spans[k].0 <= spans[k].1
    ensures |Covered(spans)| <= SumLengths(spans)
    decreases |spans|
  {
    if |spans| > 0 {
      var init := spans[..|spans| - 1];
      var x := spans[|spans| - 1];
      CoveredAtMostSum(init);
      RangeCard(x.0, x.1);
      assert |Covered(init) + Range(x.0, x.1)| <= |Covered(init)| + |Range(x.0, x.1)|;
    }
  }

  lemma {:induction false} CoveredWithin(spans: seq<Span>, n: int)
    requires forall k :: 0 <= k < |spans| ==> 0 <= spans[k].0 && spans[k].1 <= n
    ensures Covered(spans) <= Range(0, n)
    decreases |spans|
  {
    if |spans| > 0 {
      var x := spans[|spans| - 1];
      CoveredWithin(spans[..|spans| - 1], n);
      forall p | p in Range(x.0, x.1) ensures p in Range(0, n) {
        RangeMember(x.0, x.1, p);
        RangeMember(0, n, p);
      }
    }
  }

  lemma SubsetCard(a: set<int>, b: set<int>)
    requires a <= b
    ensures |a| <= |b|
  {
    assert b == a + (b - a);
  }

  /** Spans inside `[0, n]` cover at most `n` positions. */
  lemma CoveredAtMostLength(spans: seq<Span>, n: int)
    requires 0 <= n
    requires forall k :: 0 <= k < |spans| ==> 0 <= spans[k].0 && spans[k].1 <= n
    ensures |Covered(spans)| <= n
  {
    CoveredWithin(spans, n);
    SubsetCard(Covered(spans), Range(0, n));
    RangeCard(0, n);
  }

  lemma AddDisjoint(done: set<int>, a: int, b: int)
    requires a <= b && forall p :: p in done ==> p < a
    ensures |done + Range(a, b)| == |done| + (b - a)
  {
    RangeCard(a, b);
    forall p | p in Range(a, b) ensures p !in done {
      RangeMember(a, b, p);
    }
    assert done !! Range(a, b);
  }

  lemma MergeRanges(a: int, b: int, s: int, e: int)
    requires a <= s <= b
    ensures Range(a, b) + Range(s, e) == Range(a, if e > b then e else b)
  {
    var m := if e > b then e else b;
    forall p ensures p in Range(a, b) + Range(s, e) <==> p in Range(a, m) {
      RangeMember(a, b, p);
      RangeMember(s, e, p);
      RangeMember(a, m, p);
    }
  }

  /** Closing the current run keeps every finished position left of the next start. */
  lemma SweepAdvance(done: set<int>, curS: int, curE: int, s: int)
    requires forall p :: p in done ==> p < curS
    requires curS <= curE < s
    ensures forall p :: p in done + Range(curS, curE) ==> p < s
  {
    forall p | p in done + Range(curS, curE) ensures p < s {
      RangeMember(curS, curE, p);
    }
  }

  lemma CoveredStep(spans: seq<Span>, idx: nat)
    requires idx < |spans|
    ensures Covered(spans[..idx + 1]) == Covered(spans[..idx]) + Range(spans[idx].0, spans[idx].1)
  {
    assert spans[..idx + 1][..idx] == spans[..idx];
  }

  /** A permutation keeps the property that every span has `s <= e`. */
  lemma PermutedSpans(spans: seq<Span>, sorted: seq<Span>)
    requires multiset(sorted) == multiset(spans)
    requires forall k :: 0 <= k < |spans| ==> spans[k].0 <= spans[k].1
    ensures forall k :: 0 <= k < |sorted| ==> sorted[k].0 <= sorted[k].1
  {
    forall k | 0 <= k < |sorted| ensures sorted[k].0 <= sorted[k].1 {
      assert sorted[k] in multiset(spans);
      var j :| 0 <= j < |spans| && spans[j] == sorted[k];
    }
  }

  /**
   * `_union_coverage(spans)`: the number of positions covered by the union of
   * the `[s, e)` intervals, by sorting and sweeping.
   */
  method UnionCoverage(spans: seq<Span>) returns (total: int)
    requires forall k :: 0 <= k < |spans| ==> spans[k].0 <= spans[k].1
    ensures total == |Covered(spans)|
  {
    if |spans| == 0 {
      return 0;
    }
    var sorted := SortBy(spans, PairLe);
    PairLeTotalPreorder();
    SortBySorted(spans, PairLe);
    CoveredOrderFree(spans, sorted);
    PermutedSpans(spans, sorted);
    forall k | 0 < k < |sorted| ensures sorted[k - 1].0 <= sorted[k].0 {
      assert PairLe(sorted[k - 1], sorted[k]);
    }
    total := Sweep(sorted);
  }

  /** The sweep over spans already ordered by start. */
  method Sweep(sorted: seq<Span>) returns (total: int)
    requires |sorted| > 0
    requires forall k :: 0 <= k < |sorted| ==> sorted[k].0 <= sorted[k].1
    requires forall k :: 0 < k < |sorted| ==> sorted[k - 1].0 <= sorted[k].0
    ensures total == |Covered(sorted)|
  {
    total := 0;
    var curS, curE := sorted[0].0, sorted[0].1;
    ghost var done: set<int> := {};
    CoveredStep(sorted, 0);
    var idx := 1;
    while idx < |sorted|
      invariant 1 <= idx <= |sorted|
      invariant curS <= curE && curS <= sorted[idx - 1].0
      invariant total == |done|
      invariant forall p :: p in done ==> p < curS
      invariant Covered(sorted[..idx]) == done + Range(curS, curE)
    {
      var (s, e) := sorted[idx];
      CoveredStep(sorted, idx);
      if s > curE {
        AddDisjoint(done, curS, curE);
        SweepAdvance(done, curS, curE, s);
        total := total + (curE - curS);
        done := done + Range(curS, curE);
        curS, curE := s, e;
      } else {
        var m := if e > curE then e else curE;
        assert done + Range(curS, curE) + Range(s, e) == done + Range(curS, m) by {
          MergeRanges(curS, curE, s, e);
        }
        curE := m;
      }
      idx := idx + 1;
    }
    AddDisjoint(done, curS, curE);
    total := total + (curE - curS);
    assert sorted[..idx] == sorted;
  }

  /** Union coverage never exceeds the sum of the span lengths, nor `n` for spans inside `[0, n]`. */
  lemma UnionCoverageBounds(spans: seq<Span>, n: int)
    requires forall k :: 0 <= k < |spans| ==> spans[k].0 <= spans[k].1
    ensures |Covered(spans)| <= SumLengths(spans)
    ensures 0 <= n && (forall k :: 0 <= k < |spans| ==> 0 <= spans[k].0 && spans[k].1 <= n) ==> |Covered(spans)| <= n
  {
    CoveredAtMostSum(spans);
    if 0 <= n && (forall k :: 0 <= k < |spans| ==> 0 <= spans[k].0 && spans[k].1 <= n) {
      CoveredAtMostLength(spans, n);
    }
  }

  // ---------------------------------------------------------------- validate_coverage_and_overlaps

  /** A segment with a valid span, as collected by the scan: its index, id and offsets. */
  datatype Item = Item(i: int, segmentId: Value, start: int, end: int)

  datatype GapKind = StartGap | InnerGap | EndGap

  /** A missing component; `ids` holds the left and right segment ids of an inner gap. */
  datatype Gap = Gap(kind: GapKind, start: int, end: int, length: int, preview: string, ids: Option<(Value, Value)>)

  datatype OverlapKind = Duplicate | Contained | PartialOverlap

  datatype Overlap = Overlap(kind: OverlapKind, aIndex: int, bIndex: int, aId: Value, bId: Value,
                             start: int, end: int, length: int)

  /** `seg.get("segment_id", default)`. */
  function SegId(seg: map<string, Value>, default: Value): Value
  {
    if "segment_id" in seg then seg["segment_id"] else default
  }

  predicate SegValid(seg: map<string, Value>, n: int)
  {
    ValidSpan(GetValue(seg, "start_char"), GetValue(seg, "end_char"), n)
  }

  function MakeItem(idx: int, seg: map<string, Value>, n: int): (r: Item)
    requires SegValid(seg, n)
    ensures r.i == idx && 0 <= r.start < r.end <= n
  {
    Item(idx, SegId(seg, Str("#" + IntToString(idx))),
         AsInt(GetValue(seg, "start_char")).value, AsInt(GetValue(seg, "end_char")).value)
  }

  /** The items of the segments with valid spans, in segment order. */
  function ValidItems(segs: seq<map<string, Value>>, n: int): (r: seq<Item>)
    ensures forall k :: 0 <= k < |r| ==> 0 <= r[k].start < r[k].end <= n && 0 <= r[k].i < |segs|
    ensures forall a, b :: 0 <= a < b < |r| ==> r[a].i < r[b].i
    decreases |segs|
  {
    if |segs| == 0 then []
    else
      var m := |segs| - 1;
      var pre := ValidItems(segs[..m], n);
      if SegValid(segs[m], n) then pre + [MakeItem(m, segs[m], n)] else pre
  }

  /** Each of `r` is the item of the segment it names. */
  predicate ItemsSound(segs: seq<map<string, Value>>, n: int, r: seq<Item>)
  {
    forall k :: 0 <= k < |r| ==> 0 <= r[k].i < |segs| && SegValid(segs[r[k].i], n) && r[k] == MakeItem(r[k].i, segs[r[k].i], n)
  }

  lemma {:induction false} ValidItemsSound(segs: seq<map<string, Value>>, n: int)
    ensures ItemsSound(segs, n, ValidItems(segs, n))
    decreases |segs|
  {
    if |segs| > 0 {
      var m := |segs| - 1;
      ValidItemsSound(segs[..m], n);
      var pre := ValidItems(segs[..m], n);
      var r := ValidItems(segs, n);
      forall k | 0 <= k < |r| ensures 0 <= r[k].i < |segs| && SegValid(segs[r[k].i], n) && r[k] == MakeItem(r[k].i, segs[r[k].i], n) {
        if k < |pre| {
          assert r[k] == pre[k];
          assert segs[..m][pre[k].i] == segs[pre[k].i];
        } else {
          assert SegValid(segs[m], n) && r == pre + [MakeItem(m, segs[m], n)];
        }
      }
    }
  }

  /** Every segment with a valid span has an item. */
  lemma {:induction false} ValidItemsComplete(segs: seq<map<string, Value>>, n: int, idx: int)
    requires 0 <= idx < |segs| && SegValid(segs[idx], n)
    ensures exists k :: 0 <= k < |ValidItems(segs, n)| && ValidItems(segs, n)[k].i == idx
    decreases |segs|
  {
    var m := |segs| - 1;
    var r := ValidItems(segs, n);
    if idx == m {
      assert r[|r| - 1].i == idx;
    } else {
      assert segs[..m][idx] == segs[idx];
      ValidItemsComplete(segs[..m], n, idx);
      var pre := ValidItems(segs[..m], n);
      var k :| 0 <= k < |pre| && pre[k].i == idx;
      assert r[k] == pre[k];
    }
  }

  /** The loop of `validate_coverage_and_overlaps` that collects the items. */
  method CollectItems(segs: seq<map<string, Value>>, n: int) returns (items: seq<Item>)
    ensures items == ValidItems(segs, n)
  {
    items := [];
    for idx := 0 to |segs|
      invariant items == ValidItems(segs[..idx], n)
    {
      assert segs[..idx + 1][..idx] == segs[..idx];
      if SegValid(segs[idx], n) {
        items := items + [MakeItem(idx, segs[idx], n)];
      }
    }
    assert segs[..|segs|] == segs;
  }

  /** The sort key `(start, end)`. */
  predicate ItemLe(a: Item, b: Item)
  {
    PairLe((a.start, a.end), (b.start, b.end))
  }

  lemma ItemLeTotalPreorder()
    ensures TotalPreorder(ItemLe)
  {
  }

  predicate IsNbsp(c: char) { c == '\U{a0}' }

  /** `is_ws_only(s)`: `s.strip().strip("\u00A0") == ""`. */
  predicate IsWsOnly(s: string)
  {
    StripBy(Strip(s), IsNbsp) == []
  }

  /** `[start, end)` of the gap and `[it.start, it.end)` share no position. */
  predicate Apart(g: Gap, it: Item)
  {
    it.end <= g.start || g.end <= it.start
  }

  predicate GapOk(text: string, g: Gap)
  {
    0 <= g.start < g.end <= |text| && g.length == g.end - g.start && g.preview == Preview(text[g.start..g.end])
  }

  predicate OverlapOk(n: int, o: Overlap)
  {
    0 <= o.start < o.end <= n && o.length == o.end - o.start
  }

  /** An ignored whitespace seam: a whitespace-only stretch of at most `wsMax` characters. */
  predicate SeamOk(text: string, ignoreWs: bool, wsMax: int, sp: Span)
  {
    ignoreWs && 0 <= sp.0 < sp.1 <= |text| && sp.1 - sp.0 <= wsMax && IsWsOnly(text[sp.0..sp.1])
  }

  predicate InItems(items: seq<Item>, p: int)
  {
    exists k :: 0 <= k < |items| && items[k].start <= p < items[k].end
  }

  predicate InGaps(gaps: seq<Gap>, p: int)
  {
    exists k :: 0 <= k < |gaps| && gaps[k].start <= p < gaps[k].end
  }

  predicate InSeams(seams: seq<Span>, p: int)
  {
    exists k :: 0 <= k < |seams| && seams[k].0 <= p < seams[k].1
  }

  predicate SameSpan(a: Item, b: Item)
  {
    a.start == b.start && a.end == b.end
  }

  predicate HasDuplicate(overlaps: seq<Overlap>, s: int, e: int)
  {
    exists k :: 0 <= k < |overlaps| && overlaps[k].kind == Duplicate && overlaps[k].start == s && overlaps[k].end == e
  }

  /** The overlap of `cur` with the segment just before it in sorted order (`pos - 1`). */
  function AdjacentOverlap(prev: Item, cur: Item, pos: int): Overlap
  {
    var ovS := if prev.start > cur.start then prev.start else cur.start;
    var ovE := if prev.end < cur.end then prev.end else cur.end;
    var kind :=
      if cur.start == prev.start && cur.end == prev.end then Duplicate
      else if cur.start >= prev.start && cur.end <= prev.end then Contained
      else if prev.start >= cur.start && prev.end <= cur.end then Contained
      else PartialOverlap;
    Overlap(kind, pos - 1, pos, prev.segmentId, cur.segmentId, ovS, ovE, if ovE - ovS > 0 then ovE - ovS else 0)
  }

  /** The sorted items the scan runs over: valid spans, ordered by start. */
  predicate ScanInput(n: int, sorted: seq<Item>)
  {
    && (forall k :: 0 <= k < |sorted| ==> 0 <= sorted[k].start < sorted[k].end <= n)
    && (forall a, b :: 0 <= a < b < |sorted| ==> sorted[a].start <= sorted[b].start)
  }

  /**
   * What the gaps found so far promise: each is well formed and touches no
   * item, and every position left of `frontier` is covered, in a gap or in an
   * ignored seam.
   */
  ghost predicate GapsInv(text: string, sorted: seq<Item>, ignoreWs: bool, wsMax: int,
                          missing: seq<Gap>, seams: seq<Span>, frontier: int)
  {
    GapsSound(text, sorted, missing) && SeamsSound(text, ignoreWs, wsMax, seams) && Accounted(sorted, missing, seams, frontier)
  }

  predicate GapsSound(text: string, sorted: seq<Item>, missing: seq<Gap>)
  {
    && (forall g :: g in missing ==> GapOk(text, g))
    && (forall g, k :: g in missing && 0 <= k < |sorted| ==> Apart(g, sorted[k]))
  }

  predicate SeamsSound(text: string, ignoreWs: bool, wsMax: int, seams: seq<Span>)
  {
    forall sp :: sp in seams ==> SeamOk(text, ignoreWs, wsMax, sp)
  }

  predicate Accounted(sorted: seq<Item>, missing: seq<Gap>, seams: seq<Span>, frontier: int)
  {
    forall p :: 0 <= p < frontier ==> InItems(sorted, p) || InGaps(missing, p) || InSeams(seams, p)
  }

  lemma GapsSoundAppend(text: string, sorted: seq<Item>, missing: seq<Gap>, gap: Gap)
    requires GapsSound(text, sorted, missing)
    requires GapOk(text, gap) && forall k :: 0 <= k < |sorted| ==> Apart(gap, sorted[k])
    ensures GapsSound(text, sorted, missing + [gap])
  {
  }

  lemma SeamsSoundAppend(text: string, ignoreWs: bool, wsMax: int, seams: seq<Span>, sp: Span)
    requires SeamsSound(text, ignoreWs, wsMax, seams) && SeamOk(text, ignoreWs, wsMax, sp)
    ensures SeamsSound(text, ignoreWs, wsMax, seams + [sp])
  {
  }

  /** What the overlaps found so far promise, for the items before `pos`. */
  predicate OverlapsInv(n: int, sorted: seq<Item>, pos: int, overlaps: seq<Overlap>)
    requires pos <= |sorted|
  {
    && (forall o :: o in overlaps ==> OverlapOk(n, o))
    && (forall r :: 0 < r < pos && SameSpan(sorted[r - 1], sorted[r]) ==> HasDuplicate(overlaps, sorted[r].start, sorted[r].end))
  }

  /** Every item ends by the frontier or starts no earlier than the item at `pos`. */
  lemma ItemsAroundFrontier(n: int, sorted: seq<Item>, pos: int, coveredEnd: int)
    requires ScanInput(n, sorted) && 0 <= pos < |sorted|
    requires forall k :: 0 <= k < pos ==> sorted[k].end <= coveredEnd
    ensures forall k :: 0 <= k < |sorted| ==> sorted[k].end <= coveredEnd || sorted[pos].start <= sorted[k].start
  {
    forall k | 0 <= k < |sorted| ensures sorted[k].end <= coveredEnd || sorted[pos].start <= sorted[k].start {
      if k > pos {
        assert sorted[pos].start <= sorted[k].start;
      }
    }
  }

  /** The gap test for the item at `pos` against the coverage frontier. */
  method ScanGap(text: string, sorted: seq<Item>, pos: int, coveredEnd: int, ignoreWs: bool, wsMax: int,
                 missing: seq<Gap>)
    returns (missing2: seq<Gap>)
    requires ScanInput(|text|, sorted) && 0 <= pos < |sorted| && coveredEnd == Frontier(sorted, pos)
    ensures missing2 == missing + StepGap(text, sorted, pos, ignoreWs, wsMax)
  {
    var cur := sorted[pos];
    var s, e := cur.start, cur.end;
    missing2 := missing;
    if s > coveredEnd {
      var gapSlice := text[coveredEnd..s];
      if !(ignoreWs && s - coveredEnd <= wsMax && IsWsOnly(gapSlice)) {
        var gap := Gap(if coveredEnd == 0 then StartGap else InnerGap, coveredEnd, s, s - coveredEnd, Preview(gapSlice),
                       if pos > 0 && coveredEnd != 0 then Some((sorted[pos - 1].segmentId, cur.segmentId)) else None);
        StepGapSome(text, sorted, pos, ignoreWs, wsMax);
        missing2 := missing + [gap];
      } else {
        StepGapNone(text, sorted, pos, ignoreWs, wsMax);
      }
    } else {
      StepGapNone(text, sorted, pos, ignoreWs, wsMax);
    }
  }

  /**
   * The gap test keeps the gap invariant while the frontier moves past the
   * item at `pos`; `seams2` adds the stretch passed over, if any.
   */
  lemma StepKeeps(text: string, sorted: seq<Item>, pos: int, ignoreWs: bool, wsMax: int,
                  missing: seq<Gap>, seams: seq<Span>) returns (seams2: seq<Span>)
    requires ScanInput(|text|, sorted) && 0 <= pos < |sorted|
    requires GapsInv(text, sorted, ignoreWs, wsMax, missing, seams, Frontier(sorted, pos))
    ensures var c := Frontier(sorted, pos);
      GapsInv(text, sorted, ignoreWs, wsMax, missing + StepGap(text, sorted, pos, ignoreWs, wsMax), seams2,
              if sorted[pos].end > c then sorted[pos].end else c)
  {
    var c, s := Frontier(sorted, pos), sorted[pos].start;
    if pos > 0 {
      var m := MaxPos(sorted, pos);
    }
    if s <= c {
      StepGapNone(text, sorted, pos, ignoreWs, wsMax);
      NoGapKeeps(text, sorted, pos, c, ignoreWs, wsMax, missing, seams);
      assert missing + [] == missing;
      seams2 := seams;
    } else if Ignorable(text, c, s, ignoreWs, wsMax) {
      StepGapNone(text, sorted, pos, ignoreWs, wsMax);
      SeamKeeps(text, sorted, pos, c, ignoreWs, wsMax, missing, seams);
      assert missing + [] == missing;
      seams2 := seams + [(c, s)];
    } else {
      StepGapSome(text, sorted, pos, ignoreWs, wsMax);
      GapKeeps(text, sorted, pos, c, ignoreWs, wsMax, missing, seams, StepGap(text, sorted, pos, ignoreWs, wsMax)[0]);
      seams2 := seams;
    }
  }

  /** The gap recorded before the item at `pos` when there is one. */
  lemma StepGapSome(text: string, sorted: seq<Item>, pos: int, ignoreWs: bool, wsMax: int)
    requires ScanInput(|text|, sorted) && 0 <= pos < |sorted|
    requires var c, s := Frontier(sorted, pos), sorted[pos].start;
      s > c && !(ignoreWs && s - c <= wsMax && IsWsOnly(text[c..s]))
    ensures var c, s := Frontier(sorted, pos), sorted[pos].start;
      StepGap(text, sorted, pos, ignoreWs, wsMax)
        == [Gap(if c == 0 then StartGap else InnerGap, c, s, s - c, Preview(text[c..s]),
                if pos > 0 && c != 0 then Some((sorted[pos - 1].segmentId, sorted[pos].segmentId)) else None)]
  {
  }

  /** No gap is recorded before the item at `pos` when it starts inside the frontier or the stretch is ignorable. */
  lemma StepGapNone(text: string, sorted: seq<Item>, pos: int, ignoreWs: bool, wsMax: int)
    requires ScanInput(|text|, sorted) && 0 <= pos < |sorted|
    requires var c, s := Frontier(sorted, pos), sorted[pos].start;
      s <= c || (ignoreWs && s - c <= wsMax && IsWsOnly(text[c..s]))
    ensures StepGap(text, sorted, pos, ignoreWs, wsMax) == []
  {
  }

  /** Recording the gap `[covered_end, start)` keeps the gap invariant while the frontier moves past the item at `pos`. */
  lemma GapKeeps(text: string, sorted: seq<Item>, pos: int, coveredEnd: int, ignoreWs: bool, wsMax: int,
                 missing: seq<Gap>, seams: seq<Span>, gap: Gap)
    requires ScanInput(|text|, sorted) && 0 <= pos < |sorted| && 0 <= coveredEnd
    requires forall k :: 0 <= k < pos ==> sorted[k].end <= coveredEnd
    requires GapsInv(text, sorted, ignoreWs, wsMax, missing, seams, coveredEnd)
    requires GapOk(text, gap) && gap.start == coveredEnd && gap.end == sorted[pos].start
    ensures GapsInv(text, sorted, ignoreWs, wsMax, missing + [gap], seams, sorted[pos].end)
  {
    ItemsAroundFrontier(|text|, sorted, pos, coveredEnd);
    GapsSoundAppend(text, sorted, missing, gap);
    assert (missing + [gap])[..|missing|] == missing;
    FrontierStep(sorted, pos, coveredEnd, missing, seams, missing + [gap], seams);
  }

  /** Passing over an ignorable stretch `[covered_end, start)` keeps the gap invariant likewise. */
  lemma SeamKeeps(text: string, sorted: seq<Item>, pos: int, coveredEnd: int, ignoreWs: bool, wsMax: int,
                  missing: seq<Gap>, seams: seq<Span>)
    requires 0 <= pos < |sorted| && coveredEnd < sorted[pos].start < sorted[pos].end
    requires GapsInv(text, sorted, ignoreWs, wsMax, missing, seams, coveredEnd)
    requires SeamOk(text, ignoreWs, wsMax, (coveredEnd, sorted[pos].start))
    ensures GapsInv(text, sorted, ignoreWs, wsMax, missing, seams + [(coveredEnd, sorted[pos].start)], sorted[pos].end)
  {
    var sp := (coveredEnd, sorted[pos].start);
    SeamsSoundAppend(text, ignoreWs, wsMax, seams, sp);
    assert (seams + [sp])[..|seams|] == seams;
    FrontierStep(sorted, pos, coveredEnd, missing, seams, missing, seams + [sp]);
  }

  /** An item starting inside the frontier keeps the gap invariant likewise. */
  lemma NoGapKeeps(text: string, sorted: seq<Item>, pos: int, coveredEnd: int, ignoreWs: bool, wsMax: int,
                   missing: seq<Gap>, seams: seq<Span>)
    requires 0 <= pos < |sorted| && sorted[pos].start <= coveredEnd
    requires GapsInv(text, sorted, ignoreWs, wsMax, missing, seams, coveredEnd)
    ensures GapsInv(text, sorted, ignoreWs, wsMax, missing, seams,
                    if sorted[pos].end > coveredEnd then sorted[pos].end else coveredEnd)
  {
    assert missing[..|missing|] == missing && seams[..|seams|] == seams;
    FrontierStep(sorted, pos, coveredEnd, missing, seams, missing, seams);
  }

  /** Moving the frontier past the item at `pos` keeps every position left of it accounted for. */
  lemma FrontierStep(sorted: seq<Item>, pos: int, coveredEnd: int,
                     missing: seq<Gap>, seams: seq<Span>, missing2: seq<Gap>, seams2: seq<Span>)
    requires 0 <= pos < |sorted|
    requires Accounted(sorted, missing, seams, coveredEnd)
    requires |missing| <= |missing2| && missing2[..|missing|] == missing
    requires |seams| <= |seams2| && seams2[..|seams|] == seams
    requires var s := sorted[pos].start;
      || s <= coveredEnd
      || (|missing2| > |missing| && missing2[|missing|].start == coveredEnd && missing2[|missing|].end == s)
      || (|seams2| > |seams| && seams2[|seams|] == (coveredEnd, s))
    ensures Accounted(sorted, missing2, seams2, if sorted[pos].end > coveredEnd then sorted[pos].end else coveredEnd)
  {
    var s, e := sorted[pos].start, sorted[pos].end;
    forall p | 0 <= p < (if e > coveredEnd then e else coveredEnd)
      ensures InItems(sorted, p) || InGaps(missing2, p) || InSeams(seams2, p)
    {
      if p < coveredEnd {
        if InGaps(missing, p) {
          var k :| 0 <= k < |missing| && missing[k].start <= p < missing[k].end;
          assert missing2[k] == missing[k];
        } else if InSeams(seams, p) {
          var k :| 0 <= k < |seams| && seams[k].0 <= p < seams[k].1;
          assert seams2[k] == seams[k];
        }
      } else if p < s {
        if |missing2| > |missing| && missing2[|missing|].start == coveredEnd && missing2[|missing|].end == s {
          assert missing2[|missing|].start <= p < missing2[|missing|].end;
        } else {
          assert seams2[|seams|].0 <= p < seams2[|seams|].1;
        }
      } else {
        assert sorted[pos].start <= p < sorted[pos].end;
      }
    }
  }

  /**
   * The position of `max_seg` once the items before `pos` are scanned: the
   * first of them reaching the farthest end.
   */
  function MaxPos(sorted: seq<Item>, pos: int): (m: int)
    requires 0 < pos <= |sorted|
    ensures 0 <= m < pos
    ensures forall k :: 0 <= k < pos ==> sorted[k].end <= sorted[m].end
    ensures forall k :: 0 <= k < m ==> sorted[k].end < sorted[m].end
    decreases pos
  {
    if pos == 1 then 0
    else
      var m := MaxPos(sorted, pos - 1);
      if sorted[pos - 1].end > sorted[m].end then pos - 1 else m
  }

  /** `a` lies inside `b`. */
  predicate Within(a: Item, b: Item)
  {
    b.start <= a.start && a.end <= b.end
  }

  /** The entry recorded when the item at `pos` lies inside `max_seg` and `max_seg` is not the previous item. */
  function MaxOverlap(m: Item, cur: Item): Overlap
  {
    Overlap(Contained, m.i, cur.i, m.segmentId, cur.segmentId, cur.start, cur.end, cur.end - cur.start)
  }

  /** The entries recorded for the item at `pos`: against `prev_seg`, then against `max_seg`. */
  function StepOverlaps(sorted: seq<Item>, pos: int): seq<Overlap>
    requires 0 <= pos < |sorted|
  {
    if pos == 0 then []
    else
      var cur, prev, mp := sorted[pos], sorted[pos - 1], MaxPos(sorted, pos);
      var adjacent := cur.start < prev.end;
      var inMax := mp != pos - 1 && cur.start < sorted[mp].end && Within(cur, sorted[mp]);
      if adjacent && inMax then [AdjacentOverlap(prev, cur, pos), MaxOverlap(sorted[mp], cur)]
      else if adjacent then [AdjacentOverlap(prev, cur, pos)]
      else if inMax then [MaxOverlap(sorted[mp], cur)]
      else []
  }

  /** The entries of the steps, one list per scanned item. */
  function Steps(sorted: seq<Item>, pos: int): (steps: seq<seq<Overlap>>)
    requires 0 <= pos <= |sorted|
    ensures |steps| == pos && forall k :: 0 <= k < pos ==> steps[k] == StepOverlaps(sorted, k)
  {
    seq(pos, k requires 0 <= k < |sorted| => StepOverlaps(sorted, k))
  }

  /** The overlaps recorded for the items before `pos`, in scan order. */
  function OverlapsOf(sorted: seq<Item>, pos: int): seq<Overlap>
    requires 0 <= pos <= |sorted|
  {
    Flatten(Steps(sorted, pos))
  }

  /** The lists joined in order. */
  function Flatten<T>(xss: seq<seq<T>>): seq<T>
  {
    if |xss| == 0 then [] else Flatten(xss[..|xss| - 1]) + xss[|xss| - 1]
  }

  /** An element of one of the lists is an element of the join, and only those are. */
  lemma {:induction false} FlattenMember<T>(xss: seq<seq<T>>, x: T)
    ensures x in Flatten(xss) <==> exists r :: 0 <= r < |xss| && x in xss[r]
    decreases |xss|
  {
    if |xss| > 0 {
      var last := |xss| - 1;
      FlattenMember(xss[..last], x);
      if x in Flatten(xss[..last]) {
        var r :| 0 <= r < last && x in xss[..last][r];
        assert x in xss[r];
      }
      forall r | 0 <= r < last && x in xss[r] ensures x in Flatten(xss[..last]) {
        assert x in xss[..last][r];
      }
    }
  }

  /** Scanning one more item appends its step. */
  lemma OverlapsOfNext(sorted: seq<Item>, pos: int)
    requires 0 <= pos < |sorted|
    ensures OverlapsOf(sorted, pos + 1) == OverlapsOf(sorted, pos) + StepOverlaps(sorted, pos)
  {
    assert Steps(sorted, pos + 1)[..pos] == Steps(sorted, pos);
  }

  /** The two overlap tests for the item at `pos`: against `prev_seg` and against `max_seg`. */
  method ScanOverlaps(n: int, sorted: seq<Item>, pos: int, maxPos: int, overlaps: seq<Overlap>)
    returns (overlaps2: seq<Overlap>)
    requires 0 <= pos < |sorted| && (pos > 0 ==> maxPos == MaxPos(sorted, pos))
    ensures overlaps2 == overlaps + StepOverlaps(sorted, pos)
  {
    var cur := sorted[pos];
    var s, e := cur.start, cur.end;
    overlaps2 := overlaps;
    if pos > 0 && s < sorted[pos - 1].end {
      overlaps2 := overlaps2 + [AdjacentOverlap(sorted[pos - 1], cur, pos)];
    }
    if pos > 0 && maxPos != pos - 1 && s < sorted[maxPos].end {
      var m := sorted[maxPos];
      if s >= m.start && e <= m.end {
        overlaps2 := overlaps2 + [Overlap(Contained, m.i, cur.i, m.segmentId, cur.segmentId, s, e, e - s)];
      }
    }
  }

  /**
   * The overlap of two intersecting items, the later starting inside the
   * earlier: its bounds are exactly their intersection, and its kind is
   * `duplicate` for equal spans, `contained` when one lies inside the other,
   * and `partial_overlap` otherwise.
   */
  lemma AdjacentOverlapMeaning(prev: Item, cur: Item, pos: int)
    requires prev.start <= cur.start < prev.end && cur.start < cur.end
    ensures var o := AdjacentOverlap(prev, cur, pos);
      && o.aIndex == pos - 1 && o.bIndex == pos && o.aId == prev.segmentId && o.bId == cur.segmentId
      && o.start < o.end && o.length == o.end - o.start
      && (forall p :: InSpan(p, o.start, o.end) <==> InSpan(p, prev.start, prev.end) && InSpan(p, cur.start, cur.end))
      && (o.kind == Duplicate <==> SameSpan(prev, cur))
      && (o.kind == Contained <==> !SameSpan(prev, cur) && (Within(cur, prev) || Within(prev, cur)))
      && (o.kind == PartialOverlap <==> !Within(cur, prev) && !Within(prev, cur))
  {
  }

  predicate InSpan(p: int, s: int, e: int)
  {
    s <= p < e
  }

  /** The entries are exactly those of the steps. */
  lemma InOverlaps(sorted: seq<Item>, o: Overlap)
    ensures o in OverlapsOf(sorted, |sorted|) <==> exists r :: 0 <= r < |sorted| && o in StepOverlaps(sorted, r)
  {
    var steps := Steps(sorted, |sorted|);
    FlattenMember(steps, o);
    if o in OverlapsOf(sorted, |sorted|) {
      var r :| 0 <= r < |steps| && o in steps[r];
      assert o in StepOverlaps(sorted, r);
    }
    forall r | 0 <= r < |sorted| && o in StepOverlaps(sorted, r) ensures o in OverlapsOf(sorted, |sorted|) {
      assert o in steps[r];
    }
  }

  /** Every pair of consecutive items that intersect is reported, with their intersection. */
  lemma OverlapsReported(n: int, sorted: seq<Item>, r: int)
    requires ScanInput(n, sorted) && 0 < r < |sorted| && sorted[r].start < sorted[r - 1].end
    ensures AdjacentOverlap(sorted[r - 1], sorted[r], r) in OverlapsOf(sorted, |sorted|)
  {
    assert AdjacentOverlap(sorted[r - 1], sorted[r], r) in StepOverlaps(sorted, r);
    InOverlaps(sorted, AdjacentOverlap(sorted[r - 1], sorted[r], r));
  }

  /**
   * An item lying inside any earlier item is reported as `duplicate` or
   * `contained`, with its own bounds: either against the previous item or
   * against `max_seg`, which then contains it.
   */
  lemma ContainedReported(n: int, sorted: seq<Item>, k: int, r: int)
    requires ScanInput(n, sorted) && 0 <= k < r < |sorted| && Within(sorted[r], sorted[k])
    ensures exists o ::
      o in OverlapsOf(sorted, |sorted|) && o.kind != PartialOverlap && o.start == sorted[r].start && o.end == sorted[r].end
  {
    var mp := MaxPos(sorted, r);
    var cur := sorted[r];
    assert Within(cur, sorted[mp]) by {
      assert sorted[mp].start <= cur.start;
    }
    var o;
    if mp == r - 1 {
      o := AdjacentOverlap(sorted[r - 1], cur, r);
      AdjacentOverlapMeaning(sorted[r - 1], cur, r);
    } else {
      o := MaxOverlap(sorted[mp], cur);
    }
    assert o in StepOverlaps(sorted, r);
    InOverlaps(sorted, o);
  }

  /**
   * Every entry is well formed, and its bounds lie inside two distinct items:
   * each entry reports a real overlap.
   */
  lemma OverlapsSound(n: int, sorted: seq<Item>)
    requires ScanInput(n, sorted)
    ensures forall o :: o in OverlapsOf(sorted, |sorted|) ==>
      OverlapOk(n, o) && exists a, b :: 0 <= a < b < |sorted| && Covers(sorted[a], o) && Covers(sorted[b], o)
  {
    forall o | o in OverlapsOf(sorted, |sorted|)
      ensures OverlapOk(n, o) && exists a, b :: 0 <= a < b < |sorted| && Covers(sorted[a], o) && Covers(sorted[b], o)
    {
      InOverlaps(sorted, o);
      var r :| 0 <= r < |sorted| && o in StepOverlaps(sorted, r);
      StepSound(n, sorted, r, o);
    }
  }

  lemma StepSound(n: int, sorted: seq<Item>, r: int, o: Overlap)
    requires ScanInput(n, sorted) && 0 <= r < |sorted| && o in StepOverlaps(sorted, r)
    ensures OverlapOk(n, o) && exists a, b :: 0 <= a < b < |sorted| && Covers(sorted[a], o) && Covers(sorted[b], o)
  {
    var cur, prev := sorted[r], sorted[r - 1];
    if cur.start < prev.end && o == AdjacentOverlap(prev, cur, r) {
      assert prev.start <= cur.start;
      assert Covers(prev, o) && Covers(cur, o);
    } else {
      var mp := MaxPos(sorted, r);
      assert Covers(sorted[mp], o) && Covers(cur, o);
    }
  }

  /** The item covers the bounds of the entry. */
  predicate Covers(it: Item, o: Overlap)
  {
    it.start <= o.start && o.end <= it.end
  }

  /** The overlaps are well formed and flag every pair of identical adjacent spans. */
  lemma OverlapsOfInv(n: int, sorted: seq<Item>)
    requires ScanInput(n, sorted)
    ensures OverlapsInv(n, sorted, |sorted|, OverlapsOf(sorted, |sorted|))
  {
    var all := OverlapsOf(sorted, |sorted|);
    OverlapsSound(n, sorted);
    forall r | 0 < r < |sorted| && SameSpan(sorted[r - 1], sorted[r])
      ensures HasDuplicate(all, sorted[r].start, sorted[r].end)
    {
      var o := AdjacentOverlap(sorted[r - 1], sorted[r], r);
      OverlapsReported(n, sorted, r);
      AdjacentOverlapMeaning(sorted[r - 1], sorted[r], r);
      var k :| 0 <= k < |all| && all[k] == o;
    }
  }

  /** `covered_end` when the item at `pos` is reached: the farthest end of the items before it, 0 before the first. */
  function Frontier(sorted: seq<Item>, pos: int): int
    requires 0 <= pos <= |sorted|
  {
    if pos == 0 then 0 else sorted[MaxPos(sorted, pos)].end
  }

  /** An uncovered stretch `[a, b)` the scan passes over: whitespace gaps are ignored and it is short and only whitespace. */
  predicate Ignorable(text: string, a: int, b: int, ignoreWs: bool, wsMax: int)
    requires 0 <= a <= b <= |text|
  {
    ignoreWs && b - a <= wsMax && IsWsOnly(text[a..b])
  }

  /** The gap recorded before the item at `pos`: none, or `[covered_end, start)` with its kind and neighbours. */
  function StepGap(text: string, sorted: seq<Item>, pos: int, ignoreWs: bool, wsMax: int): seq<Gap>
    requires ScanInput(|text|, sorted) && 0 <= pos < |sorted|
  {
    var c, s := Frontier(sorted, pos), sorted[pos].start;
    if s > c && !Ignorable(text, c, s, ignoreWs, wsMax) then
      [Gap(if c == 0 then StartGap else InnerGap, c, s, s - c, Preview(text[c..s]),
           if pos > 0 && c != 0 then Some((sorted[pos - 1].segmentId, sorted[pos].segmentId)) else None)]
    else []
  }

  /** The end gap `[covered_end, n)` once every item is scanned, unless there is none or it is ignorable. */
  function TailGap(text: string, sorted: seq<Item>, ignoreWs: bool, wsMax: int): seq<Gap>
    requires ScanInput(|text|, sorted)
  {
    var c, n := Frontier(sorted, |sorted|), |text|;
    if c < n && !Ignorable(text, c, n, ignoreWs, wsMax) then [Gap(EndGap, c, n, n - c, Preview(text[c..n]), None)] else []
  }

  /** The gaps recorded for each of the items before `pos`. */
  function GapSteps(text: string, sorted: seq<Item>, pos: int, ignoreWs: bool, wsMax: int): (steps: seq<seq<Gap>>)
    requires ScanInput(|text|, sorted) && 0 <= pos <= |sorted|
    ensures |steps| == pos && forall r :: 0 <= r < pos ==> steps[r] == StepGap(text, sorted, r, ignoreWs, wsMax)
  {
    seq(pos, r requires 0 <= r < pos => StepGap(text, sorted, r, ignoreWs, wsMax))
  }

  /** The gaps recorded for the items before `pos`, in scan order. */
  function GapsBefore(text: string, sorted: seq<Item>, pos: int, ignoreWs: bool, wsMax: int): seq<Gap>
    requires ScanInput(|text|, sorted) && 0 <= pos <= |sorted|
  {
    Flatten(GapSteps(text, sorted, pos, ignoreWs, wsMax))
  }

  /** The missing components of a non-empty scan: the gap before each item, then the end gap. */
  function GapsOf(text: string, sorted: seq<Item>, ignoreWs: bool, wsMax: int): seq<Gap>
    requires ScanInput(|text|, sorted)
  {
    GapsBefore(text, sorted, |sorted|, ignoreWs, wsMax) + TailGap(text, sorted, ignoreWs, wsMax)
  }

  /** Scanning one more item appends its gap. */
  lemma GapsBeforeNext(text: string, sorted: seq<Item>, pos: int, ignoreWs: bool, wsMax: int)
    requires ScanInput(|text|, sorted) && 0 <= pos < |sorted|
    ensures GapsBefore(text, sorted, pos + 1, ignoreWs, wsMax)
         == GapsBefore(text, sorted, pos, ignoreWs, wsMax) + StepGap(text, sorted, pos, ignoreWs, wsMax)
  {
    var steps := GapSteps(text, sorted, pos + 1, ignoreWs, wsMax);
    assert steps[..pos] == GapSteps(text, sorted, pos, ignoreWs, wsMax);
    assert steps[pos] == StepGap(text, sorted, pos, ignoreWs, wsMax);
  }

  /** `[a, b)` is a maximal stretch of `[0, n)` that no item covers. */
  predicate UncoveredRun(n: int, sorted: seq<Item>, a: int, b: int)
  {
    && 0 <= a < b <= n
    && (forall p :: a <= p < b ==> !InItems(sorted, p))
    && (a == 0 || InItems(sorted, a - 1))
    && (b == n || InItems(sorted, b))
  }

  /** The item at `pos` is the first, in sorted order, to start at `b`. */
  predicate FirstFrom(sorted: seq<Item>, pos: int, b: int)
  {
    0 <= pos < |sorted| && sorted[pos].start == b && forall k :: 0 <= k < pos ==> sorted[k].start < b
  }

  /** No item covers a position from the frontier before `pos` up to the start of the item at `pos`. */
  lemma UncoveredBeforeItem(sorted: seq<Item>, n: int, pos: int, p: int)
    requires ScanInput(n, sorted) && 0 <= pos < |sorted| && Frontier(sorted, pos) <= p < sorted[pos].start
    ensures !InItems(sorted, p)
  {
    var c := Frontier(sorted, pos);
    forall k | 0 <= k < |sorted| ensures !(sorted[k].start <= p < sorted[k].end) {
      if k > pos {
        assert sorted[pos].start <= sorted[k].start;
      }
    }
  }

  /** The gap before an item is a maximal uncovered stretch, with the kind and neighbours the scan gives it. */
  lemma StepGapRun(text: string, sorted: seq<Item>, pos: int, ignoreWs: bool, wsMax: int)
    requires ScanInput(|text|, sorted) && 0 <= pos < |sorted| && |StepGap(text, sorted, pos, ignoreWs, wsMax)| > 0
    ensures var g := StepGap(text, sorted, pos, ignoreWs, wsMax)[0];
      && GapOk(text, g) && UncoveredRun(|text|, sorted, g.start, g.end) && !Ignorable(text, g.start, g.end, ignoreWs, wsMax)
      && g.kind == (if g.start == 0 then StartGap else if g.end == |text| then EndGap else InnerGap)
      && (g.ids.Some? <==> g.kind == InnerGap)
      && (g.ids.Some? ==> 0 < pos && FirstFrom(sorted, pos, g.end)
                          && g.ids == Some((sorted[pos - 1].segmentId, sorted[pos].segmentId)))
  {
    var c, s := Frontier(sorted, pos), sorted[pos].start;
    forall p | c <= p < s ensures !InItems(sorted, p) {
      UncoveredBeforeItem(sorted, |text|, pos, p);
    }
    if pos > 0 {
      var m := MaxPos(sorted, pos);
      assert sorted[m].start <= c - 1 < sorted[m].end;
    }
    assert sorted[pos].start <= s < sorted[pos].end;
  }

  /** The end gap is a maximal uncovered stretch reaching the end of the text. */
  lemma TailGapRun(text: string, sorted: seq<Item>, ignoreWs: bool, wsMax: int)
    requires ScanInput(|text|, sorted) && |sorted| > 0 && |TailGap(text, sorted, ignoreWs, wsMax)| > 0
    ensures var g := TailGap(text, sorted, ignoreWs, wsMax)[0];
      && GapOk(text, g) && UncoveredRun(|text|, sorted, g.start, g.end) && !Ignorable(text, g.start, g.end, ignoreWs, wsMax)
      && g.start > 0 && g.end == |text| && g.kind == EndGap && g.ids.None?
  {
    var c := Frontier(sorted, |sorted|);
    var m := MaxPos(sorted, |sorted|);
    forall p | c <= p < |text| ensures !InItems(sorted, p) {
      forall k | 0 <= k < |sorted| ensures !(sorted[k].start <= p < sorted[k].end) {
      }
    }
    assert sorted[m].start <= c - 1 < sorted[m].end;
  }

  /**
   * Every reported gap is a maximal stretch no item covers and that is not
   * ignorable.  It is a `start_gap` when it begins at 0, an `end_gap` when it
   * reaches the end of the text and a `gap` otherwise, and only a `gap` names
   * neighbours: the first item, in sorted order, to start where the gap ends
   * and the item just before it.
   */
  lemma GapsAreRuns(text: string, sorted: seq<Item>, ignoreWs: bool, wsMax: int, g: Gap)
    requires ScanInput(|text|, sorted) && |sorted| > 0 && g in GapsOf(text, sorted, ignoreWs, wsMax)
    ensures GapOk(text, g) && UncoveredRun(|text|, sorted, g.start, g.end) && !Ignorable(text, g.start, g.end, ignoreWs, wsMax)
    ensures g.kind == (if g.start == 0 then StartGap else if g.end == |text| then EndGap else InnerGap)
    ensures g.ids.Some? <==> g.kind == InnerGap
    ensures g.ids.Some? ==> exists pos :: 0 < pos && FirstFrom(sorted, pos, g.end)
                                         && g.ids == Some((sorted[pos - 1].segmentId, sorted[pos].segmentId))
  {
    var steps := GapSteps(text, sorted, |sorted|, ignoreWs, wsMax);
    if g in GapsBefore(text, sorted, |sorted|, ignoreWs, wsMax) {
      FlattenMember(steps, g);
      var r :| 0 <= r < |steps| && g in steps[r];
      StepGapRun(text, sorted, r, ignoreWs, wsMax);
    } else {
      TailGapRun(text, sorted, ignoreWs, wsMax);
    }
  }

  /** An item starting before the end of an uncovered stretch ends by its start. */
  lemma EndsBeforeRun(n: int, sorted: seq<Item>, a: int, b: int, k: int)
    requires ScanInput(n, sorted) && UncoveredRun(n, sorted, a, b) && 0 <= k < |sorted| && sorted[k].start < b
    ensures sorted[k].end <= a
  {
    if a <= sorted[k].start {
      assert sorted[k].start <= sorted[k].start < sorted[k].end;
      assert InItems(sorted, sorted[k].start);
    } else if sorted[k].end > a {
      assert InItems(sorted, a);
    }
  }

  /** Once the items starting before `b` are scanned, the frontier is the start `a` of the uncovered stretch `[a, b)`. */
  lemma FrontierAtRun(n: int, sorted: seq<Item>, a: int, b: int, pos: int)
    requires ScanInput(n, sorted) && UncoveredRun(n, sorted, a, b) && 0 <= pos <= |sorted|
    requires forall k :: 0 <= k < pos ==> sorted[k].start < b
    requires forall k :: pos <= k < |sorted| ==> b <= sorted[k].start
    ensures Frontier(sorted, pos) == a
  {
    forall k | 0 <= k < pos ensures sorted[k].end <= a {
      EndsBeforeRun(n, sorted, a, b, k);
    }
    if a > 0 {
      var j :| 0 <= j < |sorted| && sorted[j].start <= a - 1 < sorted[j].end;
      EndsBeforeRun(n, sorted, a, b, j);
      assert j < pos;
    }
  }

  /** Every maximal uncovered stretch that is not ignorable is reported. */
  lemma RunsAreGaps(text: string, sorted: seq<Item>, ignoreWs: bool, wsMax: int, a: int, b: int)
    requires ScanInput(|text|, sorted) && |sorted| > 0
    requires UncoveredRun(|text|, sorted, a, b) && !Ignorable(text, a, b, ignoreWs, wsMax)
    ensures exists g :: g in GapsOf(text, sorted, ignoreWs, wsMax) && g.start == a && g.end == b
  {
    if b == |text| {
      RunAtEnd(text, sorted, ignoreWs, wsMax, a);
    } else {
      var k :| 0 <= k < |sorted| && sorted[k].start <= b < sorted[k].end;
      var pos := FirstItemFrom(|text|, sorted, a, b, k);
      RunBeforeItem(text, sorted, ignoreWs, wsMax, a, b, pos);
    }
  }

  /** An uncovered stretch reaching the end of the text that is not ignorable is the end gap. */
  lemma RunAtEnd(text: string, sorted: seq<Item>, ignoreWs: bool, wsMax: int, a: int)
    requires ScanInput(|text|, sorted) && |sorted| > 0
    requires UncoveredRun(|text|, sorted, a, |text|) && !Ignorable(text, a, |text|, ignoreWs, wsMax)
    ensures exists g :: g in GapsOf(text, sorted, ignoreWs, wsMax) && g.start == a && g.end == |text|
  {
    var n := |text|;
    FrontierAtRun(n, sorted, a, n, |sorted|);
    var before := GapsBefore(text, sorted, |sorted|, ignoreWs, wsMax);
    var g := TailGap(text, sorted, ignoreWs, wsMax)[0];
    assert GapsOf(text, sorted, ignoreWs, wsMax)[|before|] == g;
  }

  /** The item covering the end `b` of an uncovered stretch starts at `b`, and so does a first item. */
  lemma FirstItemFrom(n: int, sorted: seq<Item>, a: int, b: int, k: int) returns (pos: int)
    requires ScanInput(n, sorted) && UncoveredRun(n, sorted, a, b)
    requires 0 <= k < |sorted| && sorted[k].start <= b < sorted[k].end
    ensures FirstFrom(sorted, pos, b)
    ensures forall j :: pos <= j < |sorted| ==> b <= sorted[j].start
  {
    if sorted[k].start < b {
      EndsBeforeRun(n, sorted, a, b, k);
    }
    pos := k;
    while pos > 0 && sorted[pos - 1].start >= b
      invariant 0 <= pos <= k && sorted[pos].start >= b
      decreases pos
    {
      pos := pos - 1;
    }
    assert sorted[pos].start <= sorted[k].start;
    assert forall j :: 0 <= j < pos ==> sorted[j].start <= sorted[pos - 1].start;
    assert forall j :: pos <= j < |sorted| ==> sorted[pos].start <= sorted[j].start;
  }

  /** An uncovered stretch ending where the first item from `b` starts, and not ignorable, is that item's gap. */
  lemma RunBeforeItem(text: string, sorted: seq<Item>, ignoreWs: bool, wsMax: int, a: int, b: int, pos: int)
    requires ScanInput(|text|, sorted)
    requires UncoveredRun(|text|, sorted, a, b) && !Ignorable(text, a, b, ignoreWs, wsMax)
    requires FirstFrom(sorted, pos, b) && forall j :: pos <= j < |sorted| ==> b <= sorted[j].start
    ensures exists g :: g in GapsOf(text, sorted, ignoreWs, wsMax) && g.start == a && g.end == b
  {
    FrontierAtRun(|text|, sorted, a, b, pos);
    var steps := GapSteps(text, sorted, |sorted|, ignoreWs, wsMax);
    var g := StepGap(text, sorted, pos, ignoreWs, wsMax)[0];
    assert g in steps[pos];
    FlattenMember(steps, g);
  }

  /**
   * The scan over the sorted items: `coveredEnd` is the farthest end so far,
   * `maxPos` the position of `max_seg` (the first item reaching it) and the
   * item at `pos - 1` is `prev_seg`.
   */
  method Scan(text: string, sorted: seq<Item>, ignoreWs: bool, wsMax: int)
    returns (missing: seq<Gap>, overlaps: seq<Overlap>, ghost seams: seq<Span>)
    requires |sorted| > 0 && ScanInput(|text|, sorted)
    ensures missing == GapsOf(text, sorted, ignoreWs, wsMax)
    ensures GapsInv(text, sorted, ignoreWs, wsMax, missing, seams, |text|)
    ensures overlaps == OverlapsOf(sorted, |sorted|)
  {
    var n := |text|;
    missing, overlaps, seams := [], [], [];
    var coveredEnd := 0;
    var maxPos := 0;
    for pos := 0 to |sorted|
      invariant 0 <= coveredEnd <= n
      invariant pos == 0 ==> coveredEnd == 0
      invariant forall k :: 0 <= k < pos ==> sorted[k].end <= coveredEnd
      invariant pos > 0 ==> 0 <= maxPos < pos && sorted[maxPos].end == coveredEnd
      invariant GapsInv(text, sorted, ignoreWs, wsMax, missing, seams, coveredEnd)
      invariant pos > 0 ==> maxPos == MaxPos(sorted, pos)
      invariant overlaps == OverlapsOf(sorted, pos)
      invariant coveredEnd == Frontier(sorted, pos)
      invariant missing == GapsBefore(text, sorted, pos, ignoreWs, wsMax)
    {
      var e := sorted[pos].end;
      seams := StepKeeps(text, sorted, pos, ignoreWs, wsMax, missing, seams);
      missing := ScanGap(text, sorted, pos, coveredEnd, ignoreWs, wsMax, missing);
      GapsBeforeNext(text, sorted, pos, ignoreWs, wsMax);
      overlaps := ScanOverlaps(n, sorted, pos, maxPos, overlaps);
      OverlapsOfNext(sorted, pos);
      if e > coveredEnd {
        coveredEnd := e;
      }
      if pos == 0 || e > sorted[maxPos].end {
        maxPos := pos;
      }
    }
    seams := TailKeeps(text, sorted, ignoreWs, wsMax, missing, seams);
    missing := ScanEndGap(text, sorted, coveredEnd, ignoreWs, wsMax, missing);
  }

  /** The end gap `[covered_end, n)`, unless it is an ignored whitespace seam. */
  method ScanEndGap(text: string, sorted: seq<Item>, coveredEnd: int, ignoreWs: bool, wsMax: int, missing: seq<Gap>)
    returns (missing2: seq<Gap>)
    requires ScanInput(|text|, sorted) && coveredEnd == Frontier(sorted, |sorted|)
    ensures missing2 == missing + TailGap(text, sorted, ignoreWs, wsMax)
  {
    var n := |text|;
    missing2 := missing;
    if coveredEnd < n {
      var tail := text[coveredEnd..n];
      if !(ignoreWs && IsWsOnly(tail) && n - coveredEnd <= wsMax) {
        missing2 := missing + [Gap(EndGap, coveredEnd, n, n - coveredEnd, Preview(tail), None)];
      }
    }
  }

  /** The end gap test accounts for every position of the text; `seams2` adds the stretch passed over, if any. */
  lemma TailKeeps(text: string, sorted: seq<Item>, ignoreWs: bool, wsMax: int, missing: seq<Gap>, seams: seq<Span>)
    returns (seams2: seq<Span>)
    requires ScanInput(|text|, sorted) && |sorted| > 0
    requires GapsInv(text, sorted, ignoreWs, wsMax, missing, seams, Frontier(sorted, |sorted|))
    ensures GapsInv(text, sorted, ignoreWs, wsMax, missing + TailGap(text, sorted, ignoreWs, wsMax), seams2, |text|)
  {
    var c, n := Frontier(sorted, |sorted|), |text|;
    var m := MaxPos(sorted, |sorted|);
    var missing2 := missing + TailGap(text, sorted, ignoreWs, wsMax);
    seams2 := seams;
    if c < n {
      if Ignorable(text, c, n, ignoreWs, wsMax) {
        SeamsSoundAppend(text, ignoreWs, wsMax, seams, (c, n));
        seams2 := seams + [(c, n)];
      } else {
        GapsSoundAppend(text, sorted, missing, TailGap(text, sorted, ignoreWs, wsMax)[0]);
      }
      assert missing2[..|missing|] == missing && seams2[..|seams|] == seams;
      EndStep(sorted, c, n, missing, seams, missing2, seams2);
    } else {
      assert missing2 == missing;
    }
  }

  /** Closing the end gap or seam accounts for every position up to `n`. */
  lemma EndStep(sorted: seq<Item>, coveredEnd: int, n: int,
                missing: seq<Gap>, seams: seq<Span>, missing2: seq<Gap>, seams2: seq<Span>)
    requires Accounted(sorted, missing, seams, coveredEnd)
    requires |missing| <= |missing2| && missing2[..|missing|] == missing
    requires |seams| <= |seams2| && seams2[..|seams|] == seams
    requires || (|missing2| > |missing| && missing2[|missing|].start == coveredEnd && missing2[|missing|].end == n)
             || (|seams2| > |seams| && seams2[|seams|] == (coveredEnd, n))
    ensures Accounted(sorted, missing2, seams2, n)
  {
    forall p | 0 <= p < n ensures InItems(sorted, p) || InGaps(missing2, p) || InSeams(seams2, p) {
      if p < coveredEnd {
        if InGaps(missing, p) {
          var k :| 0 <= k < |missing| && missing[k].start <= p < missing[k].end;
          assert missing2[k] == missing[k];
        } else if InSeams(seams, p) {
          var k :| 0 <= k < |seams| && seams[k].0 <= p < seams[k].1;
          assert seams2[k] == seams[k];
        }
      } else if |missing2| > |missing| && missing2[|missing|].start == coveredEnd && missing2[|missing|].end == n {
        assert missing2[|missing|].start <= p < missing2[|missing|].end;
      } else {
        assert seams2[|seams|].0 <= p < seams2[|seams|].1;
      }
    }
  }

  /** The items sorted by `(start, end)` are the scan's input. */
  lemma SortedItems(n: int, items: seq<Item>)
    requires forall k :: 0 <= k < |items| ==> 0 <= items[k].start < items[k].end <= n
    ensures ScanInput(n, SortBy(items, ItemLe)) && SortedBy(SortBy(items, ItemLe), ItemLe)
  {
    var sorted := SortBy(items, ItemLe);
    ItemLeTotalPreorder();
    SortBySorted(items, ItemLe);
    forall k | 0 <= k < |sorted| ensures 0 <= sorted[k].start < sorted[k].end <= n {
      assert sorted[k] in multiset(items);
      var j :| 0 <= j < |items| && items[j] == sorted[k];
    }
    forall a, b | 0 <= a < b < |sorted| ensures sorted[a].start <= sorted[b].start {
      assert ItemLe(sorted[a], sorted[b]);
    }
  }

  /** A gap that touches no sorted item touches no item. */
  lemma TransferGaps(text: string, items: seq<Item>, sorted: seq<Item>, missing: seq<Gap>)
    requires multiset(sorted) == multiset(items) && GapsSound(text, sorted, missing)
    ensures forall g, k :: g in missing && 0 <= k < |items| ==> Apart(g, items[k])
  {
    forall g, k | g in missing && 0 <= k < |items| ensures Apart(g, items[k]) {
      assert items[k] in multiset(sorted);
      var j :| 0 <= j < |sorted| && sorted[j] == items[k];
    }
  }

  lemma TransferAccounted(items: seq<Item>, sorted: seq<Item>, missing: seq<Gap>, seams: seq<Span>, n: int)
    requires multiset(sorted) == multiset(items) && Accounted(sorted, missing, seams, n)
    ensures Accounted(items, missing, seams, n)
  {
    forall p | 0 <= p < n && InItems(sorted, p) ensures InItems(items, p) {
      var k :| 0 <= k < |sorted| && sorted[k].start <= p < sorted[k].end;
      assert sorted[k] in multiset(items);
      var j :| 0 <= j < |items| && items[j] == sorted[k];
    }
  }

  /** Between two sorted items with the same span, the neighbours share it too. */
  lemma SameSpanAdjacent(sorted: seq<Item>, lo: int, hi: int)
    requires SortedBy(sorted, ItemLe) && 0 <= lo < hi < |sorted| && SameSpan(sorted[lo], sorted[hi])
    ensures SameSpan(sorted[hi - 1], sorted[hi])
  {
    if lo < hi - 1 {
      assert ItemLe(sorted[lo], sorted[hi - 1]) && ItemLe(sorted[hi - 1], sorted[hi]);
    }
  }

  /** Two items with the same span, being distinct, sit at two positions of the sorted list. */
  lemma TransferDuplicates(n: int, items: seq<Item>, sorted: seq<Item>, overlaps: seq<Overlap>)
    requires multiset(sorted) == multiset(items) && SortedBy(sorted, ItemLe)
    requires forall a, b :: 0 <= a < b < |items| ==> items[a].i < items[b].i
    requires OverlapsInv(n, sorted, |sorted|, overlaps)
    ensures forall a, b :: 0 <= a < b < |items| && SameSpan(items[a], items[b]) ==> HasDuplicate(overlaps, items[a].start, items[a].end)
  {
    forall a, b | 0 <= a < b < |items| && SameSpan(items[a], items[b])
      ensures HasDuplicate(overlaps, items[a].start, items[a].end)
    {
      assert items[a] in multiset(sorted) && items[b] in multiset(sorted);
      var p :| 0 <= p < |sorted| && sorted[p] == items[a];
      var q :| 0 <= q < |sorted| && sorted[q] == items[b];
      assert p != q;
      var lo, hi := if p < q then p else q, if p < q then q else p;
      SameSpanAdjacent(sorted, lo, hi);
    }
  }

  /**
   * The missing components `validate_coverage_and_overlaps` reports: one
   * `start_gap` over the whole text when no span is valid (whitespace or
   * not), else the gaps of the scan over the sorted items.
   */
  function MissingOf(text: string, segments: seq<map<string, Value>>, ignoreWs: bool, wsMax: int): seq<Gap>
  {
    var items := ValidItems(segments, |text|);
    if |items| == 0 then
      if |text| > 0 then [Gap(StartGap, 0, |text|, |text|, Preview(text), None)] else []
    else
      SortedItems(|text|, items);
      GapsOf(text, SortBy(items, ItemLe), ignoreWs, wsMax)
  }

  /**
   * What `validate_coverage_and_overlaps` returns for the segments: the
   * missing components exactly as `MissingOf` lists them, each well formed
   * and touching no valid span, and the overlaps exactly as `OverlapsOf`
   * lists them, each well formed, with every two segments sharing a span
   * flagged `duplicate`.
   */
  predicate CoverageOf(text: string, segments: seq<map<string, Value>>, ignoreWs: bool, wsMax: int,
                       missing: seq<Gap>, overlaps: seq<Overlap>)
  {
    var items := ValidItems(segments, |text|);
    var sorted := SortBy(items, ItemLe);
    && missing == MissingOf(text, segments, ignoreWs, wsMax)
    && (forall g :: g in missing ==> GapOk(text, g))
    && (forall g, k :: g in missing && 0 <= k < |items| ==> Apart(g, items[k]))
    && overlaps == OverlapsOf(sorted, |sorted|)
    && (forall o :: o in overlaps ==> OverlapOk(|text|, o))
    && (forall a, b :: 0 <= a < b < |items| && SameSpan(items[a], items[b]) ==> HasDuplicate(overlaps, items[a].start, items[a].end))
  }

  /**
   * `validate_coverage_and_overlaps(text, segments, ignore_whitespace_gaps,
   * whitespace_gap_max)`: the missing components and the overlaps.  `seams`
   * names the uncovered stretches that were exempted as short whitespace.
   */
  method ValidateCoverageAndOverlaps(text: string, segments: seq<map<string, Value>>, ignoreWs: bool, wsMax: int)
    returns (missing: seq<Gap>, overlaps: seq<Overlap>, ghost seams: seq<Span>)
    ensures |text| == 0 ==> missing == [] && overlaps == []
    ensures |text| > 0 && |ValidItems(segments, |text|)| == 0 ==>
      missing == [Gap(StartGap, 0, |text|, |text|, Preview(text), None)] && overlaps == []
    ensures CoverageOf(text, segments, ignoreWs, wsMax, missing, overlaps)
    ensures SeamsSound(text, ignoreWs, wsMax, seams)
    ensures Accounted(ValidItems(segments, |text|), missing, seams, |text|)
  {
    var n := |text|;
    var items := CollectItems(segments, n);
    var sorted := SortBy(items, ItemLe);
    if |sorted| == 0 {
      missing, overlaps, seams := [], [], [];
      if n > 0 {
        assert text[0..n] == text;
        missing := [Gap(StartGap, 0, n, n, Preview(text[0..n]), None)];
        forall p | 0 <= p < n ensures InGaps(missing, p) {
          assert missing[0].start <= p < missing[0].end;
        }
      }
      return;
    }
    SortedItems(n, items);
    missing, overlaps, seams := Scan(text, sorted, ignoreWs, wsMax);
    TransferGaps(text, items, sorted, missing);
    TransferAccounted(items, sorted, missing, seams, n);
    OverlapsOfInv(n, sorted);
    TransferDuplicates(n, items, sorted, overlaps);
  }

  // ---------------------------------------------------------------- audit_segments_against_anchors

  datatype Issue = StartMismatch | EndMismatch

  /**
   * One entry of the audit: an anchor that does not sit at its offset, or a
   * span that is not valid.  `expected` is the anchor as `sm` shows it: a
   * shortened string, or a list or dictionary anchor as it is.
   */
  datatype Warning =
    | Mismatch(segmentId: Value, issue: Issue, at: Value, expected: Value, found: string)
    | InvalidSpan(segmentId: Value, span: (Value, Value))

  /** `seg.get(key) or ""`: the anchor, with a falsy value read as "". */
  function Anchor(seg: map<string, Value>, key: string): Value
  {
    Or(GetValue(seg, key), Str(""))
  }

  /** `text[s:s + len(sx)] if sx else ""`, for an anchor of length `len`. */
  function HeadAt(text: string, s: int, len: int): string
  {
    if len > 0 then PySlice(text, s, s + len) else ""
  }

  /** `text[e - len(ex):e] if ex else ""`, for an anchor of length `len`. */
  function TailAt(text: string, e: int, len: int): string
  {
    if len > 0 then PySlice(text, e - len, e) else ""
  }

  /**
   * `utils.sm(v, limit)` for an anchor with a length: a string goes through
   * `sm`; a list or dictionary within the limit comes back as it is; a longer
   * one raises `ValueError` when the limit leaves no prefix, and otherwise
   * `TypeError`, as a list slice cannot be joined to the spacer string and a
   * dictionary cannot be sliced.
   */
  function SmAnchor(v: Value, limit: int): (r: Result<Value>)
    requires Len(v).Ok?
    ensures !v.Str? ==> (r.Ok? <==> Len(v).value <= limit)
    ensures !v.Str? && r.Ok? ==> r.value == v
    ensures !v.Str? && r.Err? ==> r.error.kind == (if Display.SmPrefix(limit, "...") <= 0 then ValueError else TypeError)
  {
    if v.Str? then
      var shown := Display.Sm(v.s, limit, "...");
      if shown.Err? then Err(shown.error) else Ok(Str(shown.value))
    else if Len(v).value <= limit then Ok(v)
    else if Display.SmPrefix(limit, "...") <= 0 then
      Err(Exception(ValueError, "Text limit " + IntToString(limit) + " not long enough for prefix/suffix spacer '...'."))
    else if v.Arr? then Err(Exception(TypeError, "can only concatenate list (not \"str\") to list"))
    else Err(Exception(TypeError, "unhashable type: 'slice'"))
  }

  /**
   * The warning for one anchor: none when it is falsy or equal to the text
   * found (a list or dictionary never is), else the anchor and the found text
   * as `sm` shows them.
   */
  function AnchorWarning(id: Value, issue: Issue, at: Value, anchor: Value, found: string, sample: int): Result<seq<Warning>>
    requires Len(anchor).Ok?
  {
    if Truthy(anchor) && Str(found) != anchor then
      var expected := SmAnchor(anchor, sample);
      if expected.Err? then Err(expected.error)
      else
        var shown := Display.Sm(found, sample, "...");
        if shown.Err? then Err(shown.error)
        else Ok([Mismatch(id, issue, at, expected.value, shown.value)])
    else Ok([])
  }

  /**
   * The warnings for the segment at index `idx`, in the order the loop body
   * appends them.  Both anchor lengths are taken before either warning is
   * built, so a number or boolean anchor raises before any `sm`.
   */
  function SegmentWarnings(text: string, idx: int, seg: map<string, Value>, sample: int): Result<seq<Warning>>
  {
    var s, e := GetValue(seg, "start_char"), GetValue(seg, "end_char");
    var id := SegId(seg, Int(idx));
    if !ValidSpan(s, e, |text|) then Ok([InvalidSpan(id, (s, e))])
    else
      var sx, ex := Anchor(seg, "start_exact"), Anchor(seg, "end_exact");
      var sl, el := Len(sx), Len(ex);
      if sl.Err? then Err(sl.error)
      else if el.Err? then Err(el.error)
      else
        var si, ei := AsInt(s).value, AsInt(e).value;
        var w1 := AnchorWarning(id, StartMismatch, s, sx, HeadAt(text, si, sl.value), sample);
        if w1.Err? then w1
        else
          var w2 := AnchorWarning(id, EndMismatch, e, ex, TailAt(text, ei, el.value), sample);
          if w2.Err? then w2 else Ok(w1.value + w2.value)
  }

  /** The warnings for all segments, segment by segment; the first exception ends the audit. */
  function AllWarnings(text: string, segs: seq<map<string, Value>>, sample: int): Result<seq<Warning>>
    decreases |segs|
  {
    if |segs| == 0 then Ok([])
    else
      var m := |segs| - 1;
      var pre := AllWarnings(text, segs[..m], sample);
      if pre.Err? then pre
      else
        var w := SegmentWarnings(text, m, segs[m], sample);
        if w.Err? then w else Ok(pre.value + w.value)
  }

  /** `audit_segments_against_anchors(text, segments, sample=sample)`. */
  method AuditSegmentsAgainstAnchors(text: string, segs: seq<map<string, Value>>, sample: int)
    returns (r: Result<seq<Warning>>)
    ensures r == AllWarnings(text, segs, sample)
  {
    var warns: seq<Warning> := [];
    for idx := 0 to |segs|
      invariant AllWarnings(text, segs[..idx], sample) == Ok(warns)
    {
      assert segs[..idx + 1][..idx] == segs[..idx];
      var w := SegmentWarnings(text, idx, segs[idx], sample);
      if w.Err? {
        r := Err(w.error);
        AllWarningsErr(text, segs, sample, idx + 1);
        return;
      }
      warns := warns + w.value;
    }
    assert segs[..|segs|] == segs;
    r := Ok(warns);
  }

  /** An exception in the first `k` segments is the audit's exception. */
  lemma {:induction false} AllWarningsErr(text: string, segs: seq<map<string, Value>>, sample: int, k: int)
    requires 0 <= k <= |segs| && AllWarnings(text, segs[..k], sample).Err?
    ensures AllWarnings(text, segs, sample) == AllWarnings(text, segs[..k], sample)
    decreases |segs| - k
  {
    if k < |segs| {
      assert segs[..k + 1][..k] == segs[..k];
      AllWarningsErr(text, segs, sample, k + 1);
    } else {
      assert segs[..k] == segs;
    }
  }

  /** The sliced head equals the anchor exactly when the anchor occurs verbatim at `s`. */
  lemma HeadMatches(text: string, s: int, sx: string)
    requires 0 <= s <= |text| && |sx| > 0
    ensures HeadAt(text, s, |sx|) == sx <==> MatchAt(text, sx, s)
  {
    if s + |sx| <= |text| {
      assert PySlice(text, s, s + |sx|) == text[s..s + |sx|];
    } else {
      assert |PySlice(text, s, s + |sx|)| < |sx|;
    }
  }

  /** The sliced tail equals the anchor exactly when the anchor occurs verbatim ending at `e`. */
  lemma TailMatches(text: string, e: int, ex: string)
    requires 0 <= e <= |text| && |ex| > 0
    ensures TailAt(text, e, |ex|) == ex <==> MatchAt(text, ex, e - |ex|)
  {
    if e - |ex| >= 0 {
      assert PySlice(text, e - |ex|, e) == text[e - |ex|..e];
    } else {
      assert |PySlice(text, e - |ex|, e)| < |ex|;
    }
  }

  /** An anchor `sm` shows without raising, for a sample of at least 5: a string, or a list or dictionary within the sample. */
  predicate Shown(v: Value, sample: int)
  {
    Len(v).Ok? && (v.Str? || Len(v).value <= sample)
  }

  /** The anchor is not found: a truthy string that does not occur verbatim at `at`, or any truthy list or dictionary. */
  predicate AnchorMissed(text: string, anchor: Value, at: int)
  {
    Truthy(anchor) && !(anchor.Str? && MatchAt(text, anchor.s, at))
  }

  /**
   * For a segment whose span is not valid, exactly one `invalid_span`
   * warning.  For a valid span, with a sample of at least 5: the audit of the
   * segment raises (`TypeError`) exactly when an anchor is a number or a
   * boolean or a list or dictionary longer than the sample; otherwise a start
   * (end) warning is issued exactly when the start (end) anchor is missed at
   * the start offset (ending at the end offset), and a list or dictionary
   * anchor is reported as it is.
   */
  lemma SegmentWarningsMeaning(text: string, idx: int, seg: map<string, Value>, sample: int)
    requires sample >= 5
    ensures var s, e := GetValue(seg, "start_char"), GetValue(seg, "end_char");
      !ValidSpan(s, e, |text|) ==>
        SegmentWarnings(text, idx, seg, sample) == Ok([InvalidSpan(SegId(seg, Int(idx)), (s, e))])
    ensures var s, e := GetValue(seg, "start_char"), GetValue(seg, "end_char");
      var sx, ex := Anchor(seg, "start_exact"), Anchor(seg, "end_exact");
      var w := SegmentWarnings(text, idx, seg, sample);
      ValidSpan(s, e, |text|) ==>
        && (w.Ok? <==> Shown(sx, sample) && Shown(ex, sample))
        && (w.Err? ==> w.error.kind == TypeError)
    ensures var s, e := GetValue(seg, "start_char"), GetValue(seg, "end_char");
      var sx, ex := Anchor(seg, "start_exact"), Anchor(seg, "end_exact");
      var w := SegmentWarnings(text, idx, seg, sample);
      ValidSpan(s, e, |text|) && w.Ok? ==>
        && (exists k :: 0 <= k < |w.value| && w.value[k].Mismatch? && w.value[k].issue == StartMismatch)
           == AnchorMissed(text, sx, AsInt(s).value)
        && (exists k :: 0 <= k < |w.value| && w.value[k].Mismatch? && w.value[k].issue == EndMismatch)
           == AnchorMissed(text, ex, AsInt(e).value - Len(ex).value)
        && (forall k :: 0 <= k < |w.value| && w.value[k].Mismatch? ==>
              var anchor := if w.value[k].issue == StartMismatch then sx else ex;
              !anchor.Str? ==> w.value[k].expected == anchor)
  {
    var s, e := GetValue(seg, "start_char"), GetValue(seg, "end_char");
    var sx, ex := Anchor(seg, "start_exact"), Anchor(seg, "end_exact");
    if ValidSpan(s, e, |text|) && Len(sx).Ok? && Len(ex).Ok? {
      var si, ei := AsInt(s).value, AsInt(e).value;
      var sl, el := Len(sx).value, Len(ex).value;
      var head, tail := HeadAt(text, si, sl), TailAt(text, ei, el);
      if sx.Str? && sl > 0 {
        HeadMatches(text, si, sx.s);
      }
      if ex.Str? && el > 0 {
        TailMatches(text, ei, ex.s);
      }
      var id := SegId(seg, Int(idx));
      var w1 := AnchorWarning(id, StartMismatch, s, sx, head, sample);
      var w2 := AnchorWarning(id, EndMismatch, e, ex, tail, sample);
      AnchorWarningShape(id, StartMismatch, s, sx, head, sample);
      AnchorWarningShape(id, EndMismatch, e, ex, tail, sample);
      if w1.Ok? && w2.Ok? {
        assert SegmentWarnings(text, idx, seg, sample) == Ok(w1.value + w2.value);
        IssuesOfPair(w1.value, w2.value, sx, ex);
      }
    }
  }

  /**
   * With a sample of at least 5, an anchor yields no exception exactly when
   * `sm` can show it, and then a warning exactly when it is truthy and not
   * the text found; a list or dictionary anchor is carried as it is.
   */
  lemma AnchorWarningShape(id: Value, issue: Issue, at: Value, anchor: Value, found: string, sample: int)
    requires sample >= 5 && Len(anchor).Ok?
    ensures var w := AnchorWarning(id, issue, at, anchor, found, sample);
      && (w.Ok? <==> Shown(anchor, sample))
      && (w.Err? ==> w.error.kind == TypeError)
    ensures var w := AnchorWarning(id, issue, at, anchor, found, sample);
      w.Ok? ==>
        && |w.value| == (if Truthy(anchor) && Str(found) != anchor then 1 else 0)
        && forall k :: 0 <= k < |w.value| ==>
             && w.value[k].Mismatch? && w.value[k].issue == issue
             && (!anchor.Str? ==> w.value[k].expected == anchor)
  {
    Display.SmOk(found, sample, "...");
    if anchor.Str? {
      Display.SmOk(anchor.s, sample, "...");
    }
  }

  /**
   * In the start warnings followed by the end warnings, each kind is present
   * exactly when its part is non-empty, and each carries its own anchor.
   */
  lemma IssuesOfPair(w1: seq<Warning>, w2: seq<Warning>, sx: Value, ex: Value)
    requires forall k :: 0 <= k < |w1| ==> w1[k].Mismatch? && w1[k].issue == StartMismatch && (!sx.Str? ==> w1[k].expected == sx)
    requires forall k :: 0 <= k < |w2| ==> w2[k].Mismatch? && w2[k].issue == EndMismatch && (!ex.Str? ==> w2[k].expected == ex)
    ensures (exists k :: 0 <= k < |w1 + w2| && (w1 + w2)[k].Mismatch? && (w1 + w2)[k].issue == StartMismatch) == (|w1| > 0)
    ensures (exists k :: 0 <= k < |w1 + w2| && (w1 + w2)[k].Mismatch? && (w1 + w2)[k].issue == EndMismatch) == (|w2| > 0)
    ensures forall k :: 0 <= k < |w1 + w2| && (w1 + w2)[k].Mismatch? ==>
      var anchor := if (w1 + w2)[k].issue == StartMismatch then sx else ex;
      !anchor.Str? ==> (w1 + w2)[k].expected == anchor
  {
    var w := w1 + w2;
    if |w1| > 0 {
      assert w[0] == w1[0];
    }
    if |w2| > 0 {
      assert w[|w1|] == w2[0];
    }
    forall k | 0 <= k < |w|
      ensures w[k].Mismatch?
      ensures w[k].issue == StartMismatch ==> |w1| > 0 && (!sx.Str? ==> w[k].expected == sx)
      ensures w[k].issue == EndMismatch ==> |w2| > 0 && (!ex.Str? ==> w[k].expected == ex)
    {
      if k < |w1| {
        assert w[k] == w1[k];
      } else {
        assert w[k] == w2[k - |w1|];
      }
    }
  }

  // ---------------------------------------------------------------- segments_auditor

  /**
   * The report of `segments_auditor`.  `coverage_pct` (rounded to two
   * decimals in the source) is kept as the fraction `pctNum / pctDen`.
   */
  datatype Report = Report(
    warnings: seq<Warning>, missing: seq<Gap>, overlaps: seq<Overlap>,
    coveredChars: int, totalChars: int, pctNum: int, pctDen: int,
    segmentsTotal: int, segmentsWithValidSpans: int, warningCount: int, gapCount: int, overlapCount: int)

  /** The `(start, end)` pairs of the items. */
  function ItemSpans(items: seq<Item>): (r: seq<Span>)
    ensures |r| == |items| && forall k :: 0 <= k < |r| ==> r[k] == (items[k].start, items[k].end)
  {
    seq(|items|, k requires 0 <= k < |items| => (items[k].start, items[k].end))
  }

  /**
   * `segments_auditor(parsed_output, story_text, index_meta)`: the gaps and
   * overlaps, the anchor warnings and the coverage of the working text.
   */
  method SegmentsAuditor(parsed: map<string, Value>, storyText: string, meta: TextSegmenter.IndexMeta)
    returns (r: Result<Report>)
    ensures var segs := TextSegmenter.SegmentList(Get(parsed, "segments"));
      var text := TextSegmenter.WorkingText(meta, storyText);
      r.Ok? <==> segs.Ok? && AllWarnings(text, segs.value, 120).Ok?
    ensures r.Ok? ==>
      var segs := TextSegmenter.SegmentList(Get(parsed, "segments")).value;
      var text := TextSegmenter.WorkingText(meta, storyText);
      var items := ValidItems(segs, |text|);
      var rep := r.value;
      && rep.warnings == AllWarnings(text, segs, 120).value
      && rep.segmentsTotal == |segs| && rep.segmentsWithValidSpans == |items|
      && rep.warningCount == |rep.warnings| && rep.gapCount == |rep.missing| && rep.overlapCount == |rep.overlaps|
      && rep.coveredChars == |Covered(ItemSpans(items))|
      && 0 <= rep.coveredChars <= rep.totalChars == |text|
      && CoverageOf(text, segs, true, 8, rep.missing, rep.overlaps)
      && rep.pctDen > 0 && (|text| > 0 ==> rep.pctNum == rep.coveredChars * 100 && rep.pctDen == |text|)
  {
    var text := TextSegmenter.WorkingText(meta, storyText);
    var segsR := TextSegmenter.SegmentList(Get(parsed, "segments"));
    if segsR.Err? {
      return Err(segsR.error);
    }
    var segs := segsR.value;
    var missing, overlaps, seams := ValidateCoverageAndOverlaps(text, segs, true, 8);
    var warningsR := AuditSegmentsAgainstAnchors(text, segs, 120);
    if warningsR.Err? {
      return Err(warningsR.error);
    }
    var warnings := warningsR.value;
    var items := CollectItems(segs, |text|);
    var spans := ItemSpans(items);
    var covered := UnionCoverage(spans);
    UnionCoverageBounds(spans, |text|);
    var total := |text|;
    var pctNum, pctDen := if total > 0 then covered * 100 else 0, if total > 0 then total else 1;
    r := Ok(Report(warnings, missing, overlaps, covered, total, pctNum, pctDen,
                   |segs|, |spans|, |warnings|, |missing|, |overlaps|));
  }
}
