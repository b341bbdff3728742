# LCATS core, modelled in Dafny

LCATS (the Literary Captain's Advisory Tool System) gathers short stories,
mostly from Project Gutenberg, and analyses them with large language models.
Most of the repository is glue around LLM calls, scraping and plotting.
Underneath that glue is a deterministic text-processing and validation layer,
and that layer is what this project models and proves properties of:

- **Paragraph indexing and segment alignment** (`TextSegmenter`).
  Paragraph spans, `[P0001]` markers, anchor search inside a window, and
  turning LLM segment reports into character offsets.
- **Segment auditing** (`SegmentAudit`). Span validity, union coverage,
  the gap, overlap and duplicate scan, anchor-versus-offset warnings and
  the auditor's report.
- **Token chunking** (`Chunking`), over an abstract token sequence and
  `decode`.
- **Display helpers** (`Display`). `sm`, `sml`, the control flow of
  `extract_json` and `make_serializable`.
- **File names and author keys** (`Names`, `Extractors`, `CanonicalAuthor`,
  `CreateRequest`). Basename slugs, name parsing, `last_first` keys,
  repository path normalisation and `{{VAR}}` templates.
- **Corpus statistics and classification** (`StoryAnalysis`,
  `SceneAnalysis`, `Parser`). Keywords, top-k, word and paragraph counts,
  scene labels and the agreement tally, and the Gutenberg metadata filters
  and body repair rules.
- **Small state machines** (`LlmExtractor`, `Extraction`, `Pipeline`,
  `CorpusSurveyor`, `CorpusStats`, `Gatherer`, `Cli`). The API-error
  classifier, the extractor's result branching and its `last_*` fields, the
  staged pipeline with retries, batch processing counts, deduplication, the
  gatherer's partition and command dispatch.
- **Header and row parsing** (`Headers`, `Metadata`, `Values`, `Stories`).

Shared modules model the Python built-ins the code relies on:

- `Wrappers` for Option and Result, with Python exceptions as error values;
- `Json` for dictionaries and lists as JSON-shaped values;
- `PyStr` for `str` methods with Python's semantics;
- `PyFormat` for `str.format` with named fields;
- `Sorting` for a stable sort.

Code that updates state step by step is written as methods with loops and
invariants. Each method is proved against a specification function. The
JSON prompt extractor and the pipeline are classes whose fields the methods
update.

Some surprising behaviours of the code are reproduced rather than fixed:

- `chunk_story` only terminates when its step is positive, a chunk cap is
  given or there are no tokens. This is a precondition.
- With overlap, a chunk can hold `max_tokens + overlap_tokens` tokens.
- The fallback search of `find_anchor_in_range` can never find anything
  (`TextSegmenter.AnchorFallbackNeverFinds`).
- `parse_name("Dr.")` raises IndexError.
- `intrusive_paragraph` raises IndexError on a line of exactly four spaces.
- A plain ValueError from `extract_json` escapes `JSONPromptExtractor.extract`.
- `extract_from_story` raises AttributeError on a non-empty list.
- `names_match` is true when the second name is empty.
- The job label `..` survives `compute_job_dir`.
- Python booleans count as integers in span checks.

Where the model departs from the code, it says so under "Left out".

## Model

| member | source | states |
|---|---|---|
| TextSegmenter.CanonicalizeTextNoCr | lcats/lcats/analysis/text_segmenter.py:18-20 | the canonical text holds no carriage return, and a text without one is returned unchanged |
| TextSegmenter.ReplaceOneChar | lcats/lcats/analysis/text_segmenter.py:20 | replacing a one-character string by another is a character-by-character map |
| TextSegmenter.BuildParagraphIndex | lcats/lcats/analysis/text_segmenter.py:23-47 | an empty splitter raises ValueError; otherwise the parts are exactly `text.split(splitter)`, one span per part, `text[s:e]` is the part, the first span starts at 0, each next start is the previous end plus the splitter length and the last ends at the text length |
| TextSegmenter.ChunkSpans | lcats/lcats/analysis/text_segmenter.py:36-46 | the loop: parts equal the split pieces, every recorded span so far matches its piece verbatim and follows the previous one by one splitter |
| TextSegmenter.ChunkStep | lcats/lcats/analysis/text_segmenter.py:39-46 | the search `find(chunk, i)` from the running index lands exactly on the next piece, and the rest after it is the join of the remaining pieces |
| TextSegmenter.SpansExtend | lcats/lcats/analysis/text_segmenter.py:44-46 | appending the span of the next piece keeps the contiguity invariant |
| TextSegmenter.SpansComplete | lcats/lcats/analysis/text_segmenter.py:38-47 | once every piece has a span, the spans form a paragraph index of the text |
| TextSegmenter.AddParagraphMarkersIsJoin | lcats/lcats/analysis/text_segmenter.py:50-60 | the marked text is the delimiter-join of `[P%04d] `+paragraph, k 1-based: the delimiter only between paragraphs |
| TextSegmenter.ConcatDelimited | lcats/lcats/analysis/text_segmenter.py:59-60 | concatenating each piece followed by the delimiter except after the last is the join |
| TextSegmenter.FindAnchorInRange | lcats/lcats/analysis/text_segmenter.py:63-99 | an empty or whitespace-only anchor gives None; a result r in a window inside the text has lo <= r, r+len(anchor) <= hi and the anchor verbatim at r; None means the anchor occurs nowhere in the window |
| TextSegmenter.FallbackSearch | lcats/lcats/analysis/text_segmenter.py:86-99 | any position the whitespace-insensitive fallback returns holds the anchor verbatim |
| TextSegmenter.WindowNeverMatches | lcats/lcats/analysis/text_segmenter.py:94-97 | the fallback window is a slice of the segment, so it cannot contain an anchor the segment lacks |
| TextSegmenter.AnchorFallbackNeverFinds | lcats/lcats/analysis/text_segmenter.py:80-99 | the result is always that of the exact search: the whitespace-insensitive fallback can never contribute a position |
| TextSegmenter.ClampIdRange | lcats/lcats/analysis/text_segmenter.py:123-125 | a 1-based id is clamped into a 0-based index in [0,n): in-range ids map to id-1, smaller ones to 0, larger ones to n-1 |
| TextSegmenter.AlignSegment | lcats/lcats/analysis/text_segmenter.py:102-150 | empty paragraph spans raise IndexError; any other call returns None or a span 0 <= s < e <= len(text) |
| TextSegmenter.AlignBlankAnchors | lcats/lcats/analysis/text_segmenter.py:123-150 | with blank anchors the span is the paragraph-range bounds (after clamping and lifting a reversed end id), or None when those are not a valid span |
| TextSegmenter.AlignFollowsAnchors | lcats/lcats/analysis/text_segmenter.py:132-145 | when an anchor is found, the span starts at the start anchor and ends right after the end anchor |
| TextSegmenter.ParagraphTextIndexer | lcats/lcats/analysis/text_segmenter.py:155-182 | the meta holds the canonical text (no CR), the splitter "\n\n", a paragraph index of the canonical text and n_paragraphs = number of spans; the indexed text is the marked paragraphs |
| Json.PairsDictKeys | lcats/lcats/analysis/text_segmenter.py:206 | `dict` of a list of [key, value] pairs succeeds and holds exactly the keys of the pairs |
| Json.PairsDictLast | lcats/lcats/analysis/text_segmenter.py:206 | each key of `dict(pairs)` is bound to the value of its last pair: a later pair overrides an earlier one |
| Json.PairsDictKept | lcats/lcats/analysis/text_segmenter.py:206 | a key already present that no pair names keeps its value |
| Json.Len | lcats/lcats/analysis/text_segmenter.py:382-383 | `len(v)` succeeds exactly for a string, a list or a dictionary, and is then positive iff the value is truthy; None, a number or a boolean raises TypeError |
| Json.DictOf | lcats/lcats/analysis/text_segmenter.py:206 | `dict(seg)` copies a dictionary; the empty list and the empty string give {}; a non-empty string raises ValueError; None, an int or a bool raises TypeError |
| Json.DictsOfOk | lcats/lcats/analysis/text_segmenter.py:205-206 | converting every element succeeds exactly when each element converts, and yields the conversions in order |
| Json.DictsOfErr | lcats/lcats/analysis/text_segmenter.py:205-206 | a failed conversion raises the exception of the first element that does not convert, every earlier one converting |
| TextSegmenter.AlignerSegments | lcats/lcats/analysis/text_segmenter.py:203-206 | a missing or falsy segments value gives no segments; a list succeeds iff every element converts by `dict`, giving the conversions in order (a list of dictionaries gives the same dictionaries); a non-empty string raises ValueError; a dictionary gives [{}] when its only key is "" and raises ValueError otherwise; an int or bool raises TypeError |
| TextSegmenter.SegmentList | lcats/lcats/analysis/text_segmenter.py:414 | the auditor's list: a missing or falsy segments value gives no segments; it fails exactly when the value is truthy and not a list of dictionaries, with TypeError exactly for an int or bool and AttributeError otherwise; a list of dictionaries gives the same dictionaries in order |
| TextSegmenter.AlignSegmentValue | lcats/lcats/analysis/text_segmenter.py:207-217 | an aligner step yields no span (exceptions included) or a valid span of the working text |
| TextSegmenter.SegmentsResultAligner | lcats/lcats/analysis/text_segmenter.py:185-226 | the result is a copy of the object whose segments are, in the same order, the `dict` conversions of the input elements with offsets set by alignment; it raises exactly when the conversion raises, with the same exception |
| TextSegmenter.AlignedSegmentSpec | lcats/lcats/analysis/text_segmenter.py:205-223 | every other field is preserved; a segment that fails to align is unchanged; one that aligns gets int start_char < end_char within the text |
| SegmentAudit.NormalizePreviewShape | lcats/lcats/analysis/text_segmenter.py:229-236 | "" maps to ""; the preview holds no CR, tab or NBSP, no two adjacent spaces, and no leading or trailing whitespace |
| SegmentAudit.Preview | lcats/lcats/analysis/text_segmenter.py:239-240 | a preview is at most 160 characters |
| SegmentAudit.CoveredMember | lcats/lcats/analysis/text_segmenter.py:247-260 | a position is covered iff some [s,e) interval contains it |
| SegmentAudit.CoveredOrderFree | lcats/lcats/analysis/text_segmenter.py:250 | the covered set does not depend on the order of the spans |
| SegmentAudit.UnionCoverage | lcats/lcats/analysis/text_segmenter.py:247-260 | `_union_coverage` equals the size of the union of the [s,e) intervals |
| SegmentAudit.Sweep | lcats/lcats/analysis/text_segmenter.py:251-260 | the sweep over sorted spans accumulates exactly the size of their union |
| SegmentAudit.UnionCoverageBounds | lcats/lcats/analysis/text_segmenter.py:247-260 | the coverage is at most the sum of the span lengths, and at most n when every span lies in [0,n) |
| SegmentAudit.ValidItems | lcats/lcats/analysis/text_segmenter.py:276-288 | the items are the segments with a valid span, in input order, each with 0 <= start < end <= n |
| SegmentAudit.ValidItemsSound | lcats/lcats/analysis/text_segmenter.py:278-287 | every item carries the index, id and offsets of a segment whose span is valid |
| SegmentAudit.ValidItemsComplete | lcats/lcats/analysis/text_segmenter.py:278-287 | every segment with a valid span has an item |
| SegmentAudit.CollectItems | lcats/lcats/analysis/text_segmenter.py:277-287 | the collecting loop yields exactly the valid items |
| SegmentAudit.ItemLeTotalPreorder | lcats/lcats/analysis/text_segmenter.py:288 | ordering items by (start, end) is a total preorder, so the sort is well defined |
| SegmentAudit.ScanGap | lcats/lcats/analysis/text_segmenter.py:307-319 | one step appends exactly the gap `StepGap` gives for the item: none when it starts at or before covered_end or when [covered_end, start) is an ignorable whitespace seam; otherwise [covered_end, start) with its length and preview, kind start_gap when covered_end is 0 and gap otherwise, and the neighbour ids only when a previous item exists and covered_end is not 0 |
| SegmentAudit.StepKeeps | lcats/lcats/analysis/text_segmenter.py:307-319 | after the step every reported gap is still sound (inside the text, apart from every item), every exempted seam is short whitespace, and every position before the new covered_end is in an item, a gap or a seam |
| SegmentAudit.MaxPos | lcats/lcats/analysis/text_segmenter.py:355-356 | max_seg is, among the items scanned so far, the first one reaching the farthest end |
| SegmentAudit.ScanOverlaps | lcats/lcats/analysis/text_segmenter.py:321-350 | one step appends exactly the step's entries: the overlap with prev_seg when the item starts before its end, then a contained entry with the item's own bounds when max_seg is not prev_seg and contains the item |
| SegmentAudit.Scan | lcats/lcats/analysis/text_segmenter.py:300-367 | the missing components are exactly `GapsOf` of the sorted items (each step's gap, then the end gap) and the overlaps exactly the entries of all steps in scan order; every position is covered, in a gap or in an exempted seam |
| SegmentAudit.AdjacentOverlapMeaning | lcats/lcats/analysis/text_segmenter.py:322-339 | the entry for two intersecting consecutive items has a_index pos-1, b_index pos, both ids, bounds exactly their intersection with start < end and length end-start; its kind is duplicate iff the spans are equal, contained iff they differ and one contains the other, partial_overlap iff neither contains the other |
| SegmentAudit.OverlapsReported | lcats/lcats/analysis/text_segmenter.py:321-339 | every pair of consecutive sorted items that intersect is reported |
| SegmentAudit.ContainedReported | lcats/lcats/analysis/text_segmenter.py:321-350 | an item lying inside any earlier item is reported as duplicate or contained with its own bounds |
| SegmentAudit.OverlapsSound | lcats/lcats/analysis/text_segmenter.py:321-350 | every entry has 0 <= start < end <= n, length end-start, and bounds inside two distinct items |
| SegmentAudit.OverlapsOfInv | lcats/lcats/analysis/text_segmenter.py:321-339 | the entries are well formed and identical adjacent spans are reported as duplicate |
| SegmentAudit.ScanEndGap | lcats/lcats/analysis/text_segmenter.py:359-367 | the end step appends exactly `TailGap`: an end_gap [covered_end, n) with its length and preview and no neighbour ids, unless covered_end reaches n or the tail is an ignorable whitespace seam |
| SegmentAudit.TailKeeps | lcats/lcats/analysis/text_segmenter.py:359-367 | after the end step every gap is sound and every position of the text is in an item, a gap or an exempted seam |
| SegmentAudit.GapsAreRuns | lcats/lcats/analysis/text_segmenter.py:300-367 | every reported gap is well formed, is a maximal stretch no valid item covers and is not an ignorable seam; its kind is start_gap iff it starts at 0, end_gap iff it otherwise reaches n, gap otherwise; it names neighbours iff it is a gap, and then they are the first sorted item starting at its end and the item just before that one |
| SegmentAudit.RunsAreGaps | lcats/lcats/analysis/text_segmenter.py:300-367 | every maximal stretch no valid item covers that is not an ignorable seam is reported as a gap with exactly its bounds |
| SegmentAudit.ValidateCoverageAndOverlaps | lcats/lcats/analysis/text_segmenter.py:263-369 | n = 0 gives no gaps and no overlaps; no valid segment and n > 0 gives one start_gap [0,n); otherwise the gaps are exactly those of the scan over the valid items sorted by (start, end), so by GapsAreRuns and RunsAreGaps exactly the maximal uncovered stretches that are not short whitespace seams; every gap has start < end <= n and is disjoint from every valid segment; every position is covered, in a gap or in an exempted seam; the overlaps are exactly those of the scan, hence well formed; identical valid spans are reported as duplicate |
| SegmentAudit.HeadMatches | lcats/lcats/analysis/text_segmenter.py:382-384 | for a non-empty string anchor, the slice text[s:s+len(sx)] equals it exactly when the anchor occurs verbatim at start_char |
| SegmentAudit.TailMatches | lcats/lcats/analysis/text_segmenter.py:383-399 | for a non-empty string anchor, the slice text[e-len(ex):e] equals it exactly when the anchor occurs verbatim ending at end_char |
| SegmentAudit.SegmentWarningsMeaning | lcats/lcats/analysis/text_segmenter.py:376-405 | an invalid span gives exactly one invalid_span warning; for a valid span and a sample of at least 5 the segment raises, always TypeError, exactly when an anchor is a truthy number or boolean (no len) or a list or dictionary longer than the sample (sm cannot slice it); otherwise a start_mismatch is issued iff the start anchor is truthy and not a string found verbatim at s, an end_mismatch iff the end anchor is truthy and not a string found verbatim ending at e, and a list or dictionary anchor is reported as `expected` unchanged |
| SegmentAudit.SmAnchor | lcats/lcats/utils.py:20-29 | `sm` on a list or dictionary anchor returns it unchanged when its length is within the limit; a longer one raises ValueError when the limit leaves no prefix and TypeError otherwise |
| SegmentAudit.AuditSegmentsAgainstAnchors | lcats/lcats/analysis/text_segmenter.py:372-406 | the loop returns the warnings of every segment in order, or the exception of the first segment that raises (a truthy non-sized anchor, or an over-long list or dictionary anchor) |
| SegmentAudit.AllWarningsErr | lcats/lcats/analysis/text_segmenter.py:376-405 | an error raised on one segment ends the audit with that error |
| SegmentAudit.SegmentsAuditor | lcats/lcats/analysis/text_segmenter.py:409-451 | succeeds iff the segments convert and the anchor audit raises nothing; then the warnings are those of the anchor audit, segments_total and segments_with_valid_spans are the list sizes, the counts equal the list lengths, covered_chars is the union coverage and at most total_chars = len(text), missing and overlaps are exactly those of validate_coverage_and_overlaps with whitespace seams of up to 8 characters ignored (`CoverageOf`), and coverage_pct is covered*100/total (0 when the text is empty) |
| Chunking.IterationsMeaning | lcats/lcats/chunking.py:52-56 | the k-th loop iteration happens iff there are tokens, k*step is still below the token count (when step > 0) and k is below the chunk cap (when one is given) |
| Chunking.ChunkStory | lcats/lcats/chunking.py:23-82 | under the termination condition (step > 0, a cap, or no tokens) the loop returns exactly the chunks of the windowing specification over the truncated tokens |
| Chunking.ChunksEmpty | lcats/lcats/chunking.py:43-56 | no tokens, or a cap of 0 or less, yields no chunks |
| Chunking.ChunksCounted | lcats/lcats/chunking.py:55-56 | chunk indices run 0..k-1 in order, and the count is at most max_chunks when a cap is given |
| Chunking.ChunksUncapped | lcats/lcats/chunking.py:54 | without a cap there is a chunk for every cursor position k*step below the token count |
| Chunking.NoOverlapChunk | lcats/lcats/chunking.py:52-66 | with overlap 0, chunk k starts at token k*max_tokens and holds at most max_tokens tokens, the slice up to min(k*max_tokens+max_tokens, n) |
| Chunking.TilingPrefix | lcats/lcats/chunking.py:59-66 | with overlap 0, the first k+1 chunks concatenated are the token prefix up to the end of chunk k |
| Chunking.ChunksTile | lcats/lcats/chunking.py:52-66 | with overlap 0, the chunks concatenated in order are exactly the (truncated) token list |
| Chunking.OverlapWindows | lcats/lcats/chunking.py:59-66 | with 0 < overlap < max_tokens, each chunk lies within the tokens, holds at most max_tokens+overlap tokens, starts never decrease, and each chunk starts before the previous one ends (consecutive chunks share tokens) |
| Chunking.OverlapLongChunk | lcats/lcats/chunking.py:61-65 | the overlap is subtracted twice: a later chunk far enough from both ends holds exactly max_tokens+overlap tokens |
| Chunking.WithinLimit | lcats/lcats/chunking.py:45-46 | every chunk is a slice of the original tokens ending within the first end_token_limit tokens |
| Chunking.StartCharIsStartToken | lcats/lcats/chunking.py:68 | under a length-preserving (character-level) codec start_char equals start_token and never decreases |
| Chunking.SnippetShape | lcats/lcats/chunking.py:91-94 | texts of at most 200 characters are shown whole; longer ones as the first 100 characters, " ... " and the last 100 |
| Chunking.BlocksAt | lcats/lcats/chunking.py:89-95 | each chunk contributes exactly three lines, at positions 3k..3k+2 |
| Chunking.SummaryLinesAt | lcats/lcats/chunking.py:89-95 | the lines for chunk k are its header, its snippet and an empty line |
| Chunking.SummarizeChunks | lcats/lcats/chunking.py:85-97 | the loop's output is the newline-join of the header/snippet/blank lines of every chunk in order |
| Display.Sm | lcats/lcats/utils.py:20-29 | a text within the limit is returned unchanged; otherwise ValueError iff prefix = (limit-len(spacer))//2 <= 0, else exactly limit characters: the first prefix characters, the spacer, and the last limit-prefix-len(spacer) characters |
| Display.SmOk | lcats/lcats/utils.py:24-29 | with room for at least two characters besides the spacer, sm succeeds and returns at most limit characters |
| Display.AllItemLines | lcats/lcats/utils.py:74-80 | the short-list loop emits every item line, with a comma on all but the last |
| Display.HeadLines | lcats/lcats/utils.py:92-93 | the head loop emits the first head items, each with a comma |
| Display.Sml | lcats/lcats/utils.py:32-109 | the loops produce the newline-join of the specified layout, and raise exactly when it does |
| Display.SmlShortLayout | lcats/lcats/utils.py:72-80 | with n <= limit: the bracket, all n item lines with commas on all but the last, and the closing line "] total items: n" |
| Display.SmlLongLayout | lcats/lcats/utils.py:82-108 | with n > limit >= 3: head = limit//2 items with commas, the spacer formatted with count n-head-tail, then tail = limit-1-head last items, exactly limit lines between the brackets, and the closing line "] total items: n" |
| Display.SmlLimitTooSmall | lcats/lcats/utils.py:82-84 | with n > limit and limit < 3, sml raises ValueError |
| Display.ExtractJson | lcats/lcats/utils.py:129-146 | a successful direct parse is returned; otherwise ValueError when there are no fenced blocks, when there are several and allow_multiple is false, or when the first block's language is not "json"; else the parse of the first block's content; only ValueError or JSONDecodeError escape |
| Display.MakeSerializable | lcats/lcats/utils.py:149-162 | a new dictionary without the key, every other entry identical; the input is a value and is left untouched |
| Names.FirstUnderscore | lcats/lcats/utils/names.py:11-13 | the index of the first underscore, or the length when there is none |
| Names.FullMatchShape | lcats/lcats/utils/names.py:11-13 | the full-match test of `^[a-z0-9]+(?:_[a-z0-9]+)*\Z` holds iff the name is non-empty [a-z0-9] words joined by single underscores, with no underscore at either end |
| Names.FullMatchIsShape | lcats/lcats/utils/names.py:11-13 | a full match has the word shape |
| Names.ShapeIsFullMatch | lcats/lcats/utils/names.py:11-13 | a name of the word shape is a full match |
| Names.IsValidBasenameMeaning | lcats/lcats/utils/names.py:26-36 | false for max_len < 1, an empty name or one longer than max_len; otherwise true iff the name is [a-z0-9]+ words joined by single underscores |
| Names.AsciiTransliterate | lcats/lcats/utils/names.py:18-23 | the transliterated text is pure ASCII |
| Names.RepairBasenameValid | lcats/lcats/utils/names.py:39-53 | raises ValueError iff max_len < 1; otherwise returns "" or a valid basename: only [a-z0-9_], no edge or double underscores, at most max_len characters |
| Names.RepairBasenameFixesValid | lcats/lcats/utils/names.py:39-53 | a name that is already valid is repaired to itself |
| Names.RepairBasenameIdempotent | lcats/lcats/utils/names.py:39-53 | repairing a repaired name changes nothing |
| Names.RepairBasenameEmpty | lcats/lcats/utils/names.py:39-53 | the empty name repairs to "" |
| Names.NormalizeExtension | lcats/lcats/utils/names.py:70-72 | the normalised extension starts with "." |
| Names.TitleToFilenameMeaning | lcats/lcats/utils/names.py:56-79 | raises ValueError exactly for an extension that does not match `\.[a-z0-9]+` after prefixing "." and lowercasing, for max_len < 1, or for an empty basename without allow_empty; otherwise returns the repaired basename (possibly empty) followed by the extension |
| Names.NormalizeBasenameMeaning | lcats/lcats/utils/names.py:85-94 | (b, false) when b is valid, else (repair_basename(b), true); the result is always "" or valid, and only max_len < 1 raises |
| Names.NormalizeBasenameStable | lcats/lcats/utils/names.py:85-94 | normalising a non-empty normalised name returns it unchanged and flagged unchanged |
| Extractors.StrippedTitle | lcats/lcats/gatherers/extractors.py:50-56 | after lowercasing, dropping other characters and stripping, only [a-z0-9] and whitespace remain, with no whitespace at the ends |
| Extractors.KeepCharsOnly | lcats/lcats/gatherers/extractors.py:53 | a text of kept characters holds no underscore and only slug characters besides whitespace |
| Extractors.TitleToFilenameShape | lcats/lcats/gatherers/extractors.py:47-58 | the filename contains only [a-z0-9_], has no leading or trailing underscore and no double underscore: it is "" or slug words joined by single underscores |
| Extractors.TitleToFilenameKeepsAlnum | lcats/lcats/gatherers/extractors.py:50-56 | the letters and digits of the filename are exactly those of the lowercased title, in order (digits are kept) |
| Extractors.SuffixDropsStrip | lcats/lcats/gatherers/extractors.py:56 | stripping the ends drops only whitespace |
| Extractors.TitleToFilenameEmpty | lcats/lcats/gatherers/extractors.py:53-56 | a title without letters or digits (empty or all punctuation) yields "" |
| Extractors.NewExtractor | lcats/lcats/gatherers/extractors.py:19-33 | title, url, author and year are stored as given |
| Extractors.NewExtractorFile | lcats/lcats/gatherers/extractors.py:31 | a given non-empty file is kept; otherwise the file is title_to_filename(title), which is "" or a slug |
| Extractors.DescriptionMeaning | lcats/lcats/gatherers/extractors.py:35-44 | the description is "title by author" when the author is truthy, else the title; the repr is `Extractor('<description>')` |
| CanonicalAuthor.CleanWords | lcats/lcats/utils/canonical_author.py:132-140 | one cleaned, lowercased token per word |
| CanonicalAuthor.NonBlankStripped | lcats/lcats/utils/canonical_author.py:127 | the comma parts kept are stripped and non-empty |
| CanonicalAuthor.TrailStart | lcats/lcats/utils/canonical_author.py:110 | the start of the longest trailing run of letters and dots (the `[A-Za-z\.]+$` capture) |
| CanonicalAuthor.TrailStartUnique | lcats/lcats/utils/canonical_author.py:110 | that start is the only position with the run property |
| CanonicalAuthor.FirstBoundary | lcats/lcats/utils/canonical_author.py:119 | the leftmost word boundary from a position, when there is one |
| CanonicalAuthor.SuffixAfterComma | lcats/lcats/utils/canonical_author.py:108-115 | "Name, Jr." style: a suffix word after a comma is captured in its standard spelling and removed together with the comma |
| CanonicalAuthor.CommaSuffixOf | lcats/lcats/utils/canonical_author.py:110 | the comma search finds the comma and the word after ", " |
| CanonicalAuthor.SuffixAtEnd | lcats/lcats/utils/canonical_author.py:117-124 | "Name Jr." style: a final suffix word without a comma is captured and removed |
| CanonicalAuthor.WordSuffixOf | lcats/lcats/utils/canonical_author.py:110-124 | a final word after a space matches the word search and not the comma search |
| CanonicalAuthor.DropHonorificsShape | lcats/lcats/utils/canonical_author.py:143-145 | only a leading run of honorifics is removed: every popped token is an honorific, and what remains is a suffix of the tokens that does not start with one |
| CanonicalAuthor.DropHonorificsAppend | lcats/lcats/utils/canonical_author.py:143-145 | popping honorifics does not depend on tokens after the first non-honorific |
| CanonicalAuthor.ParticleStart | lcats/lcats/utils/canonical_author.py:155-159 | the start of the block of surname particles directly before a position |
| CanonicalAuthor.ParticleStartUnique | lcats/lcats/utils/canonical_author.py:155-159 | that block start is unique |
| CanonicalAuthor.ParseNameBlank | lcats/lcats/utils/canonical_author.py:95-96 | an empty or whitespace-only name raises ValueError("Empty name") |
| CanonicalAuthor.OnlyHonorifics | lcats/lcats/utils/canonical_author.py:143-155 | first tokens that are all honorifics, without a comma form, raise IndexError |
| CanonicalAuthor.ParseNameLoneHonorific | lcats/lcats/utils/canonical_author.py:143-155 | a lone honorific followed by "." (such as "Dr.") raises IndexError |
| CanonicalAuthor.LoneHonorificTokens | lcats/lcats/utils/canonical_author.py:98-140 | such a name survives normalisation and suffix search and yields one lowercased first token |
| CanonicalAuthor.ParseNameDoctor | lcats/lcats/utils/canonical_author.py:155 | parse_name("Dr.") raises IndexError |
| CanonicalAuthor.CommaFormAgrees | lcats/lcats/utils/canonical_author.py:127-176 | "Last, First Middle" and "First Middle Last" yield the same parsed name when the last part is particles followed by one surname word and the first part does not end in a particle |
| CanonicalAuthor.AssembleJoined | lcats/lcats/utils/canonical_author.py:147-176 | the comma branch and the inferred-surname branch assemble the same first, middles and last |
| CanonicalAuthor.PlainFormSurname | lcats/lcats/utils/canonical_author.py:147-165 | without a comma, two or more tokens give last = the final token with the particles directly before it, first = the first remaining token (or "" when none) and middles = the rest |
| CanonicalAuthor.SingleTokenIsFirst | lcats/lcats/utils/canonical_author.py:151-152 | a single remaining token is the first name, with no last name |
| CanonicalAuthor.PopHonorifics | lcats/lcats/utils/canonical_author.py:143-145 | the popping loop returns the tokens without their leading honorifics |
| CanonicalAuthor.GatherSurname | lcats/lcats/utils/canonical_author.py:155-161 | the loop with the decreasing index stops at the start of the particle block and gathers the surname group from there |
| CanonicalAuthor.ParseNameLoops | lcats/lcats/utils/canonical_author.py:80-200 | the loop-based parse returns exactly parse_name's result |
| CanonicalAuthor.SpacesToUnderscores | lcats/lcats/utils/canonical_author.py:234 | every space becomes an underscore and nothing else changes |
| CanonicalAuthor.KeyOfDefault | lcats/lcats/utils/canonical_author.py:218-236 | with the defaults the key has no space and is lowercase last_first with spaces replaced by underscores |
| CanonicalAuthor.KeyOfCases | lcats/lcats/utils/canonical_author.py:235-241 | the key raises iff the case is not lower, upper or title |
| CanonicalAuthor.CanonicalKeyDefault | lcats/lcats/utils/canonical_author.py:203-236 | canonical_key defaults to lowercase last_first of the parsed name, with no space |
| CanonicalAuthor.CanonicalKeyErrors | lcats/lcats/utils/canonical_author.py:203-241 | a parse error is passed on; otherwise canonical_key raises iff the case is not lower, upper or title |
| CanonicalAuthor.LastFirstOfKey1 | lcats/lcats/utils/canonical_author.py:244-263 | a key with one part has that part as last name and "" as first name |
| CanonicalAuthor.LastFirstOfKey2 | lcats/lcats/utils/canonical_author.py:244-263 | a key a_b has last name a and first name b |
| CanonicalAuthor.LastFirstOfKey3 | lcats/lcats/utils/canonical_author.py:244-263 | a key with three parts has last name p0_p1 and first name p2 |
| CanonicalAuthor.AuthorKeysErrExtends | lcats/lcats/utils/canonical_author.py:272-278 | a canonical_key error on one author ends add_authors with that error |
| CanonicalAuthor.AddAuthorsShape | lcats/lcats/utils/canonical_author.py:266-285 | an empty extension raises ValueError (from split); otherwise the result is the base before the extension, "__", the author keys joined by "-" and the extension, truncated to max_len when longer |
| CanonicalAuthor.AddAuthors | lcats/lcats/utils/canonical_author.py:266-285 | the accumulating loop returns exactly that name |
| StoryAnalysis.RunLen | lcats/lcats/analysis/story_analysis.py:93 | the length of the leading run of characters of a class |
| StoryAnalysis.RunsChars | lcats/lcats/analysis/story_analysis.py:93 | every maximal run is non-empty and made of characters of the class |
| StoryAnalysis.RunsConcat | lcats/lcats/analysis/story_analysis.py:93 | the runs concatenated are exactly the characters of the class, in order |
| StoryAnalysis.RunsCount | lcats/lcats/analysis/story_analysis.py:149-154 | the number of runs is the number of places where a run begins |
| StoryAnalysis.RunsSeparated | lcats/lcats/analysis/story_analysis.py:93 | a character outside the class separates the runs of the texts on either side |
| StoryAnalysis.RunsSolid | lcats/lcats/analysis/story_analysis.py:93 | a non-empty text of class characters is one run |
| StoryAnalysis.KeepTermsShape | lcats/lcats/analysis/story_analysis.py:94 | every kept token is lowercase ASCII letters, at least 3 long and not a stop word |
| StoryAnalysis.KeepTermsAppend | lcats/lcats/analysis/story_analysis.py:94 | the filter works token by token |
| StoryAnalysis.KeywordsShape | lcats/lcats/analysis/story_analysis.py:83-94 | every keyword is lowercase ASCII letters, of length at least 3 and not in the stop words |
| StoryAnalysis.KeywordsInOrder | lcats/lcats/analysis/story_analysis.py:93-94 | keywords preserve input order: a non-letter between two texts gives the keywords of the first followed by those of the second |
| StoryAnalysis.KeywordsWord | lcats/lcats/analysis/story_analysis.py:93-94 | a word of at least three letters that is not a stop word is its own lowercased keyword |
| StoryAnalysis.KeepTermsShort | lcats/lcats/analysis/story_analysis.py:94 | tokens shorter than three characters are all dropped |
| StoryAnalysis.Distinct | lcats/lcats/analysis/story_analysis.py:101 | the counter's keys: every token exactly once |
| StoryAnalysis.TallyMeaning | lcats/lcats/analysis/story_analysis.py:101 | each tallied term occurs in the tokens with its exact number of occurrences, and every token is tallied |
| StoryAnalysis.CountLeTotalPreorder | lcats/lcats/analysis/story_analysis.py:103 | the (-count, term) key is a total preorder |
| StoryAnalysis.TopKeywordsPrefix | lcats/lcats/analysis/story_analysis.py:99-104 | the result is the first k entries of the ranked tally |
| StoryAnalysis.TopKeywordsLength | lcats/lcats/analysis/story_analysis.py:99-104 | empty input gives []; otherwise min(k, number of distinct terms) entries |
| StoryAnalysis.TopKeywordsCounts | lcats/lcats/analysis/story_analysis.py:101-104 | each count equals the term's number of occurrences |
| StoryAnalysis.RankedDistinct | lcats/lcats/analysis/story_analysis.py:101-103 | no term is ranked twice |
| StoryAnalysis.TopKeywordsSorted | lcats/lcats/analysis/story_analysis.py:103-104 | entries are ordered by count descending then term ascending, with distinct terms |
| StoryAnalysis.TopKeywordsTop | lcats/lcats/analysis/story_analysis.py:103-104 | a term left out ranks no higher than any entry kept |
| StoryAnalysis.WordCountStarts | lcats/lcats/analysis/story_analysis.py:149-154 | word_count equals the number of maximal non-whitespace runs |
| StoryAnalysis.WordCountAdds | lcats/lcats/analysis/story_analysis.py:149-154 | whitespace between two texts makes their word counts add |
| StoryAnalysis.StrippedNamesClean | lcats/lcats/analysis/story_analysis.py:142 | the kept names are stripped and non-blank, no more than the entries |
| StoryAnalysis.StrippedNamesKeep | lcats/lcats/analysis/story_analysis.py:142 | entries that are already stripped non-blank strings are kept as they are |
| StoryAnalysis.ExtractAuthorsList | lcats/lcats/analysis/story_analysis.py:141-142 | a list maps to its stripped non-blank entries (all of them when they are clean strings) |
| StoryAnalysis.ExtractAuthorsString | lcats/lcats/analysis/story_analysis.py:143-144 | a blank string gives []; a non-blank string gives [stripped] |
| StoryAnalysis.ExtractAuthorsOther | lcats/lcats/analysis/story_analysis.py:145 | anything but a list or string gives [] |
| StoryAnalysis.NormalizeTitleShape | lcats/lcats/analysis/story_analysis.py:250-252 | the result is lowercase, with single plain spaces and no space at either end |
| StoryAnalysis.NormalizeTitleIdempotent | lcats/lcats/analysis/story_analysis.py:250-252 | normalising twice equals normalising once |
| StoryAnalysis.SortedKeys | lcats/lcats/analysis/story_analysis.py:239 | the keys of a dictionary, each once, in sorted order (the iteration order of a dictionary of authors) |
| StoryAnalysis.DecodeBytesLiteralPlain | lcats/lcats/analysis/story_analysis.py:246 | a body that does not look like a bytes literal is returned unchanged |
| StoryAnalysis.StripEntriesStep | lcats/lcats/analysis/story_analysis.py:239 | author entries are stripped one by one and blank ones dropped; a non-blank entry must be a string |
| StoryAnalysis.StripEntriesClean | lcats/lcats/analysis/story_analysis.py:239 | every author kept is stripped and non-blank |
| StoryAnalysis.StripEntriesStrings | lcats/lcats/analysis/story_analysis.py:239 | for a list of strings, the authors are the stripped non-blank entries |
| StoryAnalysis.StoryTitleClean | lcats/lcats/analysis/story_analysis.py:229-231 | the title is "<Untitled>" or a stripped non-blank string |
| StoryAnalysis.StoryTitleFromName | lcats/lcats/analysis/story_analysis.py:229 | a non-blank name string is the title, stripped |
| StoryAnalysis.StoryTitleNotString | lcats/lcats/analysis/story_analysis.py:229 | a truthy name that is not a string raises AttributeError |
| StoryAnalysis.StoryTitleFromMetadata | lcats/lcats/analysis/story_analysis.py:229 | without a name, a non-blank metadata.name is the title, stripped |
| StoryAnalysis.StoryTitleUntitled | lcats/lcats/analysis/story_analysis.py:229-231 | without a name or metadata the title is "<Untitled>" |
| StoryAnalysis.StoryAuthorsClean | lcats/lcats/analysis/story_analysis.py:234-239 | every author is stripped and non-blank |
| StoryAnalysis.StoryAuthorsList | lcats/lcats/analysis/story_analysis.py:234-239 | a non-empty list of strings under author gives its stripped non-blank entries |
| StoryAnalysis.StoryAuthorsString | lcats/lcats/analysis/story_analysis.py:237-238 | a string under author is wrapped into a list |
| StoryAnalysis.StoryAuthorsNone | lcats/lcats/analysis/story_analysis.py:234-236 | no author and no metadata gives no authors |
| StoryAnalysis.ExtractTitleAuthorsBodyMeaning | lcats/lcats/analysis/story_analysis.py:214-247 | the result is the title, the authors and the decoded body; it fails exactly when the title or the authors raise |
| StoryAnalysis.SepScan | lcats/lcats/analysis/story_analysis.py:205-206 | a separator match ends inside the text after at least one character |
| StoryAnalysis.SepAtSpaces | lcats/lcats/analysis/story_analysis.py:205-206 | a separator is made of whitespace only |
| StoryAnalysis.FindSep | lcats/lcats/analysis/story_analysis.py:206-207 | the leftmost separator at or after a position |
| StoryAnalysis.ChunksOfBlank | lcats/lcats/analysis/story_analysis.py:207-211 | every chunk of a blank text is blank |
| StoryAnalysis.ChunksOfSolid | lcats/lcats/analysis/story_analysis.py:207-211 | a text with a non-whitespace character has a non-blank chunk |
| StoryAnalysis.CanonicalKeepsBlank | lcats/lcats/analysis/story_analysis.py:202 | normalising line endings keeps a text blank or non-blank |
| StoryAnalysis.ParagraphCountZero | lcats/lcats/analysis/story_analysis.py:187-211 | the count is 0 iff the text is whitespace-only |
| StoryAnalysis.ParagraphCountCanonical | lcats/lcats/analysis/story_analysis.py:202 | CR and CRLF are normalised first: the count does not change when they are |
| StoryAnalysis.ChunksApart | lcats/lcats/analysis/story_analysis.py:204-211 | a run of three or more newlines (two blank lines) between two paragraphs separates them |
| StoryAnalysis.ChunksJoined | lcats/lcats/analysis/story_analysis.py:204-211 | two newlines (one blank line) between two paragraphs do not separate them |
| StoryAnalysis.ParagraphsSeparated | lcats/lcats/analysis/story_analysis.py:187-211 | a line end followed by two or more blank lines between two texts makes their paragraph counts add |
| StoryAnalysis.ParagraphsJoined | lcats/lcats/analysis/story_analysis.py:187-211 | a single blank line joins the last paragraph of one text with the first of the next: the count is one less than the sum |
| SceneAnalysis.Allowed | lcats/lcats/analysis/scene_analysis.py:614 | a string names an allowed scene type only as that type's own label, never as "unknown" |
| SceneAnalysis.AllowedIsList | lcats/lcats/analysis/scene_analysis.py:614 | a string is recognised exactly when it is in ALLOWED_SCENE_TYPES |
| SceneAnalysis.NameInjective | lcats/lcats/analysis/scene_analysis.py:614 | distinct scene types have distinct labels |
| SceneAnalysis.NormalizeLabel | lcats/lcats/analysis/scene_analysis.py:617-629 | the label is kept iff it is a string in ALLOWED_SCENE_TYPES, otherwise it becomes "unknown" |
| SceneAnalysis.NormalizeLabelIdempotent | lcats/lcats/analysis/scene_analysis.py:617-629 | normalising a normalised label changes nothing |
| SceneAnalysis.LabelsOf | lcats/lcats/analysis/scene_analysis.py:674-677 | reading a segment's two labels raises AttributeError exactly when the segment is not a dictionary, or has no truthy per_scene_type and a truthy segment_eval that is not a dictionary |
| SceneAnalysis.SegmentsOf | lcats/lcats/analysis/scene_analysis.py:649-651 | the segments are story_data["segments"] when that is a list, and [] otherwise |
| SceneAnalysis.AllLabels | lcats/lcats/analysis/scene_analysis.py:671-677 | all labels in order, or the error of the first segment that raises |
| SceneAnalysis.Counts.Inc | lcats/lcats/analysis/scene_analysis.py:679-680 | one count goes up by one and the others stay |
| SceneAnalysis.Counts.ToDict | lcats/lcats/analysis/scene_analysis.py:653-666 | the dictionary has a count under the label of every scene type |
| SceneAnalysis.ToDictKeys | lcats/lcats/analysis/scene_analysis.py:653-666 | every key of the dictionary is the label of a scene type |
| SceneAnalysis.TallyCounts | lcats/lcats/analysis/scene_analysis.py:679-680 | the tally for each type is its number of occurrences |
| SceneAnalysis.TallySumIsLength | lcats/lcats/analysis/scene_analysis.py:679-682 | the counts add up to the number of labels |
| SceneAnalysis.Agreements | lcats/lcats/analysis/scene_analysis.py:683-684 | agreements never exceed the number of segments |
| SceneAnalysis.AgreementsAll | lcats/lcats/analysis/scene_analysis.py:683-684 | every segment agrees iff agreements equals the number of segments |
| SceneAnalysis.SummarizeTypeAgreement | lcats/lcats/analysis/scene_analysis.py:632-696 | succeeds iff every segment's labels can be read, else raises the first error; the totals, agreements, disagreements, rate and both tallies are those of the labels |
| SceneAnalysis.TallySnoc | lcats/lcats/analysis/scene_analysis.py:679-680 | tallying one more label increments its count |
| SceneAnalysis.LabelsSnoc | lcats/lcats/analysis/scene_analysis.py:671-684 | one more segment increments both tallies and adds one agreement iff its labels match |
| SceneAnalysis.AllLabelsOk | lcats/lcats/analysis/scene_analysis.py:671-677 | when every segment yields labels, they are all collected in order |
| SceneAnalysis.FirstError | lcats/lcats/analysis/scene_analysis.py:671-677 | the first segment that raises decides the error |
| SceneAnalysis.AgreementMeaning | lcats/lcats/analysis/scene_analysis.py:668-696 | agreements plus disagreements equal the total, each tally sums to the total, and each count is the number of segments with that label |
| SceneAnalysis.NoSegments | lcats/lcats/analysis/scene_analysis.py:649-651 | no segment list gives zero counts and rate 0 |
| SceneAnalysis.AnnotateSegmentsWithSemantics | lcats/lcats/analysis/scene_analysis.py:510-548 | succeeds iff every segment has integer offsets 0 <= s < e <= len(text) and the extractor, called on its slice with model_name, does not raise; then each output is that segment annotated with the extractor's result, in order; otherwise the exception of the first failing segment, ValueError for bad offsets before the extractor is called |
| SceneAnalysis.AnnotatedMeaning | lcats/lcats/analysis/scene_analysis.py:541-546 | an annotated segment adds exactly segment_text (the non-empty slice s:e) and segment_eval (the judgment's extracted_output) and keeps every other field |
| LlmExtractor.CategorizePrecedence | lcats/lcats/analysis/llm_extractor.py:138-172 | the checks are tried in order quota, rate limit (tpm as its variant), context length, auth, server, and the category is the first that matches; unknown iff none does |
| LlmExtractor.CategoryFlags | lcats/lcats/analysis/llm_extractor.py:132-172 | abort-batch categories are neither retryable nor in need of a smaller request; only tpm_limit is both retryable and needs a smaller request; unknown sets no flag |
| LlmExtractor.LowerField | lcats/lcats/analysis/llm_extractor.py:128-130 | (payload.get(key) or "").lower() succeeds iff the value is falsy or a string, and then gives the lowered string |
| LlmExtractor.ClassifyApiError | lcats/lcats/analysis/llm_extractor.py:118-181 | classification fails (AttributeError on .lower()) exactly when code or message is a truthy non-string |
| LlmExtractor.ClassifyApiErrorKeeps | lcats/lcats/analysis/llm_extractor.py:174-181 | the result holds every payload key plus the five classification keys, and payload fields other than those five are kept |
| LlmExtractor.ClassifyApiErrorFields | lcats/lcats/analysis/llm_extractor.py:174-181 | the five classification fields hold the category's name, flags and suggested action |
| LlmExtractor.ClassFieldsValues | lcats/lcats/analysis/llm_extractor.py:174-181 | the classification fields map each key to the category's value |
| LlmExtractor.OverrideWins | lcats/lcats/analysis/llm_extractor.py:174-181 | in {**payload, ...} the later keys override the payload's |
| LlmExtractor.Status402IsQuota | lcats/lcats/analysis/llm_extractor.py:139-142 | status 402 always means quota_exceeded, which aborts the batch |
| LlmExtractor.PreparedContentMeaning | lcats/lcats/analysis/llm_extractor.py:76-95 | without an indexer the template is filled with the story and the meta is None; with one, with the indexed text and the indexer's meta |
| LlmExtractor.ParseRaw | lcats/lcats/analysis/llm_extractor.py:307-313 | parsing escapes with an error exactly when the raw output is non-empty and extract_json raises something other than JSONDecodeError |
| LlmExtractor.JsonPromptExtractor.constructor | lcats/lcats/analysis/llm_extractor.py:38-72 | the configuration is stored and every inspection hook starts as None |
| LlmExtractor.JsonPromptExtractor.PrepareUserContent | lcats/lcats/analysis/llm_extractor.py:76-95 | returns the prepared content and meta and records the meta in last_index_meta |
| LlmExtractor.JsonPromptExtractor.BuildMessages | lcats/lcats/analysis/llm_extractor.py:97-103 | the system and user messages for the prepared content; last_index_meta is updated |
| LlmExtractor.JsonPromptExtractor.Extract | lcats/lcats/analysis/llm_extractor.py:229-373 | records the messages; a raising client gives the api_error early return with the classified payload; a reply is recorded with its raw output and post-processed; the validation report is updated only on the keyed path |
| LlmExtractor.RaisedMeaning | lcats/lcats/analysis/llm_extractor.py:283-303 | the early return has extraction_error "api_error", no outputs, empty raw output and the api_error payload |
| LlmExtractor.EmptyReplyMeaning | lcats/lcats/analysis/llm_extractor.py:264-281 | a reply without content is an api_error of code empty_response, retryable, category unknown, and leaves the validation report alone |
| LlmExtractor.KeyedReplyMeaning | lcats/lcats/analysis/llm_extractor.py:321-345 | a parsed object holding the output key yields that key's value; an extraction error only when that value is None |
| LlmExtractor.MissingKeyMeaning | lcats/lcats/analysis/llm_extractor.py:346-350 | a parsed object without the output key gives the "Expected '<key>' key in JSON response." error |
| LlmExtractor.PostprocessMeaning | lcats/lcats/analysis/llm_extractor.py:324-339 | without index meta nothing is aligned or validated; an aligner that raises leaves the parse and records "alignment failed: <repr>"; one that succeeds replaces the parse |
| LlmExtractor.ValueErrorEscapes | lcats/lcats/analysis/llm_extractor.py:309-313 | a non-empty reply with no JSON in it makes extract raise ValueError("No JSON found in the string.") |
| Extraction.ExtractionTemplate.BuildPrompt | lcats/lcats/extraction.py:19-27 | two messages, the system template first and a user message; the build fails iff formatting the user template with story_text fails |
| Extraction.BuildPromptSubstitutes | lcats/lcats/extraction.py:19-27 | a user template with one {story_text} field becomes that template with the field replaced by the story |
| Extraction.Summary | lcats/lcats/extraction.py:45-57 | the summary raises (len of a non-sized value) exactly when the extracted output is truthy and has no length |
| Extraction.Outcome | lcats/lcats/extraction.py:83-93 | a falsy parse gives the "No parsed JSON found" error; a dictionary with events gives them; a dictionary without gives the missing-key message listing its keys; any other truthy parse raises AttributeError |
| Extraction.ExtractFromStory | lcats/lcats/extraction.py:60-106 | a result records the story, model, template, built messages and the client's raw reply to those messages |
| Extraction.ParseErrorCaptured | lcats/lcats/extraction.py:76-87 | a reply extract_json cannot parse leaves no parse or output, keeps the error text as parsing_error and reports no parsed JSON |
| Extraction.EventsExtracted | lcats/lcats/extraction.py:88-90 | a parsed dictionary holding events yields them with no error |
| Extraction.NonEmptyListRaises | lcats/lcats/extraction.py:91-93 | a non-empty JSON list makes extract_from_story raise AttributeError |
| Pipeline.TryFromMeaning | lcats/lcats/pipeline.py:85-97 | the attempts run in order and the first success is returned; if all fail the last error is raised; with no attempts at all, raising None fails |
| Pipeline.Missing | lcats/lcats/pipeline.py:56 | the missing names are exactly the inputs absent from the state; none are missing iff all inputs are present |
| Pipeline.ZipIntoMeaning | lcats/lcats/pipeline.py:72-73 | zipping adds exactly the output names, keeps every other key, and each name gets its last value |
| Pipeline.Pipeline.constructor | lcats/lcats/pipeline.py:41-45 | the stages are stored |
| Pipeline.Pipeline.RunWithRetries | lcats/lcats/pipeline.py:85-97 | at most retries+1 calls; every call before the last failed; a success is the last call's value; a failure means every attempt was used and the last error is raised |
| Pipeline.Pipeline.Call | lcats/lcats/pipeline.py:47-83 | the run is the stage-by-stage specification; success iff there are no failures, otherwise exactly one failure |
| Pipeline.RunOutcome | lcats/lcats/pipeline.py:47-83 | success iff no failures; a failed run has one failure, named after one of the stages |
| Pipeline.RunAppend | lcats/lcats/pipeline.py:51-83 | running a + b is running a, then b on its final state if it succeeded |
| Pipeline.MissingInputsStop | lcats/lcats/pipeline.py:56-59 | a stage with a missing input stops the run with "Missing inputs: [...]" and the state unchanged |
| Pipeline.ProcessorErrorStops | lcats/lcats/pipeline.py:63-81 | a stage whose retries all fail stops the run with the error message and the state unchanged |
| Pipeline.SingleOutputStored | lcats/lcats/pipeline.py:67-68 | a stage with one output stores its result under that name and the run continues |
| Pipeline.MultiOutputZipped | lcats/lcats/pipeline.py:69-73 | a list result of the same length as the outputs is zipped into the state |
| Pipeline.UnexpectedOutputFormat | lcats/lcats/pipeline.py:74-77 | any other result stops the run with "Stage <name> returned unexpected output format: <result>" |
| Parser.DigitsValueOfNat | lcats/lcats/gatherers/mass_quantities/parser.py:109-110 | reading back the decimal digits of a natural number gives that number |
| Parser.ParseIntNatToString | lcats/lcats/gatherers/mass_quantities/parser.py:100-113 | int() accepts the decimal form of every natural number and returns it |
| Parser.OnlyEnglishMeaning | lcats/lcats/gatherers/mass_quantities/parser.py:116-130 | only_english holds iff the set of languages is exactly {target} |
| Parser.SubjectOkMeaning | lcats/lcats/gatherers/mass_quantities/parser.py:146-184 | subject_ok holds iff some entry is exactly "PS" or "PR" and some entry mentions "short stor" or "fiction" |
| Parser.SplitHeadPrefix | lcats/lcats/gatherers/mass_quantities/parser.py:240-249 | the first piece of a split is a prefix of the string |
| Parser.MakeTitle | lcats/lcats/gatherers/mass_quantities/parser.py:231-252 | the cleaned title is always a prefix of the original |
| Parser.SplitTwo | lcats/lcats/gatherers/mass_quantities/parser.py:240 | a string with one separator splits into the two sides |
| Parser.MakeTitleDropsYear | lcats/lcats/gatherers/mass_quantities/parser.py:240-244 | "<title>\n<year>" with 1800 < year < 1960 becomes the title |
| Parser.NoCrlf | lcats/lcats/gatherers/mass_quantities/parser.py:247-249 | a string without "\r\n" is one piece |
| Parser.MakeTitleKeepsOtherYears | lcats/lcats/gatherers/mass_quantities/parser.py:240-252 | a year outside 1800..1960 (exclusive) is kept |
| Parser.MakeTitleNoBreak | lcats/lcats/gatherers/mass_quantities/parser.py:240-252 | a single-line title is unchanged |
| Parser.MarkerListsDisjoint | lcats/lcats/gatherers/mass_quantities/parser.py:75-94 | no line is both a first-chapter and a second-chapter marker |
| Parser.MarkersAtMostLines | lcats/lcats/gatherers/mass_quantities/parser.py:68-94 | the marker count never exceeds the number of lines |
| Parser.ScanLines | lcats/lcats/gatherers/mass_quantities/parser.py:68-97 | the loop answers true iff some line is "contents" or "contents." or there are at least two marker lines |
| Parser.Chaptered | lcats/lcats/gatherers/mass_quantities/parser.py:58-97 | chaptered(text) holds iff a line is a contents line or the I and II marker lines number at least two |
| Parser.IntrusiveParagraph | lcats/lcats/gatherers/mass_quantities/parser.py:255-279 | the flag loop equals the specification: IndexError on a line of exactly four spaces, otherwise true iff the paragraph is non-empty and every non-empty line is four spaces then a character that is neither a space nor a left double quote |
| Parser.IntrusiveEdges | lcats/lcats/gatherers/mass_quantities/parser.py:264-272 | the empty paragraph is not intrusive and "    " raises IndexError |
| Parser.PenNames | lcats/lcats/gatherers/mass_quantities/parser.py:133-143 | the author's own name comes first |
| Parser.LineContainsAuthorArity | lcats/lcats/gatherers/mass_quantities/parser.py:391-440 | no author or more than two never match; two authors match iff both match with twice the word limit |
| Parser.Count | lcats/lcats/gatherers/mass_quantities/parser.py:447-450 | the number of hits is at most the number of tokens |
| Parser.CountHits | lcats/lcats/gatherers/mass_quantities/parser.py:447-450 | the counting loop returns the number of hits |
| Parser.NamesMatch | lcats/lcats/gatherers/mass_quantities/parser.py:443-461 | true iff every name2 token occurs in name1, or there are more than two tokens and at least two occur |
| Parser.NamesMatchBlank | lcats/lcats/gatherers/mass_quantities/parser.py:452 | a blank name2 has no tokens, so every name matches it |
| Parser.Verdicts | lcats/lcats/gatherers/mass_quantities/parser.py:560-570 | one header verdict per paragraph |
| Parser.VerdictAt | lcats/lcats/gatherers/mass_quantities/parser.py:561-570 | each verdict is that paragraph's header test |
| Parser.LeadingTrueHeaders | lcats/lcats/gatherers/mass_quantities/parser.py:558-573 | the first k verdicts are all true iff the first k paragraphs are header paragraphs |
| Parser.DropHeaders | lcats/lcats/gatherers/mass_quantities/parser.py:558-575 | drops the leading header paragraphs: the rest starts at the first non-header paragraph, or the first raising verdict propagates; nothing is dropped when the first paragraph is not a header |
| Parser.FixBody | lcats/lcats/gatherers/mass_quantities/parser.py:545-577 | the result is the "\n\n"-join of the suffix after a leading run of header paragraphs; an IndexError from intrusive_paragraph propagates; a text whose first paragraph is not a header is unchanged |
| Metadata.Prefix | lcats/lcats/gettenberg/metadata.py:57-68 | a field has a header prefix iff it is one of title(s), author(s), language(s), subject(s) |
| Metadata.LineValue | lcats/lcats/gettenberg/metadata.py:72-73 | a line yields a value iff its lowercase form starts with the wanted prefix |
| Metadata.ColonFound | lcats/lcats/gettenberg/metadata.py:73 | on a matching line the first colon lies inside the prefix, so the split always has a second part |
| Metadata.PresentMeaning | lcats/lcats/gettenberg/metadata.py:56-74 | the collected set holds exactly the values present |
| Metadata.Collect | lcats/lcats/gettenberg/metadata.py:71-74 | the accumulation loop builds the set of present values |
| Metadata.GetMetadataFromHeader | lcats/lcats/gettenberg/metadata.py:43-77 | the method gives the header specification's result |
| Metadata.FromHeaderMeaning | lcats/lcats/gettenberg/metadata.py:43-77 | an unknown field raises "Unsupported metadata field"; a known one gives exactly the stripped text after the first colon of every line starting with its prefix, case-insensitively |
| Metadata.NoMatchEmpty | lcats/lcats/gettenberg/metadata.py:56-74 | no matching line gives the empty set |
| Metadata.PresentNone | lcats/lcats/gettenberg/metadata.py:56 | nothing present gives the empty set |
| Metadata.SingularPlural | lcats/lcats/gettenberg/metadata.py:57-66 | singular and plural field names share a prefix |
| Metadata.SamePrefixSameResult | lcats/lcats/gettenberg/metadata.py:57-74 | fields with the same prefix give the same result |
| Metadata.TableFor | lcats/lcats/gettenberg/metadata.py:24-31 | the cache has a table for exactly the fields the header parser supports |
| Metadata.FromCache | lcats/lcats/gettenberg/metadata.py:8-40 | an unknown field raises ValueError; otherwise the query's error is re-raised or its rows are normalised by strings_from_sql |
| Metadata.SameFields | lcats/lcats/gettenberg/metadata.py:24-77 | the cache and header readers reject the same fields with the same error |
| Headers.Before | lcats/lcats/gettenberg/headers.py:24 | the part before the first "*** START" (or the whole text): a prefix with no earlier occurrence |
| Headers.BreakFrom | lcats/lcats/gettenberg/headers.py:25 | the next line break at or after a position, with no break before it |
| Headers.SplitLines | lcats/lcats/gettenberg/headers.py:25 | the lines contain no line breaks; no lines iff the text is empty |
| Headers.NonEmpty | lcats/lcats/gettenberg/headers.py:27-28 | exactly the non-empty lines are kept, in order |
| Headers.NonEmptyAppend | lcats/lcats/gettenberg/headers.py:27-28 | the filter works line by line |
| Headers.HeaderLines | lcats/lcats/gettenberg/headers.py:22-28 | a str argument raises TypeError; bytes give only non-empty lines |
| Headers.FindFromExtend | lcats/lcats/gettenberg/headers.py:24 | text after a found marker does not move it |
| Headers.HeaderIgnoresRest | lcats/lcats/gettenberg/headers.py:24 | everything after "*** START" is ignored |
| Headers.StripByEnds | lcats/lcats/gettenberg/headers.py:26 | a stripped line neither starts nor ends with the stripped characters |
| Headers.AsciiLinesStripped | lcats/lcats/gettenberg/headers.py:26-28 | with identity decoding every header line is non-empty and has no whitespace at either end |
| Values.RowString | lcats/lcats/utils/values.py:10-16 | a row that is neither a sequence nor a mapping raises AttributeError; a sequence gives nothing iff empty or its first item is None; a mapping gives nothing iff "v" is absent or None |
| Values.StringsFromSql | lcats/lcats/utils/values.py:6-17 | the loop gives the specification's set |
| Values.FirstErrorWins | lcats/lcats/utils/values.py:9-16 | once a row raises, later rows do not matter |
| Values.FromSqlErrors | lcats/lcats/utils/values.py:9-16 | the normalisation raises iff some row raises |
| Values.FromSqlMembers | lcats/lcats/utils/values.py:6-17 | the set holds exactly the str() of every present first value or "v" |
| Values.StringsAsList | lcats/lcats/utils/values.py:20-26 | None gives None; a list gives its items; anything else gives [str(x)] |
| Values.StringsAsListStable | lcats/lcats/utils/values.py:20-26 | converting the result again changes nothing, and a string becomes a one-element list |
| CorpusSurveyor.Child | lcats/lcats/analysis/corpus_surveyor.py:477-479 | joining a path component appends it, except that "" and "." leave the path as it is |
| CorpusSurveyor.PathLeTotal | lcats/lcats/analysis/corpus_surveyor.py:75-76 | any two paths are ordered one way or the other |
| CorpusSurveyor.PathLeTrans | lcats/lcats/analysis/corpus_surveyor.py:75-76 | the path order is transitive |
| CorpusSurveyor.PathLeTotalPreorder | lcats/lcats/analysis/corpus_surveyor.py:75-76 | the component-wise path order is a total preorder |
| CorpusSurveyor.SortedPaths | lcats/lcats/analysis/corpus_surveyor.py:75-76 | sorting gives an ordered permutation of the paths |
| CorpusSurveyor.SanitizeSafe | lcats/lcats/analysis/corpus_surveyor.py:474-476 | the sanitised label is made of safe characters only and is no longer than the label |
| CorpusSurveyor.SanitizeKeepsSafe | lcats/lcats/analysis/corpus_surveyor.py:474-476 | a label already made of safe characters is kept as it is |
| CorpusSurveyor.ComputeJobDir | lcats/lcats/analysis/corpus_surveyor.py:461-479 | a non-empty label gives root / sanitised label; no label or an empty one gives root / timestamp |
| CorpusSurveyor.JobDirUnderRoot | lcats/lcats/analysis/corpus_surveyor.py:474-477 | a labelled job directory is the root or one safe component below it |
| CorpusSurveyor.JobDirDotDot | lcats/lcats/analysis/corpus_surveyor.py:474-477 | the label ".." survives sanitising and names the root's parent |
| CorpusSurveyor.JobDirBlankLabel | lcats/lcats/analysis/corpus_surveyor.py:474-477 | a whitespace-only label is truthy but sanitises to "", so the job directory is the output root itself |
| CorpusSurveyor.IgnoreSet | lcats/lcats/analysis/corpus_surveyor.py:52 | the ignore set holds exactly the casefolded ignored names |
| CorpusSurveyor.KeptDirsMeaning | lcats/lcats/analysis/corpus_surveyor.py:59-66 | pruning keeps exactly the sub-directories that are neither ignored nor hidden-and-skipped |
| CorpusSurveyor.StoryFilesMeaning | lcats/lcats/analysis/corpus_surveyor.py:69-73 | the collected files of a directory are exactly its non-skipped ".json" files (any case), under that directory |
| CorpusSurveyor.WalkedKept | lcats/lcats/analysis/corpus_surveyor.py:55-66 | walking only the pruned sub-directories gives the same files |
| CorpusSurveyor.WalkedSubsStep | lcats/lcats/analysis/corpus_surveyor.py:55-57 | the walk visits the kept sub-directories in listing order |
| CorpusSurveyor.PruneDirs | lcats/lcats/analysis/corpus_surveyor.py:59-66 | the pruning loop keeps exactly the kept sub-directories, in order |
| CorpusSurveyor.CollectFiles | lcats/lcats/analysis/corpus_surveyor.py:69-73 | the file loop appends exactly the directory's story files |
| CorpusSurveyor.Walk | lcats/lcats/analysis/corpus_surveyor.py:55-73 | the top-down walk appends the directory's files, then those of every kept sub-directory |
| CorpusSurveyor.WalkSubdirs | lcats/lcats/analysis/corpus_surveyor.py:55-57 | descending into pruned sub-directories appends their walks in order |
| CorpusSurveyor.Found | lcats/lcats/analysis/corpus_surveyor.py:46-50 | a missing root raises FileNotFoundError, a non-directory NotADirectoryError, and a directory succeeds |
| CorpusSurveyor.FindCorpusStories | lcats/lcats/analysis/corpus_surveyor.py:20-77 | the method gives the walk's files, sorted when asked |
| CorpusSurveyor.WalkedAdmissible | lcats/lcats/analysis/corpus_surveyor.py:55-73 | every walked path lies under the directory, passes only through kept directories and names a story file |
| CorpusSurveyor.WalkedSubsAdmissible | lcats/lcats/analysis/corpus_surveyor.py:55-73 | the same holds for the walks of the sub-directories |
| CorpusSurveyor.SortedSamePaths | lcats/lcats/analysis/corpus_surveyor.py:75-76 | sorting keeps the same paths |
| CorpusSurveyor.FoundAdmissible | lcats/lcats/analysis/corpus_surveyor.py:20-77 | every found path is under the root, outside ignored directories, and a story file |
| CorpusSurveyor.FoundRootFiles | lcats/lcats/analysis/corpus_surveyor.py:69-73 | every story file directly in the root is found |
| CorpusSurveyor.FoundSorted | lcats/lcats/analysis/corpus_surveyor.py:75-77 | with sort the paths are in order and are a permutation of the unsorted ones |
| CorpusSurveyor.IgnoredDirSkipped | lcats/lcats/analysis/corpus_surveyor.py:61-62 | an ignored sub-directory contributes nothing |
| CorpusSurveyor.OutPath | lcats/lcats/analysis/corpus_surveyor.py:399-405 | the output mirrors the input's path relative to the corpus root under the job directory, or takes only its file name when the input lies outside |
| CorpusSurveyor.AbortCheck | lcats/lcats/analysis/corpus_surveyor.py:426-431 | the RuntimeError raised for a fatal API error starts with "Fatal API error: " |
| CorpusSurveyor.ProcessFile | lcats/lcats/analysis/corpus_surveyor.py:359-458 | skipped iff the output exists and force is off; error iff not skipped and reading, processing, the abort check or writing raises, with "<Type>: <message>" as the text; otherwise processed |
| CorpusSurveyor.SkipIgnoresProcessor | lcats/lcats/analysis/corpus_surveyor.py:408-416 | an existing output is skipped without running the processor |
| CorpusSurveyor.FatalApiError | lcats/lcats/analysis/corpus_surveyor.py:426-431 | a result whose api_error asks to abort the batch becomes an error entry "RuntimeError: Fatal API error: ..." |
| CorpusSurveyor.FatalAbort | lcats/lcats/analysis/corpus_surveyor.py:427-431 | a truthy should_abort_batch raises with category, code and message |
| CorpusSurveyor.FatalText | lcats/lcats/analysis/corpus_surveyor.py:450 | the error text of the abort keeps its prefix |
| CorpusSurveyor.PrefixUnderConcat | lcats/lcats/analysis/corpus_surveyor.py:450 | a prefix stays a prefix after the same text is put in front |
| CorpusSurveyor.ProcessAll | lcats/lcats/analysis/corpus_surveyor.py:325-336 | one result per file |
| CorpusSurveyor.CountStatus | lcats/lcats/analysis/corpus_surveyor.py:337-340 | a status count never exceeds the number of results |
| CorpusSurveyor.ErrorEntries | lcats/lcats/analysis/corpus_surveyor.py:341-346 | one error entry per failed result |
| CorpusSurveyor.CountsAddUp | lcats/lcats/analysis/corpus_surveyor.py:337-346 | processed plus skipped plus errors equals the number of results |
| CorpusSurveyor.ProcessFiles | lcats/lcats/analysis/corpus_surveyor.py:256-356 | the job directory is computed from the label; the files, sorted when asked, are processed in order; the totals count the results and add up |
| CorpusSurveyor.ProcessCorpora | lcats/lcats/analysis/corpus_surveyor.py:187-253 | the discovery error is raised, or the files found are processed in discovery order and the counts add up to their number |
| CorpusSurveyor.ProcessEach | lcats/lcats/analysis/corpus_surveyor.py:325-336 | the file loop gives the specification's results |
| CorpusSurveyor.Count | lcats/lcats/analysis/corpus_surveyor.py:337-340 | the counting loop gives the status count |
| CorpusSurveyor.CollectErrors | lcats/lcats/analysis/corpus_surveyor.py:341-346 | the loop collects one entry per failure, in order |
| CorpusSurveyor.OutsideRootCollision | lcats/lcats/analysis/corpus_surveyor.py:399-408 | two inputs outside the root with the same file name map to one output, so the second is skipped once the first is written |
| CorpusStats.StoryId | lcats/lcats/analysis/corpus_surveyor.py:136 | the story id is the normalised title, followed by "::" and the sorted authors joined by ";" when there are any |
| CorpusStats.StoryKeyIgnoresOrder | lcats/lcats/analysis/corpus_surveyor.py:118-119 | the uniqueness key does not depend on the order or case of the authors |
| CorpusStats.StrLeTotalPreorder | lcats/lcats/analysis/corpus_surveyor.py:119 | string order is a total preorder |
| CorpusStats.SortedHeadLe | lcats/lcats/analysis/corpus_surveyor.py:119 | the first of a sorted list is no greater than any member |
| CorpusStats.SortedTail | lcats/lcats/analysis/corpus_surveyor.py:119 | the tail of a sorted list is sorted |
| CorpusStats.TailMultiset | lcats/lcats/analysis/corpus_surveyor.py:119 | equal multisets with equal heads have equal tails |
| CorpusStats.SortedUnique | lcats/lcats/analysis/corpus_surveyor.py:119 | two sorted lists with the same members are equal, so the sorted author tuple is unique |
| CorpusStats.MakeRow | lcats/lcats/analysis/corpus_surveyor.py:124-149 | the row carries the story id, title, authors and their number |
| CorpusStats.FirstErrorWins | lcats/lcats/analysis/corpus_surveyor.py:105-115 | once a story raises, the later paths do not matter |
| CorpusStats.SurveyLoop | lcats/lcats/analysis/corpus_surveyor.py:100-149 | the loop gives the survey specification's rows or its error |
| CorpusStats.StoryStats | lcats/lcats/analysis/corpus_surveyor.py:100-151 | the story rows are the survey's with the story extractor and key of story_analysis |
| CorpusStats.ComputeCorpusStats | lcats/lcats/analysis/corpus_surveyor.py:80-184 | returns the story rows and the author rows computed from them, or the error of the first story that raises |
| CorpusStats.StepShape | lcats/lcats/analysis/corpus_surveyor.py:105-149 | each path leaves the survey unchanged (unreadable, or a duplicate when deduplicating) or appends one row and records its key |
| CorpusStats.KeysOfAppended | lcats/lcats/analysis/corpus_surveyor.py:120-133 | appending keeps the rows' keys in the seen set |
| CorpusStats.DistinctAppended | lcats/lcats/analysis/corpus_surveyor.py:120-133 | appending a new key keeps the row keys distinct |
| CorpusStats.SurveyedLast | lcats/lcats/analysis/corpus_surveyor.py:105 | the survey of n paths is one step on the survey of the first n-1 |
| CorpusStats.SurveyedKeys | lcats/lcats/analysis/corpus_surveyor.py:120-133 | every row's key is in the seen set |
| CorpusStats.SurveyedDistinct | lcats/lcats/analysis/corpus_surveyor.py:120-122 | with dedupe no two story rows share a key |
| CorpusStats.SurveyedCovers | lcats/lcats/analysis/corpus_surveyor.py:117-122 | the key of every readable story is seen |
| CorpusStats.UnreadableSkipped | lcats/lcats/analysis/corpus_surveyor.py:107-113 | an unreadable file is skipped |
| CorpusStats.NotDictRaises | lcats/lcats/analysis/corpus_surveyor.py:115 | a first file holding JSON that is not an object raises AttributeError |
| CorpusStats.AuthorNames | lcats/lcats/analysis/corpus_surveyor.py:166-170 | the authors aggregated are exactly the non-empty author strings of the rows |
| CorpusStats.AuthorRowLeTotalPreorder | lcats/lcats/analysis/corpus_surveyor.py:178-180 | the author order is a total preorder |
| CorpusStats.GroupsMeaning | lcats/lcats/analysis/corpus_surveyor.py:172-177 | there is one group per author, holding that author's aggregation |
| CorpusStats.AuthorStatsMeaning | lcats/lcats/analysis/corpus_surveyor.py:164-182 | one row per non-empty author, each with the number of distinct story ids and the summed body metrics, ordered by stories then body words, both descending |
| CorpusStats.RepeatedAuthor | lcats/lcats/analysis/corpus_surveyor.py:166-177 | an author listed twice in one story counts that story once but sums its body metrics twice |
| CorpusStats.NoStoriesNoAuthors | lcats/lcats/analysis/corpus_surveyor.py:153-162 | no stories gives no author rows |
| Gatherer.GatherStories | lcats/lcats/gatherers/mass_quantities/gatherer.py:45-56 | the loop's two dictionaries are the gathered and failed partition of the outcomes |
| Gatherer.RecordedMeaning | lcats/lcats/gatherers/mass_quantities/gatherer.py:51-54 | a story is recorded iff some outcome for it has a non-empty file name (or error), and the value is that of the last such outcome |
| Gatherer.NoStories | lcats/lcats/gatherers/mass_quantities/gatherer.py:45-56 | no stories give two empty dictionaries |
| Gatherer.PartitionDisjoint | lcats/lcats/gatherers/mass_quantities/gatherer.py:51-54 | when no outcome has both a file name and an error and ids are distinct, no story is both gathered and failed |
| CreateRequest.ForwardSlashes | lcats/tools/create_request.py:53 | backslashes become slashes and nothing else changes |
| CreateRequest.ForwardSlashesConcat | lcats/tools/create_request.py:53 | the replacement works character by character |
| CreateRequest.SlashesStripped | lcats/tools/create_request.py:53-54 | after the replacement and lstrip("./") no backslash or leading dot or slash is left |
| CreateRequest.LeadStripped | lcats/tools/create_request.py:54 | lstrip("./") leaves no leading dot or slash and keeps the end |
| CreateRequest.SuffixShape | lcats/tools/create_request.py:54 | a suffix keeps the text's character class and its end |
| CreateRequest.SuffixAllChars | lcats/tools/create_request.py:54 | a suffix keeps the character class |
| CreateRequest.LastOfSlashes | lcats/tools/create_request.py:53 | the replacement does not change a last character that is not a backslash |
| CreateRequest.CleanedEnds | lcats/tools/create_request.py:53-54 | the cleaned target has no backslash, no leading dot or slash, and no trailing whitespace |
| CreateRequest.Rooted | lcats/tools/create_request.py:57-66 | the target always ends up starting with "lcats/lcats/" |
| CreateRequest.RootedEnd | lcats/tools/create_request.py:57-66 | the rooted path ends as the target or the prefix does |
| CreateRequest.RootedStable | lcats/tools/create_request.py:57-66 | rooting twice is rooting once |
| CreateRequest.NormalizeRooted | lcats/tools/create_request.py:43-69 | every normalised target starts with "lcats/lcats/" |
| CreateRequest.NormalizeSlashes | lcats/tools/create_request.py:53-66 | the normalised target has no backslash |
| CreateRequest.CleanedStable | lcats/tools/create_request.py:53-54 | a clean text is unchanged by the cleaning |
| CreateRequest.RootedClean | lcats/tools/create_request.py:57-66 | a rooted clean text starts on the prefix and does not end in whitespace |
| CreateRequest.NormalizeIdempotent | lcats/tools/create_request.py:43-69 | normalising a normalised target changes nothing |
| CreateRequest.Components | lcats/tools/create_request.py:89 | the kept path components are non-empty, not "." and come from the path |
| CreateRequest.LastDot | lcats/tools/create_request.py:92 | the position of the last "." of the name, or -1 |
| CreateRequest.Stem | lcats/tools/create_request.py:92 | the stem is a prefix of the file name |
| CreateRequest.StemOfPy | lcats/tools/create_request.py:92-97 | the stem of "<name>.py" is <name> |
| CreateRequest.TestPath | lcats/tools/create_request.py:72-103 | the suggested test path has no backslash |
| CreateRequest.SplitOfJoin | lcats/tools/create_request.py:86-89 | splitting a "/"-join of slash-free components gives them back |
| CreateRequest.ComponentsKeep | lcats/tools/create_request.py:89 | proper components are all kept |
| CreateRequest.PartsOfJoin | lcats/tools/create_request.py:86-89 | the parts of a joined relative path are its components |
| CreateRequest.TestPathOfModule | lcats/tools/create_request.py:72-103 | "lcats/lcats/<sub>/<dirs>/<stem>.py" maps to "lcats/tests/<sub>_tests/<dirs>/<stem>_test.py" |
| CreateRequest.TestPathOfParts | lcats/tools/create_request.py:95-103 | a path with at least four parts under lcats/lcats maps into the <subdir>_tests tree |
| CreateRequest.ModuleParts | lcats/tools/create_request.py:89-97 | the parts of a module path are lcats, lcats, the sub-directory, the directories and the file |
| CreateRequest.TestPartsClean | lcats/tools/create_request.py:99-103 | the test path components have no backslash |
| CreateRequest.JoinClean | lcats/tools/create_request.py:103 | the final replacement leaves a backslash-free path unchanged |
| CreateRequest.TestPathFallback | lcats/tools/create_request.py:90-93 | any other path maps into lcats/tests/misc_tests/ and ends in "_test.py" |
| CreateRequest.VarEnd | lcats/tools/create_request.py:22 | the end of the run of [A-Z0-9_] characters |
| CreateRequest.Placeholder | lcats/tools/create_request.py:22 | a placeholder match lies inside the text |
| CreateRequest.RenderNoVariables | lcats/tools/create_request.py:106-117 | with no variables every placeholder is left intact |
| CreateRequest.RenderNoBrace | lcats/tools/create_request.py:106-117 | a text without "{" is unchanged |
| CreateRequest.RenderPlaceholder | lcats/tools/create_request.py:113-117 | a leading {{KEY}} is replaced by its value when known, kept as written when not, and the rest is rendered |
| CreateRequest.BuildVariablesShape | lcats/tools/create_request.py:120-132 | the five variables: the template name and input as given, the normalised module path, its stem as module name, and the suggested test path |
| Stories.FromDict | lcats/lcats/stories.py:77-87 | a non-dictionary raises AttributeError; a dictionary gives a story |
| Stories.ToDict | lcats/lcats/stories.py:111-115 | the dictionary has exactly the keys name, body and metadata |
| Stories.FromDictDefaults | lcats/lcats/stories.py:84-86 | missing keys default to "", "" and {} |
| Stories.DictRoundTrip | lcats/lcats/stories.py:77-115 | a dictionary with exactly the keys name, body and metadata survives to_dict(from_dict(d)) unchanged |
| Stories.StoryRoundTrip | lcats/lcats/stories.py:77-115 | from_dict(to_dict(story)) gives the story back |
| Stories.Excerpt | lcats/lcats/stories.py:140-146 | a string body of at most 100 characters is shown whole, a longer one as its first 100 characters and " ... [truncated]" |
| Stories.ExcerptBounds | lcats/lcats/stories.py:140-146 | the excerpt is at most 116 characters: the body, or its cut prefix plus the marker |
| Stories.Display | lcats/lcats/stories.py:134-154 | str(story) succeeds iff the excerpt does and the metadata is a dictionary |
| Stories.DisplayShape | lcats/lcats/stories.py:148-154 | the summary starts with "Story: <name>"; metadata that is not a dictionary raises AttributeError |
| Stories.DisplayFallbacks | lcats/lcats/stories.py:150-151 | without author and year the summary shows "Unknown" and "N/A" |
| Cli.Builtin | lcats/lcats/cli.py:33-52 | exactly info, index, advise, eval and help are answered by the dispatcher itself |
| Cli.Dispatch | lcats/lcats/cli.py:24-55 | gather and inspect hand over to their commands with the arguments |
| Cli.InfoAndHelp | lcats/lcats/cli.py:33-34 | info and help reply with their messages and status 0 |
| Cli.NotImplemented | lcats/lcats/cli.py:42-49 | index, advise and eval reply "not yet implemented" with status 1 |
| Cli.UnknownCommand | lcats/lcats/cli.py:54-55 | any other command replies "Unknown command: <command>" with status 1 |
| Cli.StatusZero | lcats/lcats/cli.py:33-55 | apart from gather and inspect the status is 0 exactly for info and help |

## Left out

- The OpenAI client (`client.chat.completions.create`) is a function parameter returning a reply or an API error payload. The sampling temperature is not modelled.
- tiktoken encoders are abstract: chunking takes the token sequence and a `decode` function, and token counts in the statistics are a `tokens` parameter.
- Unicode transliteration and normalisation (unidecode, NFKD diacritic stripping) are not modelled. Case mapping is ASCII-only, while `isspace` follows Python's full whitespace class. The regular-expression classes `\w` and `\b` in `canonical_author.py` are ASCII-only as well (`PyStr.IsWordChar`, used by `CanonicalAuthor.CleanKeep` and `CanonicalAuthor.Boundary`), whereas Python's `re` treats every Unicode letter and digit as a word character: the model's `_clean_token` drops the `ø` of "Søren" (giving "Sren"), where the source keeps it.
- The difflib-based title heuristics of the bulk parser are not modelled: `line_contains_title`, `how_many_titles`, `in_body` and `body_of_text`. They rest on floating-point similarity ratios.
- `title_ok` is not modelled, because it depends on regular expressions and the storymap word lists. `line_contains_author2` is not modelled either; it is an unused variant of `line_contains_author`. `line_contains_author` is modelled with the pen-name table as a parameter.
- The bulk parser's own `gather_story`, `title_in_body` and its test and report helpers (`test_stories`, `test_story_get`, `show_data_not_corpora`, `show_corpora_not_data`, `grab_story`) are not modelled. They download, print or feed only the parts that are left out.
- `json.loads`, the fenced-block regular expression of `extract_json` and `ast.literal_eval` are abstract library parameters.
- `_normalize_api_error` and `_extract_error_json` inspect exception objects, so they are not modelled. The client's error outcome carries the normalised payload directly.
- `JSONPromptExtractor.__call__` only delegates to `extract` and has no member of its own.
- `find_anchor_in_range` computes its `start_guess` in floating point; the model computes the same quotient exactly, so rounding at the last place of a float is not modelled.
- Floating-point values (`coverage_pct`, `agreement_rate`, confidences) are numerator and denominator pairs. JSON floats are not among the modelled values.
- Dictionary key order is not modelled: a JSON object is a map. Where the order of keys shows in a message, as in the "Found keys" error of `extract_from_story`, the order is a `keyOrder` parameter.
- The filesystem is a value. A directory listing is a `Tree`, and reading and writing files, `mkdir`, `Path.resolve` and `expanduser` are parameters or not modelled.
- The yaml and json file I/O of `Story` (`from_json_file`, `from_yaml_file`, `to_json_file`, `to_yaml_file`) and `Corpora` are not modelled.
- In `create_request`, `_load_template`, `_parse_args` and the script's file writing are not modelled.
- For pandas in `compute_corpus_stats`, only the row keys, the deduplication and the per-author fold are modelled. The placement of ties by `sort_values` is not.
- `time.sleep` between retries, the clock behind the job-directory stamp (`stamp` is a parameter), printing, tqdm progress bars and logging are not modelled. Nor are `display_annotated_segment` and `display_annotated_segments`.
- The scraping gatherers, downloaders, the Gutenberg cache and API, `gutenbergpy` header stripping, BeautifulSoup section extraction, and `gatherers/main.py` are not modelled.
- Plotting, `survey.py`, `story_processors.py`, the KMo scripts, notebooks, `epub.py` and the developer tools are not part of this model.
- `lcats/lcats/analysis/text_indexing.py` repeats lines 14-222 of `text_segmenter.py`, shifted down by four lines. It is modelled once, by `TextSegmenter`.
- PyStr.ReprStr: only the backslash, the chosen quote, `\n`, `\r` and `\t` are escaped. Python's `repr` also writes other non-printable characters as `\x..`, `\u....` or `\U........` escapes, and those are not modelled.
- Json.PairOf: an element of `dict(pairs)` whose key is None, an int or a bool, and a two-key dictionary used as a pair, are read as a TypeError. In Python both succeed, but JSON object keys here are strings and a dictionary's key order is not kept.
- Stories.Excerpt: for a dictionary body that is too long to show, the model gives the TypeError raised before Python 3.12. From Python 3.12 on, slicing a dictionary raises KeyError instead.
- SegmentAudit.SmAnchor: for a dictionary anchor longer than the sample, the model gives the TypeError raised before Python 3.12. From Python 3.12 on, slicing a dictionary raises KeyError instead.
- SceneAnalysis.AnnotateSegmentsWithSemantics: the extractor is a function of the segment text and the model name. The `last_*` fields a `JSONPromptExtractor` call updates are not carried from one segment to the next; `JSONPromptExtractor` itself is modelled in `LlmExtractor`.
- `cli.main` prints and calls `sys.exit`; `Cli.Run` returns the text and the status instead.
