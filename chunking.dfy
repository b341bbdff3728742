/**
 * `lcats/chunking.py`: cutting a story's token sequence into windows of at
 * most `max_tokens` tokens, optionally overlapping, truncated and capped.
 * The tokenizer is abstract: the caller supplies the token sequence of the
 * story and the `decode` function of the same encoding.
 */
module Chunking {
  import opened Wrappers
  import opened PyStr

  type Token = int

  /** The `Chunk` record. */
  datatype Chunk = Chunk(index: int, text: string, startToken: int, startChar: int)

  /** `step`: the whole window without overlap, else the window minus the overlap. */
  function Step(maxTokens: int, overlap: int): int
  {
    if overlap == 0 then maxTokens else maxTokens - overlap
  }

  /**
   * The loop of `chunk_story` ends exactly when the cursor can advance, a
   * chunk cap is given, or there are no tokens: with `step <= 0`, no cap and
   * at least one token it runs forever.
   */
  predicate Terminates(n: int, maxTokens: int, overlap: int, maxChunks: Option<int>)
  {
    Step(maxTokens, overlap) > 0 || maxChunks.Some? || n == 0
  }

  /** `tokens[:end_token_limit]` when a limit is given. */
  function Truncated(tokens: seq<Token>, endTokenLimit: Option<int>): seq<Token>
  {
    if endTokenLimit.Some? then PyPrefix(tokens, endTokenLimit.value) else tokens
  }

  /** `start_token` of the `k`-th chunk: the cursor `k * step`, moved back by the overlap after the first chunk. */
  function StartAt(k: nat, step: int, overlap: int): int
  {
    var cur := k * step;
    if k > 0 && overlap > 0 then (if cur - overlap > 0 then cur - overlap else 0) else cur
  }

  /** `end_token` of the `k`-th chunk: `min(current_token + max_tokens, len(tokens))`. */
  function EndAt(k: nat, step: int, maxTokens: int, n: int): int
  {
    var e := k * step + maxTokens;
    if e < n then e else n
  }

  /** The token slice of the `k`-th chunk. */
  function TokensOf(toks: seq<Token>, k: nat, maxTokens: int, overlap: int): seq<Token>
  {
    var step := Step(maxTokens, overlap);
    PySlice(toks, StartAt(k, step, overlap), EndAt(k, step, maxTokens, |toks|))
  }

  /** The `k`-th chunk: its index, decoded text, first token and decoded prefix length. */
  function ChunkAt(toks: seq<Token>, decode: seq<Token> -> string, k: nat, maxTokens: int, overlap: int): Chunk
  {
    var s := StartAt(k, Step(maxTokens, overlap), overlap);
    Chunk(k, decode(TokensOf(toks, k, maxTokens, overlap)), s, |decode(PyPrefix(toks, s))|)
  }

  /**
   * The number of iterations: `ceil(n / step)` cursor positions below `n`,
   * capped by `max_chunks` (a non-positive cap allows none).
   */
  function Iterations(n: nat, step: int, maxChunks: Option<int>): (r: nat)
    requires step > 0 || maxChunks.Some? || n == 0
  {
    var cap: int := if maxChunks.Some? then (if maxChunks.value > 0 then maxChunks.value else 0) else -1;
    if n == 0 then 0
    else if step > 0 then
      var t := (n + step - 1) / step;
      if 0 <= cap < t then cap else t
    else cap
  }

  /** The chunks `chunk_story` returns, as a function of the (truncated) tokens. */
  function Chunks(toks: seq<Token>, decode: seq<Token> -> string, maxTokens: int, overlap: int, maxChunks: Option<int>): seq<Chunk>
    requires Terminates(|toks|, maxTokens, overlap, maxChunks)
  {
    var count := Iterations(|toks|, Step(maxTokens, overlap), maxChunks);
    seq(count, k requires 0 <= k < count => ChunkAt(toks, decode, k, maxTokens, overlap))
  }

  // ---------------------------------------------------------------- arithmetic

  lemma MulMono(a: int, b: int, c: int)
    requires a <= b && c >= 0
    ensures a * c <= b * c
  {
  }

  lemma MulSucc(k: int, step: int)
    ensures (k + 1) * step == k * step + step
  {
  }

  /** A cursor `k * step` is below `n` exactly for the first `ceil(n / step)` values of `k`. */
  lemma CeilDiv(n: nat, step: int, k: nat)
    requires n > 0 && step > 0
    ensures k * step < n <==> k < (n + step - 1) / step
  {
    var t := (n + step - 1) / step;
    var r := (n + step - 1) % step;
    assert n + step - 1 == t * step + r && 0 <= r < step;
    if k < t {
      MulMono(k, t - 1, step);
      assert (t - 1) * step == t * step - step;
    } else {
      MulMono(t, k, step);
    }
  }

  /** The capped count stops at the first cursor past the end or the cap. */
  lemma IterationsMeaning(n: nat, step: int, maxChunks: Option<int>, k: nat)
    requires step > 0 || maxChunks.Some? || n == 0
    ensures k < Iterations(n, step, maxChunks) <==>
      (n > 0 && (step > 0 ==> k * step < n) && (maxChunks.Some? ==> k < maxChunks.value))
  {
    if n > 0 && step > 0 {
      CeilDiv(n, step, k);
    }
  }

  // ---------------------------------------------------------------- chunk_story

  /**
   * `chunk_story(story_text, max_tokens, overlap_tokens, end_token_limit,
   * max_chunks)` on the tokens of the story.
   */
  method ChunkStory(tokens: seq<Token>, decode: seq<Token> -> string, maxTokens: int, overlap: int,
                    endTokenLimit: Option<int>, maxChunks: Option<int>)
    returns (chunks: seq<Chunk>)
    requires Terminates(|Truncated(tokens, endTokenLimit)|, maxTokens, overlap, maxChunks)
    ensures chunks == Chunks(Truncated(tokens, endTokenLimit), decode, maxTokens, overlap, maxChunks)
  {
    var toks := Truncated(tokens, endTokenLimit);
    chunks := [];
    var current := 0;
    var count := 0;
    var step := if overlap == 0 then maxTokens else maxTokens - overlap;
    while current < |toks|
      invariant 0 <= count && current == count * step
      invariant count <= Iterations(|toks|, step, maxChunks)
      invariant chunks == seq(count, k requires 0 <= k < count => ChunkAt(toks, decode, k, maxTokens, overlap))
      decreases (if maxChunks.Some? then maxChunks.value - count else 0), (if step > 0 then |toks| - current else 0)
    {
      if maxChunks.Some? && count >= maxChunks.value {
        break;
      }
      var startToken := if |chunks| > 0 && overlap > 0 then (if current - overlap > 0 then current - overlap else 0)
                        else current;
      var endToken := if current + maxTokens < |toks| then current + maxTokens else |toks|;
      var chunkText := decode(PySlice(toks, startToken, endToken));
      var startChar := |decode(PyPrefix(toks, startToken))|;
      var c := Chunk(count, chunkText, startToken, startChar);
      assert c == ChunkAt(toks, decode, count, maxTokens, overlap) by {
        assert step == Step(maxTokens, overlap);
        assert startToken == StartAt(count, step, overlap) && endToken == EndAt(count, step, maxTokens, |toks|);
      }
      ChunksExtend(toks, decode, maxTokens, overlap, count, chunks, c);
      chunks := chunks + [c];
      IterationsMeaning(|toks|, step, maxChunks, count);
      MulSucc(count, step);
      current := current + step;
      count := count + 1;
    }
    IterationsMeaning(|toks|, step, maxChunks, count);
  }

  /** Appending the next chunk of the specification extends the specified prefix by one. */
  lemma ChunksExtend(toks: seq<Token>, decode: seq<Token> -> string, maxTokens: int, overlap: int, count: nat,
                     prev: seq<Chunk>, c: Chunk)
    requires prev == seq(count, k requires 0 <= k < count => ChunkAt(toks, decode, k, maxTokens, overlap))
    requires c == ChunkAt(toks, decode, count, maxTokens, overlap)
    ensures prev + [c] == seq(count + 1, k requires 0 <= k < count + 1 => ChunkAt(toks, decode, k, maxTokens, overlap))
  {
    assert forall k :: 0 <= k < count ==> (prev + [c])[k] == prev[k];
  }

  // ---------------------------------------------------------------- properties

  /** No tokens, or a cap of zero or less, gives no chunks. */
  lemma ChunksEmpty(toks: seq<Token>, decode: seq<Token> -> string, maxTokens: int, overlap: int, maxChunks: Option<int>)
    requires Terminates(|toks|, maxTokens, overlap, maxChunks)
    requires |toks| == 0 || (maxChunks.Some? && maxChunks.value <= 0)
    ensures Chunks(toks, decode, maxTokens, overlap, maxChunks) == []
  {
    if |Chunks(toks, decode, maxTokens, overlap, maxChunks)| > 0 {
      IterationsMeaning(|toks|, Step(maxTokens, overlap), maxChunks, 0);
    }
  }

  /** Chunks are numbered `0..k-1` in order, and never more than the cap. */
  lemma ChunksCounted(toks: seq<Token>, decode: seq<Token> -> string, maxTokens: int, overlap: int, maxChunks: Option<int>)
    requires Terminates(|toks|, maxTokens, overlap, maxChunks)
    ensures var cs := Chunks(toks, decode, maxTokens, overlap, maxChunks);
      && (forall k :: 0 <= k < |cs| ==> cs[k].index == k)
      && (maxChunks.Some? ==> |cs| <= if maxChunks.value > 0 then maxChunks.value else 0)
  {
    var cs := Chunks(toks, decode, maxTokens, overlap, maxChunks);
    if maxChunks.Some? && |cs| > 0 {
      IterationsMeaning(|toks|, Step(maxTokens, overlap), maxChunks, |cs| - 1);
    }
  }

  /** Without a cap and with `step > 0` there is one chunk per cursor position below the end. */
  lemma ChunksUncapped(toks: seq<Token>, decode: seq<Token> -> string, maxTokens: int, overlap: int, k: nat)
    requires Step(maxTokens, overlap) > 0
    ensures k < |Chunks(toks, decode, maxTokens, overlap, None)| <==> k * Step(maxTokens, overlap) < |toks|
  {
    IterationsMeaning(|toks|, Step(maxTokens, overlap), None, k);
  }

  /** The token slices of the first `count` chunks, concatenated. */
  function TokensUpTo(toks: seq<Token>, count: nat, maxTokens: int, overlap: int): seq<Token>
  {
    if count == 0 then [] else TokensUpTo(toks, count - 1, maxTokens, overlap) + TokensOf(toks, count - 1, maxTokens, overlap)
  }

  /** Without overlap, chunk `k` starts at `k * max_tokens` and holds at most `max_tokens` tokens. */
  lemma NoOverlapChunk(toks: seq<Token>, maxTokens: int, k: nat)
    requires maxTokens > 0 && k * maxTokens < |toks|
    ensures StartAt(k, maxTokens, 0) == k * maxTokens
    ensures TokensOf(toks, k, maxTokens, 0) == toks[k * maxTokens..EndAt(k, maxTokens, maxTokens, |toks|)]
    ensures |TokensOf(toks, k, maxTokens, 0)| <= maxTokens
  {
  }

  /** Without overlap, the first `k + 1` chunks hold exactly the tokens before the end of chunk `k`. */
  lemma {:induction false} TilingPrefix(toks: seq<Token>, maxTokens: int, k: nat)
    requires maxTokens > 0 && k * maxTokens < |toks|
    ensures TokensUpTo(toks, k + 1, maxTokens, 0) == toks[..EndAt(k, maxTokens, maxTokens, |toks|)]
  {
    NoOverlapChunk(toks, maxTokens, k);
    var e := EndAt(k, maxTokens, maxTokens, |toks|);
    if k == 0 {
      assert TokensUpTo(toks, 1, maxTokens, 0) == [] + TokensOf(toks, 0, maxTokens, 0);
    } else {
      var c := k * maxTokens;
      MulSucc(k - 1, maxTokens);
      assert (k - 1) * maxTokens < c;
      TilingPrefix(toks, maxTokens, k - 1);
      assert EndAt(k - 1, maxTokens, maxTokens, |toks|) == c;
      assert toks[..c] + toks[c..e] == toks[..e];
    }
  }

  /** Without overlap or cap, the chunks' token slices concatenate to the tokens. */
  lemma ChunksTile(toks: seq<Token>, decode: seq<Token> -> string, maxTokens: int)
    requires maxTokens > 0
    ensures TokensUpTo(toks, |Chunks(toks, decode, maxTokens, 0, None)|, maxTokens, 0) == toks
  {
    var count := |Chunks(toks, decode, maxTokens, 0, None)|;
    IterationsMeaning(|toks|, maxTokens, None, 0);
    if count > 0 {
      IterationsMeaning(|toks|, maxTokens, None, count - 1);
      IterationsMeaning(|toks|, maxTokens, None, count);
      TilingPrefix(toks, maxTokens, count - 1);
      MulSucc(count - 1, maxTokens);
    }
  }

  /**
   * With `0 < overlap_tokens < max_tokens` a chunk holds at most
   * `max_tokens + overlap_tokens` tokens (the overlap is taken off the cursor
   * after it was already taken off the step), starts never move back, and
   * each chunk begins before the previous one ends.
   */
  lemma OverlapWindows(toks: seq<Token>, maxTokens: int, overlap: int, k: nat)
    requires 0 < overlap < maxTokens
    requires k * Step(maxTokens, overlap) < |toks|
    ensures var step := Step(maxTokens, overlap);
      && 0 <= StartAt(k, step, overlap) <= EndAt(k, step, maxTokens, |toks|) <= |toks|
      && |TokensOf(toks, k, maxTokens, overlap)| <= maxTokens + overlap
      && StartAt(k, step, overlap) <= StartAt(k + 1, step, overlap)
      && (k > 0 ==> StartAt(k, step, overlap) < EndAt(k - 1, step, maxTokens, |toks|))
  {
    var step := Step(maxTokens, overlap);
    assert (k + 1) * step == k * step + step;
    if k > 0 {
      assert (k - 1) * step == k * step - step;
    }
  }

  /** The overlap is subtracted twice: a chunk past the first can hold `max_tokens + overlap_tokens` tokens. */
  lemma OverlapLongChunk(toks: seq<Token>, maxTokens: int, overlap: int, k: nat)
    requires 0 < overlap < maxTokens && k > 0
    requires overlap <= k * Step(maxTokens, overlap) && k * Step(maxTokens, overlap) + maxTokens <= |toks|
    ensures |TokensOf(toks, k, maxTokens, overlap)| == maxTokens + overlap
  {
  }

  /** Every chunk lies within the first `end_token_limit` tokens. */
  lemma WithinLimit(tokens: seq<Token>, endTokenLimit: int, maxTokens: int, overlap: int, k: nat)
    requires maxTokens > 0 && overlap >= 0 && Step(maxTokens, overlap) > 0 && endTokenLimit >= 0
    ensures var toks := Truncated(tokens, Some(endTokenLimit));
      var step := Step(maxTokens, overlap);
      k * step < |toks| ==>
        && TokensOf(toks, k, maxTokens, overlap) == tokens[StartAt(k, step, overlap)..EndAt(k, step, maxTokens, |toks|)]
        && EndAt(k, step, maxTokens, |toks|) <= endTokenLimit
  {
    var toks := Truncated(tokens, Some(endTokenLimit));
    var step := Step(maxTokens, overlap);
    if k * step < |toks| {
      var s, e := StartAt(k, step, overlap), EndAt(k, step, maxTokens, |toks|);
      assert 0 <= s <= e <= |toks|;
      assert toks == tokens[..|toks|];
      assert toks[s..e] == tokens[s..e];
    }
  }

  /**
   * Under a codec that decodes `m` tokens to `m` characters (as the
   * character-level codec does), `start_char` equals `start_token`, and it
   * never decreases from one chunk to the next.
   */
  lemma StartCharIsStartToken(toks: seq<Token>, decode: seq<Token> -> string, maxTokens: int, overlap: int, k: nat)
    requires forall t :: |decode(t)| == |t|
    requires overlap >= 0 && Step(maxTokens, overlap) > 0
    requires k * Step(maxTokens, overlap) < |toks|
    ensures ChunkAt(toks, decode, k, maxTokens, overlap).startChar == ChunkAt(toks, decode, k, maxTokens, overlap).startToken
    ensures ChunkAt(toks, decode, k, maxTokens, overlap).startChar <= ChunkAt(toks, decode, k + 1, maxTokens, overlap).startChar
  {
    var step := Step(maxTokens, overlap);
    assert (k + 1) * step == k * step + step;
    var s, s1 := StartAt(k, step, overlap), StartAt(k + 1, step, overlap);
    assert 0 <= s <= s1;
    assert |decode(PyPrefix(toks, s))| == |PyPrefix(toks, s)| == s;
    if s1 <= |toks| {
      assert |decode(PyPrefix(toks, s1))| == s1;
    } else {
      assert |decode(PyPrefix(toks, s1))| == |toks|;
    }
  }

  // ---------------------------------------------------------------- summarize_chunks

  /** `f"Chunk {index} ({len(chunk.text)} chars, starts at char {chunk.start_char}):"`. */
  function Header(index: int, c: Chunk): string
  {
    "Chunk " + IntToString(index) + " (" + IntToString(|c.text|) + " chars, starts at char "
    + IntToString(c.startChar) + "):"
  }

  /** The first and last 100 characters around `" ... "` for a text longer than 200, else the text. */
  function Snippet(text: string): string
  {
    if |text| > 200 then text[..100] + " ... " + text[|text| - 100..] else text
  }

  /** A text of at most 200 characters is shown whole; a longer one as 205 characters around the marker. */
  lemma SnippetShape(text: string)
    ensures |text| <= 200 ==> Snippet(text) == text
    ensures |text| > 200 ==>
      var r := Snippet(text);
      |r| == 205 && r[..100] == text[..100] && r[100..105] == " ... " && r[105..] == text[|text| - 100..]
  {
  }

  /** The three lines `summarize_chunks` emits for the chunk at position `k`. */
  function ChunkLines(k: int, c: Chunk): seq<string>
  {
    [Header(k, c), Snippet(c.text), ""]
  }

  /** The concatenation of `f(k, xs[k])` over the positions `k` of `xs`, in order. */
  function Blocks<T, U>(xs: seq<T>, f: (int, T) -> seq<U>): seq<U>
    decreases |xs|
  {
    if |xs| == 0 then []
    else
      var m := |xs| - 1;
      Blocks(xs[..m], f) + f(m, xs[m])
  }

  /** When every block has three elements, block `k` occupies positions `3k` to `3k + 2`. */
  lemma {:induction false} BlocksAt<T, U>(xs: seq<T>, f: (int, T) -> seq<U>, k: int)
    requires forall i, x :: |f(i, x)| == 3
    requires 0 <= k < |xs|
    ensures |Blocks(xs, f)| == 3 * |xs|
    ensures Blocks(xs, f)[3 * k..3 * k + 3] == f(k, xs[k])
    decreases |xs|
  {
    var m := |xs| - 1;
    var pre := Blocks(xs[..m], f);
    var r := Blocks(xs, f);
    assert r == pre + f(m, xs[m]);
    if k < m {
      BlocksAt(xs[..m], f, k);
      assert xs[..m][k] == xs[k];
      assert r[3 * k..3 * k + 3] == pre[3 * k..3 * k + 3];
    } else {
      if m > 0 {
        BlocksAt(xs[..m], f, m - 1);
      }
      assert |pre| == 3 * k;
    }
  }

  /** The output lines of `summarize_chunks`: header, snippet and a blank line per chunk. */
  function SummaryLines(chunks: seq<Chunk>): seq<string>
  {
    Blocks(chunks, ChunkLines)
  }

  /** Lines `3k`, `3k + 1` and `3k + 2` are chunk `k`'s header, snippet and a blank line. */
  lemma SummaryLinesAt(chunks: seq<Chunk>, k: int)
    requires 0 <= k < |chunks|
    ensures |SummaryLines(chunks)| == 3 * |chunks|
    ensures SummaryLines(chunks)[3 * k..3 * k + 3] == [Header(k, chunks[k]), Snippet(chunks[k].text), ""]
  {
    BlocksAt(chunks, ChunkLines, k);
  }

  /** `summarize_chunks(chunks)`. */
  method SummarizeChunks(chunks: seq<Chunk>) returns (r: string)
    ensures r == Join(SummaryLines(chunks), "\n")
  {
    var lines: seq<string> := [];
    for index := 0 to |chunks|
      invariant lines == Blocks(chunks[..index], ChunkLines)
    {
      assert chunks[..index + 1][..index] == chunks[..index];
      var chunk := chunks[index];
      var header := Header(index, chunk);
      var snippet := if |chunk.text| > 200 then chunk.text[..100] + " ... " + chunk.text[|chunk.text| - 100..]
                     else chunk.text;
      lines := lines + [header, snippet, ""];
    }
    assert chunks[..|chunks|] == chunks;
    r := Join(lines, "\n");
  }
}
