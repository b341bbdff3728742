/**
 * `lcats/utils.py`: the text shortener `sm`, the list summariser `sml`, the
 * control flow of `extract_json` over an abstract JSON parser, and
 * `make_serializable`.
 */
module Display {
  import opened Wrappers
  import opened PyStr
  import opened Json
  import PyFormat

  // ---------------------------------------------------------------- sm

  /** `(limit - |spacer|) // 2`: the number of leading characters `sm` keeps. */
  function SmPrefix(limit: int, spacer: string): int
  {
    (limit - |spacer|) / 2
  }

  /**
   * `sm(text, limit, spacer)`: the text itself when it fits, otherwise its
   * first `prefix` and last `limit - prefix - |spacer|` characters around the
   * spacer.
   */
  function Sm(text: string, limit: int, spacer: string): (r: Result<string>)
    ensures |text| <= limit ==> r == Ok(text)
    ensures |text| > limit && SmPrefix(limit, spacer) <= 0 <==> r.Err?
    ensures r.Err? ==> r.error.kind == ValueError
    ensures |text| > limit && r.Ok? ==>
      var p := SmPrefix(limit, spacer);
      && |r.value| == limit
      && r.value[..p] == text[..p]
      && r.value[p..p + |spacer|] == spacer
      && r.value[p + |spacer|..] == text[|text| - (limit - p - |spacer|)..]
  {
    if |text| <= limit then Ok(text)
    else
      var prefix := SmPrefix(limit, spacer);
      if prefix <= 0 then
        Err(Exception(ValueError, "Text limit " + IntToString(limit)
          + " not long enough for prefix/suffix spacer '" + spacer + "'."))
      else
        var suffix := limit - prefix - |spacer|;
        Ok(PyPrefix(text, prefix) + spacer + PySlice(text, -suffix, |text|))
  }

  /** With room for at least one character on each side, `sm` never raises. */
  lemma SmOk(text: string, limit: int, spacer: string)
    requires limit - |spacer| >= 2
    ensures Sm(text, limit, spacer).Ok?
    ensures |Sm(text, limit, spacer).value| <= limit
  {
  }

  // ---------------------------------------------------------------- sml

  /** The item line `f"{indent}{item_to_str(x)}"`, with a trailing comma when asked for. */
  function ItemLine(indent: string, text: string, comma: bool): string
  {
    indent + text + (if comma then "," else "")
  }

  function CloseLine(n: nat): string
  {
    "] total items: " + NatToString(n)
  }

  /**
   * The lines of `sml(items, limit, spacer, item_to_str=toStr, indent=indent)`,
   * described by the layout rather than by the loops.
   */
  function SmlLines<T>(items: seq<T>, limit: int, spacer: string, toStr: T -> string, indent: string)
    : Result<seq<string>>
  {
    var n := |items|;
    if n <= limit then
      Ok(["["] + seq(n, i requires 0 <= i < n => ItemLine(indent, toStr(items[i]), i != n - 1)) + [CloseLine(n)])
    else if limit < 3 then
      Err(Exception(ValueError, "limit must be >= 3 when summarizing lists longer than the limit."))
    else
      var head := limit / 2;
      var tail := limit - 1 - head;
      var omitted := n - (head + tail);
      var sp := PyFormat.Format(spacer, map["count" := IntToString(omitted)]);
      if sp.Err? then Err(sp.error)
      else
        Ok(["["] + HeadItemLines(items, head, toStr, indent) + [indent + sp.value]
           + TailItemLines(items, tail, toStr, indent) + [CloseLine(n)])
  }

  /** The lines of the first `head` items, each with a comma. */
  function HeadItemLines<T>(items: seq<T>, head: nat, toStr: T -> string, indent: string): seq<string>
    requires head <= |items|
  {
    seq(head, i requires 0 <= i < head => ItemLine(indent, toStr(items[i]), true))
  }

  /** The lines of the last `tail` items, with a comma on all but the last. */
  function TailItemLines<T>(items: seq<T>, tail: nat, toStr: T -> string, indent: string): seq<string>
    requires tail <= |items|
  {
    seq(tail, j requires 0 <= j < tail => ItemLine(indent, toStr(items[|items| - tail + j]), j != tail - 1))
  }

  /** The lines of the last `tail` items are the lines of the list `items[n - tail:]`. */
  lemma TailItemLinesOfSlice<T>(items: seq<T>, tail: nat, toStr: T -> string, indent: string)
    requires tail <= |items|
    ensures var last := items[|items| - tail..];
      TailItemLines(items, tail, toStr, indent)
      == seq(|last|, i requires 0 <= i < |last| => ItemLine(indent, toStr(last[i]), i != |last| - 1))
  {
  }

  /** The loop over all items of a short list: a comma after every line but the last. */
  method AllItemLines<T>(items: seq<T>, toStr: T -> string, indent: string) returns (lines: seq<string>)
    ensures lines == seq(|items|, i requires 0 <= i < |items| => ItemLine(indent, toStr(items[i]), i != |items| - 1))
  {
    var n := |items|;
    lines := [];
    for i := 0 to n
      invariant |lines| == i
      invariant forall k :: 0 <= k < i ==> lines[k] == ItemLine(indent, toStr(items[k]), k != n - 1)
    {
      var s := indent + toStr(items[i]);
      if i != n - 1 {
        s := s + ",";
      }
      lines := lines + [s];
    }
  }

  /** The loop over the first `head` items of a long list: each line ends with a comma. */
  method HeadLines<T>(items: seq<T>, head: nat, toStr: T -> string, indent: string) returns (lines: seq<string>)
    requires head <= |items|
    ensures lines == HeadItemLines(items, head, toStr, indent)
  {
    lines := [];
    for i := 0 to head
      invariant |lines| == i
      invariant forall k :: 0 <= k < i ==> lines[k] == ItemLine(indent, toStr(items[k]), true)
    {
      lines := lines + [indent + toStr(items[i]) + ","];
    }
  }

  /** `sml(...)`: the lines built by the three loops of the source, joined with newlines. */
  method Sml<T>(items: seq<T>, limit: int, spacer: string, toStr: T -> string, indent: string)
    returns (r: Result<string>)
    ensures SmlLines(items, limit, spacer, toStr, indent).Err? ==>
      r == Err(SmlLines(items, limit, spacer, toStr, indent).error)
    ensures SmlLines(items, limit, spacer, toStr, indent).Ok? ==>
      r == Ok(Join(SmlLines(items, limit, spacer, toStr, indent).value, "\n"))
  {
    var n := |items|;
    var lines := ["["];
    if n <= limit {
      var body := AllItemLines(items, toStr, indent);
      lines := lines + body;
    } else {
      if limit < 3 {
        return Err(Exception(ValueError, "limit must be >= 3 when summarizing lists longer than the limit."));
      }
      var head := limit / 2;
      var tail := limit - 1 - head;
      var omitted := n - (head + tail);
      var headLines := HeadLines(items, head, toStr, indent);
      lines := lines + headLines;
      var sp := PyFormat.Format(spacer, map["count" := IntToString(omitted)]);
      if sp.Err? {
        return Err(sp.error);
      }
      lines := lines + [indent + sp.value];
      var last := items[n - tail..];
      var tailLines := AllItemLines(last, toStr, indent);
      TailItemLinesOfSlice(items, tail, toStr, indent);
      lines := lines + tailLines;
    }
    lines := lines + [CloseLine(n)];
    return Ok(Join(lines, "\n"));
  }

  /** Short lists: every item gets a line, and only the last line lacks a comma. */
  lemma SmlShortLayout<T>(items: seq<T>, limit: int, spacer: string, toStr: T -> string, indent: string)
    requires |items| <= limit
    ensures SmlLines(items, limit, spacer, toStr, indent).Ok?
    ensures var lines := SmlLines(items, limit, spacer, toStr, indent).value;
      && |lines| == |items| + 2
      && lines[0] == "[" && lines[|lines| - 1] == "] total items: " + NatToString(|items|)
      && forall i :: 0 <= i < |items| ==>
           lines[i + 1] == indent + toStr(items[i]) + (if i < |items| - 1 then "," else "")
  {
  }

  lemma Layout<T>(x: T, a: seq<T>, m: T, b: seq<T>, c: T)
    ensures var l := [x] + a + [m] + b + [c];
      && |l| == |a| + |b| + 3 && l[0] == x && l[|a| + 1] == m && l[|a| + |b| + 2] == c
      && (forall i :: 0 <= i < |a| ==> l[i + 1] == a[i])
      && (forall k :: |a| + 2 <= k < |a| + |b| + 2 ==> l[k] == b[k - |a| - 2])
  {
  }

  /** Long lists: exactly `limit` lines between the brackets (head, spacer, tail). */
  lemma SmlLongLayout<T>(items: seq<T>, limit: int, spacer: string, toStr: T -> string, indent: string)
    requires |items| > limit >= 3
    requires SmlLines(items, limit, spacer, toStr, indent).Ok?
    ensures var lines := SmlLines(items, limit, spacer, toStr, indent).value;
      var head := limit / 2;
      var tail := limit - 1 - head;
      && head + 1 + tail == limit && tail >= 1
      && |lines| == limit + 2
      && lines[0] == "[" && lines[limit + 1] == "] total items: " + NatToString(|items|)
      && (forall i :: 0 <= i < head ==> lines[i + 1] == indent + toStr(items[i]) + ",")
      && lines[head + 1] == indent + PyFormat.Format(spacer, map["count" := IntToString(|items| - head - tail)]).value
      && (forall k :: head + 2 <= k <= limit ==>
            lines[k] == indent + toStr(items[|items| - tail + (k - head - 2)]) + (if k < limit then "," else ""))
  {
    var n := |items|;
    var head := limit / 2;
    var tail := limit - 1 - head;
    var sp := PyFormat.Format(spacer, map["count" := IntToString(n - (head + tail))]);
    SmlLongLines(items, limit, spacer, toStr, indent);
    HeadTailLayout(items, head, tail, toStr, indent, indent + sp.value, CloseLine(n),
                   SmlLines(items, limit, spacer, toStr, indent).value);
  }

  /** Where the head lines, the spacer line and the tail lines sit between the brackets. */
  lemma HeadTailLayout<T>(items: seq<T>, head: nat, tail: nat, toStr: T -> string, indent: string,
                          spacerLine: string, close: string, lines: seq<string>)
    requires head + tail <= |items| && tail >= 1
    requires lines == ["["] + HeadItemLines(items, head, toStr, indent) + [spacerLine]
                      + TailItemLines(items, tail, toStr, indent) + [close]
    ensures |lines| == head + tail + 3 && lines[0] == "[" && lines[head + 1] == spacerLine
    ensures lines[head + tail + 2] == close
    ensures forall i :: 0 <= i < head ==> lines[i + 1] == indent + toStr(items[i]) + ","
    ensures forall k :: head + 2 <= k <= head + tail + 1 ==>
      lines[k] == indent + toStr(items[|items| - tail + (k - head - 2)]) + (if k < head + tail + 1 then "," else "")
  {
    var a := HeadItemLines(items, head, toStr, indent);
    var b := TailItemLines(items, tail, toStr, indent);
    Layout("[", a, spacerLine, b, close);
    forall i | 0 <= i < head ensures lines[i + 1] == indent + toStr(items[i]) + "," {
      assert lines[i + 1] == a[i] == ItemLine(indent, toStr(items[i]), true);
    }
    forall k | head + 2 <= k <= head + tail + 1
      ensures lines[k] == indent + toStr(items[|items| - tail + (k - head - 2)]) + (if k < head + tail + 1 then "," else "")
    {
      var j := k - head - 2;
      assert lines[k] == b[j] == ItemLine(indent, toStr(items[|items| - tail + j]), j != tail - 1);
    }
  }

  /** The lines of a long list: the bracket, the head, the spacer, the tail and the total. */
  lemma SmlLongLines<T>(items: seq<T>, limit: int, spacer: string, toStr: T -> string, indent: string)
    requires |items| > limit >= 3
    requires SmlLines(items, limit, spacer, toStr, indent).Ok?
    ensures var head := limit / 2;
      var tail := limit - 1 - head;
      var sp := PyFormat.Format(spacer, map["count" := IntToString(|items| - (head + tail))]);
      && sp.Ok?
      && SmlLines(items, limit, spacer, toStr, indent).value
         == ["["] + HeadItemLines(items, head, toStr, indent) + [indent + sp.value]
            + TailItemLines(items, tail, toStr, indent) + [CloseLine(|items|)]
  {
  }

  /** A long list with too small a limit raises ValueError. */
  lemma SmlLimitTooSmall<T>(items: seq<T>, limit: int, spacer: string, toStr: T -> string, indent: string)
    requires |items| > limit && limit < 3
    ensures SmlLines(items, limit, spacer, toStr, indent).Err?
    ensures SmlLines(items, limit, spacer, toStr, indent).error.kind == ValueError
  {
  }

  // ---------------------------------------------------------------- extract_json

  /**
   * The parsing library as parameters: `json.loads` (an `Err` is a
   * JSONDecodeError) and `extract_fenced_code_blocks`, which gives the
   * (language, content) pair of every fenced block.
   */
  datatype JsonLib = JsonLib(loads: string -> Result<Value>, fencedBlocks: string -> seq<(string, string)>)

  /** `extract_json(s, allow_multiple)`. */
  function ExtractJson(s: string, allowMultiple: bool, lib: JsonLib): (r: Result<Value>)
    ensures lib.loads(s).Ok? ==> r == lib.loads(s)
    ensures lib.loads(s).Err? && |lib.fencedBlocks(s)| == 0 ==>
      r == Err(Exception(ValueError, "No JSON found in the string."))
    ensures lib.loads(s).Err? && |lib.fencedBlocks(s)| > 1 && !allowMultiple ==>
      r == Err(Exception(ValueError, "Multiple JSON blocks found, but allow_multiple is False."))
    ensures lib.loads(s).Err? && |lib.fencedBlocks(s)| > 0 && (|lib.fencedBlocks(s)| == 1 || allowMultiple) ==>
      (lib.fencedBlocks(s)[0].0 != "json" ==> r.Err? && r.error.kind == ValueError)
      && (lib.fencedBlocks(s)[0].0 == "json" ==> ParsedAs(r, lib.loads(lib.fencedBlocks(s)[0].1)))
    ensures r.Err? ==> r.error.kind in {ValueError, JSONDecodeError}
  {
    var direct := lib.loads(s);
    if direct.Ok? then direct
    else
      var blocks := lib.fencedBlocks(s);
      if |blocks| == 0 then Err(Exception(ValueError, "No JSON found in the string."))
      else if |blocks| > 1 && !allowMultiple then
        Err(Exception(ValueError, "Multiple JSON blocks found, but allow_multiple is False."))
      else
        var (fmt, content) := blocks[0];
        if fmt != "json" then Err(Exception(ValueError, "Expected JSON format, but got: " + fmt))
        else DecodeResult(lib.loads(content))
  }

  /** A parse result, with any failure reported as JSONDecodeError. */
  function DecodeResult(p: Result<Value>): Result<Value>
  {
    if p.Ok? then p else Err(Exception(JSONDecodeError, p.error.msg))
  }

  predicate ParsedAs(r: Result<Value>, p: Result<Value>)
  {
    (p.Ok? ==> r == p) && (p.Err? ==> r == Err(Exception(JSONDecodeError, p.error.msg)))
  }

  // ---------------------------------------------------------------- make_serializable

  /** `make_serializable(result, key)`: a copy of the dictionary without `key`. */
  function MakeSerializable(result: map<string, Value>, key: string): (r: map<string, Value>)
    ensures key !in r
    ensures r.Keys == result.Keys - {key}
    ensures forall k :: k in r ==> r[k] == result[k]
  {
    result - {key}
  }
}
