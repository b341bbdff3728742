/**
 * The JSON-shaped Python values that flow through the core: LLM outputs,
 * segment dictionaries, story records.  Floats are not represented.
 */
module Json {
  import opened Wrappers
  import PyStr

  datatype Value =
    | Null
    | Bool(b: bool)
    | Int(i: int)
    | Str(s: string)
    | Arr(items: seq<Value>)
    | Obj(fields: map<string, Value>)

  /** Python truthiness (`bool(v)`). */
  predicate Truthy(v: Value)
  {
    match v
    case Null => false
    case Bool(b) => b
    case Int(i) => i != 0
    case Str(s) => |s| > 0
    case Arr(items) => |items| > 0
    case Obj(fields) => |fields| > 0
  }

  /** `isinstance(v, int)`, which also holds for booleans, with the integer value. */
  function AsInt(v: Value): Option<int>
  {
    match v
    case Int(i) => Some(i)
    case Bool(b) => Some(if b then 1 else 0)
    case _ => None
  }

  /** `d.get(k)`: the missing key as `None`. */
  function Get(d: map<string, Value>, k: string): Option<Value>
  {
    if k in d then Some(d[k]) else None
  }

  /** `d.get(k)` as a value: a missing key reads as `None`. */
  function GetValue(d: map<string, Value>, k: string): Value
  {
    if k in d then d[k] else Null
  }

  /** `a or b` for values. */
  function Or(a: Value, b: Value): Value
  {
    if Truthy(a) then a else b
  }

  /** `str(v)`.  A non-empty dictionary is rendered as `{...}`: the model does not keep key order. */
  function ToStr(v: Value): string
  {
    match v
    case Str(s) => s
    case _ => Repr(v)
  }

  /** `repr(v)`. */
  function Repr(v: Value): string
  {
    match v
    case Null => "None"
    case Bool(b) => if b then "True" else "False"
    case Int(i) => PyStr.IntToString(i)
    case Str(s) => PyStr.ReprStr(s)
    case Arr(items) => "[" + ReprItems(items) + "]"
    case Obj(fields) => if |fields| == 0 then "{}" else "{...}"
  }

  function ReprItems(items: seq<Value>): string
  {
    if |items| == 0 then ""
    else if |items| == 1 then Repr(items[0])
    else Repr(items[0]) + ", " + ReprItems(items[1..])
  }

  /** A printing function that prints a string as itself, as `str` does. */
  ghost predicate PrintsStrings(str: Value -> string)
  {
    forall s :: str(Str(s)) == s
  }

  lemma ToStrPrintsStrings()
    ensures PrintsStrings(ToStr)
  {
  }

  /** `type(v).__name__`. */
  function TypeName(v: Value): string
  {
    match v
    case Null => "NoneType"
    case Bool(_) => "bool"
    case Int(_) => "int"
    case Str(_) => "str"
    case Arr(_) => "list"
    case Obj(_) => "dict"
  }

  /**
   * `len(v)`: strings, lists and dictionaries have one, and a value with one
   * is truthy exactly when it is not empty; `len` of anything else raises
   * `TypeError`.
   */
  function Len(v: Value): (r: Result<nat>)
    ensures r.Ok? <==> v.Str? || v.Arr? || v.Obj?
    ensures r.Ok? ==> (Truthy(v) <==> r.value > 0)
    ensures r.Err? ==> r.error.kind == TypeError
  {
    match v
    case Str(s) => Ok(|s|)
    case Arr(items) => Ok(|items|)
    case Obj(fields) => Ok(|fields|)
    case _ => Err(Exception(TypeError, "object of type '" + TypeName(v) + "' has no len()"))
  }

  /** A sequence of strings as a JSON array. */
  function StrArr(xs: seq<string>): Value
  {
    Arr(seq(|xs|, i requires 0 <= i < |xs| => Str(xs[i])))
  }

  // ---------------------------------------------------------------- dict()

  /**
   * One element of `dict(pairs)`: a sequence of exactly two elements, the
   * first being the key (a two-character string is the pair of its
   * characters).  Only string keys are representable here.
   */
  function PairOf(v: Value): (r: Result<(string, Value)>)
    ensures IsPair(v) ==> r == Ok((v.items[0].s, v.items[1]))
    ensures r.Err? && (v.Arr? || v.Str?) ==> (r.error.kind == ValueError <==> PairLength(v) != 2)
  {
    if IsPair(v) then Ok((v.items[0].s, v.items[1]))
    else if v.Str? && |v.s| == 2 then Ok(([v.s[0]], Str([v.s[1]])))
    else if (v.Arr? || v.Str? || v.Obj?) && PairLength(v) != 2 then
      Err(Exception(ValueError, "dictionary update sequence element has the wrong length; 2 is required"))
    else if v.Arr? || v.Obj? then Err(Exception(TypeError, "dictionary key is not a string"))
    else Err(Exception(TypeError, "cannot convert dictionary update sequence element to a sequence"))
  }

  /** The number of elements iterating over a list, string or dictionary yields. */
  function PairLength(v: Value): nat
    requires v.Arr? || v.Str? || v.Obj?
  {
    match v
    case Arr(p) => |p|
    case Str(s) => |s|
    case Obj(f) => |f|
  }

  /** Every value is a list `[key, value]` with a string key. */
  predicate AllPairs(items: seq<Value>)
  {
    forall k {:trigger items[k]} :: 0 <= k < |items| ==> IsPair(items[k])
  }

  /** A list `[key, value]` with a string key. */
  predicate IsPair(v: Value)
  {
    v.Arr? && |v.items| == 2 && v.items[0].Str?
  }

  /** `dict(pairs)` continued from `acc`, the first bad element raising. */
  function PairsDict(items: seq<Value>, acc: map<string, Value>): Result<map<string, Value>>
    decreases |items|
  {
    if |items| == 0 then Ok(acc)
    else match PairOf(items[0])
      case Err(e) => Err(e)
      case Ok((key, x)) => PairsDict(items[1..], acc[key := x])
  }

  /** For a list of `[key, value]` pairs, `dict` holds exactly the keys of `acc` and of the pairs. */
  lemma {:induction false} PairsDictKeys(items: seq<Value>, acc: map<string, Value>)
    requires AllPairs(items)
    ensures PairsDict(items, acc).Ok?
    ensures forall key :: key in PairsDict(items, acc).value <==>
      key in acc || exists j :: 0 <= j < |items| && items[j].items[0].s == key
    decreases |items|
  {
    if |items| > 0 {
      var key, x := items[0].items[0].s, items[0].items[1];
      var rest := items[1..];
      PairsDictKeys(rest, acc[key := x]);
      var d := PairsDict(items, acc).value;
      assert d == PairsDict(rest, acc[key := x]).value;
      forall k ensures k in d <==> k in acc || exists j :: 0 <= j < |items| && items[j].items[0].s == k {
        if exists j :: 0 <= j < |rest| && rest[j].items[0].s == k {
          var j :| 0 <= j < |rest| && rest[j].items[0].s == k;
          assert items[j + 1] == rest[j];
        }
        if exists j :: 0 <= j < |items| && items[j].items[0].s == k {
          var j :| 0 <= j < |items| && items[j].items[0].s == k;
          if j > 0 {
            assert rest[j - 1] == items[j];
          }
        }
      }
    }
  }

  /** A key of `acc` that no pair names keeps its value. */
  lemma {:induction false} PairsDictKept(items: seq<Value>, acc: map<string, Value>, key: string)
    requires AllPairs(items) && key in acc
    requires forall j :: 0 <= j < |items| ==> items[j].items[0].s != key
    ensures PairsDict(items, acc).Ok? && key in PairsDict(items, acc).value
    ensures PairsDict(items, acc).value[key] == acc[key]
    decreases |items|
  {
    if |items| > 0 {
      var rest := items[1..];
      forall l | 0 <= l < |rest| ensures rest[l].items[0].s != key {
        assert rest[l] == items[l + 1];
      }
      PairsDictKept(rest, acc[items[0].items[0].s := items[0].items[1]], key);
    }
  }

  /** Each key is bound to the value of its last pair: a later pair overrides an earlier one. */
  lemma {:induction false} PairsDictLast(items: seq<Value>, acc: map<string, Value>, j: int)
    requires AllPairs(items) && 0 <= j < |items| && LastPair(items, j)
    ensures PairsDict(items, acc).Ok? && items[j].items[0].s in PairsDict(items, acc).value
    ensures PairsDict(items, acc).value[items[j].items[0].s] == items[j].items[1]
    decreases |items|
  {
    var key, x := items[0].items[0].s, items[0].items[1];
    var rest := items[1..];
    if j > 0 {
      assert rest[j - 1] == items[j];
      assert LastPair(rest, j - 1) by {
        forall l | j - 1 < l < |rest| ensures rest[l].items[0].s != rest[j - 1].items[0].s {
          assert rest[l] == items[l + 1];
        }
      }
      PairsDictLast(rest, acc[key := x], j - 1);
    } else {
      forall l | 0 <= l < |rest| ensures rest[l].items[0].s != key {
        assert rest[l] == items[l + 1];
      }
      PairsDictKept(rest, acc[key := x], key);
    }
  }

  /** No later pair has the same key as the pair at `j`. */
  predicate LastPair(items: seq<Value>, j: int)
    requires 0 <= j < |items| && AllPairs(items)
  {
    forall l :: j < l < |items| ==> items[l].items[0].s != items[j].items[0].s
  }

  /**
   * `dict(v)` for one element of the aligner's segment list: a dictionary is
   * copied, a list (or string) is read as key-value pairs, and anything else
   * is not iterable.
   */
  function DictOf(v: Value): (r: Result<map<string, Value>>)
    ensures v.Obj? ==> r == Ok(v.fields)
    ensures v.Null? || v.Bool? || v.Int? ==> r.Err? && r.error.kind == TypeError
    ensures v.Str? ==> (r.Ok? <==> |v.s| == 0) && (r.Ok? ==> r.value == map[]) && (r.Err? ==> r.error.kind == ValueError)
    ensures v.Arr? && |v.items| == 0 ==> r == Ok(map[])
  {
    match v
    case Obj(f) => Ok(f)
    case Arr(items) => PairsDict(items, map[])
    case Str(s) =>
      if |s| == 0 then Ok(map[])
      else Err(Exception(ValueError, "dictionary update sequence element #0 has length 1; 2 is required"))
    case _ => Err(Exception(TypeError, "object is not iterable"))
  }

  /** `[dict(seg) for seg in items]`, the first element that cannot be converted raising. */
  function DictsOf(items: seq<Value>): Result<seq<map<string, Value>>>
  {
    if |items| == 0 then Ok([])
    else
      var head, tail := DictOf(items[0]), DictsOf(items[1..]);
      if head.Err? then Err(head.error)
      else if tail.Err? then Err(tail.error)
      else Ok([head.value] + tail.value)
  }

  /** The list succeeds exactly when every element converts, and then holds the conversions in order. */
  lemma {:induction false} DictsOfOk(items: seq<Value>)
    ensures DictsOf(items).Ok? <==> forall k :: 0 <= k < |items| ==> DictOf(items[k]).Ok?
    ensures DictsOf(items).Ok? ==>
      |DictsOf(items).value| == |items| && forall k :: 0 <= k < |items| ==> DictOf(items[k]) == Ok(DictsOf(items).value[k])
    decreases |items|
  {
    if |items| > 0 {
      var rest := items[1..];
      DictsOfOk(rest);
      forall k | 0 < k < |items| ensures items[k] == rest[k - 1] {
      }
    }
  }

  /** Otherwise it raises the exception of the first element that does not convert. */
  lemma {:induction false} DictsOfErr(items: seq<Value>)
    requires DictsOf(items).Err?
    ensures exists k ::
      0 <= k < |items| && DictOf(items[k]) == Err(DictsOf(items).error) && forall j :: 0 <= j < k ==> DictOf(items[j]).Ok?
    decreases |items|
  {
    var rest := items[1..];
    if DictOf(items[0]).Err? {
      assert DictOf(items[0]) == Err(DictsOf(items).error);
    } else {
      assert DictsOf(items).error == DictsOf(rest).error;
      DictsOfErr(rest);
      var k :| 0 <= k < |rest| && DictOf(rest[k]) == Err(DictsOf(rest).error) && forall j :: 0 <= j < k ==> DictOf(rest[j]).Ok?;
      forall j | 0 < j <= k ensures DictOf(items[j]).Ok? {
        assert items[j] == rest[j - 1];
      }
      assert items[k + 1] == rest[k];
    }
  }
}
