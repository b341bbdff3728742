/**
 * `lcats/pipeline.py`: stages run in order over a key/value state, each
 * reading its inputs from the state and writing its outputs back, with a
 * bounded number of retries per stage.  The stage processors are
 * parameters; a processor also sees the attempt number, because a Python
 * processor may fail on one call and succeed on the next.
 */
module Pipeline {
  import opened Wrappers
  import opened PyStr
  import opened Json

  /** A stage's processor: the positional arguments and the 0-based attempt. */
  type Processor = (seq<Value>, nat) -> Result<Value>

  /** A `Stage`.  `cache` is carried but never read by the pipeline. */
  datatype Stage = Stage(name: string, processor: Processor, inputs: seq<string>, outputs: seq<string>,
                         cache: bool, retries: int)

  /** A `RunResult`: the failures are (stage name, message) pairs. */
  datatype RunResult = RunResult(success: bool, values: map<string, Value>, failures: seq<(string, string)>)

  /** The length of `range(stage.retries + 1)`. */
  function Attempts(s: Stage): nat
  {
    if s.retries + 1 > 0 then s.retries + 1 else 0
  }

  /** `raise None`, reached when no attempt was made. */
  const RaiseNone := Exception(TypeError, "exceptions must derive from BaseException")

  /** Attempts `a` to `n - 1`; `last` is the failure of attempt `a - 1`. */
  function TryFrom(p: Processor, args: seq<Value>, a: nat, n: nat, last: Option<Exception>): Result<Value>
    decreases n - a
  {
    if a >= n then (if last.Some? then Err(last.value) else Err(RaiseNone))
    else if p(args, a).Ok? then p(args, a)
    else TryFrom(p, args, a + 1, n, Some(p(args, a).error))
  }

  /** `_run_with_retries(stage, args)` as a value. */
  function Retried(s: Stage, args: seq<Value>): Result<Value>
  {
    TryFrom(s.processor, args, 0, Attempts(s), None)
  }

  /**
   * Retrying returns the first successful attempt, after failures only;
   * when every attempt fails it re-raises the last one's exception, and
   * with no attempt at all it raises TypeError.
   */
  lemma {:induction false} TryFromMeaning(p: Processor, args: seq<Value>, a: nat, n: nat, last: Option<Exception>)
    requires a == 0 ==> last == None
    requires a > 0 ==> p(args, a - 1).Err? && last == Some(p(args, a - 1).error)
    requires a <= n
    ensures var r := TryFrom(p, args, a, n, last);
      && (r.Ok? ==> exists k :: a <= k < n && r == p(args, k) && (forall j :: a <= j < k ==> p(args, j).Err?))
      && (r.Err? ==> forall j :: a <= j < n ==> p(args, j).Err?)
      && (r.Err? && a < n ==> r == p(args, n - 1))
      && (n <= a ==> r == (if a == 0 then Err(RaiseNone) else p(args, a - 1)))
    decreases n - a
  {
    if a < n && p(args, a).Err? {
      TryFromMeaning(p, args, a + 1, n, Some(p(args, a).error));
    }
  }

  /** The inputs missing from the state, in input order. */
  function Missing(inputs: seq<string>, state: map<string, Value>): (m: seq<string>)
    ensures forall k :: k in m <==> k in inputs && k !in state
    ensures |m| <= |inputs|
    ensures m == [] <==> forall k :: k in inputs ==> k in state
  {
    if |inputs| == 0 then []
    else (if inputs[0] in state then [] else [inputs[0]]) + Missing(inputs[1..], state)
  }

  /** `[state[k] for k in stage.inputs]`. */
  function Args(inputs: seq<string>, state: map<string, Value>): seq<Value>
    requires forall k :: k in inputs ==> k in state
  {
    seq(|inputs|, i requires 0 <= i < |inputs| => state[inputs[i]])
  }

  /** `for name, val in zip(outputs, result): state[name] = val`. */
  function ZipInto(state: map<string, Value>, names: seq<string>, vals: seq<Value>): map<string, Value>
    requires |names| == |vals|
    decreases |names|
  {
    if |names| == 0 then state else ZipInto(state[names[0] := vals[0]], names[1..], vals[1..])
  }

  /**
   * Zipping adds exactly the output names, leaves every other key alone,
   * and gives each name the value paired with its last occurrence.
   */
  lemma {:induction false} ZipIntoMeaning(state: map<string, Value>, names: seq<string>, vals: seq<Value>)
    requires |names| == |vals|
    ensures forall k :: k in ZipInto(state, names, vals) <==> k in state || k in names
    ensures forall k :: k in state && k !in names ==> ZipInto(state, names, vals)[k] == state[k]
    ensures forall i :: 0 <= i < |names| && names[i] !in names[i + 1..] ==> ZipInto(state, names, vals)[names[i]] == vals[i]
    decreases |names|
  {
    if |names| > 0 {
      var next := state[names[0] := vals[0]];
      ZipIntoMeaning(next, names[1..], vals[1..]);
      forall i | 0 <= i < |names| && names[i] !in names[i + 1..]
        ensures ZipInto(state, names, vals)[names[i]] == vals[i]
      {
        if i > 0 {
          assert names[1..][i - 1] == names[i];
          assert names[1..][i - 1 + 1..] == names[i + 1..];
        }
      }
    }
  }

  /** The output mapping of a stage's result. */
  function Store(s: Stage, state: map<string, Value>, result: Value): Result<map<string, Value>>
  {
    if |s.outputs| == 1 then Ok(state[s.outputs[0] := result])
    else if result.Arr? && |result.items| == |s.outputs| then Ok(ZipInto(state, s.outputs, result.items))
    else Err(Exception(ValueError, "Stage " + s.name + " returned unexpected output format: " + ToStr(result)))
  }

  /** What one stage does to the state: a new state, or the failure message. */
  datatype Step = Next(state: map<string, Value>) | Failed(message: string)

  function StepOf(s: Stage, state: map<string, Value>): Step
  {
    var missing := Missing(s.inputs, state);
    if |missing| > 0 then Failed("Missing inputs: " + ReprStrList(missing))
    else
      var r := Retried(s, Args(s.inputs, state));
      if r.Err? then Failed(r.error.msg)
      else
        var st := Store(s, state, r.value);
        if st.Err? then Failed(st.error.msg) else Next(st.value)
  }

  /** `Pipeline(stages)(**state)` as a value. */
  function Run(stages: seq<Stage>, state: map<string, Value>): RunResult
    decreases |stages|
  {
    if |stages| == 0 then RunResult(true, state, [])
    else
      match StepOf(stages[0], state)
      case Failed(m) => RunResult(false, state, [(stages[0].name, m)])
      case Next(st) => Run(stages[1..], st)
  }

  /** A `Pipeline`; the log callback is left out. */
  class Pipeline {
    const stages: seq<Stage>

    constructor(stages: seq<Stage>)
      ensures this.stages == stages
    {
      this.stages := stages;
    }

    /**
     * `_run_with_retries`: `calls` processor calls are made, at most
     * `retries + 1`; all but the last failed, and the result is the last
     * call's, which failed only if all the attempts were used.
     */
    method RunWithRetries(stage: Stage, args: seq<Value>) returns (r: Result<Value>, calls: nat)
      ensures r == Retried(stage, args)
      ensures calls <= Attempts(stage)
      ensures forall j :: 0 <= j && j + 1 < calls ==> stage.processor(args, j).Err?
      ensures r.Ok? ==> calls >= 1 && r == stage.processor(args, calls - 1)
      ensures r.Err? ==> calls == Attempts(stage)
      ensures r.Err? && calls > 0 ==> r == stage.processor(args, calls - 1)
      ensures calls == 0 ==> r == Err(RaiseNone)
    {
      var n := Attempts(stage);
      var last: Option<Exception> := None;
      calls := 0;
      for attempt := 0 to n
        invariant calls == attempt
        invariant forall j :: 0 <= j < attempt ==> stage.processor(args, j).Err?
        invariant attempt == 0 ==> last == None
        invariant attempt > 0 ==> last == Some(stage.processor(args, attempt - 1).error)
        invariant Retried(stage, args) == TryFrom(stage.processor, args, attempt, n, last)
      {
        var res := stage.processor(args, attempt);
        calls := calls + 1;
        if res.Ok? {
          return res, calls;
        }
        last := Some(res.error);
      }
      r := if last.Some? then Err(last.value) else Err(RaiseNone);
    }

    /** `__call__(**kwargs)`: the state starts as the keyword arguments. */
    method Call(kwargs: map<string, Value>) returns (r: RunResult)
      ensures r == Run(stages, kwargs)
      ensures r.success <==> r.failures == []
      ensures !r.success ==> |r.failures| == 1
    {
      var state := kwargs;
      var i := 0;
      while i < |stages|
        invariant 0 <= i <= |stages|
        invariant Run(stages, kwargs) == Run(stages[i..], state)
      {
        var stage := stages[i];
        assert stages[i..][0] == stage && stages[i..][1..] == stages[i + 1..];
        var missing := Missing(stage.inputs, state);
        if |missing| > 0 {
          return RunResult(false, state, [(stage.name, "Missing inputs: " + ReprStrList(missing))]);
        }
        var args := Args(stage.inputs, state);
        var result, _ := RunWithRetries(stage, args);
        if result.Err? {
          return RunResult(false, state, [(stage.name, result.error.msg)]);
        }
        if |stage.outputs| == 1 {
          state := state[stage.outputs[0] := result.value];
        } else if result.value.Arr? && |result.value.items| == |stage.outputs| {
          var items := result.value.items;
          ghost var before := state;
          for j := 0 to |items|
            invariant ZipInto(before, stage.outputs, items) == ZipInto(state, stage.outputs[j..], items[j..])
          {
            assert stage.outputs[j..][1..] == stage.outputs[j + 1..] && items[j..][1..] == items[j + 1..];
            state := state[stage.outputs[j] := items[j]];
          }
          assert stage.outputs[|items|..] == [] && items[|items|..] == [];
        } else {
          return RunResult(false, state, [(stage.name, "Stage " + stage.name + " returned unexpected output format: "
                                                       + ToStr(result.value))]);
        }
        i := i + 1;
      }
      return RunResult(true, state, []);
    }
  }

  /** A run succeeds exactly when it has no failure, and a failed run has exactly one, from one of its stages. */
  lemma {:induction false} RunOutcome(stages: seq<Stage>, state: map<string, Value>)
    ensures var r := Run(stages, state);
      && (r.success <==> r.failures == [])
      && (!r.success ==> |r.failures| == 1 && exists k :: 0 <= k < |stages| && r.failures[0].0 == stages[k].name)
    decreases |stages|
  {
    if |stages| > 0 && StepOf(stages[0], state).Next? {
      RunOutcome(stages[1..], StepOf(stages[0], state).state);
      var r := Run(stages, state);
      if !r.success {
        var k :| 0 <= k < |stages[1..]| && r.failures[0].0 == stages[1..][k].name;
        assert stages[k + 1] == stages[1..][k];
      }
    }
  }

  /** Stages run in list order: `a + b` runs `b` on what `a` left, unless `a` failed. */
  lemma {:induction false} RunAppend(a: seq<Stage>, b: seq<Stage>, state: map<string, Value>)
    ensures Run(a + b, state) == (var ra := Run(a, state); if ra.success then Run(b, ra.values) else ra)
    decreases |a|
  {
    if |a| == 0 {
      assert a + b == b;
    } else {
      assert (a + b)[0] == a[0] && (a + b)[1..] == a[1..] + b;
      if StepOf(a[0], state).Next? {
        RunAppend(a[1..], b, StepOf(a[0], state).state);
      }
    }
  }

  /** A stage with a missing input fails at once with the missing names, and no later stage runs. */
  lemma MissingInputsStop(s: Stage, rest: seq<Stage>, state: map<string, Value>, k: string)
    requires k in s.inputs && k !in state
    ensures Run([s] + rest, state)
      == RunResult(false, state, [(s.name, "Missing inputs: " + ReprStrList(Missing(s.inputs, state)))])
  {
    assert k in Missing(s.inputs, state);
    assert ([s] + rest)[0] == s;
  }

  /** A processor exception (after the retries) becomes the failure message. */
  lemma ProcessorErrorStops(s: Stage, rest: seq<Stage>, state: map<string, Value>, e: Exception)
    requires forall k :: k in s.inputs ==> k in state
    requires Retried(s, Args(s.inputs, state)) == Err(e)
    ensures Run([s] + rest, state) == RunResult(false, state, [(s.name, e.msg)])
  {
    assert Missing(s.inputs, state) == [];
    assert ([s] + rest)[0] == s;
  }

  /** A single-output stage stores its whole result under that one name. */
  lemma SingleOutputStored(s: Stage, rest: seq<Stage>, state: map<string, Value>, v: Value)
    requires forall k :: k in s.inputs ==> k in state
    requires Retried(s, Args(s.inputs, state)) == Ok(v)
    requires |s.outputs| == 1
    ensures Run([s] + rest, state) == Run(rest, state[s.outputs[0] := v])
  {
    assert Missing(s.inputs, state) == [];
    assert ([s] + rest)[0] == s && ([s] + rest)[1..] == rest;
  }

  /** A multi-output stage zips a list of the right length into the state. */
  lemma MultiOutputZipped(s: Stage, rest: seq<Stage>, state: map<string, Value>, items: seq<Value>)
    requires forall k :: k in s.inputs ==> k in state
    requires Retried(s, Args(s.inputs, state)) == Ok(Arr(items))
    requires |s.outputs| != 1 && |items| == |s.outputs|
    ensures Run([s] + rest, state) == Run(rest, ZipInto(state, s.outputs, items))
  {
    assert Missing(s.inputs, state) == [];
    assert ([s] + rest)[0] == s && ([s] + rest)[1..] == rest;
  }

  /** Any other result shape fails the stage with "unexpected output format". */
  lemma UnexpectedOutputFormat(s: Stage, rest: seq<Stage>, state: map<string, Value>, v: Value)
    requires forall k :: k in s.inputs ==> k in state
    requires Retried(s, Args(s.inputs, state)) == Ok(v)
    requires |s.outputs| != 1 && !(v.Arr? && |v.items| == |s.outputs|)
    ensures Run([s] + rest, state)
      == RunResult(false, state, [(s.name, "Stage " + s.name + " returned unexpected output format: " + ToStr(v))])
  {
    assert Missing(s.inputs, state) == [];
    assert ([s] + rest)[0] == s;
  }
}
