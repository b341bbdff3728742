/**
 * `lcats/utils/values.py`: sqlite rows normalised to a set of strings, and
 * an optional value normalised to an optional list.  A row is a `Value`: an
 * `Arr` stands for a tuple or a list, an `Obj` for a mapping.
 */
module Values {
  import opened Wrappers
  import opened Json

  /**
   * What one row adds to the set: for a tuple or list its first item, for a
   * mapping its "v" entry, each as `str(.)` and only when present and not
   * None.  Any other row reaches `r.get("v")` and raises AttributeError.
   */
  function RowString(row: Value): (r: Result<Option<string>>)
    ensures r.Err? <==> !(row.Arr? || row.Obj?)
    ensures r.Err? ==> r.error.kind == AttributeError
    ensures row.Arr? ==> (r.Ok? && (r.value.None? <==> |row.items| == 0 || row.items[0] == Null))
    ensures row.Obj? ==> (r.Ok? && (r.value.None? <==> "v" !in row.fields || row.fields["v"] == Null))
  {
    match row
    case Arr(items) => if |items| > 0 && items[0] != Null then Ok(Some(ToStr(items[0]))) else Ok(None)
    case Obj(fields) => if "v" in fields && fields["v"] != Null then Ok(Some(ToStr(fields["v"]))) else Ok(None)
    case _ => Err(Exception(AttributeError, "'" + TypeName(row) + "' object has no attribute 'get'"))
  }

  /** The set `strings_from_sql` builds from the rows, or the error of the first bad row. */
  function FromSql(rows: seq<Value>): Result<set<string>>
  {
    if |rows| == 0 then Ok({})
    else
      var init := FromSql(rows[..|rows| - 1]);
      var last := RowString(rows[|rows| - 1]);
      if init.Err? then init
      else if last.Err? then Err(last.error)
      else Ok(init.value + (if last.value.Some? then {last.value.value} else {}))
  }

  /** `strings_from_sql(rows)`. */
  method StringsFromSql(rows: seq<Value>) returns (r: Result<set<string>>)
    ensures r == FromSql(rows)
  {
    var out: set<string> := {};
    for i := 0 to |rows|
      invariant FromSql(rows[..i]) == Ok(out)
    {
      assert rows[..i + 1][..i] == rows[..i] && rows[..i + 1][i] == rows[i];
      var s := RowString(rows[i]);
      if s.Err? {
        assert FromSql(rows[..i + 1]) == Err(s.error);
        FirstErrorWins(rows, i + 1);
        return Err(s.error);
      }
      if s.value.Some? {
        out := out + {s.value.value};
      } else {
        assert out + {} == out;
      }
    }
    assert rows[..|rows|] == rows;
    return Ok(out);
  }

  /** An error in a prefix of the rows is the error of all of them. */
  lemma {:induction false} FirstErrorWins(rows: seq<Value>, k: nat)
    requires k <= |rows| && FromSql(rows[..k]).Err?
    ensures FromSql(rows) == FromSql(rows[..k])
    decreases |rows| - k
  {
    if k < |rows| {
      assert rows[..k + 1][..k] == rows[..k];
      FirstErrorWins(rows, k + 1);
    } else {
      assert rows[..k] == rows;
    }
  }

  /** The rows raise exactly when one of them is neither a sequence nor a mapping. */
  lemma {:induction false} FromSqlErrors(rows: seq<Value>)
    ensures FromSql(rows).Err? <==> exists i :: 0 <= i < |rows| && RowString(rows[i]).Err?
  {
    if |rows| > 0 {
      var init := rows[..|rows| - 1];
      FromSqlErrors(init);
      assert forall i :: 0 <= i < |init| ==> init[i] == rows[i];
    }
  }

  /**
   * Otherwise the set holds exactly the strings the rows add, so duplicates
   * collapse and rows adding nothing are ignored.
   */
  lemma {:induction false} FromSqlMembers(rows: seq<Value>)
    requires FromSql(rows).Ok?
    ensures forall s :: s in FromSql(rows).value <==> exists i :: 0 <= i < |rows| && RowString(rows[i]) == Ok(Some(s))
  {
    if |rows| > 0 {
      var init := rows[..|rows| - 1];
      FromSqlMembers(init);
      forall s ensures s in FromSql(rows).value <==> exists i :: 0 <= i < |rows| && RowString(rows[i]) == Ok(Some(s)) {
        if s in FromSql(init).value {
          var i :| 0 <= i < |init| && RowString(init[i]) == Ok(Some(s));
          assert init[i] == rows[i];
        }
        if i :| 0 <= i < |rows| - 1 && RowString(rows[i]) == Ok(Some(s)) {
          assert init[i] == rows[i];
        }
      }
    }
  }

  /**
   * `strings_as_list(x)`: None stays None, a tuple or list becomes a list of
   * the same items, anything else a one-item list of `str(x)`.
   */
  function StringsAsList(x: Value): (r: Option<seq<Value>>)
    ensures r.None? <==> x == Null
    ensures x.Arr? ==> r == Some(x.items)
    ensures r.Some? && !x.Arr? ==> r.value == [Str(ToStr(x))]
  {
    match x
    case Null => None
    case Arr(items) => Some(items)
    case _ => Some([Str(ToStr(x))])
  }

  /** Normalising a normalised list again changes nothing, and a string becomes a list of itself. */
  lemma StringsAsListStable(x: Value)
    ensures var r := StringsAsList(x); r.Some? ==> StringsAsList(Arr(r.value)) == r
    ensures x.Str? ==> StringsAsList(x) == Some([x])
  {
  }
}
