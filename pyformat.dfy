/**
 * `template.format(**fields)` for templates that use named fields only.
 * `{{` and `}}` are literal braces, `{name}` is replaced by the field's value,
 * an unknown name raises KeyError, an empty or numeric name (a positional
 * field, none being given) raises IndexError, and an unbalanced brace raises
 * ValueError.  Attribute, index, conversion and format-spec suffixes
 * (`{a.b}`, `{a[0]}`, `{a!r}`, `{a:>5}`) are outside the model and are
 * treated as ValueError.
 */
module PyFormat {
  import opened Wrappers
  import PyStr

  predicate IsPlainFieldChar(c: char)
  {
    c != '.' && c != '[' && c != ']' && c != '!' && c != ':' && c != '{' && c != '}'
  }

  /** The index of the first `}` in `s`, or -1. */
  function CloseBrace(s: string): (r: int)
    ensures r == -1 || (0 <= r < |s| && s[r] == '}')
    ensures forall i :: 0 <= i < |s| && (r == -1 || i < r) ==> s[i] != '}'
  {
    if |s| == 0 then -1
    else if s[0] == '}' then 0
    else var r := CloseBrace(s[1..]); if r == -1 then -1 else r + 1
  }

  /** No brace occurs in `s`. */
  predicate NoBraces(s: string)
  {
    forall i :: 0 <= i < |s| ==> s[i] != '{' && s[i] != '}'
  }

  function Format(t: string, fields: map<string, string>): (r: Result<string>)
    decreases |t|
  {
    if |t| == 0 then Ok("")
    else if t[0] == '{' then
      if |t| > 1 && t[1] == '{' then
        var rest := Format(t[2..], fields);
        if rest.Err? then rest else Ok("{" + rest.value)
      else
        var j := CloseBrace(t[1..]);
        if j == -1 then Err(Exception(ValueError, "Single '{' encountered in format string"))
        else
          var name := t[1..j + 1];
          if |name| == 0 || (forall i :: 0 <= i < |name| ==> PyStr.IsAsciiDigit(name[i])) then
            Err(Exception(IndexError, "Replacement index out of range"))
          else if !(forall i :: 0 <= i < |name| ==> IsPlainFieldChar(name[i])) then
            Err(Exception(ValueError, "unsupported replacement field"))
          else if name !in fields then Err(Exception(KeyError, PyStr.ReprStr(name)))
          else
            var rest := Format(t[j + 2..], fields);
            if rest.Err? then rest else Ok(fields[name] + rest.value)
    else if t[0] == '}' then
      if |t| > 1 && t[1] == '}' then
        var rest := Format(t[2..], fields);
        if rest.Err? then rest else Ok("}" + rest.value)
      else Err(Exception(ValueError, "Single '}' encountered in format string"))
    else
      var rest := Format(t[1..], fields);
      if rest.Err? then rest else Ok([t[0]] + rest.value)
  }

  lemma {:induction false} FormatNoBraces(t: string, fields: map<string, string>)
    requires NoBraces(t)
    ensures Format(t, fields) == Ok(t)
    decreases |t|
  {
    if |t| > 0 {
      FormatNoBraces(t[1..], fields);
      assert t == [t[0]] + t[1..];
    }
  }

  /** A field whose text holds no braces is substituted and the surrounding text kept. */
  lemma FormatField(pre: string, name: string, post: string, fields: map<string, string>)
    requires NoBraces(pre) && NoBraces(post) && name in fields && |name| > 0
    requires forall i :: 0 <= i < |name| ==> IsPlainFieldChar(name[i])
    requires exists i :: 0 <= i < |name| && !PyStr.IsAsciiDigit(name[i])
    ensures Format(pre + "{" + name + "}" + post, fields) == Ok(pre + fields[name] + post)
    decreases |pre|
  {
    var t := pre + "{" + name + "}" + post;
    if |pre| == 0 {
      assert t == "{" + name + "}" + post;
      assert t[1..] == name + ("}" + post);
      assert CloseBrace(t[1..]) == |name| by {
        CloseBraceAfter(name, "}" + post);
      }
      assert t[1..|name| + 1] == name;
      assert t[|name| + 2..] == post;
      assert t[0] == '{' && t[1] == name[0] && name[0] != '{';
      assert !(forall i :: 0 <= i < |name| ==> PyStr.IsAsciiDigit(name[i]));
      FormatNoBraces(post, fields);
      assert Format(t, fields) == Ok(fields[name] + post);
      assert pre + fields[name] + post == fields[name] + post;
    } else {
      FormatField(pre[1..], name, post, fields);
      assert t[0] == pre[0] && pre[0] != '{' && pre[0] != '}';
      assert t[1..] == pre[1..] + "{" + name + "}" + post;
      assert pre + fields[name] + post == [pre[0]] + (pre[1..] + fields[name] + post);
    }
  }

  lemma {:induction false} CloseBraceAfter(a: string, b: string)
    requires forall i :: 0 <= i < |a| ==> a[i] != '}'
    requires |b| > 0 && b[0] == '}'
    ensures CloseBrace(a + b) == |a|
    decreases |a|
  {
    if |a| > 0 {
      CloseBraceAfter(a[1..], b);
      assert (a + b)[1..] == a[1..] + b;
    } else {
      assert a + b == b;
    }
  }
}
