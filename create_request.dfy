/**
 * `lcats/tools/create_request.py`: filling a pull-request template.  A
 * target module path is normalised to the repository-root form
 * "lcats/lcats/...", a test path is suggested for it, and `{{NAME}}`
 * placeholders are filled from a table of variables.  Paths follow POSIX
 * `pathlib` rules; reading the template file is left to the caller.
 */
module CreateRequest {
  import opened Wrappers
  import opened PyStr

  const Lcats := "lcats/"
  /** "lcats/lcats/". */
  const LcatsLcats := Lcats + Lcats
  const MiscTests := "lcats/tests/misc_tests/"
  const TestSuffix := "_test.py"

  predicate NotBackslash(c: char) { c != '\\' }

  /** `s.replace("\\", "/")`. */
  function ForwardSlashes(s: string): (r: string)
    ensures |r| == |s| && AllChars(r, NotBackslash)
    ensures AllChars(s, NotBackslash) ==> r == s
  {
    seq(|s|, i requires 0 <= i < |s| => if s[i] == '\\' then '/' else s[i])
  }

  /** The replacement works character by character. */
  lemma ForwardSlashesConcat(a: string, b: string)
    ensures ForwardSlashes(a + b) == ForwardSlashes(a) + ForwardSlashes(b)
  {
  }

  /** The characters `lstrip("./")` removes. */
  predicate DotOrSlash(c: char) { c == '.' || c == '/' }

  /** What the stripping, the slashes and the leading dots and slashes leave of the target. */
  function Cleaned(target: string): string
  {
    LStripBy(ForwardSlashes(Strip(target)), DotOrSlash)
  }

  /**
   * Turning backslashes into slashes and dropping leading dots and slashes
   * leaves no backslash, no leading dot or slash, and a last character from
   * the text, if any, which `q` rejects when it rejects '/' and the text's
   * last character.
   */
  lemma SlashesStripped(s0: string, q: char -> bool)
    requires s0 == [] || !q(s0[|s0| - 1])
    requires !q('/')
    ensures var r := LStripBy(ForwardSlashes(s0), DotOrSlash);
      AllChars(r, NotBackslash) && (r == [] || (!DotOrSlash(r[0]) && !q(r[|r| - 1])))
  {
    if |s0| > 0 {
      LastOfSlashes(s0, q);
    }
    LeadStripped(ForwardSlashes(s0), q);
  }

  /** Dropping leading dots and slashes keeps the characters and the last one. */
  lemma LeadStripped(s1: string, q: char -> bool)
    requires AllChars(s1, NotBackslash) && (s1 == [] || !q(s1[|s1| - 1]))
    ensures var r := LStripBy(s1, DotOrSlash);
      AllChars(r, NotBackslash) && (r == [] || (!DotOrSlash(r[0]) && !q(r[|r| - 1])))
  {
    SuffixShape(s1, LStripBy(s1, DotOrSlash), q);
  }

  /** A suffix keeps the characters and the last one. */
  lemma SuffixShape(s1: string, r: string, q: char -> bool)
    requires |r| <= |s1| && r == s1[|s1| - |r|..]
    requires AllChars(s1, NotBackslash) && (s1 == [] || !q(s1[|s1| - 1]))
    ensures AllChars(r, NotBackslash) && (r == [] || !q(r[|r| - 1]))
  {
    SuffixAllChars(s1, |s1| - |r|, NotBackslash);
    if |r| > 0 {
      assert r[|r| - 1] == s1[|s1| - 1];
    }
  }

  lemma SuffixAllChars(s: string, k: nat, q: char -> bool)
    requires k <= |s| && AllChars(s, q)
    ensures AllChars(s[k..], q)
  {
    assert forall i :: 0 <= i < |s| - k ==> s[k..][i] == s[k + i];
  }

  /** The last character after the replacement is the text's own or '/'. */
  lemma LastOfSlashes(s0: string, q: char -> bool)
    requires |s0| > 0 && !q(s0[|s0| - 1]) && !q('/')
    ensures !q(ForwardSlashes(s0)[|s0| - 1])
  {
  }

  /** The cleaned target has no backslash, starts with neither '.' nor '/', and does not end in whitespace. */
  lemma CleanedEnds(target: string)
    ensures var r := Cleaned(target);
      AllChars(r, NotBackslash) && (r == [] || (!DotOrSlash(r[0]) && !IsSpace(r[|r| - 1])))
  {
    assert !IsSpace('/');
    SlashesStripped(Strip(target), IsSpace);
  }

  /** `s` with `p` put in front unless it is there, then with `p + p` at its start. */
  function Rooted(s: string, p: string): (r: string)
    ensures StartsWith(r, p + p)
  {
    var t := if StartsWith(s, p) then s else p + s;
    if StartsWith(t, p + p) then t else p + p + t[|p|..]
  }

  /** The rooted text ends with the last character of `s` or of `p`. */
  lemma RootedEnd(s: string, p: string)
    requires |p| > 0
    ensures var r := Rooted(s, p); r[|r| - 1] == p[|p| - 1] || (|s| > 0 && r[|r| - 1] == s[|s| - 1])
  {
    var t := if StartsWith(s, p) then s else p + s;
    if !StartsWith(t, p + p) {
      var r := p + p + t[|p|..];
      if |t| > |p| {
        assert r[|r| - 1] == t[|t| - 1];
      }
    }
  }

  /** Rooting a rooted text again changes nothing. */
  lemma RootedStable(s: string, p: string)
    ensures Rooted(Rooted(s, p), p) == Rooted(s, p)
  {
    var r := Rooted(s, p);
    assert r[..|p|] == (p + p)[..|p|] == p;
  }

  /**
   * `_normalize_target_for_gha(target)`: strip, turn backslashes into
   * slashes, drop leading dots and slashes, put "lcats/" in front unless it
   * is there, then make the start "lcats/lcats/".  The source's last
   * `return s` cannot be reached: by then `s` starts with "lcats/".
   */
  function Normalize(target: string): string
  {
    Rooted(Cleaned(target), Lcats)
  }

  /** Every normalised target starts with "lcats/lcats/". */
  lemma NormalizeRooted(target: string)
    ensures StartsWith(Normalize(target), LcatsLcats)
  {
  }

  /** Rooting keeps a property that holds of every character of the text and of the prefix. */
  lemma RootedAllChars(s: string, p: string, q: char -> bool)
    requires AllChars(s, q) && AllChars(p, q)
    ensures AllChars(Rooted(s, p), q)
  {
    AllCharsConcat(p, s, q);
    var t := if StartsWith(s, p) then s else p + s;
    if !StartsWith(t, p + p) {
      AllCharsConcat(p, p, q);
      SuffixAllChars(t, |p|, q);
      AllCharsConcat(p + p, t[|p|..], q);
    }
  }

  /** The normalised target has no backslash. */
  lemma NormalizeSlashes(target: string)
    ensures AllChars(Normalize(target), NotBackslash)
  {
    var c := Cleaned(target);
    assert AllChars(c, NotBackslash) by { CleanedEnds(target); }
    LcatsNoBackslash();
    RootedAllChars(c, Lcats, NotBackslash);
  }

  lemma LcatsNoBackslash()
    ensures AllChars(Lcats, NotBackslash)
  {
  }

  /** A prefix that the cleaning leaves alone. */
  predicate CleanPrefix(p: string)
  {
    |p| > 0 && !IsSpace(p[0]) && !DotOrSlash(p[0]) && !IsSpace(p[|p| - 1])
  }

  /** Cleaning a text that starts and ends on a clean character and has no backslash changes nothing. */
  lemma CleanedStable(y: string)
    requires |y| > 0 && !IsSpace(y[0]) && !DotOrSlash(y[0]) && !IsSpace(y[|y| - 1]) && AllChars(y, NotBackslash)
    ensures Cleaned(y) == y
  {
    StripBlankFree(y);
    assert ForwardSlashes(y) == y;
  }

  /** The rooted text starts with `p`'s first character and ends on a character that is not whitespace. */
  lemma RootedClean(c: string, p: string, y: string)
    requires CleanPrefix(p) && y == Rooted(c, p)
    requires c == [] || !IsSpace(c[|c| - 1])
    ensures |y| > 0 && y[0] == p[0] && !IsSpace(y[|y| - 1])
  {
    RootedEnd(c, p);
    assert y[0] == (p + p)[0];
  }

  /** Normalising a normalised target changes nothing. */
  lemma NormalizeIdempotent(target: string)
    ensures Normalize(Normalize(target)) == Normalize(target)
  {
    var c := Cleaned(target);
    var y := Normalize(target);
    CleanedEnds(target);
    assert CleanPrefix(Lcats) && !DotOrSlash(Lcats[0]);
    RootedClean(c, Lcats, y);
    NormalizeSlashes(target);
    CleanedStable(y);
    RootedStable(c, Lcats);
  }

  // ---------------------------------------------------------------- paths

  /** The path components kept by `pathlib`: empty and "." components are dropped. */
  function Components(xs: seq<string>): (r: seq<string>)
    ensures forall k :: 0 <= k < |r| ==> r[k] != "" && r[k] != "." && r[k] in xs
  {
    if |xs| == 0 then []
    else (if xs[0] == "" || xs[0] == "." then [] else [xs[0]]) + Components(xs[1..])
  }

  /** `Path(p).parts`: the root "/" when there is one, then the components. */
  function Parts(p: string): seq<string>
  {
    (if StartsWith(p, "/") then ["/"] else []) + Components(Split(p, "/"))
  }

  /** `Path(...).name`: the last component, or "" when there is none. */
  function Name(parts: seq<string>): string
  {
    if |parts| == 0 || parts[|parts| - 1] == "/" then "" else parts[|parts| - 1]
  }

  /** The position of the last '.' of `s`, or -1. */
  function LastDot(s: string): (i: int)
    ensures -1 <= i < |s| && (i >= 0 ==> s[i] == '.')
    ensures forall j :: i < j < |s| ==> s[j] != '.'
  {
    if |s| == 0 then -1
    else if s[|s| - 1] == '.' then |s| - 1
    else LastDot(s[..|s| - 1])
  }

  /** `Path(...).stem`: the name without its last suffix; a leading or trailing dot is no suffix. */
  function Stem(name: string): (r: string)
    ensures r <= name
  {
    var i := LastDot(name);
    if 0 < i < |name| - 1 then name[..i] else name
  }

  /** The stem of "<stem>.py" with a non-empty stem is that stem. */
  lemma StemOfPy(stem: string)
    requires |stem| > 0
    ensures Stem(stem + ".py") == stem
  {
    var name := stem + ".py";
    assert name[|stem|] == '.' && name[|stem| + 1] == 'p' && name[|stem| + 2] == 'y';
    assert LastDot(name) == |stem|;
  }

  /**
   * `_compute_suggested_test_path(target)`: "lcats/lcats/<sub>/<dirs>/<name>.py"
   * goes to "lcats/tests/<sub>_tests/<dirs>/<name>_test.py"; a path with
   * fewer than four parts or not starting with "lcats/lcats" goes to
   * "lcats/tests/misc_tests/<stem>_test.py".
   */
  function TestPath(target: string): (r: string)
    ensures AllChars(r, NotBackslash)
  {
    var parts := Parts(target);
    var stem := Stem(Name(parts));
    if |parts| < 4 || parts[0] != "lcats" || parts[1] != "lcats" then ForwardSlashes(MiscTests + stem + TestSuffix)
    else ForwardSlashes(Join(["lcats", "tests", parts[2] + "_tests"] + parts[3..|parts| - 1] + [stem + TestSuffix], "/"))
  }

  /** A path component as `pathlib` keeps it: not empty, not ".", no separator. */
  predicate Component(c: string)
  {
    c != "" && c != "." && Absent(c, '/')
  }

  /** Splitting a join of components on "/" gives them back. */
  lemma {:induction false} SplitOfJoin(comps: seq<string>)
    requires |comps| > 0 && forall k :: 0 <= k < |comps| ==> Absent(comps[k], '/')
    ensures Split(Join(comps, "/"), "/") == comps
  {
    if |comps| == 1 {
      SplitAbsent(comps[0], '/');
    } else {
      var rest := comps[1..];
      SplitOfJoin(rest);
      JoinCons(comps[0], rest, "/");
      assert [comps[0]] + rest == comps;
      SplitFirst(comps[0], '/', Join(rest, "/"));
    }
  }

  /** Components are kept as they are. */
  lemma {:induction false} ComponentsKeep(comps: seq<string>)
    requires forall k :: 0 <= k < |comps| ==> Component(comps[k])
    ensures Components(comps) == comps
  {
    if |comps| > 0 {
      ComponentsKeep(comps[1..]);
    }
  }

  /** The parts of a relative path made of components are those components. */
  lemma PartsOfJoin(comps: seq<string>)
    requires |comps| > 0 && comps[0] == "lcats"
    requires forall k :: 0 <= k < |comps| ==> Component(comps[k])
    ensures Parts(Join(comps, "/")) == comps
  {
    var p := Join(comps, "/");
    if |comps| > 1 {
      JoinCons(comps[0], comps[1..], "/");
      assert [comps[0]] + comps[1..] == comps;
    }
    assert p[0] == 'l';
    SplitOfJoin(comps);
    ComponentsKeep(comps);
  }

  /** The module path "lcats/lcats/<sub>/<dirs>/<stem>.py" gets the test path "lcats/tests/<sub>_tests/<dirs>/<stem>_test.py". */
  lemma TestPathOfModule(sub: string, dirs: seq<string>, stem: string)
    requires Component(sub) && AllChars(sub, NotBackslash) && |stem| > 0 && Component(stem + ".py")
    requires AllChars(stem, NotBackslash)
    requires forall k :: 0 <= k < |dirs| ==> Component(dirs[k]) && AllChars(dirs[k], NotBackslash)
    ensures TestPath(Join(["lcats", "lcats", sub] + dirs + [stem + ".py"], "/"))
      == Join(["lcats", "tests", sub + "_tests"] + dirs + [stem + TestSuffix], "/")
  {
    var comps := ["lcats", "lcats", sub] + dirs + [stem + ".py"];
    ModuleParts(sub, dirs, stem, comps);
    PartsOfJoin(comps);
    TestPathOfParts(Join(comps, "/"), comps);
    var out := ["lcats", "tests", sub + "_tests"] + dirs + [stem + TestSuffix];
    TestPartsClean(sub, dirs, stem, out);
    JoinClean(out);
  }

  /** The suggested test path in terms of the parts, for a path under "lcats/lcats" with at least four parts. */
  lemma TestPathOfParts(target: string, parts: seq<string>)
    requires Parts(target) == parts && |parts| >= 4 && parts[0] == "lcats" && parts[1] == "lcats"
    ensures TestPath(target) == ForwardSlashes(Join(["lcats", "tests", parts[2] + "_tests"]
      + parts[3..|parts| - 1] + [Stem(Name(parts)) + TestSuffix], "/"))
  {
  }

  /** The pieces of a module path's parts. */
  lemma ModuleParts(sub: string, dirs: seq<string>, stem: string, comps: seq<string>)
    requires Component(sub) && |stem| > 0 && Component(stem + ".py")
    requires forall k :: 0 <= k < |dirs| ==> Component(dirs[k])
    requires comps == ["lcats", "lcats", sub] + dirs + [stem + ".py"]
    ensures |comps| >= 4 && comps[0] == "lcats" && comps[1] == "lcats" && forall k :: 0 <= k < |comps| ==> Component(comps[k])
    ensures comps[2] == sub && comps[3..|comps| - 1] == dirs && Stem(Name(comps)) == stem
  {
    assert Component("lcats");
    assert comps[|comps| - 1] == stem + ".py";
    assert comps[|comps| - 1] != "/" by {
      assert (stem + ".py")[0] != '/';
    }
    StemOfPy(stem);
  }

  /** The parts of the test path have no backslash when the module's have none. */
  lemma TestPartsClean(sub: string, dirs: seq<string>, stem: string, out: seq<string>)
    requires AllChars(sub, NotBackslash) && AllChars(stem, NotBackslash)
    requires forall k :: 0 <= k < |dirs| ==> AllChars(dirs[k], NotBackslash)
    requires out == ["lcats", "tests", sub + "_tests"] + dirs + [stem + TestSuffix]
    ensures forall k :: 0 <= k < |out| ==> AllChars(out[k], NotBackslash)
  {
    AllCharsConcat(sub, "_tests", NotBackslash);
    AllCharsConcat(stem, TestSuffix, NotBackslash);
  }

  /** A join of parts without backslashes has none. */
  lemma JoinClean(out: seq<string>)
    requires forall k :: 0 <= k < |out| ==> AllChars(out[k], NotBackslash)
    ensures ForwardSlashes(Join(out, "/")) == Join(out, "/")
  {
    JoinKeeps(out, "/", NotBackslash);
  }

  /** Any other path gets a test path under "lcats/tests/misc_tests/" ending in "_test.py". */
  lemma TestPathFallback(target: string)
    requires var parts := Parts(target); |parts| < 4 || parts[0] != "lcats" || parts[1] != "lcats"
    ensures StartsWith(TestPath(target), MiscTests) && EndsWith(TestPath(target), TestSuffix)
  {
    var stem := Stem(Name(Parts(target)));
    ForwardSlashesConcat(MiscTests + stem, TestSuffix);
    ForwardSlashesConcat(MiscTests, stem);
  }

  // ---------------------------------------------------------------- templates

  /** A character of a variable name: `[A-Z0-9_]`. */
  predicate IsVarChar(c: char) { 'A' <= c <= 'Z' || '0' <= c <= '9' || c == '_' }

  /** The end of the run of name characters starting at `i`. */
  function VarEnd(s: string, i: nat): (j: nat)
    requires i <= |s|
    decreases |s| - i
    ensures i <= j <= |s| && (j < |s| ==> !IsVarChar(s[j]))
    ensures forall k :: i <= k < j ==> IsVarChar(s[k])
  {
    if i == |s| || !IsVarChar(s[i]) then i else VarEnd(s, i + 1)
  }

  /** Where the name ends when `s` starts with a placeholder `{{NAME}}`. */
  function Placeholder(s: string): (r: Option<nat>)
    ensures r.Some? ==> 2 < r.value && r.value + 2 <= |s|
  {
    if |s| >= 2 && s[0] == '{' && s[1] == '{' then
      var j := VarEnd(s, 2);
      if j > 2 && j + 2 <= |s| && s[j] == '}' && s[j + 1] == '}' then Some(j) else None
    else None
  }

  /**
   * `_render_template(text, variables)`: the leftmost placeholder is
   * replaced by its variable, or kept when the name is unknown, and the
   * scan goes on after it, so a substituted value is never scanned again.
   */
  function Render(s: string, vars: map<string, string>): string
    decreases |s|
  {
    if |s| == 0 then ""
    else
      match Placeholder(s)
      case Some(j) => (var key := s[2..j]; if key in vars then vars[key] else s[..j + 2]) + Render(s[j + 2..], vars)
      case None => [s[0]] + Render(s[1..], vars)
  }

  /** With no variables every placeholder stays as it is: the text comes back unchanged. */
  lemma {:induction false} RenderNoVariables(s: string)
    ensures Render(s, map[]) == s
    decreases |s|
  {
    if |s| > 0 {
      match Placeholder(s)
      case Some(j) =>
        RenderNoVariables(s[j + 2..]);
        assert s[..j + 2] + s[j + 2..] == s;
      case None =>
        RenderNoVariables(s[1..]);
        assert [s[0]] + s[1..] == s;
    }
  }

  /** A text without '{' has no placeholder and comes back unchanged. */
  lemma {:induction false} RenderNoBrace(s: string, vars: map<string, string>)
    requires Absent(s, '{')
    ensures Render(s, vars) == s
    decreases |s|
  {
    if |s| > 0 {
      RenderNoBrace(s[1..], vars);
      assert [s[0]] + s[1..] == s;
    }
  }

  /**
   * A leading placeholder becomes its variable, or stays when the name is
   * unknown, and the rest is rendered on its own, whatever the value holds.
   */
  lemma RenderPlaceholder(key: string, rest: string, vars: map<string, string>)
    requires |key| > 0 && AllChars(key, IsVarChar)
    ensures Render("{{" + key + "}}" + rest, vars)
      == (if key in vars then vars[key] else "{{" + key + "}}") + Render(rest, vars)
  {
    var s := "{{" + key + "}}" + rest;
    var n := |key| + 2;
    assert forall k :: 2 <= k < n ==> s[k] == key[k - 2];
    assert s[n] == '}' && s[n + 1] == '}';
    assert VarEnd(s, 2) == n;
    assert Placeholder(s) == Some(n);
    assert s[2..n] == key;
    assert s[..n + 2] == "{{" + key + "}}";
    assert s[n + 2..] == rest;
  }

  // ---------------------------------------------------------------- variables

  /** The five template variables, by name. */
  function Variables(templateName: string, target: string, gha: string, moduleName: string, testPath: string): map<string, string>
  {
    map["TEMPLATE_NAME" := templateName, "TARGET_INPUT" := target, "TARGET_MODULE_GHA" := gha,
        "MODULE_NAME" := moduleName, "SUGGESTED_TEST_PATH" := testPath]
  }

  /** The five names are distinct: each maps to its own value. */
  lemma VariablesLookup(templateName: string, target: string, gha: string, moduleName: string, testPath: string)
    ensures var r := Variables(templateName, target, gha, moduleName, testPath);
      && r.Keys == {"TEMPLATE_NAME", "TARGET_INPUT", "TARGET_MODULE_GHA", "MODULE_NAME", "SUGGESTED_TEST_PATH"}
      && r["TEMPLATE_NAME"] == templateName && r["TARGET_INPUT"] == target && r["TARGET_MODULE_GHA"] == gha
      && r["MODULE_NAME"] == moduleName && r["SUGGESTED_TEST_PATH"] == testPath
  {
    assert |"TEMPLATE_NAME"| == 13 && |"TARGET_INPUT"| == 12 && |"TARGET_MODULE_GHA"| == 17;
    assert |"MODULE_NAME"| == 11 && |"SUGGESTED_TEST_PATH"| == 19;
  }

  /** `_build_variables(template_name, target)`. */
  function BuildVariables(templateName: string, target: string): map<string, string>
  {
    var gha := Normalize(target);
    Variables(templateName, target, gha, Stem(Name(Parts(gha))), TestPath(gha))
  }

  /**
   * The variables are exactly the five names: the template name and the
   * target as given, the normalised module path, its stem, and the test path
   * suggested for it.
   */
  lemma BuildVariablesShape(templateName: string, target: string)
    ensures var r := BuildVariables(templateName, target);
      && r.Keys == {"TEMPLATE_NAME", "TARGET_INPUT", "TARGET_MODULE_GHA", "MODULE_NAME", "SUGGESTED_TEST_PATH"}
      && r["TEMPLATE_NAME"] == templateName && r["TARGET_INPUT"] == target
      && StartsWith(r["TARGET_MODULE_GHA"], LcatsLcats)
      && r["SUGGESTED_TEST_PATH"] == TestPath(r["TARGET_MODULE_GHA"])
      && r["MODULE_NAME"] == Stem(Name(Parts(r["TARGET_MODULE_GHA"])))
  {
    var gha := Normalize(target);
    NormalizeRooted(target);
    VariablesLookup(templateName, target, gha, Stem(Name(Parts(gha))), TestPath(gha));
  }
}
