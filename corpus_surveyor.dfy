/**
 * `lcats/lcats/analysis/corpus_surveyor.py`: the job directory name, the
 * discovery of story files under a corpus root, the per-story and
 * per-author statistics, and the batch processing of story files into a
 * mirrored output tree.  The filesystem is a value: a directory listing
 * is a `Tree`, reading and writing files and the processor are parameters.
 */
module CorpusSurveyor {
  import opened Wrappers
  import opened PyStr
  import Json
  import Sorting
  import StoryAnalysis

  // ---------------------------------------------------------------- paths

  /** A path as the sequence of its components. */
  type Path = seq<string>

  /** `p / name` for a one-component name: pathlib drops "" and "." components. */
  function Child(p: Path, name: string): (r: Path)
    ensures r == p || r == p + [name]
    ensures r == p <==> name == "" || name == "."
  {
    if name == "" || name == "." then p else p + [name]
  }

  /** `str(p)`. */
  function PathStr(p: Path): string
  {
    Join(p, "/")
  }

  /** Components are compared in turn, as pathlib orders paths. */
  predicate PathLe(a: Path, b: Path)
  {
    |a| == 0 || (|b| > 0 && ((a[0] != b[0] && Sorting.StrLe(a[0], b[0])) || (a[0] == b[0] && PathLe(a[1..], b[1..]))))
  }

  lemma {:induction false} PathLeTotal(a: Path, b: Path)
    ensures PathLe(a, b) || PathLe(b, a)
    decreases |a|
  {
    if |a| > 0 && |b| > 0 {
      if a[0] == b[0] {
        PathLeTotal(a[1..], b[1..]);
      } else {
        Sorting.StrLeTotal(a[0], b[0]);
      }
    }
  }

  lemma {:induction false} PathLeTrans(a: Path, b: Path, c: Path)
    requires PathLe(a, b) && PathLe(b, c)
    ensures PathLe(a, c)
    decreases |a|
  {
    if |a| > 0 {
      if a[0] == b[0] && b[0] == c[0] {
        PathLeTrans(a[1..], b[1..], c[1..]);
      } else if a[0] != b[0] && b[0] != c[0] {
        Sorting.StrLeTrans(a[0], b[0], c[0]);
        if a[0] == c[0] {
          Sorting.StrLeAntisym(a[0], b[0]);
        }
      }
    }
  }

  /** The path order is a total preorder, so sorting by it yields a sorted list. */
  lemma PathLeTotalPreorder()
    ensures Sorting.TotalPreorder(PathLe)
  {
    forall a, b ensures PathLe(a, b) || PathLe(b, a) {
      PathLeTotal(a, b);
    }
    forall a, b, c | PathLe(a, b) && PathLe(b, c) ensures PathLe(a, c) {
      PathLeTrans(a, b, c);
    }
  }

  /** `sorted(paths)`: a sorted permutation. */
  lemma SortedPaths(paths: seq<Path>)
    ensures Sorting.SortedBy(Sorting.SortBy(paths, PathLe), PathLe)
    ensures multiset(Sorting.SortBy(paths, PathLe)) == multiset(paths)
  {
    PathLeTotalPreorder();
    Sorting.SortBySorted(paths, PathLe);
  }

  // ---------------------------------------------------------------- compute_job_dir

  /** The characters a job label keeps: `[A-Za-z0-9._-]`. */
  predicate IsSafe(c: char) { IsAsciiAlnum(c) || c == '.' || c == '_' || c == '-' }

  /** Every character outside the safe class becomes `_`. */
  function MapUnsafe(s: string): (r: string)
    ensures |r| == |s| && forall i :: 0 <= i < |s| ==> r[i] == (if IsSafe(s[i]) then s[i] else '_')
  {
    seq(|s|, i requires 0 <= i < |s| => if IsSafe(s[i]) then s[i] else '_')
  }

  /** The label stripped, each whitespace run made one `_`, each other unsafe character made `_`. */
  function Sanitize(jobLabel: string): string
  {
    MapUnsafe(ReplaceRuns(Strip(jobLabel), IsSpace, "_"))
  }

  /** A sanitised jobLabel is made of safe characters and is no longer than the jobLabel. */
  lemma SanitizeSafe(jobLabel: string)
    ensures AllChars(Sanitize(jobLabel), IsSafe)
    ensures |Sanitize(jobLabel)| <= |jobLabel|
  {
    StripByKeeps(jobLabel, IsSpace, IsSafe, '_');
    ReplaceRunsShorter(Strip(jobLabel), IsSpace, '_');
  }

  /** A jobLabel of safe characters is kept as it is. */
  lemma SanitizeKeepsSafe(jobLabel: string)
    requires AllChars(jobLabel, IsSafe)
    ensures Sanitize(jobLabel) == jobLabel
  {
    if |jobLabel| > 0 {
      StripBlankFree(jobLabel);
    } else {
      assert Strip(jobLabel) == jobLabel;
    }
    ReplaceRunsIdentity(jobLabel, IsSpace, '_');
  }

  /**
   * `compute_job_dir(root, jobLabel)`: a non-empty jobLabel gives `root / safe`;
   * otherwise the timestamped `stamp` (the clock is a parameter) does.
   */
  function ComputeJobDir(root: Path, jobLabel: Option<string>, stamp: string): (r: Path)
    ensures jobLabel.Some? && jobLabel.value != "" ==> r == Child(root, Sanitize(jobLabel.value))
    ensures (jobLabel.None? || jobLabel.value == "") ==> r == Child(root, stamp)
  {
    if jobLabel.Some? && jobLabel.value != "" then Child(root, Sanitize(jobLabel.value))
    else Child(root, stamp)
  }

  /** With a jobLabel the job directory is the root or one safe component under it. */
  lemma JobDirUnderRoot(root: Path, jobLabel: string, stamp: string)
    requires jobLabel != ""
    ensures var r := ComputeJobDir(root, Some(jobLabel), stamp);
      r == root || (|r| == |root| + 1 && r[..|root|] == root && AllChars(r[|root|], IsSafe))
  {
    SanitizeSafe(jobLabel);
  }

  /** `..` is safe, so the jobLabel `..` names the parent of the output root. */
  lemma JobDirDotDot(root: Path, stamp: string)
    ensures ComputeJobDir(root, Some(".."), stamp) == root + [".."]
  {
    SanitizeKeepsSafe("..");
  }

  /** A jobLabel of whitespace only sanitises to "" and the job directory is the output root itself. */
  lemma JobDirBlankLabel(root: Path, jobLabel: string, stamp: string)
    requires jobLabel != "" && IsBlank(jobLabel)
    ensures ComputeJobDir(root, Some(jobLabel), stamp) == root
  {
    StripEmptyIffBlank(jobLabel);
  }

  // ---------------------------------------------------------------- find_corpus_stories

  /** A directory listing: its files, and its sub-directories with their own listings. */
  datatype Tree = Tree(files: seq<string>, dirs: seq<Sub>)
  datatype Sub = Sub(name: string, tree: Tree)

  /** What the root path is. */
  datatype Root = Missing | NotDirectory | Directory(tree: Tree)

  /** `{name.casefold() for name in ignore_dir_names}`. */
  function IgnoreSet(names: seq<string>): (r: set<string>)
    ensures forall n :: n in r <==> exists i :: 0 <= i < |names| && Lower(names[i]) == n
  {
    set i | 0 <= i < |names| :: Lower(names[i])
  }

  predicate Hidden(name: string) { StartsWith(name, ".") }

  /** A sub-directory survives pruning. */
  predicate KeepDir(name: string, ignore: set<string>, ignoreHidden: bool)
  {
    Lower(name) !in ignore && !(ignoreHidden && Hidden(name))
  }

  /** A file is collected. */
  predicate IsStoryFile(name: string, ignoreHidden: bool)
  {
    !(ignoreHidden && Hidden(name)) && EndsWith(Lower(name), ".json")
  }

  /** The sub-directories that survive pruning, in listing order. */
  function KeptDirs(dirs: seq<Sub>, ignore: set<string>, ignoreHidden: bool): seq<Sub>
  {
    if |dirs| == 0 then []
    else
      var last := dirs[|dirs| - 1];
      KeptDirs(dirs[..|dirs| - 1], ignore, ignoreHidden) + (if KeepDir(last.name, ignore, ignoreHidden) then [last] else [])
  }

  /** Pruning keeps exactly the sub-directories whose names pass. */
  lemma {:induction false} KeptDirsMeaning(dirs: seq<Sub>, ignore: set<string>, ignoreHidden: bool)
    ensures forall s :: s in KeptDirs(dirs, ignore, ignoreHidden) <==> s in dirs && KeepDir(s.name, ignore, ignoreHidden)
  {
    if |dirs| > 0 {
      var init := dirs[..|dirs| - 1];
      KeptDirsMeaning(init, ignore, ignoreHidden);
      assert dirs == init + [dirs[|dirs| - 1]];
    }
  }

  /** The story files of one listing, as paths under `dir`, in listing order. */
  function StoryFiles(dir: Path, files: seq<string>, ignoreHidden: bool): seq<Path>
  {
    if |files| == 0 then []
    else
      var last := files[|files| - 1];
      StoryFiles(dir, files[..|files| - 1], ignoreHidden) + (if IsStoryFile(last, ignoreHidden) then [dir + [last]] else [])
  }

  /** Exactly the story files of the listing are collected. */
  lemma {:induction false} StoryFilesMeaning(dir: Path, files: seq<string>, ignoreHidden: bool)
    ensures forall p :: p in StoryFiles(dir, files, ignoreHidden) <==> exists f :: f in files && IsStoryFile(f, ignoreHidden) && p == dir + [f]
  {
    if |files| > 0 {
      var init := files[..|files| - 1];
      StoryFilesMeaning(dir, init, ignoreHidden);
      assert files == init + [files[|files| - 1]];
    }
  }

  /**
   * The files a top-down walk of `t` at `dir` collects: those of its own
   * listing, then those of each kept sub-directory in turn.
   */
  function Walked(dir: Path, t: Tree, ignore: set<string>, ignoreHidden: bool): seq<Path>
    decreases t
  {
    StoryFiles(dir, t.files, ignoreHidden) + WalkedSubs(dir, t.dirs, ignore, ignoreHidden)
  }

  /** What the walk collects below the sub-directories `subs` of `dir`, skipping pruned ones. */
  function WalkedSubs(dir: Path, subs: seq<Sub>, ignore: set<string>, ignoreHidden: bool): seq<Path>
    decreases subs
  {
    if |subs| == 0 then []
    else
      var last := subs[|subs| - 1];
      WalkedSubs(dir, subs[..|subs| - 1], ignore, ignoreHidden)
        + (if KeepDir(last.name, ignore, ignoreHidden) then Walked(dir + [last.name], last.tree, ignore, ignoreHidden) else [])
  }

  /** Walking the kept sub-directories only is the same as walking them all with pruning. */
  lemma {:induction false} WalkedKept(dir: Path, subs: seq<Sub>, ignore: set<string>, ignoreHidden: bool)
    ensures WalkedSubs(dir, KeptDirs(subs, ignore, ignoreHidden), ignore, ignoreHidden) == WalkedSubs(dir, subs, ignore, ignoreHidden)
  {
    if |subs| > 0 {
      var init := subs[..|subs| - 1];
      var last := subs[|subs| - 1];
      WalkedKept(dir, init, ignore, ignoreHidden);
      var k := KeptDirs(init, ignore, ignoreHidden);
      if KeepDir(last.name, ignore, ignoreHidden) {
        assert (k + [last])[..|k|] == k;
      } else {
        assert KeptDirs(subs, ignore, ignoreHidden) == k;
      }
    }
  }

  lemma WalkedSubsStep(dir: Path, subs: seq<Sub>, i: nat, ignore: set<string>, ignoreHidden: bool)
    requires i < |subs| && KeepDir(subs[i].name, ignore, ignoreHidden)
    ensures WalkedSubs(dir, subs[..i + 1], ignore, ignoreHidden)
      == WalkedSubs(dir, subs[..i], ignore, ignoreHidden) + Walked(dir + [subs[i].name], subs[i].tree, ignore, ignoreHidden)
  {
    assert subs[..i + 1][..i] == subs[..i];
  }

  /** The pruning loop: `dirnames[:] = [d for d in dirnames if kept]`. */
  method PruneDirs(dirs: seq<Sub>, ignore: set<string>, ignoreHidden: bool) returns (pruned: seq<Sub>)
    ensures pruned == KeptDirs(dirs, ignore, ignoreHidden)
  {
    pruned := [];
    for i := 0 to |dirs|
      invariant pruned == KeptDirs(dirs[..i], ignore, ignoreHidden)
    {
      assert dirs[..i + 1][..i] == dirs[..i];
      if Lower(dirs[i].name) in ignore {
        continue;
      }
      if ignoreHidden && StartsWith(dirs[i].name, ".") {
        continue;
      }
      pruned := pruned + [dirs[i]];
    }
    assert dirs[..|dirs|] == dirs;
  }

  /** The collecting loop over one listing's file names, appending to `results`. */
  method CollectFiles(dir: Path, files: seq<string>, ignoreHidden: bool, results: seq<Path>) returns (out: seq<Path>)
    ensures out == results + StoryFiles(dir, files, ignoreHidden)
  {
    out := results;
    for i := 0 to |files|
      invariant out == results + StoryFiles(dir, files[..i], ignoreHidden)
    {
      assert files[..i + 1][..i] == files[..i];
      if ignoreHidden && StartsWith(files[i], ".") {
        continue;
      }
      if EndsWith(Lower(files[i]), ".json") {
        out := out + [dir + [files[i]]];
      }
    }
    assert files[..|files|] == files;
  }

  /** The top-down walk from `dir`, appending what it collects to `results`. */
  method Walk(dir: Path, t: Tree, ignore: set<string>, ignoreHidden: bool, results: seq<Path>) returns (out: seq<Path>)
    ensures out == results + Walked(dir, t, ignore, ignoreHidden)
    decreases t, 1
  {
    var pruned := PruneDirs(t.dirs, ignore, ignoreHidden);
    assert forall s :: s in pruned ==> s in t.dirs && KeepDir(s.name, ignore, ignoreHidden) by {
      KeptDirsMeaning(t.dirs, ignore, ignoreHidden);
    }
    var files := CollectFiles(dir, t.files, ignoreHidden, results);
    out := WalkSubdirs(dir, t, pruned, ignore, ignoreHidden, files);
    WalkedOfKept(dir, t, ignore, ignoreHidden);
    AppendAssoc(results, StoryFiles(dir, t.files, ignoreHidden), WalkedSubs(dir, pruned, ignore, ignoreHidden));
  }

  /** The walk of a directory is its story files followed by the walks of its kept sub-directories. */
  lemma WalkedOfKept(dir: Path, t: Tree, ignore: set<string>, ignoreHidden: bool)
    ensures Walked(dir, t, ignore, ignoreHidden)
      == StoryFiles(dir, t.files, ignoreHidden) + WalkedSubs(dir, KeptDirs(t.dirs, ignore, ignoreHidden), ignore, ignoreHidden)
  {
    WalkedKept(dir, t.dirs, ignore, ignoreHidden);
  }

  lemma AppendAssoc<T>(a: seq<T>, b: seq<T>, c: seq<T>)
    ensures a + (b + c) == a + b + c
  {
  }

  /** The walk into each kept sub-directory of `t` in turn. */
  method WalkSubdirs(dir: Path, t: Tree, pruned: seq<Sub>, ignore: set<string>, ignoreHidden: bool, results: seq<Path>)
    returns (out: seq<Path>)
    requires forall s :: s in pruned ==> s in t.dirs && KeepDir(s.name, ignore, ignoreHidden)
    ensures out == results + WalkedSubs(dir, pruned, ignore, ignoreHidden)
    decreases t, 0
  {
    out := results;
    for i := 0 to |pruned|
      invariant out == results + WalkedSubs(dir, pruned[..i], ignore, ignoreHidden)
    {
      var sub := pruned[i];
      assert sub in pruned;
      WalkedSubsStep(dir, pruned, i, ignore, ignoreHidden);
      out := Walk(dir + [sub.name], sub.tree, ignore, ignoreHidden, out);
    }
    assert pruned[..|pruned|] == pruned;
  }

  /** What `find_corpus_stories` returns or raises. */
  function Found(root: Path, fs: Root, ignoreNames: seq<string>, ignoreHidden: bool, sort: bool): (r: Result<seq<Path>>)
    ensures r.Ok? <==> fs.Directory?
    ensures fs.Missing? ==> r.error.kind == FileNotFoundError
    ensures fs.NotDirectory? ==> r.error.kind == NotADirectoryError
  {
    match fs
    case Missing => Err(Exception(FileNotFoundError, "Root path not found: " + PathStr(root)))
    case NotDirectory => Err(Exception(NotADirectoryError, "Root is not a directory: " + PathStr(root)))
    case Directory(t) =>
      var found := Walked(root, t, IgnoreSet(ignoreNames), ignoreHidden);
      Ok(if sort then Sorting.SortBy(found, PathLe) else found)
  }

  /** `find_corpus_stories(root, ignore_dir_names=..., ignore_hidden=..., sort=...)` on the filesystem `fs`. */
  method FindCorpusStories(root: Path, fs: Root, ignoreNames: seq<string>, ignoreHidden: bool, sort: bool)
    returns (r: Result<seq<Path>>)
    ensures r == Found(root, fs, ignoreNames, ignoreHidden, sort)
  {
    if fs.Missing? {
      return Err(Exception(FileNotFoundError, "Root path not found: " + PathStr(root)));
    }
    if fs.NotDirectory? {
      return Err(Exception(NotADirectoryError, "Root is not a directory: " + PathStr(root)));
    }
    var ignore := IgnoreSet(ignoreNames);
    var results := Walk(root, fs.tree, ignore, ignoreHidden, []);
    assert results == Walked(root, fs.tree, ignore, ignoreHidden);
    if sort {
      results := Sorting.SortBy(results, PathLe);
    }
    return Ok(results);
  }

  /**
   * Every collected path lies under `dir`, passes only through kept
   * directories, and names a story file.
   */
  predicate Admissible(dir: Path, p: Path, ignore: set<string>, ignoreHidden: bool)
  {
    |p| > |dir| && p[..|dir|] == dir && IsStoryFile(p[|p| - 1], ignoreHidden)
    && forall k :: |dir| <= k < |p| - 1 ==> KeepDir(p[k], ignore, ignoreHidden)
  }

  lemma {:induction false} WalkedAdmissible(dir: Path, t: Tree, ignore: set<string>, ignoreHidden: bool)
    ensures forall p :: p in Walked(dir, t, ignore, ignoreHidden) ==> Admissible(dir, p, ignore, ignoreHidden)
    decreases t
  {
    WalkedSubsAdmissible(dir, t.dirs, ignore, ignoreHidden);
    StoryFilesMeaning(dir, t.files, ignoreHidden);
    forall p | p in StoryFiles(dir, t.files, ignoreHidden) ensures Admissible(dir, p, ignore, ignoreHidden) {
      var f :| f in t.files && IsStoryFile(f, ignoreHidden) && p == dir + [f];
      assert p[..|dir|] == dir;
    }
  }

  lemma {:induction false} WalkedSubsAdmissible(dir: Path, subs: seq<Sub>, ignore: set<string>, ignoreHidden: bool)
    ensures forall p :: p in WalkedSubs(dir, subs, ignore, ignoreHidden) ==> Admissible(dir, p, ignore, ignoreHidden)
    decreases subs
  {
    if |subs| > 0 {
      var last := subs[|subs| - 1];
      WalkedSubsAdmissible(dir, subs[..|subs| - 1], ignore, ignoreHidden);
      if KeepDir(last.name, ignore, ignoreHidden) {
        var d := dir + [last.name];
        WalkedAdmissible(d, last.tree, ignore, ignoreHidden);
        forall p | p in Walked(d, last.tree, ignore, ignoreHidden) ensures Admissible(dir, p, ignore, ignoreHidden) {
          assert p[..|d|] == d;
          assert p[..|dir|] == d[..|dir|];
          assert p[|dir|] == last.name;
        }
      }
    }
  }

  /** Sorting keeps exactly the same paths. */
  lemma SortedSamePaths(paths: seq<Path>)
    ensures forall p :: p in Sorting.SortBy(paths, PathLe) <==> p in paths
  {
    var r := Sorting.SortBy(paths, PathLe);
    assert multiset(r) == multiset(paths);
    forall p ensures p in r <==> p in paths {
      assert p in r <==> p in multiset(r);
      assert p in paths <==> p in multiset(paths);
    }
  }

  /** Only story files reached through kept directories are returned. */
  lemma FoundAdmissible(root: Path, t: Tree, ignoreNames: seq<string>, ignoreHidden: bool, sort: bool)
    ensures forall p :: (p in Found(root, Directory(t), ignoreNames, ignoreHidden, sort).value
      ==> Admissible(root, p, IgnoreSet(ignoreNames), ignoreHidden))
  {
    var found := Walked(root, t, IgnoreSet(ignoreNames), ignoreHidden);
    WalkedAdmissible(root, t, IgnoreSet(ignoreNames), ignoreHidden);
    SortedSamePaths(found);
  }

  /** Every story file of the root's own listing is returned. */
  lemma FoundRootFiles(root: Path, t: Tree, ignoreNames: seq<string>, ignoreHidden: bool, sort: bool)
    ensures forall f :: (f in t.files && IsStoryFile(f, ignoreHidden)
      ==> root + [f] in Found(root, Directory(t), ignoreNames, ignoreHidden, sort).value)
  {
    var found := Walked(root, t, IgnoreSet(ignoreNames), ignoreHidden);
    StoryFilesMeaning(root, t.files, ignoreHidden);
    SortedSamePaths(found);
  }

  /** With `sort`, the paths come in ascending order, a permutation of the walk's order. */
  lemma FoundSorted(root: Path, t: Tree, ignoreNames: seq<string>, ignoreHidden: bool)
    ensures var r := Found(root, Directory(t), ignoreNames, ignoreHidden, true).value;
      Sorting.SortedBy(r, PathLe) && multiset(r) == multiset(Found(root, Directory(t), ignoreNames, ignoreHidden, false).value)
  {
    SortedPaths(Walked(root, t, IgnoreSet(ignoreNames), ignoreHidden));
  }

  /** A directory whose name is ignored, in any case, contributes nothing. */
  lemma IgnoredDirSkipped(dir: Path, subs: seq<Sub>, s: Sub, ignoreNames: seq<string>, ignoreHidden: bool)
    requires Lower(s.name) in IgnoreSet(ignoreNames)
    ensures WalkedSubs(dir, subs + [s], IgnoreSet(ignoreNames), ignoreHidden) == WalkedSubs(dir, subs, IgnoreSet(ignoreNames), ignoreHidden)
  {
    assert (subs + [s])[..|subs|] == subs;
  }

  // ---------------------------------------------------------------- process_file

  datatype Status = Processed | Skipped | Failed

  /** A result entry: input, output, status, and the error text of a failure. */
  datatype FileResult = FileResult(input: Path, output: Path, status: Status, error: Option<string>)

  /**
   * The output path: the input's path relative to `root` under `jobDir`,
   * or, for an input outside `root`, its file name under `jobDir`.
   */
  function OutPath(inPath: Path, root: Path, jobDir: Path): (r: Path)
    ensures jobDir <= r
    ensures root <= inPath ==> r[|jobDir|..] == inPath[|root|..]
    ensures !(root <= inPath) && |inPath| > 0 ==> r == jobDir + [inPath[|inPath| - 1]]
  {
    var rel := if root <= inPath then inPath[|root|..] else if |inPath| > 0 then [inPath[|inPath| - 1]] else [];
    assert (jobDir + rel)[..|jobDir|] == jobDir;
    jobDir + rel
  }

  /** The text `f"{type(exc).__name__}: {exc}"`. */
  function ErrorText(e: Exception): string
  {
    KindName(e.kind) + ": " + e.msg
  }

  const FatalPrefix := "Fatal API error: "

  /** The message of the abort raised for a fatal API error. */
  function FatalMessage(api: map<string, Json.Value>): string
  {
    FatalPrefix + Json.ToStr(Json.GetValue(api, "category")) + " "
      + Json.ToStr(Json.GetValue(api, "code")) + ": " + Json.ToStr(Json.GetValue(api, "message"))
  }

  /**
   * The abort check on the processor's result: `result.get("api_error")`
   * needs a dictionary, and so does a truthy `api_error`; a truthy
   * `should_abort_batch` in it raises RuntimeError.
   */
  function AbortCheck(result: Json.Value): (r: Option<Exception>)
    ensures r.Some? && r.value.kind == RuntimeError ==> StartsWith(r.value.msg, FatalPrefix)
  {
    if !result.Obj? then Some(StoryAnalysis.NoAttribute(result, "get"))
    else
      var api := Json.GetValue(result.fields, "api_error");
      if !Json.Truthy(api) then None
      else if !api.Obj? then Some(StoryAnalysis.NoAttribute(api, "get"))
      else if Json.Truthy(Json.GetValue(api.fields, "should_abort_batch")) then
        var m := FatalMessage(api.fields);
        assert m == FatalPrefix + m[|FatalPrefix|..];
        Some(Exception(RuntimeError, m))
      else None
  }

  /**
   * The body of the `try`: read the input (`load`), run the processor,
   * check for an abort, write the output (`save`, which also makes the
   * result serialisable).
   */
  function Attempt(inPath: Path, outPath: Path, load: Path -> Result<Json.Value>,
                   processor: Json.Value -> Result<Json.Value>, save: (Path, Json.Value) -> Result<()>): Result<()>
  {
    match load(inPath)
    case Err(e) => Err(e)
    case Ok(data) =>
      match processor(data)
      case Err(e) => Err(e)
      case Ok(result) =>
        var abort := AbortCheck(result);
        if abort.Some? then Err(abort.value) else save(outPath, result)
  }

  /**
   * `process_file(in_path, corpora_root=root, job_dir=jobDir, ...)` when the
   * files in `existing` exist: an existing output without `force` is
   * skipped; otherwise any exception gives an error entry.
   */
  function ProcessFile(inPath: Path, root: Path, jobDir: Path, existing: set<Path>, force: bool,
                       load: Path -> Result<Json.Value>, processor: Json.Value -> Result<Json.Value>,
                       save: (Path, Json.Value) -> Result<()>): (r: FileResult)
    ensures r.input == inPath && r.output == OutPath(inPath, root, jobDir)
    ensures r.status == Skipped <==> r.output in existing && !force
    ensures r.status == Failed <==> !(r.output in existing && !force) && Attempt(inPath, r.output, load, processor, save).Err?
    ensures r.status == Failed ==> r.error == Some(ErrorText(Attempt(inPath, r.output, load, processor, save).error))
    ensures r.status != Failed ==> r.error.None?
  {
    var out := OutPath(inPath, root, jobDir);
    if out in existing && !force then FileResult(inPath, out, Skipped, None)
    else
      match Attempt(inPath, out, load, processor, save)
      case Ok(_) => FileResult(inPath, out, Processed, None)
      case Err(e) => FileResult(inPath, out, Failed, Some(ErrorText(e)))
  }

  /** The outputs that exist after a result: a processed file's output has been written. */
  function AfterResult(existing: set<Path>, r: FileResult): set<Path>
  {
    if r.status == Processed then existing + {r.output} else existing
  }

  /** A skipped file never reaches the processor: any processor gives the same entry. */
  lemma SkipIgnoresProcessor(inPath: Path, root: Path, jobDir: Path, existing: set<Path>,
                             load: Path -> Result<Json.Value>, p1: Json.Value -> Result<Json.Value>,
                             p2: Json.Value -> Result<Json.Value>, save: (Path, Json.Value) -> Result<()>)
    requires OutPath(inPath, root, jobDir) in existing
    ensures ProcessFile(inPath, root, jobDir, existing, false, load, p1, save).status == Skipped
    ensures ProcessFile(inPath, root, jobDir, existing, false, load, p1, save)
      == ProcessFile(inPath, root, jobDir, existing, false, load, p2, save)
  {
  }

  /** A result asking to abort the batch gives an error entry starting with "RuntimeError: Fatal API error: ". */
  lemma FatalApiError(inPath: Path, root: Path, jobDir: Path, existing: set<Path>, force: bool,
                      load: Path -> Result<Json.Value>, processor: Json.Value -> Result<Json.Value>,
                      save: (Path, Json.Value) -> Result<()>, data: Json.Value, fields: map<string, Json.Value>,
                      api: map<string, Json.Value>)
    requires !(OutPath(inPath, root, jobDir) in existing && !force)
    requires load(inPath) == Ok(data) && processor(data) == Ok(Json.Obj(fields))
    requires "api_error" in fields && fields["api_error"] == Json.Obj(api) && |api| > 0
    requires "should_abort_batch" in api && Json.Truthy(api["should_abort_batch"])
    ensures var r := ProcessFile(inPath, root, jobDir, existing, force, load, processor, save);
      r.status == Failed && r.error.Some? && StartsWith(r.error.value, "RuntimeError: " + FatalPrefix)
  {
    var out := OutPath(inPath, root, jobDir);
    var e := Exception(RuntimeError, FatalMessage(api));
    FatalAbort(fields, api);
    assert Attempt(inPath, out, load, processor, save) == Err(e);
    FatalText(e);
  }

  /** An abort request in a truthy `api_error` dictionary is a RuntimeError with the fatal message. */
  lemma FatalAbort(fields: map<string, Json.Value>, api: map<string, Json.Value>)
    requires "api_error" in fields && fields["api_error"] == Json.Obj(api) && |api| > 0
    requires "should_abort_batch" in api && Json.Truthy(api["should_abort_batch"])
    ensures AbortCheck(Json.Obj(fields)) == Some(Exception(RuntimeError, FatalMessage(api)))
  {
    assert Json.GetValue(fields, "api_error") == Json.Obj(api);
  }

  /** The error text of the abort. */
  lemma FatalText(e: Exception)
    requires e.kind == RuntimeError && StartsWith(e.msg, FatalPrefix)
    ensures StartsWith(ErrorText(e), "RuntimeError: " + FatalPrefix)
  {
    assert ErrorText(e) == "RuntimeError: " + e.msg;
    PrefixUnderConcat("RuntimeError: ", FatalPrefix, e.msg);
  }

  /** A prefix stays a prefix under a common leading text. */
  lemma PrefixUnderConcat(a: string, p: string, m: string)
    requires p <= m
    ensures a + p <= a + m
  {
    assert (a + m)[..|a + p|] == a + m[..|p|];
  }

  // ---------------------------------------------------------------- process_files

  /** The results over `files` in order, each seeing the outputs written before it. */
  function ProcessAll(files: seq<Path>, root: Path, jobDir: Path, existing: set<Path>, force: bool,
                      load: Path -> Result<Json.Value>, processor: Json.Value -> Result<Json.Value>,
                      save: (Path, Json.Value) -> Result<()>): (r: (seq<FileResult>, set<Path>))
    ensures |r.0| == |files|
  {
    if |files| == 0 then ([], existing)
    else
      var prev := ProcessAll(files[..|files| - 1], root, jobDir, existing, force, load, processor, save);
      var res := ProcessFile(files[|files| - 1], root, jobDir, prev.1, force, load, processor, save);
      (prev.0 + [res], AfterResult(prev.1, res))
  }

  /** The number of results with status `st`. */
  function CountStatus(rs: seq<FileResult>, st: Status): (n: nat)
    ensures n <= |rs|
  {
    if |rs| == 0 then 0
    else CountStatus(rs[..|rs| - 1], st) + (if rs[|rs| - 1].status == st then 1 else 0)
  }

  /** An entry of the "errors" list. */
  datatype ErrorEntry = ErrorEntry(input: string, output: string, error: string)

  /** The "errors" list: one entry per failed result, in order. */
  function ErrorEntries(rs: seq<FileResult>): (e: seq<ErrorEntry>)
    ensures |e| == CountStatus(rs, Failed)
  {
    if |rs| == 0 then []
    else
      var last := rs[|rs| - 1];
      ErrorEntries(rs[..|rs| - 1])
        + (if last.status == Failed then [ErrorEntry(PathStr(last.input), PathStr(last.output), last.error.GetOr(""))] else [])
  }

  /** Every result is counted once: processed, skipped or an error entry. */
  lemma {:induction false} CountsAddUp(rs: seq<FileResult>)
    ensures CountStatus(rs, Processed) + CountStatus(rs, Skipped) + |ErrorEntries(rs)| == |rs|
  {
    if |rs| > 0 {
      CountsAddUp(rs[..|rs| - 1]);
    }
  }

  /** The summary `process_files` returns. */
  datatype Summary = Summary(jobDir: Path, total: nat, processed: nat, skipped: nat,
                             errors: seq<ErrorEntry>, results: seq<FileResult>)

  /**
   * `process_files(files, root, output_root, ...)` when the files in
   * `existing` exist; also the outputs that exist afterwards.  `stamp` is
   * the timestamped directory name used without a label.
   */
  method ProcessFiles(files: seq<Path>, root: Path, outputRoot: Path, jobLabel: Option<string>, stamp: string,
                      existing: set<Path>, force: bool, sort: bool, load: Path -> Result<Json.Value>,
                      processor: Json.Value -> Result<Json.Value>, save: (Path, Json.Value) -> Result<()>)
    returns (summary: Summary, written: set<Path>)
    ensures summary.jobDir == ComputeJobDir(outputRoot, jobLabel, stamp)
    ensures var norm := if sort then Sorting.SortBy(files, PathLe) else files;
      (summary.results, written) == ProcessAll(norm, root, summary.jobDir, existing, force, load, processor, save)
    ensures summary.total == |files| == |summary.results|
    ensures summary.processed == CountStatus(summary.results, Processed)
    ensures summary.skipped == CountStatus(summary.results, Skipped)
    ensures summary.errors == ErrorEntries(summary.results)
    ensures summary.processed + summary.skipped + |summary.errors| == summary.total
  {
    var jobDir := ComputeJobDir(outputRoot, jobLabel, stamp);
    var normFiles := files;
    if sort {
      normFiles := Sorting.SortBy(files, PathLe);
    }
    var results;
    results, written := ProcessEach(normFiles, root, jobDir, existing, force, load, processor, save);
    var processed := Count(results, Processed);
    var skipped := Count(results, Skipped);
    var errors := CollectErrors(results);
    CountsAddUp(results);
    summary := Summary(jobDir, |normFiles|, processed, skipped, errors, results);
  }

  /**
   * `process_corpora(root, output_root, ...)`: the story files found under
   * `root` (a missing or non-directory root raises), processed in the order
   * discovery gives them, without sorting them again.
   */
  method ProcessCorpora(root: Path, fs: Root, outputRoot: Path, jobLabel: Option<string>, stamp: string,
                        existing: set<Path>, force: bool, ignoreNames: seq<string>, ignoreHidden: bool, sort: bool,
                        load: Path -> Result<Json.Value>, processor: Json.Value -> Result<Json.Value>,
                        save: (Path, Json.Value) -> Result<()>)
    returns (r: Result<(Summary, set<Path>)>)
    ensures var found := Found(root, fs, ignoreNames, ignoreHidden, sort);
      && (r.Ok? <==> found.Ok?)
      && (r.Err? ==> r.error == found.error)
      && (r.Ok? ==> var (summary, written) := r.value;
            && summary.jobDir == ComputeJobDir(outputRoot, jobLabel, stamp)
            && (summary.results, written) == ProcessAll(found.value, root, summary.jobDir, existing, force, load, processor, save)
            && summary.total == |found.value|
            && summary.processed + summary.skipped + |summary.errors| == summary.total)
  {
    var files := FindCorpusStories(root, fs, ignoreNames, ignoreHidden, sort);
    if files.Err? {
      return Err(files.error);
    }
    var summary, written := ProcessFiles(files.value, root, outputRoot, jobLabel, stamp, existing, force, false,
                                         load, processor, save);
    return Ok((summary, written));
  }

  /** The loop of `process_files` over the files, in order. */
  method ProcessEach(files: seq<Path>, root: Path, jobDir: Path, existing: set<Path>, force: bool,
                     load: Path -> Result<Json.Value>, processor: Json.Value -> Result<Json.Value>,
                     save: (Path, Json.Value) -> Result<()>) returns (results: seq<FileResult>, written: set<Path>)
    ensures (results, written) == ProcessAll(files, root, jobDir, existing, force, load, processor, save)
  {
    results := [];
    written := existing;
    for i := 0 to |files|
      invariant (results, written) == ProcessAll(files[..i], root, jobDir, existing, force, load, processor, save)
    {
      assert files[..i + 1][..i] == files[..i];
      var result := ProcessFile(files[i], root, jobDir, written, force, load, processor, save);
      results := results + [result];
      written := AfterResult(written, result);
    }
    assert files[..|files|] == files;
  }

  /** The counting of `process_files`: the results with status `st`. */
  method Count(results: seq<FileResult>, st: Status) returns (n: nat)
    ensures n == CountStatus(results, st)
  {
    n := 0;
    for i := 0 to |results|
      invariant n == CountStatus(results[..i], st)
    {
      assert results[..i + 1][..i] == results[..i];
      if results[i].status == st {
        n := n + 1;
      }
    }
    assert results[..|results|] == results;
  }

  /** The "errors" list of `process_files`, built entry by entry. */
  method CollectErrors(results: seq<FileResult>) returns (errors: seq<ErrorEntry>)
    ensures errors == ErrorEntries(results)
  {
    errors := [];
    for i := 0 to |results|
      invariant errors == ErrorEntries(results[..i])
    {
      assert results[..i + 1][..i] == results[..i];
      var r := results[i];
      if r.status == Failed {
        errors := errors + [ErrorEntry(PathStr(r.input), PathStr(r.output), r.error.GetOr(""))];
      }
    }
    assert results[..|results|] == results;
  }

  /**
   * Two inputs outside the root with the same file name share an output:
   * once the first is processed, the second is skipped unless `force`.
   */
  lemma OutsideRootCollision(a: Path, b: Path, root: Path, jobDir: Path, existing: set<Path>,
                             load: Path -> Result<Json.Value>, processor: Json.Value -> Result<Json.Value>,
                             save: (Path, Json.Value) -> Result<()>)
    requires |a| > 0 && |b| > 0 && a[|a| - 1] == b[|b| - 1] && !(root <= a) && !(root <= b)
    requires ProcessFile(a, root, jobDir, existing, false, load, processor, save).status == Processed
    ensures ProcessAll([a, b], root, jobDir, existing, false, load, processor, save).0[1].status == Skipped
  {
    assert [a, b][..1] == [a];
    assert [a][..0] == [];
  }
}
