/**
 * `lcats/utils/names.py`: canonical file basenames.  A valid basename is one
 * to `max_len` lower-case ASCII letters and digits, grouped into words joined
 * by single underscores.  `repair_basename` turns any text into one (or into
 * the empty string), `title_to_filename` adds a checked extension, and
 * `normalize_basename` repairs only what is not already valid.
 */
module Names {
  import opened Wrappers
  import opened PyStr

  /** `BASENAME_MAXIMUM_LENGTH`. */
  const BasenameMaximumLength := 72

  /** The class `[a-z0-9]`. */
  predicate SlugChar(c: char) { IsAsciiLower(c) || IsAsciiDigit(c) }

  predicate SlugOrUnderscore(c: char) { SlugChar(c) || c == '_' }

  predicate NotSlug(c: char) { !SlugChar(c) }

  predicate IsUnderscore(c: char) { c == '_' }

  // ---------------------------------------------------------------- the pattern

  /** The position of the first `_`, or `|s|`. */
  function FirstUnderscore(s: string): (k: nat)
    ensures k <= |s| && (k < |s| ==> s[k] == '_')
    ensures forall i :: 0 <= i < k ==> s[i] != '_'
  {
    if |s| == 0 || s[0] == '_' then 0 else 1 + FirstUnderscore(s[1..])
  }

  /**
   * `BASENAME_VALIDATION_REGEX.fullmatch(s)`, i.e. `^[a-z0-9]+(?:_[a-z0-9]+)*\Z`:
   * a word of `[a-z0-9]`, then either the end or `_` and again the pattern.
   */
  predicate FullMatch(s: string)
    decreases |s|
  {
    var k := FirstUnderscore(s);
    k > 0 && (forall i :: 0 <= i < k ==> SlugChar(s[i])) && (k == |s| || FullMatch(s[k + 1..]))
  }

  /** The same language described character by character. */
  predicate SlugShape(s: string)
  {
    && |s| > 0
    && AllChars(s, SlugOrUnderscore)
    && s[0] != '_' && s[|s| - 1] != '_'
    && NoDouble(s, '_')
  }

  /** The regular expression matches exactly the non-empty slugs with no edge or doubled underscore. */
  lemma FullMatchShape(s: string)
    ensures FullMatch(s) <==> SlugShape(s)
  {
    if FullMatch(s) {
      FullMatchIsShape(s);
    }
    if SlugShape(s) {
      ShapeIsFullMatch(s);
    }
  }

  lemma {:induction false} FullMatchIsShape(s: string)
    requires FullMatch(s)
    ensures SlugShape(s)
    decreases |s|
  {
    var k := FirstUnderscore(s);
    if k < |s| {
      var rest := s[k + 1..];
      FullMatchIsShape(rest);
      assert AllChars(s, SlugOrUnderscore) by {
        forall i | 0 <= i < |s| ensures SlugOrUnderscore(s[i]) {
          if i > k {
            assert s[i] == rest[i - k - 1];
          }
        }
      }
      assert NoDouble(s, '_') by {
        forall i | 0 <= i < |s| - 1 ensures !(s[i] == '_' && s[i + 1] == '_') {
          if i > k {
            assert s[i] == rest[i - k - 1] && s[i + 1] == rest[i - k];
          }
        }
      }
      assert s[|s| - 1] == rest[|rest| - 1];
    }
  }

  lemma {:induction false} ShapeIsFullMatch(s: string)
    requires SlugShape(s)
    ensures FullMatch(s)
    decreases |s|
  {
    var k := FirstUnderscore(s);
    assert forall i :: 0 <= i < k ==> SlugChar(s[i]) by {
      forall i | 0 <= i < k ensures SlugChar(s[i]) {
        assert SlugOrUnderscore(s[i]);
      }
    }
    if k < |s| {
      assert k > 0 && k + 1 < |s|;
      var rest := s[k + 1..];
      assert NoDouble(rest, '_') by {
        forall i | 0 <= i < |rest| - 1 ensures !(rest[i] == '_' && rest[i + 1] == '_') {
          assert rest[i] == s[k + 1 + i] && rest[i + 1] == s[k + 2 + i];
        }
      }
      assert AllChars(rest, SlugOrUnderscore) by {
        forall i | 0 <= i < |rest| ensures SlugOrUnderscore(rest[i]) {
          assert rest[i] == s[k + 1 + i];
        }
      }
      ShapeIsFullMatch(rest);
    }
  }

  // ---------------------------------------------------------------- is_valid_basename

  /**
   * `is_valid_basename(basename, max_len=max_len, pattern=pattern)`; a custom
   * pattern is given by its `fullmatch` test.
   */
  predicate IsValidBasename(basename: string, maxLen: int, pattern: Option<string -> bool>)
  {
    if maxLen < 1 || |basename| == 0 || |basename| > maxLen then false
    else
      match pattern
      case None => FullMatch(basename)
      case Some(fullmatch) => fullmatch(basename)
  }

  /** Under the default pattern: valid iff one to `max_len` characters of slug words. */
  lemma IsValidBasenameMeaning(basename: string, maxLen: int)
    ensures IsValidBasename(basename, maxLen, None) <==> |basename| <= maxLen && SlugShape(basename)
  {
    FullMatchShape(basename);
  }

  // ---------------------------------------------------------------- repair_basename

  predicate IsAscii(c: char) { c < '\U{80}' }

  /**
   * `ascii_transliterate` restricted to what the model keeps: case folding of
   * ASCII letters, with every non-ASCII character dropped (as `encode("ascii",
   * "ignore")` does to whatever transliteration leaves).
   */
  function AsciiTransliterate(text: string): (r: string)
    ensures AllChars(r, IsAscii)
  {
    Lower(Filter(text, IsAscii))
  }

  /** `repair_basename(raw, max_len=max_len)`. */
  function RepairBasename(raw: string, maxLen: int): Result<string>
  {
    if maxLen < 1 then Err(Exception(ValueError, "max_len must be >= 1"))
    else
      var s1 := ReplaceRuns(AsciiTransliterate(raw), NotSlug, "_");
      var s2 := if |s1| > maxLen then s1[..maxLen] else s1;
      var s3 := ReplaceRuns(s2, IsUnderscore, "_");
      Ok(StripBy(s3, IsUnderscore))
  }

  /** The repaired name is the empty string or a valid basename; only `max_len < 1` raises. */
  lemma RepairBasenameValid(raw: string, maxLen: int)
    ensures RepairBasename(raw, maxLen).Ok? <==> maxLen >= 1
    ensures RepairBasename(raw, maxLen).Err? ==> RepairBasename(raw, maxLen).error.kind == ValueError
    ensures RepairBasename(raw, maxLen).Ok? ==>
      var b := RepairBasename(raw, maxLen).value;
      b == "" || IsValidBasename(b, maxLen, None)
  {
    if maxLen >= 1 {
      var s1 := ReplaceRuns(AsciiTransliterate(raw), NotSlug, "_");
      ReplaceRunsChars(AsciiTransliterate(raw), NotSlug, "_", SlugOrUnderscore);
      var s2 := if |s1| > maxLen then s1[..maxLen] else s1;
      PrefixKeeps(s1, |s2|, SlugOrUnderscore, '_');
      assert s2 == s1[..|s2|];
      var s3 := ReplaceRuns(s2, IsUnderscore, "_");
      ReplaceRunsChars(s2, IsUnderscore, "_", SlugOrUnderscore);
      ReplaceRunsNoDouble(s2, IsUnderscore, '_');
      ReplaceRunsShorter(s2, IsUnderscore, '_');
      var b := StripBy(s3, IsUnderscore);
      StripByKeeps(s3, IsUnderscore, SlugOrUnderscore, '_');
      assert b == RepairBasename(raw, maxLen).value;
      if b != "" {
        assert SlugShape(b);
        IsValidBasenameMeaning(b, maxLen);
      }
    }
  }

  /** A valid basename is its own repair. */
  lemma RepairBasenameFixesValid(raw: string, maxLen: int)
    requires IsValidBasename(raw, maxLen, None)
    ensures RepairBasename(raw, maxLen) == Ok(raw)
  {
    IsValidBasenameMeaning(raw, maxLen);
    SlugTransliterated(raw);
    SlugRunsUntouched(raw);
  }

  /** A slug is plain lowercase ASCII already. */
  lemma SlugTransliterated(raw: string)
    requires SlugShape(raw)
    ensures AsciiTransliterate(raw) == raw
  {
    forall i | 0 <= i < |raw| ensures IsAscii(raw[i]) && !IsAsciiUpper(raw[i]) {
      assert SlugOrUnderscore(raw[i]);
    }
    FilterAllKept(raw, IsAscii);
    LowerFixed(raw);
  }

  /** A slug has no run to replace and no underscore to strip. */
  lemma SlugRunsUntouched(raw: string)
    requires SlugShape(raw)
    ensures ReplaceRuns(raw, NotSlug, "_") == raw
    ensures ReplaceRuns(raw, IsUnderscore, "_") == raw
    ensures StripBy(raw, IsUnderscore) == raw
  {
    ReplaceRunsIdentity(raw, NotSlug, '_');
    ReplaceRunsIdentity(raw, IsUnderscore, '_');
    StripByUntouched(raw, IsUnderscore);
  }

  /** Repairing twice is repairing once. */
  lemma RepairBasenameIdempotent(raw: string, maxLen: int)
    requires maxLen >= 1
    ensures RepairBasename(raw, maxLen).Ok?
    ensures RepairBasename(RepairBasename(raw, maxLen).value, maxLen) == RepairBasename(raw, maxLen)
  {
    RepairBasenameValid(raw, maxLen);
    var b := RepairBasename(raw, maxLen).value;
    if b != "" {
      RepairBasenameFixesValid(b, maxLen);
    } else {
      RepairBasenameEmpty(maxLen);
    }
  }

  lemma RepairBasenameEmpty(maxLen: int)
    requires maxLen >= 1
    ensures RepairBasename("", maxLen) == Ok("")
  {
    assert AsciiTransliterate("") == "";
    assert ReplaceRuns("", NotSlug, "_") == "";
    assert ReplaceRuns("", IsUnderscore, "_") == "";
    assert StripBy("", IsUnderscore) == "";
  }

  // ---------------------------------------------------------------- title_to_filename

  /** The extension as checked: a missing leading `.` is added, then it is lowercased. */
  function NormalizeExtension(ext: string): (r: string)
    ensures |r| > 0 && r[0] == '.'
  {
    Lower(if StartsWith(ext, ".") then ext else "." + ext)
  }

  /** `re.fullmatch(r"\.[a-z0-9]+", ext)`. */
  predicate ExtensionOk(ext: string)
  {
    |ext| >= 2 && ext[0] == '.' && forall i :: 1 <= i < |ext| ==> SlugChar(ext[i])
  }

  /** `title_to_filename(title, ext=ext, max_len=max_len, allow_empty=allow_empty)`. */
  function TitleToFilename(title: string, ext: string, maxLen: int, allowEmpty: bool): Result<string>
  {
    var e := NormalizeExtension(ext);
    if !ExtensionOk(e) then Err(Exception(ValueError, "Invalid extension policy: " + ReprStr(e)))
    else
      match RepairBasename(title, maxLen)
      case Err(x) => Err(x)
      case Ok(base) =>
        if base == "" && !allowEmpty then Err(Exception(ValueError, "Title produced empty basename under current policy."))
        else Ok(base + e)
  }

  /**
   * `title_to_filename` fails (with `ValueError`) exactly for a bad extension,
   * `max_len < 1`, or an empty basename that is not allowed; otherwise it is
   * the repaired basename (possibly empty) followed by the normalised extension.
   */
  lemma TitleToFilenameMeaning(title: string, ext: string, maxLen: int, allowEmpty: bool)
    ensures var r := TitleToFilename(title, ext, maxLen, allowEmpty);
      var e := NormalizeExtension(ext);
      && (r.Ok? <==> ExtensionOk(e) && maxLen >= 1 && (allowEmpty || RepairBasename(title, maxLen).value != ""))
      && (r.Err? ==> r.error.kind == ValueError)
      && (r.Ok? ==> exists base :: r.value == base + e && (base == "" || IsValidBasename(base, maxLen, None)))
  {
    RepairBasenameValid(title, maxLen);
    var r := TitleToFilename(title, ext, maxLen, allowEmpty);
    if r.Ok? {
      var base := RepairBasename(title, maxLen).value;
      assert r.value == base + NormalizeExtension(ext);
    }
  }

  // ---------------------------------------------------------------- normalize_basename

  /** `normalize_basename(basename, max_len=max_len)`: `(result, changed)`. */
  function NormalizeBasename(basename: string, maxLen: int): Result<(string, bool)>
  {
    if IsValidBasename(basename, maxLen, None) then Ok((basename, false))
    else
      match RepairBasename(basename, maxLen)
      case Err(x) => Err(x)
      case Ok(b) => Ok((b, true))
  }

  /**
   * A valid name comes back unchanged and flagged unchanged; any other comes
   * back repaired and flagged changed; the result is always empty or valid,
   * and it raises only for `max_len < 1`.
   */
  lemma NormalizeBasenameMeaning(basename: string, maxLen: int)
    ensures var r := NormalizeBasename(basename, maxLen);
      && (r.Ok? <==> maxLen >= 1)
      && (r.Ok? ==> (r.value.1 <==> !IsValidBasename(basename, maxLen, None)))
      && (r.Ok? && !r.value.1 ==> r.value.0 == basename)
      && (r.Ok? && r.value.1 ==> r.value == (RepairBasename(basename, maxLen).value, true))
      && (r.Ok? ==> r.value.0 == "" || IsValidBasename(r.value.0, maxLen, None))
  {
    RepairBasenameValid(basename, maxLen);
  }

  /** Normalising a normalised non-empty name reports no change. */
  lemma NormalizeBasenameStable(basename: string, maxLen: int)
    requires maxLen >= 1
    requires NormalizeBasename(basename, maxLen).Ok? && NormalizeBasename(basename, maxLen).value.0 != ""
    ensures NormalizeBasename(NormalizeBasename(basename, maxLen).value.0, maxLen)
         == Ok((NormalizeBasename(basename, maxLen).value.0, false))
  {
    NormalizeBasenameMeaning(basename, maxLen);
  }
}
