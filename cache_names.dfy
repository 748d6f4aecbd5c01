/**
 * The file names of the image cache (src/image_processor.rs): the sanitised
 * name of a source, the candidate names under which a remote download may
 * already be cached, the preferred name of a cached original and the
 * numbered names tried when that one is taken.
 */
module CacheNames {
  import opened Wrappers
  import opened Strings
  import opened Paths
  import opened ImageFormats

  // ---- sanitize_filename ------------------------------------------------------

  /** The characters a sanitised name keeps: ASCII letters and digits, '.', '-' and '_'. */
  predicate IsSafeChar(c: char)
  {
    IsAsciiAlphanumeric(c) || c == '.' || c == '-' || c == '_'
  }

  function SafeChar(c: char): (r: char)
    ensures IsSafeChar(r)
    ensures IsSafeChar(c) ==> r == c
  {
    if IsSafeChar(c) then c else '_'
  }

  predicate AllSafe(s: string)
  {
    forall i :: 0 <= i < |s| ==> IsSafeChar(s[i])
  }

  /** The text before the first '?' or '#'. */
  function BeforeQuery(s: string): (r: string)
    ensures StartsWith(s, r) && '?' !in r && '#' !in r
    ensures |r| < |s| ==> s[|r|] == '?' || s[|r|] == '#'
  {
    if s == [] || s[0] == '?' || s[0] == '#' then []
    else [s[0]] + BeforeQuery(s[1..])
  }

  /** The text after the last '/' or '\\' (`rsplit(['/', '\\']).next()`). */
  function AfterLastSeparator(s: string): (r: string)
    ensures '/' !in r && '\\' !in r
  {
    if s == [] || s[|s| - 1] == '/' || s[|s| - 1] == '\\' then []
    else AfterLastSeparator(s[..|s| - 1]) + [s[|s| - 1]]
  }

  function SafeChars(s: string): (r: string)
    ensures |r| == |s| && AllSafe(r)
    ensures forall i :: 0 <= i < |s| ==> r[i] == SafeChar(s[i])
  {
    seq(|s|, i requires 0 <= i < |s| => SafeChar(s[i]))
  }

  /** `trim_matches('_')`. */
  function TrimUnderscores(s: string): (r: string)
    ensures AllSafe(s) ==> AllSafe(r)
    ensures r == [] || (r[0] != '_' && r[|r| - 1] != '_')
  {
    var t := TrimStartMatches(s, '_');
    var r := TrimEndMatches(t, '_');
    assert t == s[|s| - |t|..] by {
      TrimStartMatchesSuffix(s, '_');
    }
    assert r == t[..|r|] by {
      TrimEndMatchesPrefix(t, '_');
    }
    assert forall i :: 0 <= i < |r| ==> r[i] == s[|s| - |t| + i];
    assert r != [] ==> r[0] == t[0];
    r
  }

  /**
   * `sanitize_filename`: the part before the first '?' or '#', then the part
   * after its last '/' or '\\', with every other character than an ASCII
   * letter, digit, '.', '-' or '_' replaced by '_', and leading and trailing
   * '_' trimmed.
   */
  function SanitizeFilename(input: string): (r: string)
    ensures AllSafe(r)
    ensures r == [] || (r[0] != '_' && r[|r| - 1] != '_')
  {
    TrimUnderscores(SafeChars(AfterLastSeparator(BeforeQuery(input))))
  }

  lemma {:induction false} BeforeQueryOfPlain(s: string)
    requires '?' !in s && '#' !in s
    ensures BeforeQuery(s) == s
  {
    if s != [] {
      BeforeQueryOfPlain(s[1..]);
    }
  }

  lemma {:induction false} AfterLastSeparatorOfPlain(s: string)
    requires '/' !in s && '\\' !in s
    ensures AfterLastSeparator(s) == s
  {
    if s != [] {
      AfterLastSeparatorOfPlain(s[..|s| - 1]);
    }
  }

  /** A name that is already safe and has no '_' at either end is left as it is. */
  lemma SanitizeOfSanitized(t: string)
    requires AllSafe(t)
    requires t == [] || (t[0] != '_' && t[|t| - 1] != '_')
    ensures SanitizeFilename(t) == t
  {
    assert forall i :: 0 <= i < |t| ==> t[i] != '?' && t[i] != '#' && t[i] != '/' && t[i] != '\\';
    BeforeQueryOfPlain(t);
    AfterLastSeparatorOfPlain(t);
    assert SafeChars(t) == t;
  }

  /** Sanitising is idempotent. */
  lemma SanitizeIdempotent(input: string)
    ensures SanitizeFilename(SanitizeFilename(input)) == SanitizeFilename(input)
  {
    SanitizeOfSanitized(SanitizeFilename(input));
  }

  lemma {:induction false} BeforeQueryAppend(a: string, b: string)
    requires '?' !in a && '#' !in a
    ensures BeforeQuery(a + b) == a + BeforeQuery(b)
  {
    if a != [] {
      assert a[0] in a && (a + b)[0] == a[0];
      assert forall x :: x in a[1..] ==> x in a;
      assert (a + b)[1..] == a[1..] + b;
      BeforeQueryAppend(a[1..], b);
      assert BeforeQuery(a + b) == [a[0]] + BeforeQuery(a[1..] + b);
      assert a == [a[0]] + a[1..];
    } else {
      assert a + b == b;
    }
  }

  lemma {:induction false} BeforeQueryStops(a: string, c: char, b: string)
    requires c == '?' || c == '#'
    ensures BeforeQuery(a + [c] + b) == BeforeQuery(a)
  {
    if a == [] {
      assert (a + [c] + b)[0] == c;
    } else {
      assert (a + [c] + b)[1..] == a[1..] + [c] + b;
      BeforeQueryStops(a[1..], c, b);
    }
  }

  /** The kept text is a suffix, and whatever was cut ends at a separator. */
  lemma {:induction false} AfterLastSeparatorSuffix(s: string)
    ensures var r := AfterLastSeparator(s);
      EndsWith(s, r) && (|r| < |s| ==> s[|s| - |r| - 1] == '/' || s[|s| - |r| - 1] == '\\')
  {
    if !(s == [] || s[|s| - 1] == '/' || s[|s| - 1] == '\\') {
      var t := s[..|s| - 1];
      AfterLastSeparatorSuffix(t);
      var r := AfterLastSeparator(s);
      var q := AfterLastSeparator(t);
      assert r == q + [s[|s| - 1]];
      assert s[|s| - |r|..] == t[|t| - |q|..] + [s[|s| - 1]];
      if |r| < |s| {
        assert s[|s| - |r| - 1] == t[|t| - |q| - 1];
      }
    }
  }

  lemma {:induction false} AfterLastSeparatorAppend(a: string, sep: char, b: string)
    requires sep == '/' || sep == '\\'
    ensures AfterLastSeparator(a + [sep] + b) == AfterLastSeparator(b)
  {
    var s := a + [sep] + b;
    if b == [] {
      assert s[|s| - 1] == sep;
    } else {
      assert s[..|s| - 1] == a + [sep] + b[..|b| - 1];
      AfterLastSeparatorAppend(a, sep, b[..|b| - 1]);
    }
  }

  /** Whatever follows the first '?' or '#' has no influence on the name. */
  lemma SanitizeIgnoresQuery(name: string, c: char, query: string)
    requires c == '?' || c == '#'
    ensures SanitizeFilename(name + [c] + query) == SanitizeFilename(name)
  {
    BeforeQueryStops(name, c, query);
  }

  /** Whatever comes before the last '/' or '\\' has no influence on the name. */
  lemma SanitizeIgnoresDirectory(dir: string, sep: char, name: string)
    requires sep == '/' || sep == '\\'
    requires '?' !in dir && '#' !in dir
    ensures SanitizeFilename(dir + [sep] + name) == SanitizeFilename(name)
  {
    assert sep != '?' && sep != '#';
    BeforeQueryAppend(dir + [sep], name);
    assert dir + [sep] + BeforeQuery(name) == (dir + [sep]) + BeforeQuery(name);
    AfterLastSeparatorAppend(dir, sep, BeforeQuery(name));
  }

  // ---- push_unique_name -------------------------------------------------------

  predicate Distinct(names: seq<string>)
  {
    forall i, j :: 0 <= i < j < |names| ==> names[i] != names[j]
  }

  /**
   * `push_unique_name`: appends the candidate unless it is empty or already
   * listed.
   */
  method PushUniqueName(names: seq<string>, candidate: string) returns (r: seq<string>)
    ensures candidate != [] && candidate !in names ==> r == names + [candidate]
    ensures candidate == [] || candidate in names ==> r == names
  {
    if candidate == [] {
      return names;
    }
    var i := 0;
    while i < |names|
      invariant 0 <= i <= |names|
      invariant candidate !in names[..i]
    {
      if names[i] == candidate {
        return names;
      }
      i := i + 1;
    }
    assert names[..i] == names;
    r := names + [candidate];
  }

  /** Non-empty names without '/'. */
  predicate PlainNames(names: seq<string>)
  {
    forall i :: 0 <= i < |names| ==> names[i] != [] && '/' !in names[i]
  }

  /** Pushing a name without '/' keeps the names plain. */
  lemma PushUniqueKeepsPlain(names: seq<string>, candidate: string, r: seq<string>)
    requires PlainNames(names) && '/' !in candidate
    requires candidate != [] && candidate !in names ==> r == names + [candidate]
    requires candidate == [] || candidate in names ==> r == names
    ensures PlainNames(r)
  {
  }

  /** Pushing keeps the names distinct and free of the empty name. */
  lemma PushUniqueKeepsDistinct(names: seq<string>, candidate: string, r: seq<string>)
    requires Distinct(names) && [] !in names
    requires candidate != [] && candidate !in names ==> r == names + [candidate]
    requires candidate == [] || candidate in names ==> r == names
    ensures Distinct(r) && [] !in r
    ensures forall x :: x in r <==> x in names || (x == candidate && x != [])
  {
  }

  // ---- remote_cache_candidates ------------------------------------------------

  /** A safe name holds no separator, query or fragment character. */
  lemma SafeIsPlain(s: string)
    requires AllSafe(s)
    ensures '/' !in s && '\\' !in s && '?' !in s && '#' !in s
  {
    forall i | 0 <= i < |s| ensures s[i] != '/' && s[i] != '\\' && s[i] != '?' && s[i] != '#' {
      assert IsSafeChar(s[i]);
    }
  }

  /** The sanitised file name of a remote reference, "image" when nothing is left. */
  function RemoteBaseName(trimmed: string): (r: string)
    ensures r != [] && AllSafe(r) && '/' !in r
  {
    var raw := FileName(ParsePath(trimmed)).GetOr(trimmed);
    var base := SanitizeFilename(raw);
    var r := if base == [] then DefaultFilename([]) else base;
    SafeIsPlain(r);
    r
  }

  /**
   * The base name, with the lowercased extension of the URL path appended
   * when the base name has none of its own.
   */
  function CanonicalName(trimmed: string, base: string): (r: string)
    requires base != [] && '/' !in base
    ensures StartsWith(r, base) && '/' !in r
  {
    if Extension(ParsePath(base)).Some? then base
    else match PathExtensionFromStr(trimmed)
      case None => base
      case Some(ext) =>
        var e := Trim(ext);
        TrimLowerKeepsOut(ext, '/');
        if e == [] then base else AppendExtension(base, AsciiLowerStr(e))
  }

  /**
   * The first occurrence of every non-empty name, in order: what repeated
   * `push_unique_name` calls leave in an initially empty list.
   */
  function UniqueNames(candidates: seq<string>): (r: seq<string>)
    ensures Distinct(r) && [] !in r && |r| <= |candidates|
    ensures forall x :: x in r <==> x in candidates && x != []
  {
    if candidates == [] then []
    else
      var prior := UniqueNames(candidates[..|candidates| - 1]);
      var c := candidates[|candidates| - 1];
      assert candidates == candidates[..|candidates| - 1] + [c];
      if c != [] && c !in prior then prior + [c] else prior
  }

  /** One more candidate is pushed onto the names the earlier ones left. */
  lemma UniqueNamesSnoc(candidates: seq<string>, c: string)
    ensures var prior := UniqueNames(candidates);
      UniqueNames(candidates + [c]) == if c != [] && c !in prior then prior + [c] else prior
  {
    assert (candidates + [c])[..|candidates|] == candidates;
  }

  /** A non-empty first candidate stays first. */
  lemma {:induction false} UniqueNamesFirst(candidates: seq<string>)
    requires candidates != [] && candidates[0] != []
    ensures var r := UniqueNames(candidates); r != [] && r[0] == candidates[0]
  {
    var n := |candidates|;
    if n > 1 {
      var init := candidates[..n - 1];
      UniqueNamesFirst(init);
      UniqueNamesSnoc(init, candidates[n - 1]);
      assert init + [candidates[n - 1]] == candidates;
    }
  }

  /** The canonical name of a reference, as `remote_cache_candidates` builds it. */
  function RemoteCanonicalName(reference: string): (r: string)
    ensures r != [] && '/' !in r
  {
    var trimmed := BeforeFirst(reference, '?');
    CanonicalName(trimmed, RemoteBaseName(trimmed))
  }

  /**
   * The names tried, in order: the canonical name, the sanitised base name,
   * then the canonical name's stem when it has one.
   */
  function NameCandidates(canonical: string, base: string, stem: Option<string>): (r: seq<string>)
    ensures 2 <= |r| <= 3 && r[0] == canonical && r[1] == base
    ensures forall x :: x in r <==> x == canonical || x == base || (stem.Some? && x == stem.value)
  {
    [canonical, base] + (if stem.Some? then [stem.value] else [])
  }

  /** `Path::file_stem` of a name, which holds no '/'. */
  function StemOf(name: string): (r: Option<string>)
    ensures r.Some? ==> '/' !in r.value
  {
    FileNamePartsHaveNoSlash(name);
    FileStem(ParsePath(name))
  }

  /** The names `remote_cache_candidates` tries for a reference, in order. */
  function RemoteNameCandidates(reference: string): (r: seq<string>)
    ensures 2 <= |r| <= 3 && r[0] == RemoteCanonicalName(reference)
    ensures forall x :: x in r ==> '/' !in x
  {
    var canonical := RemoteCanonicalName(reference);
    NameCandidates(canonical, RemoteBaseName(BeforeFirst(reference, '?')), StemOf(canonical))
  }

  /**
   * The names collected by `remote_cache_candidates`: the canonical name, the
   * base name and the stem of the canonical name, each once and never empty.
   */
  method RemoteCacheNames(reference: string) returns (names: seq<string>)
    ensures names == UniqueNames(RemoteNameCandidates(reference))
    ensures 1 <= |names| <= 3 && Distinct(names)
    ensures names[0] == RemoteCanonicalName(reference)
    ensures PlainNames(names)
  {
    var trimmed := BeforeFirst(reference, '?');
    var base := RemoteBaseName(trimmed);
    var canonical := CanonicalName(trimmed, base);
    ghost var tried := [canonical, base];
    names := PushUniqueName([], canonical);
    assert names == UniqueNames([canonical]) by {
      UniqueNamesSnoc([], canonical);
    }
    var next := PushUniqueName(names, base);
    assert next == UniqueNames(tried) by {
      UniqueNamesSnoc([canonical], base);
      assert [canonical] + [base] == tried;
    }
    names := next;
    var stem := StemOf(canonical);
    if stem.Some? {
      next := PushUniqueName(names, stem.value);
      assert next == UniqueNames(NameCandidates(canonical, base, stem)) by {
        UniqueNamesSnoc(tried, stem.value);
      }
      names := next;
    } else {
      assert names == UniqueNames(NameCandidates(canonical, base, stem)) by {
        assert tried + [] == tried;
      }
    }
    RemoteNamesPlain(reference, names);
  }

  /** The collected names are plain, and the canonical name comes first. */
  lemma RemoteNamesPlain(reference: string, names: seq<string>)
    requires names == UniqueNames(RemoteNameCandidates(reference))
    ensures 1 <= |names| && names[0] == RemoteCanonicalName(reference)
    ensures PlainNames(names)
  {
    var candidates := RemoteNameCandidates(reference);
    UniqueNamesFirst(candidates);
    forall i | 0 <= i < |names| ensures '/' !in names[i] {
      assert names[i] in names;
    }
  }

  /** Each name joined to a directory, in order. */
  function JoinEach(dir: Path, names: seq<string>): (r: seq<Path>)
    ensures |r| == |names|
  {
    if names == [] then [] else [JoinName(dir, names[0])] + JoinEach(dir, names[1..])
  }

  /**
   * Every plain name joined to a directory starts with that directory's
   * components, and the first path is the first name's. A plain name may be
   * "..", so this is a component prefix, not containment on disk.
   */
  lemma {:induction false} JoinedInside(dir: Path, names: seq<string>)
    requires PlainNames(names)
    ensures var r := JoinEach(dir, names);
      (names != [] ==> r[0] == JoinName(dir, names[0]))
      && forall i :: 0 <= i < |r| ==> PathStartsWith(r[i], dir)
  {
    if names != [] {
      assert names[0][0] in names[0];
      JoinRelative(dir, names[0]);
      assert PlainNames(names[1..]);
      JoinedInside(dir, names[1..]);
    }
  }

  /**
   * `remote_cache_candidates`: the cache paths where an earlier download of
   * the reference may be, the canonical name first. Each is the cache
   * directory followed by the components of one name without '/' (which may
   * be "..", as for "http://h/..").
   */
  method RemoteCacheCandidates(cacheDir: Path, reference: string) returns (paths: seq<Path>)
    ensures paths == JoinEach(cacheDir, UniqueNames(RemoteNameCandidates(reference)))
    ensures 1 <= |paths| <= 3
    ensures paths[0] == JoinName(cacheDir, RemoteCanonicalName(reference))
    ensures forall i :: 0 <= i < |paths| ==> PathStartsWith(paths[i], cacheDir)
  {
    var names := RemoteCacheNames(reference);
    paths := JoinEach(cacheDir, names);
    JoinedInside(cacheDir, names);
  }

  // ---- preferred_filename, default_filename, numbered_filename ----------------

  /**
   * The name a source had: the file name of the path it was read from, else
   * the file name of the reference before any '?'.
   */
  function RawName(cachedPath: Option<Path>, reference: string): Option<string>
  {
    if cachedPath.Some? && FileName(cachedPath.value).Some? then FileName(cachedPath.value)
    else FileName(ParsePath(BeforeFirst(reference, '?')))
  }

  /** The requested extension after a single '.', for a name without an extension of its own. */
  function AppendExtension(name: string, extension: string): (r: string)
    ensures StartsWith(r, name) && EndsWith(r, extension)
    ensures r == name + "." + extension || (EndsWith(name, ".") && r == name + extension)
    ensures '/' !in name && '/' !in extension ==> '/' !in r
  {
    var dotted := if EndsWith(name, ".") then name else name + ".";
    dotted + extension
  }

  /**
   * `preferred_filename`: the sanitised name of the source, given the
   * requested extension when it has none of its own. An existing extension is
   * kept even when it differs from the requested one.
   */
  function PreferredFilename(cachedPath: Option<Path>, reference: string, extension: string): (r: Option<string>)
    ensures r.Some? <==> RawName(cachedPath, reference).Some? && SanitizeFilename(RawName(cachedPath, reference).value) != []
    ensures r.Some? ==> StartsWith(r.value, SanitizeFilename(RawName(cachedPath, reference).value))
    ensures r.Some? && '/' !in extension ==> '/' !in r.value
  {
    match RawName(cachedPath, reference)
    case None => None
    case Some(raw) => NameWithExtension(SanitizeFilename(raw), extension)
  }

  /** The sanitised name, with the requested extension when it has none of its own. */
  function NameWithExtension(sanitized: string, extension: string): (r: Option<string>)
    requires AllSafe(sanitized)
    ensures r.Some? <==> sanitized != []
    ensures r.Some? ==> StartsWith(r.value, sanitized)
    ensures r.Some? && '/' !in extension ==> '/' !in r.value
  {
    SafeIsPlain(sanitized);
    if sanitized == [] then None
    else if Extension(ParsePath(sanitized)).Some? || extension == [] then Some(sanitized)
    else Some(AppendExtension(sanitized, extension))
  }

  /**
   * A sanitised name without an extension of its own comes out with the
   * requested extension, as `Path::extension` reads it back (the lone name "."
   * aside, which becomes a hidden file without extension).
   */
  lemma NameGetsRequestedExtension(sanitized: string, extension: string)
    requires AllSafe(sanitized) && sanitized != [] && sanitized != "."
    requires Extension(ParsePath(sanitized)).None?
    requires extension != [] && '.' !in extension && '/' !in extension
    ensures Extension(ParsePath(NameWithExtension(sanitized, extension).value)) == Some(extension)
  {
    SafeIsPlain(sanitized);
    var r := AppendExtension(sanitized, extension);
    assert NameWithExtension(sanitized, extension) == Some(r);
    var p := AppendedDot(sanitized, extension);
    ParseSimpleName(r);
    LastDotAt(r, p);
  }

  /** Where the dot before the appended extension sits. */
  lemma AppendedDot(name: string, extension: string) returns (p: nat)
    requires name != [] && name != "." && '/' !in name && '/' !in extension
    requires extension != [] && '.' !in extension
    ensures var r := AppendExtension(name, extension);
      && 0 < p < |r| && r[p] == '.' && r[p + 1..] == extension
      && '/' !in r && r != "." && r != ".."
  {
    var r := AppendExtension(name, extension);
    var dotted := if EndsWith(name, ".") then name else name + ".";
    assert r == dotted + extension;
    assert |name| == 1 ==> name == [name[0]];
    assert |dotted| >= 2 && dotted[|dotted| - 1] == '.';
    p := |dotted| - 1;
    assert r[p] == dotted[p];
    assert r[p + 1..] == extension;
    assert extension[|extension| - 1] in extension;
    assert r[|r| - 1] != '.';
  }

  /** `default_filename`: "image", with the extension when there is one. */
  function DefaultFilename(extension: string): (r: string)
    ensures StartsWith(r, "image")
    ensures extension == [] ==> r == "image" && AllSafe(r)
    ensures extension != [] ==> |r| > 6 && r[5] == '.' && r[6..] == extension
    ensures '/' !in extension ==> '/' !in r
  {
    var image := "image";
    assert forall i :: 0 <= i < |image| ==> IsAsciiLower(image[i]);
    assert '/' !in image + ".";
    if extension == [] then image else image + "." + extension
  }

  /** The stem used for numbering: the file stem when not empty, else the whole base. */
  function NumberingStem(base: string): string
  {
    match FileStem(ParsePath(base))
    case Some(stem) => if stem != [] then stem else base
    case None => base
  }

  /** The extension kept when numbering: the non-empty extension of the base. */
  function NumberingTail(base: string): string
  {
    match Extension(ParsePath(base))
    case Some(ext) => if ext != [] then "." + ext else []
    case None => []
  }

  /** `numbered_filename`: "stem-n.ext", or "stem-n" when the base has no extension. */
  function NumberedFilename(base: string, counter: nat): (r: string)
    ensures r == NumberingStem(base) + "-" + NatToString(counter) + NumberingTail(base)
  {
    var stem := NumberingStem(base);
    match Extension(ParsePath(base))
    case Some(ext) =>
      if ext != [] then stem + "-" + NatToString(counter) + "." + ext
      else stem + "-" + NatToString(counter)
    case None => stem + "-" + NatToString(counter)
  }

  /** Different counters give different names. */
  lemma NumberedFilenameInjective(base: string, m: nat, n: nat)
    requires NumberedFilename(base, m) == NumberedFilename(base, n)
    ensures m == n
  {
    var stem, tail := NumberingStem(base), NumberingTail(base);
    var a, b := NatToString(m), NatToString(n);
    var x, y := stem + "-" + a + tail, stem + "-" + b + tail;
    assert |a| == |b|;
    var k := |stem| + 1;
    assert x[k..k + |a|] == a;
    assert y[k..k + |b|] == b;
    NatToStringInjective(m, n);
  }

  /** A numbered name of a plain file name holds no '/' and is a plain file name too. */
  lemma NumberedFilenameIsPlain(base: string, counter: nat)
    requires '/' !in base
    ensures var r := NumberedFilename(base, counter);
      '/' !in r && r != [] && r != "." && r != ".." && r[0] != '/'
  {
    FileNamePartsHaveNoSlash(base);
    var r := NumberedFilename(base, counter);
    var stem := NumberingStem(base);
    assert r[|stem|] == '-';
    assert forall i :: 0 <= i < |NatToString(counter)| ==> NatToString(counter)[i] != '/';
  }

  /**
   * A numbered name never equals the plain file name it was made from: it is
   * longer.
   */
  lemma NumberedFilenameDiffers(base: string, counter: nat)
    requires '/' !in base && base != [] && base != "." && base != ".."
    ensures |NumberedFilename(base, counter)| > |base|
  {
    ParseSimpleName(base);
    var parts := SplitExtension(base);
    assert FileStem(ParsePath(base)) == parts.0;
    assert Extension(ParsePath(base)) == parts.1;
  }
}
