/**
 * The cache side of the image pipeline (src/image_processor.rs): the cache
 * directory modelled as a map from paths to file contents, the
 * content-deduplicating store of originals, the lookup of earlier downloads,
 * the public URL of a cached file and the sidecar that remembers an image's
 * dimensions.
 */
module ImageCache {
  import opened Wrappers
  import opened Strings
  import opened Paths
  import opened Config
  import opened ImageFormats
  import opened CacheNames

  /** The files of the cache: their paths and contents. Directories are implicit. */
  class FileStore {
    var files: map<Path, seq<byte>>

    constructor (initial: map<Path, seq<byte>>)
      ensures files == initial
    {
      files := initial;
    }

    /** `fs::write`: creates or replaces the file. */
    method Write(p: Path, data: seq<byte>)
      modifies this
      ensures files == old(files)[p := data]
    {
      files := files[p := data];
    }
  }

  /** A loaded source image. */
  datatype SourceImage = SourceImage(
    reference: string,
    bytes: seq<byte>,
    format: SourceFormat,
    cachedPath: Option<Path>)

  /** The fields of `ImageProcessor`: its settings, cache directory and site root URL. */
  datatype ImageProcessor = ImageProcessor(config: ImagesConfig, cacheDir: Path, rootUrl: Option<string>)

  /** `ImageProcessor::new`: the cache directory is the configured one, as a path. */
  function NewImageProcessor(config: ImagesConfig, rootUrl: Option<string>): (r: ImageProcessor)
    ensures r.cacheDir == ParsePath(config.cacheDir) && r.config == config && r.rootUrl == rootUrl
  {
    ImageProcessor(config, ParsePath(config.cacheDir), rootUrl)
  }

  // ---- try_load_cached_remote -------------------------------------------------

  /** The first candidate that exists in the store. */
  method FirstExisting(store: FileStore, candidates: seq<Path>) returns (found: Option<nat>)
    ensures found.Some? ==> found.value < |candidates| && candidates[found.value] in store.files
    ensures found.Some? ==> forall j :: 0 <= j < found.value ==> candidates[j] !in store.files
    ensures found.None? ==> forall j :: 0 <= j < |candidates| ==> candidates[j] !in store.files
  {
    var i := 0;
    while i < |candidates|
      invariant 0 <= i <= |candidates|
      invariant forall j :: 0 <= j < i ==> candidates[j] !in store.files
    {
      if candidates[i] in store.files {
        return Some(i);
      }
      i := i + 1;
    }
    return None;
  }

  datatype CacheLookup = Cached(source: SourceImage) | NotCached | LookupFailed(error: ImageError)

  /**
   * `try_load_cached_remote`: the first candidate present in the cache is
   * read and its format detected; `guess` stands for `image::guess_format`.
   */
  method TryLoadCachedRemote(store: FileStore, reference: string, candidates: seq<Path>,
                             guess: seq<byte> -> Option<ImageFormat>)
    returns (r: CacheLookup)
    ensures r.NotCached? <==> forall j :: 0 <= j < |candidates| ==> candidates[j] !in store.files
    ensures r.Cached? ==>
      exists i :: 0 <= i < |candidates| && r.source.cachedPath == Some(candidates[i])
        && candidates[i] in store.files && r.source.bytes == store.files[candidates[i]]
        && (forall j :: 0 <= j < i ==> candidates[j] !in store.files)
    ensures r.Cached? ==> (r.source.reference == reference
      && DetectFormat(reference, r.source.bytes, guess(r.source.bytes)) == Detected(r.source.format))
    ensures r.LookupFailed? ==> r.error == UnsupportedFormat
  {
    var found := FirstExisting(store, candidates);
    match found
    case None =>
      r := NotCached;
    case Some(i) =>
      var bytes := store.files[candidates[i]];
      match DetectFormat(reference, bytes, guess(bytes))
      case Detected(format) =>
        r := Cached(SourceImage(reference, bytes, format, Some(candidates[i])));
      case Failed(e) =>
        r := LookupFailed(e);
  }

  // ---- ensure_original_cached -------------------------------------------------

  /** The path of the `counter`-th numbered name in the cache directory. */
  function Candidate(cacheDir: Path, base: string, counter: nat): Path
  {
    JoinName(cacheDir, NumberedFilename(base, counter))
  }

  /** A file holding something other than `bytes`. */
  predicate Occupied(files: map<Path, seq<byte>>, p: Path, bytes: seq<byte>)
  {
    p in files && files[p] != bytes
  }

  /** A numbering of paths that gives different counters different paths. */
  ghost predicate Injective(cand: nat -> Path)
  {
    forall m: nat, n: nat :: cand(m) == cand(n) ==> m == n
  }

  /** The paths probed before `counter`: those numbered 2 <= k < counter. */
  ghost function Probed(cand: nat -> Path, counter: nat): set<Path>
  {
    if counter <= 2 then {} else Probed(cand, counter - 1) + {cand(counter - 1)}
  }

  lemma {:induction false} ProbedMember(cand: nat -> Path, counter: nat, p: Path)
    requires p in Probed(cand, counter)
    ensures exists k :: 2 <= k < counter && p == cand(k)
  {
    if p != cand(counter - 1) {
      ProbedMember(cand, counter - 1, p);
    }
  }

  /** Each counter probed adds one path. */
  lemma {:induction false} ProbedSize(cand: nat -> Path, counter: nat)
    requires Injective(cand) && counter >= 2
    ensures |Probed(cand, counter)| == counter - 2
    decreases counter
  {
    if counter > 2 {
      ProbedSize(cand, counter - 1);
      if cand(counter - 1) in Probed(cand, counter - 1) {
        ProbedMember(cand, counter - 1, cand(counter - 1));
      }
    }
  }

  lemma {:induction false} SubsetSize<T>(a: set<T>, b: set<T>)
    requires a <= b
    ensures |a| <= |b|
    decreases |a|
  {
    if a != {} {
      var x :| x in a;
      SubsetSize(a - {x}, b - {x});
    }
  }

  /** The probe cannot pass more counters than there are files. */
  lemma ProbeBound(cand: nat -> Path, counter: nat, keys: set<Path>)
    requires Injective(cand) && counter >= 2
    requires Probed(cand, counter) <= keys
    ensures counter - 2 <= |keys|
  {
    ProbedSize(cand, counter);
    SubsetSize(Probed(cand, counter), keys);
  }

  /**
   * The numbered probe of `ensure_original_cached`: from counter 2 upwards,
   * the first numbered path that is free or already holds `bytes`.
   */
  method ProbeNumbered(store: FileStore, cand: nat -> Path, bytes: seq<byte>)
    returns (target: Path, counter: nat)
    requires Injective(cand)
    ensures counter >= 2 && target == cand(counter)
    ensures !Occupied(store.files, target, bytes)
    ensures forall j :: 2 <= j < counter ==> Occupied(store.files, cand(j), bytes)
  {
    counter := 2;
    while true
      invariant counter >= 2
      invariant Probed(cand, counter) <= store.files.Keys
      invariant forall j :: 2 <= j < counter ==> Occupied(store.files, cand(j), bytes)
      decreases |store.files.Keys| + 2 - counter
    {
      ProbeBound(cand, counter, store.files.Keys);
      target := cand(counter);
      if !Occupied(store.files, target, bytes) {
        return;
      }
      counter := counter + 1;
    }
  }

  /** The path of a numbered name is the cache directory followed by that name. */
  lemma CandidateShape(cacheDir: Path, base: string, counter: nat)
    requires '/' !in base
    ensures Candidate(cacheDir, base, counter) == cacheDir + [Normal(NumberedFilename(base, counter))]
    ensures PathStartsWith(Candidate(cacheDir, base, counter), cacheDir)
  {
    var a := NumberedFilename(base, counter);
    NumberedFilenameIsPlain(base, counter);
    ParseSimpleName(a);
    JoinRelative(cacheDir, a);
  }

  /** Numbered paths for different counters are different files. */
  lemma CandidateInjective(cacheDir: Path, base: string, m: nat, n: nat)
    requires '/' !in base
    requires Candidate(cacheDir, base, m) == Candidate(cacheDir, base, n)
    ensures m == n
  {
    CandidateShape(cacheDir, base, m);
    CandidateShape(cacheDir, base, n);
    var a, b := NumberedFilename(base, m), NumberedFilename(base, n);
    assert (cacheDir + [Normal(a)])[|cacheDir|] == Normal(a);
    assert (cacheDir + [Normal(b)])[|cacheDir|] == Normal(b);
    NumberedFilenameInjective(base, m, n);
  }

  lemma CandidatesInjective(cacheDir: Path, base: string)
    requires '/' !in base
    ensures Injective(Numbering(cacheDir, base))
  {
    forall m: nat, n: nat | Candidate(cacheDir, base, m) == Candidate(cacheDir, base, n)
      ensures m == n
    {
      CandidateInjective(cacheDir, base, m, n);
    }
  }

  /** The name an original is cached under before numbering. */
  function BaseName(source: SourceImage, extension: string): (r: string)
    ensures '/' !in extension ==> '/' !in r
  {
    match PreferredFilename(source.cachedPath, source.reference, extension)
    case Some(name) => name
    case None => DefaultFilename(extension)
  }

  /** The base name is a relative, non-empty name. */
  lemma BaseNameRelative(source: SourceImage, extension: string)
    ensures BaseName(source, extension) != [] && BaseName(source, extension)[0] != '/'
  {
    var base := BaseName(source, extension);
    if PreferredFilename(source.cachedPath, source.reference, extension).None? {
      assert StartsWith(base, "image");
    } else {
      var raw := RawName(source.cachedPath, source.reference).value;
      var name := SanitizeFilename(raw);
      assert StartsWith(base, name) && name != [];
      SafeIsPlain(name);
      assert base[0] == name[0];
    }
  }

  /** A source already read from inside the cache directory needs no copy. */
  predicate AlreadyInCache(source: SourceImage, cacheDir: Path)
  {
    source.cachedPath.Some? && PathStartsWith(source.cachedPath.value, cacheDir)
  }

  /** The numbering of `ensure_original_cached`: counter k names "{stem}-{k}{ext}" in the cache. */
  function Numbering(cacheDir: Path, base: string): nat -> Path
  {
    (k: nat) => Candidate(cacheDir, base, k)
  }

  /**
   * `r` is the first path of the numbering from counter 2 on that is not taken
   * by other contents.
   */
  ghost predicate FirstFree(files: map<Path, seq<byte>>, cand: nat -> Path, bytes: seq<byte>, r: Path)
  {
    exists k: nat :: k >= 2 && r == cand(k) && !Occupied(files, r, bytes)
      && forall j :: 2 <= j < k ==> Occupied(files, cand(j), bytes)
  }

  /**
   * `ensure_original_cached`. A source already inside the cache directory is
   * returned as it is. Otherwise the base name, then its numbered variants
   * "-2", "-3", ... are probed in order: the first one that holds the source's
   * bytes is returned, else the source is written to the first free one. A
   * file with other contents is never overwritten, and the returned file holds
   * the source's bytes.
   */
  method EnsureOriginalCached(store: FileStore, cacheDir: Path, source: SourceImage, extension: string)
    returns (r: Path)
    requires '/' !in extension
    modifies store
    ensures PathStartsWith(r, cacheDir)
    ensures AlreadyInCache(source, cacheDir) ==> r == source.cachedPath.value && store.files == old(store.files)
    ensures !AlreadyInCache(source, cacheDir) ==>
      && store.files == old(store.files)[r := source.bytes]
      && !Occupied(old(store.files), r, source.bytes)
    ensures !AlreadyInCache(source, cacheDir) ==> (var base := BaseName(source, extension);
      || r == JoinName(cacheDir, base)
      || (Occupied(old(store.files), JoinName(cacheDir, base), source.bytes)
          && FirstFree(old(store.files), Numbering(cacheDir, base), source.bytes, r)))
  {
    if AlreadyInCache(source, cacheDir) {
      return source.cachedPath.value;
    }
    var base := BaseName(source, extension);
    BaseNameRelative(source, extension);
    JoinRelative(cacheDir, base);
    r := JoinName(cacheDir, base);
    if Occupied(store.files, r, source.bytes) {
      CandidatesInjective(cacheDir, base);
      var counter;
      r, counter := ProbeNumbered(store, Numbering(cacheDir, base), source.bytes);
      CandidateShape(cacheDir, base, counter);
      assert FirstFree(store.files, Numbering(cacheDir, base), source.bytes, r);
    }
    if r in store.files && store.files[r] == source.bytes {
      return;
    }
    store.Write(r, source.bytes);
  }

  // ---- public_url_for ---------------------------------------------------------

  /** The URL under a site root: the root itself for an empty path, else root/path. */
  function UnderRoot(prefix: string, joined: string): (r: string)
    ensures StartsWith(r, TrimEndMatches(prefix, '/'))
  {
    TrimEndMatchesPrefix(prefix, '/');
    if joined == [] then prefix else TrimEndMatches(prefix, '/') + "/" + joined
  }

  /** A site-absolute URL: "/" followed by the path without its leading slashes. */
  function SiteAbsolute(joined: string): (r: string)
    ensures r != [] && r[0] == '/'
  {
    if joined == [] then "/" else "/" + TrimStartMatches(joined, '/')
  }

  /** The image root URL when it is configured and not empty. */
  function ImgRoot(config: ImagesConfig): Option<string>
  {
    if config.imgRootUrl.Some? && config.imgRootUrl.value != [] then config.imgRootUrl else None
  }

  /**
   * `public_url_for`: the URL of a file in the cache. Below the image root
   * URL when one is configured; otherwise the configured cache directory and
   * the file's path inside it, below the site root URL, or site-absolute when
   * there is none or it is "/".
   */
  function PublicUrlFor(proc: ImageProcessor, path: Path): (r: string)
    ensures ImgRoot(proc.config).Some? ==> StartsWith(r, TrimEndMatches(ImgRoot(proc.config).value, '/'))
    ensures ImgRoot(proc.config).None? && (proc.rootUrl.None? || proc.rootUrl == Some("/")) ==>
      r != [] && r[0] == '/'
    ensures ImgRoot(proc.config).None? && proc.rootUrl.Some? && proc.rootUrl != Some("/") ==>
      StartsWith(r, TrimEndMatches(proc.rootUrl.value, '/'))
  {
    var relative := StripPrefix(path, proc.cacheDir).GetOr(path);
    var rel := JoinWith(NormalSegments(relative), "/");
    match ImgRoot(proc.config)
    case Some(prefix) => UnderRoot(prefix, rel)
    case None =>
      var cacheParts := NormalSegments(ParsePath(proc.config.cacheDir));
      var fullParts := if rel == [] then cacheParts else cacheParts + [rel];
      var joined := JoinWith(fullParts, "/");
      match proc.rootUrl
      case Some(prefix) => if prefix == "/" then SiteAbsolute(joined) else UnderRoot(prefix, joined)
      case None => SiteAbsolute(joined)
  }

  /** A plain file name: no separator of either kind, and not "", "." or "..". */
  predicate PlainFileName(name: string)
  {
    '/' !in name && '\\' !in name && name != [] && name != "." && name != ".."
  }

  /** The only normal segment of the path of a plain name inside the cache is the name. */
  lemma SegmentsOfCachedName(cacheDir: Path, name: string)
    requires PlainFileName(name)
    ensures StripPrefix(JoinName(cacheDir, name), cacheDir) == Some([Normal(name)])
    ensures JoinWith(NormalSegments([Normal(name)]), "/") == name
  {
    ParseSimpleName(name);
    JoinRelative(cacheDir, name);
    assert (cacheDir + [Normal(name)])[|cacheDir|..] == [Normal(name)];
    PlainSegment(name);
  }

  /** A name without backslashes is its own URL segment. */
  lemma PlainSegment(name: string)
    requires '\\' !in name
    ensures NormalSegments([Normal(name)]) == [name]
  {
    assert BackslashToSlash(name) == name;
    assert [Normal(name)][1..] == [];
  }

  /** With an image root URL, a cached file is published as root/name. */
  lemma UrlBelowImgRoot(proc: ImageProcessor, name: string)
    requires ImgRoot(proc.config).Some? && PlainFileName(name)
    ensures PublicUrlFor(proc, JoinName(proc.cacheDir, name))
      == TrimEndMatches(ImgRoot(proc.config).value, '/') + "/" + name
  {
    SegmentsOfCachedName(proc.cacheDir, name);
  }

  /**
   * Without any root URL, a file of a one-directory cache "dir" is published
   * as "/dir/name".
   */
  lemma UrlSiteAbsolute(config: ImagesConfig, dir: string, name: string)
    requires ImgRoot(config).None? && PlainFileName(name) && PlainFileName(dir)
    requires config.cacheDir == dir
    ensures PublicUrlFor(NewImageProcessor(config, None), JoinName(ParsePath(dir), name)) == "/" + dir + "/" + name
  {
    var proc := NewImageProcessor(config, None);
    SegmentsOfCachedName(proc.cacheDir, name);
    ParseSimpleName(dir);
    PlainSegment(dir);
    var joined := JoinWith([dir, name], "/");
    assert joined == dir + "/" + JoinWith([name], "/");
    assert joined[0] == dir[0] != '/';
    assert TrimStartMatches(joined, '/') == joined;
  }

  // ---- the dimension sidecar --------------------------------------------------

  /** `dimension_cache_path`: the original's path with the extension "txt". */
  function DimensionCachePath(original: Path): (r: Path)
    ensures |r| == |original|
  {
    WithExtension(original, "txt")
  }

  /**
   * The sidecar sits in the original's directory, named after the original's
   * stem with the extension "txt".
   */
  lemma SidecarBesideOriginal(original: Path)
    requires FileName(original).Some?
    ensures Parent(DimensionCachePath(original)) == Parent(original)
    ensures FileName(DimensionCachePath(original)) == Some(FileStem(original).value + ".txt")
  {
    var stem := SplitExtension(FileName(original).value).0.value;
    assert FileStem(original) == Some(stem);
    var r := DimensionCachePath(original);
    assert r == original[..|original| - 1] + [Normal(stem + "." + "txt")];
    assert r[..|r| - 1] == original[..|original| - 1];
    assert stem + "." + "txt" == stem + ".txt";
  }

  /** The sidecar text: "{width} {height}\n". */
  function DimensionsText(width: nat, height: nat): string
  {
    NatToString(width) + " " + NatToString(height) + "\n"
  }

  /** The first two whitespace-separated words, each parsed as a `u32`. */
  function ParseDimensions(text: string): (r: Option<(nat, nat)>)
    ensures r.Some? ==> r.value.0 <= U32_MAX && r.value.1 <= U32_MAX
  {
    var parts := SplitWhitespace(text);
    if |parts| < 2 then None
    else match (ParseU32(parts[0]), ParseU32(parts[1]))
      case (Some(w), Some(h)) => Some((w, h))
      case _ => None
  }

  /** Text as bytes: the sidecar text is ASCII, where UTF-8 is one byte per character. */
  function AsciiBytes(s: string): (r: seq<byte>)
    requires forall i :: 0 <= i < |s| ==> s[i] as int < 128
    ensures |r| == |s|
  {
    seq(|s|, i requires 0 <= i < |s| => s[i] as int as byte)
  }

  /** `fs::read_to_string` on ASCII contents; other contents are not read. */
  function DecodeAscii(bytes: seq<byte>): (r: Option<string>)
    ensures r.Some? ==> |r.value| == |bytes|
  {
    if forall i :: 0 <= i < |bytes| ==> bytes[i] < 128
    then Some(seq(|bytes|, i requires 0 <= i < |bytes| => bytes[i] as char))
    else None
  }

  lemma DigitsAreAscii(s: string)
    requires AllDigits(s)
    ensures forall i :: 0 <= i < |s| ==> s[i] as int < 128 && !IsWhitespace(s[i])
    ensures NoWhitespace(s)
  {
    assert forall i :: 0 <= i < |s| ==> IsAsciiDigit(s[i]);
  }

  /** The sidecar text is ASCII. */
  lemma DimensionsTextIsAscii(width: nat, height: nat)
    ensures var t := DimensionsText(width, height);
      forall i :: 0 <= i < |t| ==> t[i] as int < 128
  {
    var a, b := NatToString(width), NatToString(height);
    DigitsAreAscii(a);
    DigitsAreAscii(b);
    var t := DimensionsText(width, height);
    forall i | 0 <= i < |t| ensures t[i] as int < 128 {
      if i < |a| {
        assert t[i] == a[i];
      } else if i == |a| {
      } else if i < |a| + 1 + |b| {
        assert t[i] == b[i - |a| - 1];
      }
    }
  }

  /** The sidecar bytes for a width and a height. */
  function DimensionsBytes(width: nat, height: nat): seq<byte>
  {
    DimensionsTextIsAscii(width, height);
    AsciiBytes(DimensionsText(width, height))
  }

  /** `load_cached_dimensions`: the two numbers of the sidecar, when it exists and parses. */
  function LoadCachedDimensions(files: map<Path, seq<byte>>, original: Path): (r: Option<(nat, nat)>)
    ensures r.Some? ==> DimensionCachePath(original) in files
    ensures r.Some? ==> r.value.0 <= U32_MAX && r.value.1 <= U32_MAX
  {
    var p := DimensionCachePath(original);
    if p !in files then None
    else match DecodeAscii(files[p])
      case None => None
      case Some(text) => ParseDimensions(text)
  }

  /** `save_cached_dimensions`: writes "{width} {height}\n" beside the original. */
  method SaveCachedDimensions(store: FileStore, original: Path, width: nat, height: nat)
    modifies store
    ensures store.files == old(store.files)[DimensionCachePath(original) := DimensionsBytes(width, height)]
  {
    store.Write(DimensionCachePath(original), DimensionsBytes(width, height));
  }

  /** Reading back the ASCII bytes of a text gives the text. */
  lemma DecodeAsciiBytes(s: string)
    requires forall i :: 0 <= i < |s| ==> s[i] as int < 128
    ensures DecodeAscii(AsciiBytes(s)) == Some(s)
  {
    var b := AsciiBytes(s);
    assert forall i :: 0 <= i < |b| ==> b[i] < 128;
    assert seq(|b|, i requires 0 <= i < |b| => b[i] as char) == s;
  }

  /** Leading whitespace does not change the splitting. */
  lemma SplitAfterWhitespace(c: char, rest: string)
    requires IsWhitespace(c)
    ensures SplitWhitespace([c] + rest) == SplitWhitespace(rest)
  {
    assert ([c] + rest)[1..] == rest;
  }

  /** Two words, a space between them and a line end, split into the two words. */
  lemma SplitTwoWords(a: string, sep: char, b: string, end: char)
    requires a != [] && NoWhitespace(a) && b != [] && NoWhitespace(b)
    requires IsWhitespace(sep) && IsWhitespace(end)
    ensures SplitWhitespace(a + [sep] + (b + [end])) == [a, b]
  {
    var rest := b + [end];
    SplitWhitespaceOfWord(a, sep, rest);
    SplitAfterWhitespace(sep, rest);
    SplitLastWord(b, end);
  }

  /** A word and a final whitespace character split into the word. */
  lemma SplitLastWord(b: string, end: char)
    requires b != [] && NoWhitespace(b) && IsWhitespace(end)
    ensures SplitWhitespace(b + [end]) == [b]
  {
    assert b + [end] == b + [end] + [];
    SplitWhitespaceOfWord(b, end, []);
    assert SplitWhitespace([end] + []) == [];
  }

  /** The sidecar text parses back to the numbers written. */
  lemma ParseDimensionsText(width: nat, height: nat)
    requires width <= U32_MAX && height <= U32_MAX
    ensures ParseDimensions(DimensionsText(width, height)) == Some((width, height))
  {
    var a, b := NatToString(width), NatToString(height);
    DigitsAreAscii(a);
    DigitsAreAscii(b);
    assert IsWhitespace(' ') && IsWhitespace('\n');
    assert DimensionsText(width, height) == a + [' '] + (b + ['\n']);
    SplitTwoWords(a, ' ', b, '\n');
    ParseU32OfNatToString(width);
    ParseU32OfNatToString(height);
  }

  /** Saving the dimensions of an image and loading them back gives the same numbers. */
  lemma SidecarRoundTrip(files: map<Path, seq<byte>>, original: Path, width: nat, height: nat)
    requires width <= U32_MAX && height <= U32_MAX
    ensures LoadCachedDimensions(files[DimensionCachePath(original) := DimensionsBytes(width, height)], original)
      == Some((width, height))
  {
    DimensionsTextIsAscii(width, height);
    DecodeAsciiBytes(DimensionsText(width, height));
    ParseDimensionsText(width, height);
  }
}
