/**
 * Unix paths as Rust's `std::path::Path` sees them: a sequence of components.
 * Two paths are equal when their components are, as `PathBuf`'s equality is.
 */
module Paths {
  import opened Wrappers
  import opened Strings

  datatype Component = RootDir | CurDir | ParentDir | Normal(name: string)

  type Path = seq<Component>

  /** Rust's `str::split(c)`: always at least one piece; separators are dropped. */
  function SplitChar(s: string, c: char): (r: seq<string>)
    ensures |r| >= 1
    ensures forall i :: 0 <= i < |r| ==> c !in r[i]
    decreases |s|
  {
    match IndexOf(s, c)
    case None => [s]
    case Some(i) => [s[..i]] + SplitChar(s[i + 1..], c)
  }

  /** The text before the first occurrence of `c` (Rust's `split(c).next()`). */
  function BeforeFirst(s: string, c: char): (r: string)
    ensures StartsWith(s, r) && c !in r
    ensures c in s ==> |r| < |s| && s[|r|] == c
    ensures c !in s ==> r == s
  {
    match IndexOf(s, c)
    case None => s
    case Some(i) => s[..i]
  }

  function PieceComponents(pieces: seq<string>, allowCurDir: bool): Path
  {
    if pieces == [] then []
    else
      var p := pieces[0];
      var here :=
        if p == "" then []
        else if p == "." then (if allowCurDir then [CurDir] else [])
        else if p == ".." then [ParentDir]
        else [Normal(p)];
      here + PieceComponents(pieces[1..], false)
  }

  /**
   * Rust's `Path::new(s).components()` on Unix: a leading '/' is the root,
   * empty pieces and "." pieces vanish (except a leading "." of a relative
   * path), ".." is the parent directory.
   */
  function ParsePath(s: string): Path
  {
    var rooted := |s| > 0 && s[0] == '/';
    (if rooted then [RootDir] else []) + PieceComponents(SplitChar(s, '/'), !rooted)
  }

  /** Rust's `Path::file_name`: the last component when it is a normal one. */
  function FileName(p: Path): (r: Option<string>)
    ensures r.Some? ==> p != [] && p[|p| - 1] == Normal(r.value)
  {
    if p != [] && p[|p| - 1].Normal? then Some(p[|p| - 1].name) else None
  }

  /** The index of the last '.' in `s`. */
  function LastDot(s: string): (r: Option<nat>)
    ensures r.Some? ==> r.value < |s| && s[r.value] == '.' && '.' !in s[r.value + 1..]
    ensures r.None? ==> '.' !in s
  {
    if s == [] then None
    else if s[|s| - 1] == '.' then Some(|s| - 1)
    else
      assert s == s[..|s| - 1] + [s[|s| - 1]];
      LastDot(s[..|s| - 1])
  }

  /** A '.' with no '.' after it is the last dot. */
  lemma LastDotAt(s: string, p: nat)
    requires p < |s| && s[p] == '.' && '.' !in s[p + 1..]
    ensures LastDot(s) == Some(p)
  {
    var q := LastDot(s).value;
    assert s[p] in s[q + 1..] || q >= p;
    assert s[q] in s[p + 1..] || q <= p;
  }

  /**
   * Rust's split of a file name at its last dot: (stem, extension). A name
   * whose only dot is its first character has no extension.
   */
  function SplitExtension(name: string): (r: (Option<string>, Option<string>))
    ensures r.0.Some?
    ensures r.1.None? ==> r.0.value == name
    ensures r.1.Some? ==> r.0.value != [] && r.0.value + "." + r.1.value == name && '.' !in r.1.value
  {
    if name == ".." then (Some(name), None)
    else match LastDot(name)
      case None => (Some(name), None)
      case Some(i) =>
        if i == 0 then (Some(name), None) else (Some(name[..i]), Some(name[i + 1..]))
  }

  /** Rust's `Path::file_stem`. */
  function FileStem(p: Path): Option<string>
  {
    match FileName(p)
    case None => None
    case Some(n) => SplitExtension(n).0
  }

  /** Rust's `Path::extension`. */
  function Extension(p: Path): Option<string>
  {
    match FileName(p)
    case None => None
    case Some(n) => SplitExtension(n).1
  }

  /** Rust's `Path::join`: an absolute right-hand side replaces the left. */
  function Join(p: Path, q: Path): Path
  {
    if q != [] && q[0] == RootDir then q else p + q
  }

  /** `dir.join(name)` for a file name given as text. */
  function JoinName(dir: Path, name: string): Path
  {
    Join(dir, ParsePath(name))
  }

  /** Rust's `Path::starts_with`: a component-wise prefix. */
  predicate PathStartsWith(p: Path, base: Path)
  {
    |base| <= |p| && p[..|base|] == base
  }

  /** Rust's `Path::strip_prefix`. */
  function StripPrefix(p: Path, base: Path): (r: Option<Path>)
    ensures r.Some? <==> PathStartsWith(p, base)
    ensures r.Some? ==> base + r.value == p
  {
    if PathStartsWith(p, base) then Some(p[|base|..]) else None
  }

  /** Rust's `Path::parent`. */
  function Parent(p: Path): (r: Option<Path>)
    ensures r.Some? ==> |r.value| + 1 == |p|
  {
    if p != [] && p[|p| - 1] != RootDir then Some(p[..|p| - 1]) else None
  }

  /** Rust's `Path::with_extension`: the file name becomes stem + "." + ext. */
  function WithExtension(p: Path, ext: string): (r: Path)
    ensures |r| == |p|
  {
    match FileStem(p)
    case None => p
    case Some(stem) => p[..|p| - 1] + [Normal(if ext == "" then stem else stem + "." + ext)]
  }

  /** Each character of `s`, with '\\' turned into '/'. */
  function BackslashToSlash(s: string): (r: string)
    ensures |r| == |s|
  {
    seq(|s|, i requires 0 <= i < |s| => if s[i] == '\\' then '/' else s[i])
  }

  /** The normal components' names, as `public_url_for` collects them. */
  function NormalSegments(p: Path): (r: seq<string>)
    ensures |r| <= |p|
  {
    if p == [] then []
    else
      var rest := NormalSegments(p[1..]);
      if p[0].Normal? then [BackslashToSlash(p[0].name)] + rest else rest
  }

  /** Rust's `join(sep)` on a vector of strings. */
  function JoinWith(parts: seq<string>, sep: string): string
  {
    if parts == [] then []
    else if |parts| == 1 then parts[0]
    else parts[0] + sep + JoinWith(parts[1..], sep)
  }

  lemma {:induction false} PieceComponentsShape(pieces: seq<string>, allowCurDir: bool)
    requires forall i :: 0 <= i < |pieces| ==> '/' !in pieces[i]
    ensures RootDir !in PieceComponents(pieces, allowCurDir)
    ensures forall c :: c in PieceComponents(pieces, allowCurDir) && c.Normal? ==> '/' !in c.name
  {
    if pieces != [] {
      PieceComponentsShape(pieces[1..], false);
    }
  }

  /** The components of a path never hold a '/', and only a leading '/' makes a root. */
  lemma ParsePathShape(s: string)
    ensures forall c :: c in ParsePath(s) && c.Normal? ==> '/' !in c.name
    ensures (s == [] || s[0] != '/') ==> RootDir !in ParsePath(s)
  {
    PieceComponentsShape(SplitChar(s, '/'), !(|s| > 0 && s[0] == '/'));
  }

  /** The file name, stem and extension of a parsed path hold no '/'. */
  lemma FileNamePartsHaveNoSlash(s: string)
    ensures FileName(ParsePath(s)).Some? ==> '/' !in FileName(ParsePath(s)).value
    ensures FileStem(ParsePath(s)).Some? ==> '/' !in FileStem(ParsePath(s)).value
    ensures Extension(ParsePath(s)).Some? ==> '/' !in Extension(ParsePath(s)).value
  {
    ParsePathShape(s);
    var p := ParsePath(s);
    if FileName(p).Some? {
      var n := FileName(p).value;
      assert p[|p| - 1] in p;
      var parts := SplitExtension(n);
      if parts.1.Some? {
        assert n == parts.0.value + "." + parts.1.value;
        assert forall i :: 0 <= i < |parts.0.value| ==> parts.0.value[i] == n[i];
        assert forall i :: 0 <= i < |parts.1.value| ==> parts.1.value[i] == n[|parts.0.value| + 1 + i];
      }
    }
  }

  /** Joining a relative name appends its components. */
  lemma JoinRelative(dir: Path, name: string)
    requires name == [] || name[0] != '/'
    ensures JoinName(dir, name) == dir + ParsePath(name)
    ensures PathStartsWith(JoinName(dir, name), dir)
  {
    ParsePathShape(name);
    var q := ParsePath(name);
    if q != [] {
      assert q[0] in q;
    }
    assert (dir + q)[..|dir|] == dir;
  }

  /** A name without '/' that is not "", "." or ".." is one normal component. */
  lemma ParseSimpleName(name: string)
    requires '/' !in name && name != "" && name != "." && name != ".."
    ensures ParsePath(name) == [Normal(name)]
  {
    assert IndexOf(name, '/') == None;
    assert SplitChar(name, '/') == [name];
    assert name[0] != '/';
    assert [name][1..] == [];
    assert PieceComponents([name], true) == [Normal(name)] + PieceComponents([], false);
  }

  /** "." is the current directory. */
  lemma ParseCurDir()
    ensures ParsePath(".") == [CurDir]
  {
    assert IndexOf(".", '/') == None;
    assert SplitChar(".", '/') == ["."];
    assert ["."][1..] == [];
    assert PieceComponents(["."], true) == [CurDir] + PieceComponents([], false);
  }
}
