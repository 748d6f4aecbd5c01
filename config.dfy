/**
 * The site configuration (src/config.rs): the fields that `Config::normalize`
 * and the `Default` implementations touch, the image settings that the image
 * pipeline reads, and the default location of the configuration file.
 */
module Config {
  import opened Wrappers
  import opened Strings
  import opened Paths

  datatype MathConfig = MathConfig(preferPersistent: bool, command: Option<string>)

  /**
   * The `images` settings read by the image pipeline. Their declaration is not
   * part of this model; these are exactly the fields the pipeline uses.
   */
  datatype ImagesConfig = ImagesConfig(
    cacheDir: string,
    sizes: seq<nat>,
    layoutWidth: nat,
    jpegQuality: nat,
    remoteFetchTimeoutSecs: nat,
    imgRootUrl: Option<string>)
  {
    /** The widths are `u32` values and the quality a `u8`, as in the source. */
    predicate Valid()
    {
      && (forall i :: 0 <= i < |sizes| ==> sizes[i] <= U32_MAX)
      && layoutWidth <= U32_MAX
      && jpegQuality < 256
    }
  }

  /** The value `Config::normalize` leaves in `root_url`. */
  function NormalizedRoot(root: Option<string>): Option<string>
  {
    match root
    case None => None
    case Some(r) => if r == "/" then root else Some(TrimEndMatches(r, '/'))
  }

  /** An absent root URL and the root URL "/" are left alone. */
  lemma NormalizeKeepsNoneAndRoot()
    ensures NormalizedRoot(None) == None
    ensures NormalizedRoot(Some("/")) == Some("/")
  {
  }

  /**
   * Any other root URL loses every trailing '/', so that it never ends in '/';
   * what is kept is a prefix of the original and what is dropped is all '/'.
   */
  lemma NormalizeStripsTrailingSlashes(r: string)
    requires r != "/"
    ensures NormalizedRoot(Some(r)).Some?
    ensures var n := NormalizedRoot(Some(r)).value;
      && (n == [] || n[|n| - 1] != '/')
      && StartsWith(r, n)
      && forall i :: |n| <= i < |r| ==> r[i] == '/'
  {
    TrimEndMatchesPrefix(r, '/');
  }

  /** "//" normalises to the empty string: only the single "/" is protected. */
  lemma NormalizeDoubleSlash()
    ensures NormalizedRoot(Some("//")) == Some("")
  {
    assert "//"[..1] == "/";
    assert "/"[..0] == "";
  }

  /** Normalising twice is normalising once. */
  lemma {:induction false} NormalizeIdempotent(root: Option<string>)
    ensures NormalizedRoot(NormalizedRoot(root)) == NormalizedRoot(root)
  {
    match root
    case None =>
    case Some(r) =>
      if r != "/" {
        var t := TrimEndMatches(r, '/');
        assert t == [] || t[|t| - 1] != '/';
        assert t != "/";
        assert TrimEndMatches(t, '/') == t;
      }
  }

  class Config {
    var timings: bool
    var rootUrl: Option<string>
    var math: MathConfig

    /** `Config::default()` together with `MathConfig::default()`. */
    constructor ()
      ensures !timings && rootUrl == None
      ensures !math.preferPersistent && math.command == None
    {
      timings := false;
      rootUrl := None;
      math := MathConfig(false, None);
    }

    /** `Config::normalize`: trims the trailing slashes of `root_url` in place. */
    method Normalize()
      modifies this
      ensures rootUrl == NormalizedRoot(old(rootUrl))
      ensures timings == old(timings) && math == old(math)
    {
      match rootUrl
      case None =>
      case Some(root) =>
        if root != "/" {
          rootUrl := Some(TrimEndMatches(root, '/'));
        }
    }
  }

  const CONFIG_FILE_NAME: string := "dllup.toml"

  lemma ConfigFileNameIsOneComponent()
    ensures ParsePath(CONFIG_FILE_NAME) == [Normal(CONFIG_FILE_NAME)]
  {
    assert forall i :: 0 <= i < |CONFIG_FILE_NAME| ==> CONFIG_FILE_NAME[i] != '/';
    ParseSimpleName(CONFIG_FILE_NAME);
  }

  /**
   * `default_config_path`: "dllup.toml" in the input's parent directory, or in
   * "." when the input has no parent (the empty path or the root).
   */
  function DefaultConfigPath(input: Path): (r: Path)
    ensures FileName(r) == Some(CONFIG_FILE_NAME)
    ensures Parent(input).Some? ==> r == Parent(input).value + [Normal(CONFIG_FILE_NAME)]
    ensures Parent(input).None? ==> r == [CurDir, Normal(CONFIG_FILE_NAME)]
  {
    // `Path::new(".")` is the one component CurDir (lemma ParseCurDir), and
    // joining the file name appends one component (lemma DefaultConfigPathIsJoin).
    var dir := match Parent(input) case Some(d) => d case None => [CurDir];
    dir + [Normal(CONFIG_FILE_NAME)]
  }

  /** The path above is `dir.join("dllup.toml")` for the directory chosen. */
  lemma DefaultConfigPathIsJoin(input: Path)
    ensures Parent(input).Some? ==> DefaultConfigPath(input) == JoinName(Parent(input).value, CONFIG_FILE_NAME)
    ensures Parent(input).None? ==> DefaultConfigPath(input) == JoinName(ParsePath("."), CONFIG_FILE_NAME)
  {
    ParseCurDir();
    match Parent(input)
    case Some(d) => JoinConfigFileName(d);
    case None => JoinConfigFileName([CurDir]);
  }

  /** Joining "dllup.toml" onto a directory appends one normal component. */
  lemma JoinConfigFileName(dir: Path)
    ensures JoinName(dir, CONFIG_FILE_NAME) == dir + [Normal(CONFIG_FILE_NAME)]
  {
    ConfigFileNameIsOneComponent();
    JoinRelative(dir, CONFIG_FILE_NAME);
  }

  /** The configuration file sits beside an input that has a directory part. */
  lemma ConfigBesideInput(input: Path)
    requires Parent(input).Some?
    ensures Parent(DefaultConfigPath(input)) == Parent(input)
  {
    var r := DefaultConfigPath(input);
    assert r[..|r| - 1] == Parent(input).value;
  }
}
