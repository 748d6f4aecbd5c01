/**
 * How the image pipeline (src/image_processor.rs) recognises a source image:
 * remote references, SVG sniffing, the raster formats it knows by extension,
 * the file extensions it writes and the MIME types it announces.
 */
module ImageFormats {
  import opened Wrappers
  import opened Strings
  import opened Paths

  /** The `image::ImageFormat` values. */
  datatype ImageFormat =
    | Png | Jpeg | Gif | WebP | Pnm | Tiff | Tga | Dds | Bmp | Ico | Hdr | OpenExr
    | Farbfeld | Avif | Qoi

  /** What a source turns out to be. */
  datatype SourceFormat = Svg | Raster(format: ImageFormat)

  /** The pipeline's errors. Only `UnsupportedFormat` arises from the logic modelled here. */
  datatype ImageError = Io | Network(message: string) | Decode(message: string) | UnsupportedFormat

  datatype DetectResult = Detected(format: SourceFormat) | Failed(error: ImageError)

  /** `is_remote`: an http or https URL, with the scheme in any letter case. */
  predicate IsRemote(reference: string)
  {
    var lower := AsciiLowerStr(reference);
    StartsWith(lower, "http://") || StartsWith(lower, "https://")
  }

  /** Lower-casing a prefix is taking the prefix of the lower-cased text. */
  lemma AsciiLowerPrefix(s: string, n: nat)
    requires n <= |s|
    ensures AsciiLowerStr(s)[..n] == AsciiLowerStr(s[..n])
  {
  }

  /**
   * A reference is remote exactly when it starts with "http://" or "https://"
   * in any ASCII letter case.
   */
  lemma IsRemoteByScheme(s: string)
    ensures IsRemote(s) <==>
      (|s| >= 7 && EqIgnoreAsciiCase(s[..7], "http://")) || (|s| >= 8 && EqIgnoreAsciiCase(s[..8], "https://"))
  {
    assert AsciiLowerStr("http://") == "http://";
    assert AsciiLowerStr("https://") == "https://";
    if |s| >= 7 {
      AsciiLowerPrefix(s, 7);
    }
    if |s| >= 8 {
      AsciiLowerPrefix(s, 8);
    }
  }

  /** `extension_for_format`: only the three formats the encoder writes have one. */
  function ExtensionForFormat(f: ImageFormat): Option<string>
  {
    match f
    case Jpeg => Some("jpg")
    case Png => Some("png")
    case WebP => Some("webp")
    case _ => None
  }

  /** `image_format_from_extension`: the extension is compared without regard to ASCII case. */
  function ImageFormatFromExtension(ext: string): Option<ImageFormat>
  {
    var lower := AsciiLowerStr(ext);
    if lower == "jpg" || lower == "jpeg" then Some(Jpeg)
    else if lower == "png" then Some(Png)
    else if lower == "webp" then Some(WebP)
    else None
  }

  /** `mime_type_for_format`. */
  function MimeTypeForFormat(f: ImageFormat): string
  {
    match f
    case Jpeg => "image/jpeg"
    case Png => "image/png"
    case Gif => "image/gif"
    case Bmp => "image/bmp"
    case Tiff => "image/tiff"
    case WebP => "image/webp"
    case _ => "application/octet-stream"
  }

  /** A format has a written extension exactly when it is JPEG, PNG or WebP. */
  lemma ExtensionForFormatDomain(f: ImageFormat)
    ensures ExtensionForFormat(f).Some? <==> f in {Jpeg, Png, WebP}
  {
  }

  /** The extension the pipeline writes for a format is recognised as that format again. */
  lemma FormatExtensionRoundTrip(f: ImageFormat)
    requires ExtensionForFormat(f).Some?
    ensures ImageFormatFromExtension(ExtensionForFormat(f).value) == Some(f)
  {
    var e := ExtensionForFormat(f).value;
    assert AsciiLowerStr(e) == e;
  }

  /** The extension lookup does not depend on ASCII letter case. */
  lemma ImageFormatFromExtensionIgnoresCase(a: string, b: string)
    requires EqIgnoreAsciiCase(a, b)
    ensures ImageFormatFromExtension(a) == ImageFormatFromExtension(b)
  {
  }

  /** Every recognised extension names a format that has an image MIME type and an extension. */
  lemma RecognisedFormatsAreWritable(ext: string)
    requires ImageFormatFromExtension(ext).Some?
    ensures ExtensionForFormat(ImageFormatFromExtension(ext).value).Some?
    ensures StartsWith(MimeTypeForFormat(ImageFormatFromExtension(ext).value), "image/")
  {
  }

  // ---- SVG sniffing ------------------------------------------------------------

  /** `u8::is_ascii_whitespace`: space, tab, line feed, form feed, carriage return. */
  predicate IsAsciiWhitespaceByte(b: byte)
  {
    b == 0x20 || b == 0x09 || b == 0x0A || b == 0x0C || b == 0x0D
  }

  function AsciiLowerByte(b: byte): byte
  {
    if 0x41 <= b <= 0x5A then b + 32 else b
  }

  /** The bytes after the leading ASCII whitespace (`skip_while`). */
  function SkipAsciiWhitespace(bs: seq<byte>): (r: seq<byte>)
    ensures |r| <= |bs| && r == bs[|bs| - |r|..]
    ensures r == [] || !IsAsciiWhitespaceByte(r[0])
    ensures forall i :: 0 <= i < |bs| - |r| ==> IsAsciiWhitespaceByte(bs[i])
  {
    if bs != [] && IsAsciiWhitespaceByte(bs[0]) then SkipAsciiWhitespace(bs[1..]) else bs
  }

  /** "<svg" as bytes. */
  const SVG_TAG: seq<byte> := [0x3C, 0x73, 0x76, 0x67]

  /** The number of leading bytes that are searched for the tag. */
  const SNIFF_LENGTH: nat := 512

  predicate BytesAt(hay: seq<byte>, needle: seq<byte>, i: nat)
  {
    i + |needle| <= |hay| && hay[i..i + |needle|] == needle
  }

  predicate ContainsBytes(hay: seq<byte>, needle: seq<byte>)
  {
    exists i: nat | i <= |hay| :: BytesAt(hay, needle, i)
  }

  /**
   * The sniffed prefix: the first 512 bytes after leading whitespace,
   * ASCII-lowercased.
   */
  function SniffHead(bytes: seq<byte>): (r: seq<byte>)
    ensures |r| <= SNIFF_LENGTH
  {
    var rest := SkipAsciiWhitespace(bytes);
    var head := if |rest| <= SNIFF_LENGTH then rest else rest[..SNIFF_LENGTH];
    seq(|head|, i requires 0 <= i < |head| => AsciiLowerByte(head[i]))
  }

  /**
   * `looks_like_svg`: the reference ends in ".svg" in any ASCII case, or
   * "<svg" occurs in the sniffed head. The source lowercases a lossily decoded
   * string; ASCII bytes decode to themselves and no other character lowercases
   * to one of "<svg", so the byte-level test here finds the same tags.
   */
  predicate LooksLikeSvg(reference: string, bytes: seq<byte>)
  {
    EndsWith(AsciiLowerStr(reference), ".svg") || ContainsBytes(SniffHead(bytes), SVG_TAG)
  }

  /** `path_extension_from_str`: the extension of the part before any '?', when not empty. */
  function PathExtensionFromStr(s: string): (r: Option<string>)
    ensures r.Some? ==> r.value != [] && '.' !in r.value && '/' !in r.value
  {
    FileNamePartsHaveNoSlash(BeforeFirst(s, '?'));
    match Extension(ParsePath(BeforeFirst(s, '?')))
    case None => None
    case Some(e) => if e == [] then None else Some(e)
  }

  /**
   * `detect_format`. The content sniffing of the `image` crate
   * (`image::guess_format`) is outside this model: its answer is the parameter
   * `guessed`.
   */
  function DetectFormat(reference: string, bytes: seq<byte>, guessed: Option<ImageFormat>): (r: DetectResult)
    ensures r.Detected? && r.format == Svg <==> LooksLikeSvg(reference, bytes)
    ensures r.Failed? ==> r.error == UnsupportedFormat
  {
    if LooksLikeSvg(reference, bytes) then Detected(Svg)
    else match guessed
      case Some(f) => Detected(Raster(f))
      case None =>
        match PathExtensionFromStr(reference)
        case Some(ext) =>
          (match ImageFormatFromExtension(ext)
           case Some(f) => Detected(Raster(f))
           case None => Failed(UnsupportedFormat))
        case None => Failed(UnsupportedFormat)
  }

  /**
   * When content sniffing fails, a non-SVG source is recognised exactly when its
   * extension (before any query) names a known format, and then as that format.
   */
  lemma DetectByExtension(reference: string, bytes: seq<byte>)
    requires !LooksLikeSvg(reference, bytes)
    ensures DetectFormat(reference, bytes, None).Detected?
      <==> PathExtensionFromStr(reference).Some? && ImageFormatFromExtension(PathExtensionFromStr(reference).value).Some?
    ensures DetectFormat(reference, bytes, None).Detected? ==>
      DetectFormat(reference, bytes, None).format
        == Raster(ImageFormatFromExtension(PathExtensionFromStr(reference).value).value)
  {
  }

  /** Leading whitespace and letter case do not hide an SVG tag. */
  lemma SvgTagAfterWhitespace(ws: seq<byte>, rest: seq<byte>)
    requires forall i :: 0 <= i < |ws| ==> IsAsciiWhitespaceByte(ws[i])
    requires |rest| >= 4 && rest[0] == 0x3C && AsciiLowerByte(rest[1]) == 0x73
    requires AsciiLowerByte(rest[2]) == 0x76 && AsciiLowerByte(rest[3]) == 0x67
    ensures LooksLikeSvg("", ws + rest)
  {
    SkipPrefix(ws, rest);
    var head := if |rest| <= SNIFF_LENGTH then rest else rest[..SNIFF_LENGTH];
    var h := SniffHead(ws + rest);
    assert h == seq(|head|, i requires 0 <= i < |head| => AsciiLowerByte(head[i]));
    assert forall k :: 0 <= k < 4 ==> h[k] == AsciiLowerByte(rest[k]);
    assert h[..4] == SVG_TAG;
    assert BytesAt(h, SVG_TAG, 0);
  }

  lemma {:induction false} SkipPrefix(ws: seq<byte>, rest: seq<byte>)
    requires forall i :: 0 <= i < |ws| ==> IsAsciiWhitespaceByte(ws[i])
    requires rest == [] || !IsAsciiWhitespaceByte(rest[0])
    ensures SkipAsciiWhitespace(ws + rest) == rest
    decreases |ws|
  {
    if ws == [] {
      assert ws + rest == rest;
    } else {
      assert (ws + rest)[1..] == ws[1..] + rest;
      SkipPrefix(ws[1..], rest);
    }
  }

  /** A reference named "*.svg" (any case) is an SVG whatever its bytes. */
  lemma SvgByName(name: string, bytes: seq<byte>)
    ensures DetectFormat(name + ".SVG", bytes, None) == Detected(Svg)
    ensures DetectFormat(name + ".svg", bytes, None) == Detected(Svg)
  {
    var a, b := name + ".SVG", name + ".svg";
    assert AsciiLowerStr(a)[|a| - 4..] == ".svg";
    assert AsciiLowerStr(b)[|b| - 4..] == ".svg";
  }
}
