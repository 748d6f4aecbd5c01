/**
 * The byte-level EXIF handling of src/image_processor.rs: the endian-aware
 * readers, the "Exif\0\0" header, the reset of the Orientation tag inside a
 * TIFF structure (TIFF 6.0 section 2, "Image File Header" and "IFD Entry"),
 * and the splicing of an APP1 segment into a JPEG stream (ITU-T T.81 Annex
 * B.1.1, marker and segment syntax).
 */
module JpegExif {
  import opened Wrappers
  import opened Strings

  // ---- Endian-aware readers ------------------------------------------------------

  /** `read_u16`: the first two bytes, little- or big-endian. */
  function ReadU16(b: seq<byte>, le: bool): (r: nat)
    requires |b| >= 2
    ensures r <= U16_MAX
  {
    if le then b[1] as int * 0x100 + b[0] else b[0] as int * 0x100 + b[1]
  }

  /** `read_u32`: the first four bytes, little- or big-endian. */
  function ReadU32(b: seq<byte>, le: bool): (r: nat)
    requires |b| >= 4
    ensures r <= U32_MAX
  {
    if le then ((b[3] as int * 0x100 + b[2]) * 0x100 + b[1]) * 0x100 + b[0]
    else ((b[0] as int * 0x100 + b[1]) * 0x100 + b[2]) * 0x100 + b[3]
  }

  /** `u16::to_le_bytes` / `u16::to_be_bytes`. */
  function U16Bytes(v: nat, le: bool): (r: seq<byte>)
    requires v <= U16_MAX
    ensures |r| == 2
  {
    if le then [v % 0x100, v / 0x100] else [v / 0x100, v % 0x100]
  }

  /** Reading back the bytes of a 16-bit value gives the value, in either byte order. */
  lemma ReadU16OfBytes(v: nat, le: bool)
    requires v <= U16_MAX
    ensures ReadU16(U16Bytes(v, le), le) == v
  {
  }

  /** The two byte orders read the same pair reversed. */
  lemma ReadU16Swapped(b: seq<byte>)
    requires |b| >= 2
    ensures ReadU16(b, true) == ReadU16([b[1], b[0]], false)
  {
  }

  lemma ReadU32Swapped(b: seq<byte>)
    requires |b| >= 4
    ensures ReadU32(b, true) == ReadU32([b[3], b[2], b[1], b[0]], false)
  {
  }

  // ---- The EXIF header -----------------------------------------------------------

  /** "Exif\0\0". */
  const EXIF_HEADER: seq<byte> := [0x45, 0x78, 0x69, 0x66, 0x00, 0x00]

  predicate StartsWithBytes(s: seq<byte>, prefix: seq<byte>)
  {
    |prefix| <= |s| && s[..|prefix|] == prefix
  }

  /** `ensure_exif_header`: prefixes the header unless it is already there. */
  function EnsureExifHeader(bytes: seq<byte>): (r: seq<byte>)
    ensures StartsWithBytes(r, EXIF_HEADER)
    ensures StartsWithBytes(bytes, EXIF_HEADER) ==> r == bytes
    ensures !StartsWithBytes(bytes, EXIF_HEADER) ==> r[|EXIF_HEADER|..] == bytes
  {
    if StartsWithBytes(bytes, EXIF_HEADER) then bytes else EXIF_HEADER + bytes
  }

  /** Adding the header twice is adding it once. */
  lemma EnsureExifHeaderIdempotent(bytes: seq<byte>)
    ensures EnsureExifHeader(EnsureExifHeader(bytes)) == EnsureExifHeader(bytes)
  {
  }

  // ---- Orientation reset ---------------------------------------------------------

  /** The Orientation tag. */
  const ORIENTATION_TAG: nat := 0x0112

  /** The byte order mark at offset 6: "II" is little-endian, "MM" big-endian. */
  function ByteOrder(s: seq<byte>): (r: Option<bool>)
    requires |s| >= 8
  {
    if s[6] == 0x49 && s[7] == 0x49 then Some(true)
    else if s[6] == 0x4D && s[7] == 0x4D then Some(false)
    else None
  }

  /**
   * The offset of the value of the first Orientation entry among `n` entries
   * of 12 bytes starting at `pos`; None when an entry would run past the end.
   */
  function FindOrientation(s: seq<byte>, pos: nat, n: nat, le: bool): (r: Option<nat>)
    ensures r.Some? ==> pos + 8 <= r.value && r.value + 4 <= |s|
    decreases n
  {
    if n == 0 || pos + 12 > |s| then None
    else if ReadU16(s[pos..pos + 2], le) == ORIENTATION_TAG then Some(pos + 8)
    else FindOrientation(s, pos + 12, n - 1, le)
  }

  /** The slot found is the value field of an entry whose tag is Orientation. */
  lemma {:induction false} FoundIsOrientationEntry(s: seq<byte>, pos: nat, n: nat, le: bool)
    requires FindOrientation(s, pos, n, le).Some?
    ensures var off := FindOrientation(s, pos, n, le).value;
      ReadU16(s[off - 8..off - 6], le) == ORIENTATION_TAG
    decreases n
  {
    if ReadU16(s[pos..pos + 2], le) != ORIENTATION_TAG {
      FoundIsOrientationEntry(s, pos + 12, n - 1, le);
    }
  }

  /**
   * The TIFF header read by `normalize_exif_orientation`, after the 6 bytes of
   * "Exif\0\0": the position of IFD0's first entry, its entry count and the
   * byte order.
   */
  function Ifd0(s: seq<byte>): (r: Option<(nat, nat, bool)>)
    ensures r.Some? ==> 8 <= r.value.0 <= |s|
  {
    if |s| < 12 || 6 + 8 > |s| then None
    else match ByteOrder(s)
      case None => None
      case Some(le) =>
        var pos := 6 + ReadU32(s[10..14], le);
        if pos + 2 > |s| then None
        else Some((pos + 2, ReadU16(s[pos..pos + 2], le), le))
  }

  /**
   * Where `normalize_exif_orientation` writes, and in which byte order: the
   * value of the first Orientation entry of IFD0.
   */
  function OrientationSlot(s: seq<byte>): (r: Option<(nat, bool)>)
    ensures r.Some? ==> 16 <= r.value.0 && r.value.0 + 2 <= |s|
  {
    match Ifd0(s)
    case None => None
    case Some((pos, n, le)) =>
      match FindOrientation(s, pos, n, le)
      case None => None
      case Some(off) => Some((off, le))
  }

  /** The buffer after the reset: the value set to 1 in the buffer's byte order. */
  function NormalizedOrientation(s: seq<byte>): (r: seq<byte>)
    ensures |r| == |s|
  {
    match OrientationSlot(s)
    case None => s
    case Some((off, le)) => s[..off] + U16Bytes(1, le) + s[off + 2..]
  }

  /**
   * `normalize_exif_orientation`, in place: walks the entries of IFD0 and
   * overwrites the value of the first Orientation entry with 1.
   */
  method NormalizeExifOrientation(a: array<byte>)
    modifies a
    ensures a[..] == NormalizedOrientation(old(a[..]))
  {
    ghost var s := a[..];
    if a.Length < 12 {
      assert Ifd0(s).None?;
      return;
    }
    var cursor := 6;
    if cursor + 8 > a.Length {
      assert Ifd0(s).None?;
      return;
    }
    var le: bool;
    if a[cursor] == 0x49 && a[cursor + 1] == 0x49 {
      le := true;
    } else if a[cursor] == 0x4D && a[cursor + 1] == 0x4D {
      le := false;
    } else {
      assert ByteOrder(s).None? && Ifd0(s).None?;
      return;
    }
    cursor := cursor + 4;
    var ifdOffset := ReadU32(a[cursor..cursor + 4], le);
    var pos := 6 + ifdOffset;
    if pos + 2 > a.Length {
      assert Ifd0(s).None?;
      return;
    }
    var entries := ReadU16(a[pos..pos + 2], le);
    pos := pos + 2;
    assert Ifd0(s) == Some((pos, entries, le));
    NormalizedByIfd0(s);
    ResetFirstOrientation(a, pos, entries, le);
  }

  lemma NormalizedByIfd0(s: seq<byte>)
    requires Ifd0(s).Some?
    ensures var (pos, n, le) := Ifd0(s).value;
      NormalizedOrientation(s) == WrittenAt(s, FindOrientation(s, pos, n, le), le)
  {
  }

  /** The buffer after writing 1 at the slot the search from `pos` finds, if any. */
  function WrittenAt(s: seq<byte>, found: Option<nat>, le: bool): seq<byte>
    requires found.Some? ==> found.value + 2 <= |s|
  {
    match found
    case None => s
    case Some(off) => s[..off] + U16Bytes(1, le) + s[off + 2..]
  }

  /**
   * The loop over IFD0's entries, and the write when it meets the first
   * Orientation entry.
   */
  method ResetFirstOrientation(a: array<byte>, start: nat, entries: nat, le: bool)
    modifies a
    ensures a[..] == WrittenAt(old(a[..]), FindOrientation(old(a[..]), start, entries, le), le)
  {
    var found := SeekOrientation(a, start, entries, le);
    if found.Some? {
      WriteOne(a, found.value, le);
    }
  }

  /** The entry walk: the value offset of the first Orientation entry, if any. */
  method SeekOrientation(a: array<byte>, start: nat, entries: nat, le: bool) returns (found: Option<nat>)
    ensures found == FindOrientation(a[..], start, entries, le)
  {
    var pos: nat := start;
    var k := 0;
    while k < entries
      invariant 0 <= k <= entries
      invariant FindOrientation(a[..], pos, entries - k, le) == FindOrientation(a[..], start, entries, le)
    {
      if pos + 12 > a.Length {
        return None;
      }
      var tag := ReadU16(a[pos..pos + 2], le);
      assert a[pos..pos + 2] == a[..][pos..pos + 2];
      if tag == ORIENTATION_TAG {
        // The source re-checks `pos + 8 + 2` against the length here; the
        // check above (`pos + 12`) already rules that out.
        return Some(pos + 8);
      }
      pos := pos + 12;
      k := k + 1;
    }
    return None;
  }

  /** The two writes of the value 1 at `off`, in the given byte order. */
  method WriteOne(a: array<byte>, off: nat, le: bool)
    requires off + 2 <= a.Length
    modifies a
    ensures a[..] == old(a[..])[..off] + U16Bytes(1, le) + old(a[..])[off + 2..]
  {
    if le {
      a[off] := 1;
      a[off + 1] := 0;
    } else {
      a[off] := 0;
      a[off + 1] := 1;
    }
  }

  /** Nothing is written into a buffer too short for a TIFF header, or with an unknown byte order. */
  lemma NormalizeNoOp(s: seq<byte>)
    requires |s| < 14 || ByteOrder(s).None?
    ensures NormalizedOrientation(s) == s
  {
  }

  /** At most the two value bytes change, and they then read back as 1. */
  lemma NormalizeChangesOnlyValue(s: seq<byte>)
    ensures var r := NormalizedOrientation(s);
      match OrientationSlot(s)
      case None => r == s
      case Some((off, le)) =>
        && (forall i :: 0 <= i < |s| && i != off && i != off + 1 ==> r[i] == s[i])
        && ReadU16(r[off..off + 2], le) == 1
  {
  }

  /** The search reads only bytes before the slot it finds. */
  lemma {:induction false} FindOrientationPrefix(s: seq<byte>, t: seq<byte>, pos: nat, n: nat, le: bool, off: nat)
    requires |s| == |t| && FindOrientation(s, pos, n, le) == Some(off)
    requires s[..off] == t[..off]
    ensures FindOrientation(t, pos, n, le) == Some(off)
    decreases n
  {
    assert s[pos..pos + 2] == s[..off][pos..pos + 2];
    assert t[pos..pos + 2] == t[..off][pos..pos + 2];
    if ReadU16(s[pos..pos + 2], le) != ORIENTATION_TAG {
      FindOrientationPrefix(s, t, pos + 12, n - 1, le, off);
    }
  }

  /** A buffer agreeing with `s` before its slot has the same slot. */
  lemma SlotPrefix(s: seq<byte>, t: seq<byte>)
    requires OrientationSlot(s).Some?
    requires |s| == |t| && s[..OrientationSlot(s).value.0] == t[..OrientationSlot(s).value.0]
    ensures OrientationSlot(t) == OrientationSlot(s)
  {
    var (off, le) := OrientationSlot(s).value;
    assert s[6] == t[6] && s[7] == t[7];
    assert s[10..14] == s[..off][10..14] == t[..off][10..14] == t[10..14];
    var pos := 6 + ReadU32(s[10..14], le);
    assert s[pos..pos + 2] == s[..off][pos..pos + 2] == t[..off][pos..pos + 2] == t[pos..pos + 2];
    assert Ifd0(t) == Ifd0(s);
    FindOrientationPrefix(s, t, pos + 2, ReadU16(s[pos..pos + 2], le), le, off);
  }

  /** Resetting the orientation twice is resetting it once. */
  lemma NormalizeIdempotent(s: seq<byte>)
    ensures NormalizedOrientation(NormalizedOrientation(s)) == NormalizedOrientation(s)
  {
    var r := NormalizedOrientation(s);
    if OrientationSlot(s).Some? {
      var (off, le) := OrientationSlot(s).value;
      assert r[..off] == s[..off];
      SlotPrefix(s, r);
      assert r[off..off + 2] == U16Bytes(1, le);
    }
  }

  // ---- APP1 splicing -------------------------------------------------------------

  /** The big-endian 16-bit segment length after a marker at `i`. */
  function SegmentLength(j: seq<byte>, i: nat): nat
    requires i + 4 <= |j|
  {
    j[i + 2] as int * 0x100 + j[i + 3]
  }

  /** Markers that stand alone, without a length: SOI, EOI, TEM and RST0-RST7. */
  predicate StandaloneMarker(m: byte)
  {
    m == 0xD8 || m == 0xD9 || m == 0x01 || (0xD0 <= m <= 0xD7)
  }

  /**
   * The first pass: walks the segments from `scan` and removes the first APP1
   * segment met before the start of scan (SOS), up to its declared end or the
   * end of the buffer.
   */
  function RemoveApp1(j: seq<byte>, scan: nat): (r: seq<byte>)
    decreases |j| - scan
  {
    if scan + 4 > |j| || j[scan] != 0xFF then j
    else
      var marker := j[scan + 1];
      if marker == 0xDA then j
      else if marker == 0xE1 then
        var end := if scan + 2 + SegmentLength(j, scan) < |j| then scan + 2 + SegmentLength(j, scan) else |j|;
        j[..scan] + j[end..]
      else if StandaloneMarker(marker) then RemoveApp1(j, scan + 2)
      else if SegmentLength(j, scan) < 2 then j
      else RemoveApp1(j, scan + 2 + SegmentLength(j, scan))
  }

  /**
   * The second pass: the position after the run of APP0-APP15 segments that
   * starts at `pos`. A declared length may carry it past the end of the buffer.
   */
  function InsertionPoint(j: seq<byte>, pos: nat): (r: nat)
    ensures r >= pos
    decreases |j| - pos
  {
    if pos + 4 > |j| || j[pos] != 0xFF then pos
    else if !(0xE0 <= j[pos + 1] <= 0xEF) then pos
    else if SegmentLength(j, pos) < 2 then pos
    else InsertionPoint(j, pos + 2 + SegmentLength(j, pos))
  }

  /** The APP1 segment that carries `exif`: marker, big-endian length (counting itself), data. */
  function App1Segment(exif: seq<byte>): (r: seq<byte>)
    requires |exif| + 2 <= U16_MAX
    ensures |r| == |exif| + 4
  {
    [0xFF, 0xE1] + U16Bytes(|exif| + 2, false) + exif
  }

  /** Whether `insert_exif_segment` changes the buffer at all: a JPEG start of image, and data that fits. */
  predicate SpliceApplies(jpeg: seq<byte>, exif: seq<byte>)
  {
    |jpeg| >= 2 && jpeg[0] == 0xFF && jpeg[1] == 0xD8 && |exif| + 2 <= U16_MAX
  }

  /**
   * A declared APPn length that runs past the end puts the insertion point
   * past the end, and `Vec::splice` panics there; callers must not pass such
   * a buffer.
   */
  predicate SpliceInBounds(jpeg: seq<byte>, exif: seq<byte>)
  {
    SpliceApplies(jpeg, exif) ==> InsertionPoint(RemoveApp1(jpeg, 2), 2) <= |RemoveApp1(jpeg, 2)|
  }

  /** The buffer `insert_exif_segment` leaves. */
  function InsertedExif(jpeg: seq<byte>, exif: seq<byte>): seq<byte>
    requires SpliceInBounds(jpeg, exif)
  {
    if !SpliceApplies(jpeg, exif) then jpeg
    else
      var j := RemoveApp1(jpeg, 2);
      var p := InsertionPoint(j, 2);
      j[..p] + App1Segment(exif) + j[p..]
  }

  /** `insert_exif_segment`: the two scanning loops and the splice. */
  method InsertExifSegment(jpeg: seq<byte>, exif: seq<byte>) returns (out: seq<byte>)
    requires SpliceInBounds(jpeg, exif)
    ensures out == InsertedExif(jpeg, exif)
  {
    out := jpeg;
    if |out| < 2 || out[0] != 0xFF || out[1] != 0xD8 {
      return;
    }
    if |exif| + 2 > U16_MAX {
      return;
    }
    out := DropFirstApp1(out);
    var insertPos := SkipAppSegments(out);
    var segment := [0xFF, 0xE1] + U16Bytes(|exif| + 2, false) + exif;
    out := out[..insertPos] + segment + out[insertPos..];
  }

  /** The first loop of `insert_exif_segment`: the buffer without its first APP1 segment. */
  method DropFirstApp1(jpeg: seq<byte>) returns (out: seq<byte>)
    ensures out == RemoveApp1(jpeg, 2)
  {
    out := jpeg;
    var scan := 2;
    while scan + 4 <= |out| && out[scan] == 0xFF
      invariant out == jpeg
      invariant RemoveApp1(jpeg, scan) == RemoveApp1(jpeg, 2)
      decreases |out| - scan
    {
      var marker := out[scan + 1];
      if marker == 0xDA {
        break;
      }
      if marker == 0xE1 {
        var len := out[scan + 2] as int * 0x100 + out[scan + 3];
        var end := if scan + 2 + len < |out| then scan + 2 + len else |out|;
        out := out[..scan] + out[end..];
        return;
      }
      if StandaloneMarker(marker) {
        scan := scan + 2;
        continue;
      }
      var len := out[scan + 2] as int * 0x100 + out[scan + 3];
      if len < 2 {
        break;
      }
      scan := scan + 2 + len;
    }
  }

  /** The second loop of `insert_exif_segment`: the position after the leading APPn segments. */
  method SkipAppSegments(j: seq<byte>) returns (insertPos: nat)
    ensures insertPos == InsertionPoint(j, 2)
  {
    insertPos := 2;
    while insertPos + 4 <= |j| && j[insertPos] == 0xFF
      invariant InsertionPoint(j, insertPos) == InsertionPoint(j, 2)
      decreases |j| - insertPos
    {
      var marker := j[insertPos + 1];
      if !(0xE0 <= marker <= 0xEF) {
        break;
      }
      var len := j[insertPos + 2] as int * 0x100 + j[insertPos + 3];
      if len < 2 {
        break;
      }
      insertPos := insertPos + 2 + len;
    }
  }

  /** Without a start-of-image marker, or with data too large for one segment, nothing changes. */
  lemma InsertNoOp(jpeg: seq<byte>, exif: seq<byte>)
    requires !SpliceApplies(jpeg, exif)
    ensures InsertedExif(jpeg, exif) == jpeg
  {
  }

  /** `r` is `j` without the APP1 segment that starts at `a` and is cut at `e`. */
  predicate RemovedSegment(j: seq<byte>, r: seq<byte>, a: nat, e: nat)
  {
    && a + 4 <= |j| && a + 2 <= e <= |j|
    && j[a] == 0xFF && j[a + 1] == 0xE1
    && (e == |j| || e == a + 2 + SegmentLength(j, a))
    && r == j[..a] + j[e..]
  }

  /**
   * The first pass removes at most one segment: either nothing, or one
   * contiguous range that starts with an APP1 marker after the start of image
   * and spans the declared length (cut at the end of the buffer).
   */
  lemma {:induction false} RemoveApp1Shape(j: seq<byte>, scan: nat)
    ensures RemoveApp1(j, scan) == j
      || exists a, e :: scan <= a && RemovedSegment(j, RemoveApp1(j, scan), a, e)
    decreases |j| - scan
  {
    if scan + 4 > |j| || j[scan] != 0xFF {
    } else if j[scan + 1] == 0xDA {
    } else if j[scan + 1] == 0xE1 {
      var len := SegmentLength(j, scan);
      var end := if scan + 2 + len < |j| then scan + 2 + len else |j|;
      assert RemovedSegment(j, RemoveApp1(j, scan), scan, end);
    } else if StandaloneMarker(j[scan + 1]) {
      RemoveApp1Shape(j, scan + 2);
    } else if SegmentLength(j, scan) < 2 {
    } else {
      RemoveApp1Shape(j, scan + 2 + SegmentLength(j, scan));
    }
  }

  /**
   * The inserted segment sits at the insertion point of the cleaned buffer:
   * the bytes before and after it are the cleaned buffer's, and its length
   * field reads back as the data length plus 2.
   */
  lemma InsertedSegmentLayout(jpeg: seq<byte>, exif: seq<byte>)
    requires SpliceApplies(jpeg, exif) && SpliceInBounds(jpeg, exif)
    ensures var j := RemoveApp1(jpeg, 2);
      var p := InsertionPoint(j, 2);
      var out := InsertedExif(jpeg, exif);
      && |out| == |j| + |exif| + 4
      && out[..p] == j[..p]
      && out[p] == 0xFF && out[p + 1] == 0xE1
      && SegmentLength(out, p) == |exif| + 2
      && out[p + 4..p + 4 + |exif|] == exif
      && out[p + 4 + |exif|..] == j[p..]
  {
  }

  /** A start of image, an APP0 segment and a start of scan: the APP1 segment goes after APP0. */
  lemma InsertAfterApp0Example(exif: seq<byte>)
    requires |exif| + 2 <= U16_MAX
    ensures var jpeg: seq<byte> := [0xFF, 0xD8, 0xFF, 0xE0, 0x00, 0x04, 0x00, 0x00, 0xFF, 0xDA];
      SpliceInBounds(jpeg, exif) &&
      InsertedExif(jpeg, exif) == jpeg[..8] + App1Segment(exif) + jpeg[8..]
  {
    var jpeg: seq<byte> := [0xFF, 0xD8, 0xFF, 0xE0, 0x00, 0x04, 0x00, 0x00, 0xFF, 0xDA];
    assert RemoveApp1(jpeg, 6) == jpeg;
    assert RemoveApp1(jpeg, 2) == jpeg;
    assert InsertionPoint(jpeg, 8) == 8;
    assert InsertionPoint(jpeg, 2) == 8;
  }
}
