/**
 * The EXIF summary shown under a photograph (src/image_processor.rs): the
 * camera, lens, aperture, shutter speed, ISO, software and date, each taken
 * from the readable text of the first entry with the matching tag, and the
 * orientation value. The EXIF decoder is outside this model; its output is a
 * list of entries, each a tag, a typed value and the decoder's readable text.
 */
module ExifSummary {
  import opened Wrappers
  import opened Strings

  datatype ExifTag =
    | Make | Model | LensMake | LensModel | LensSpecification | FNumber | ApertureValue
    | ExposureTime | ShutterSpeedValue | ISOSpeedRatings | Software | DateTimeOriginal
    | Orientation | OtherTag(code: nat)

  /** The typed value of an entry; the integer kinds carry their values, the rest are `Other`. */
  datatype TagValue =
    | U8(u8s: seq<nat>) | U16(u16s: seq<nat>) | U32(u32s: seq<nat>)
    | I8(i8s: seq<int>) | I16(i16s: seq<int>) | I32(i32s: seq<int>)
    | Other

  datatype ExifEntry = ExifEntry(tag: ExifTag, value: TagValue, readable: string)

  /** The integer types of the values, as the decoder delivers them. */
  predicate WellTyped(v: TagValue)
  {
    match v
    case U8(xs) => forall i :: 0 <= i < |xs| ==> xs[i] < 0x100
    case U16(xs) => forall i :: 0 <= i < |xs| ==> xs[i] <= U16_MAX
    case U32(xs) => forall i :: 0 <= i < |xs| ==> xs[i] <= U32_MAX
    case I8(xs) => forall i :: 0 <= i < |xs| ==> -0x80 <= xs[i] < 0x80
    case I16(xs) => forall i :: 0 <= i < |xs| ==> -0x8000 <= xs[i] < 0x8000
    case I32(xs) => forall i :: 0 <= i < |xs| ==> -0x8000_0000 <= xs[i] < 0x8000_0000
    case Other => true
  }

  /** The first value of a signed list, negatives read as 0, kept as a wide integer. */
  function FirstNonNegative(xs: seq<int>): Option<nat>
  {
    if xs == [] then None else Some(if xs[0] < 0 then 0 else xs[0])
  }

  /**
   * `tag_value_to_u16` as written: unsigned values are taken as they are (a
   * 32-bit one clamped to 65535), negative signed ones become 0, and a
   * non-negative 32-bit signed value is cast with `as u16`, which keeps only
   * its low 16 bits.
   */
  function TagValueToU16AsWritten(v: TagValue): (r: Option<nat>)
    requires WellTyped(v)
    ensures r.Some? ==> r.value <= U16_MAX
  {
    match v
    case U16(xs) => if xs == [] then None else Some(xs[0])
    case U8(xs) => if xs == [] then None else Some(xs[0])
    case U32(xs) => if xs == [] then None else Some(if xs[0] > U16_MAX then U16_MAX else xs[0])
    case I16(xs) => FirstNonNegative(xs)
    case I32(xs) => (match FirstNonNegative(xs) case None => None case Some(n) => Some(n % 0x1_0000))
    case I8(xs) => FirstNonNegative(xs)
    case Other => None
  }

  /** A positive 32-bit signed value of 65542 reads as 6 under the truncating cast. */
  lemma TruncationCounterexample()
    ensures TagValueToU16AsWritten(I32([65542])) == Some(6)
    ensures TagValueToU16AsWritten(U32([65542])) == Some(U16_MAX)
  {
  }

  /**
   * `tag_value_to_u16` with the 32-bit signed case clamped like the 32-bit
   * unsigned one: every kind saturates instead of wrapping.
   */
  function TagValueToU16(v: TagValue): (r: Option<nat>)
    requires WellTyped(v)
    ensures r.Some? ==> r.value <= U16_MAX
  {
    match v
    case I32(xs) =>
      (match FirstNonNegative(xs) case None => None case Some(n) => Some(if n > U16_MAX then U16_MAX else n))
    case _ => TagValueToU16AsWritten(v)
  }

  /** The first value of the list, as an integer, for the integer kinds. */
  function FirstValue(v: TagValue): Option<int>
  {
    match v
    case U8(xs) => if xs == [] then None else Some(xs[0])
    case U16(xs) => if xs == [] then None else Some(xs[0])
    case U32(xs) => if xs == [] then None else Some(xs[0])
    case I8(xs) => if xs == [] then None else Some(xs[0])
    case I16(xs) => if xs == [] then None else Some(xs[0])
    case I32(xs) => if xs == [] then None else Some(xs[0])
    case Other => None
  }

  /**
   * The corrected conversion saturates: the first value clamped to 0..65535,
   * for every integer kind; and it agrees with the code as written on every
   * value that fits in 16 bits.
   */
  lemma TagValueToU16Saturates(v: TagValue)
    requires WellTyped(v)
    ensures FirstValue(v).None? <==> TagValueToU16(v).None?
    ensures FirstValue(v).Some? ==>
      var x := FirstValue(v).value;
      TagValueToU16(v).value == if x < 0 then 0 else if x > U16_MAX then U16_MAX else x
    ensures FirstValue(v).Some? && FirstValue(v).value <= U16_MAX ==>
      TagValueToU16AsWritten(v) == TagValueToU16(v)
  {
  }

  /** The first entry with the tag (`iter().find`). */
  function FindEntry(exif: seq<ExifEntry>, tag: ExifTag): (r: Option<ExifEntry>)
    ensures r.Some? ==> r.value.tag == tag
    ensures r.Some? ==> exists i :: 0 <= i < |exif| && exif[i] == r.value && (forall j :: 0 <= j < i ==> exif[j].tag != tag)
    ensures r.None? ==> forall i :: 0 <= i < |exif| ==> exif[i].tag != tag
  {
    if exif == [] then None
    else if exif[0].tag == tag then Some(exif[0])
    else FindEntry(exif[1..], tag)
  }

  /** `exif_orientation`: the corrected conversion of the first Orientation entry's value. */
  function ExifOrientation(exif: seq<ExifEntry>): (r: Option<nat>)
    requires forall i :: 0 <= i < |exif| ==> WellTyped(exif[i].value)
    ensures r.Some? ==> r.value <= U16_MAX
  {
    match FindEntry(exif, Orientation)
    case None => None
    case Some(e) => TagValueToU16(e.value)
  }

  /**
   * The orientation is read from the first Orientation entry alone: a later
   * entry with the same tag is never consulted, and without any there is none.
   */
  lemma ExifOrientationOfFirst(exif: seq<ExifEntry>, i: nat)
    requires forall k :: 0 <= k < |exif| ==> WellTyped(exif[k].value)
    requires i < |exif| && exif[i].tag == Orientation
    requires forall j :: 0 <= j < i ==> exif[j].tag != Orientation
    ensures ExifOrientation(exif) == TagValueToU16(exif[i].value)
  {
    var e := FindEntry(exif, Orientation);
    assert e.Some?;
    var k :| 0 <= k < |exif| && exif[k] == e.value && (forall j :: 0 <= j < k ==> exif[j].tag != Orientation);
    assert k == i;
  }

  /** The word "none" in any ASCII letter case. */
  predicate IsNoneWord(s: string)
  {
    |s| == 4 && AsciiLower(s[0]) == 'n' && AsciiLower(s[1]) == 'o' && AsciiLower(s[2]) == 'n' && AsciiLower(s[3]) == 'e'
  }

  /** IsNoneWord is `eq_ignore_ascii_case("none")`. */
  lemma IsNoneWordIgnoresCase(s: string)
    ensures IsNoneWord(s) <==> EqIgnoreAsciiCase(s, "none")
  {
    var n := "none";
    assert AsciiLowerStr(n) == n;
    if IsNoneWord(s) {
      assert AsciiLowerStr(s) == n;
    }
    if EqIgnoreAsciiCase(s, n) {
      assert forall i :: 0 <= i < 4 ==> AsciiLowerStr(s)[i] == n[i];
    }
  }

  /** A value worth showing: trimmed, not empty, and not "none" in any ASCII case. */
  predicate Shown(s: string)
  {
    s != [] && Trimmed(s) && !IsNoneWord(s)
  }

  /**
   * `exif_value`: the trimmed readable text of the first entry with the tag,
   * unless it is empty or "none". A later entry with the same tag is never
   * consulted.
   */
  function ExifValue(exif: seq<ExifEntry>, tag: ExifTag): (r: Option<string>)
    ensures r.Some? ==> Shown(r.value)
    ensures r.Some? ==> FindEntry(exif, tag).Some? && r.value == Trim(FindEntry(exif, tag).value.readable)
    ensures r.None? ==> FindEntry(exif, tag).None? || !Shown(Trim(FindEntry(exif, tag).value.readable))
  {
    var found := FindEntry(exif, tag);
    if found.None? then None
    else
      var value := Trim(found.value.readable);
      TrimEdges(found.value.readable);
      if value == [] || IsNoneWord(value) then None else Some(value)
  }

  /** `format!("{} {}", a, b).trim()` for two shown values: they are already trimmed. */
  lemma JoinedShown(a: string, b: string)
    requires Shown(a) && Shown(b)
    ensures Trim(a + " " + b) == a + " " + b
  {
    var s := a + " " + b;
    assert s[0] == a[0] && s[|s| - 1] == b[|b| - 1];
    TrimOfTrimmed(s);
  }

  /**
   * `camera_description`: the model alone when it already begins with the
   * make (ignoring ASCII case), otherwise "make model"; either one alone when
   * the other is missing.
   */
  function CameraDescription(exif: seq<ExifEntry>): (r: Option<string>)
    ensures r.Some? <==> ExifValue(exif, Make).Some? || ExifValue(exif, Model).Some?
    ensures r.Some? ==> r.value != [] && Trimmed(r.value)
  {
    match (ExifValue(exif, Make), ExifValue(exif, Model))
    case (Some(make), Some(model)) =>
      if StartsWith(AsciiLowerStr(model), AsciiLowerStr(make)) then Some(model)
      else
        JoinedShown(make, model);
        Some(Trim(make + " " + model))
    case (Some(make), None) => Some(make)
    case (None, Some(model)) => Some(model)
    case (None, None) => None
  }

  /** A model that repeats the make is not prefixed by it again; otherwise both appear, make first. */
  lemma CameraDescriptionCases(exif: seq<ExifEntry>)
    requires ExifValue(exif, Make).Some? && ExifValue(exif, Model).Some?
    ensures var make := ExifValue(exif, Make).value;
      var model := ExifValue(exif, Model).value;
      CameraDescription(exif) == Some(
        if StartsWith(AsciiLowerStr(model), AsciiLowerStr(make)) then model else make + " " + model)
  {
    JoinedShown(ExifValue(exif, Make).value, ExifValue(exif, Model).value);
  }

  /** `lens_description`: the lens model, or else "make specification", or either alone. */
  function LensDescription(exif: seq<ExifEntry>): (r: Option<string>)
    ensures r.Some? <==>
      (ExifValue(exif, LensModel).Some? || ExifValue(exif, LensMake).Some? || ExifValue(exif, LensSpecification).Some?)
    ensures ExifValue(exif, LensModel).Some? ==> r == ExifValue(exif, LensModel)
    ensures r.Some? ==> r.value != [] && Trimmed(r.value)
  {
    match ExifValue(exif, LensModel)
    case Some(model) => Some(model)
    case None =>
      match (ExifValue(exif, LensMake), ExifValue(exif, LensSpecification))
      case (Some(make), Some(spec)) =>
        JoinedShown(make, spec);
        Some(Trim(make + " " + spec))
      case (Some(make), None) => Some(make)
      case (None, Some(spec)) => Some(spec)
      case (None, None) => None
  }

  /** `Option::or_else` between two tags. */
  function FirstOf(exif: seq<ExifEntry>, first: ExifTag, second: ExifTag): (r: Option<string>)
    ensures r.Some? ==> Shown(r.value)
    ensures r.Some? <==> ExifValue(exif, first).Some? || ExifValue(exif, second).Some?
    ensures ExifValue(exif, first).Some? ==> r == ExifValue(exif, first)
  {
    match ExifValue(exif, first)
    case Some(v) => Some(v)
    case None => ExifValue(exif, second)
  }

  /** `aperture_value`: the f-number, else the APEX aperture value. */
  function ApertureText(exif: seq<ExifEntry>): Option<string>
  {
    FirstOf(exif, FNumber, ApertureValue)
  }

  /** `shutter_value`: the exposure time, else the APEX shutter speed value. */
  function ShutterText(exif: seq<ExifEntry>): Option<string>
  {
    FirstOf(exif, ExposureTime, ShutterSpeedValue)
  }

  /** The rows of the summary. */
  datatype Label = CameraRow | LensRow | ApertureRow | ShutterRow | IsoRow | SoftwareRow | DateRow

  /** The text shown for each row. */
  function LabelText(l: Label): string
  {
    match l
    case CameraRow => "Camera"
    case LensRow => "Lens"
    case ApertureRow => "Aperture"
    case ShutterRow => "Shutter speed"
    case IsoRow => "ISO"
    case SoftwareRow => "Software"
    case DateRow => "Date"
  }

  /** The order in which the rows are pushed. */
  const ORDER: seq<Label> := [CameraRow, LensRow, ApertureRow, ShutterRow, IsoRow, SoftwareRow, DateRow]

  function Rank(l: Label): (r: nat)
    ensures r < |ORDER|
  {
    match l
    case CameraRow => 0
    case LensRow => 1
    case ApertureRow => 2
    case ShutterRow => 3
    case IsoRow => 4
    case SoftwareRow => 5
    case DateRow => 6
  }

  /** The value behind each row. */
  function ValueFor(exif: seq<ExifEntry>, l: Label): (r: Option<string>)
    ensures r.Some? ==> r.value != [] && Trimmed(r.value)
  {
    match l
    case CameraRow => CameraDescription(exif)
    case LensRow => LensDescription(exif)
    case ApertureRow => ApertureText(exif)
    case ShutterRow => ShutterText(exif)
    case IsoRow => ExifValue(exif, ISOSpeedRatings)
    case SoftwareRow => ExifValue(exif, Software)
    case DateRow => ExifValue(exif, DateTimeOriginal)
  }

  /** The values of the labels of ORDER from index `k` on. */
  function ValuesFrom(exif: seq<ExifEntry>, k: nat): (r: seq<Option<string>>)
    requires k <= |ORDER|
    ensures |r| == |ORDER| - k
    decreases |ORDER| - k
  {
    if k == |ORDER| then [] else [ValueFor(exif, ORDER[k])] + ValuesFrom(exif, k + 1)
  }

  /** The value of every label, in the order of ORDER. */
  function Values(exif: seq<ExifEntry>): (r: seq<Option<string>>)
    ensures |r| == |ORDER|
  {
    ValuesFrom(exif, 0)
  }

  lemma {:induction false} ValuesFromAt(exif: seq<ExifEntry>, k: nat, m: nat)
    requires k <= m < |ORDER|
    ensures ValuesFrom(exif, k)[m - k] == ValueFor(exif, ORDER[m])
    decreases m - k
  {
    if k < m {
      ValuesFromAt(exif, k + 1, m);
    }
  }

  /** Each label's value sits at its rank. */
  lemma ValuesAtRank(exif: seq<ExifEntry>, l: Label)
    ensures Values(exif)[Rank(l)] == ValueFor(exif, l)
  {
    ValuesFromAt(exif, 0, Rank(l));
    OrderAtRank(l);
  }

  /** The rows pushed for the labels of ORDER from index `k` on, given their values. */
  function RowsFrom(values: seq<Option<string>>, k: nat): seq<(Label, string)>
    requires |values| == |ORDER| && k <= |ORDER|
    decreases |ORDER| - k
  {
    if k == |ORDER| then []
    else
      var rest := RowsFrom(values, k + 1);
      match values[k]
      case None => rest
      case Some(v) => [(ORDER[k], v)] + rest
  }

  /** `summarize_exif`: one row per label that has a value, in the order of ORDER. */
  function SummaryRows(exif: seq<ExifEntry>): seq<(Label, string)>
  {
    RowsFrom(Values(exif), 0)
  }

  /** The summary as the page shows it: label text and value. */
  function SummarizeExif(exif: seq<ExifEntry>): (r: seq<(string, string)>)
    ensures |r| == |SummaryRows(exif)|
    ensures forall i :: 0 <= i < |r| ==> r[i] == (LabelText(SummaryRows(exif)[i].0), SummaryRows(exif)[i].1)
  {
    var rows := SummaryRows(exif);
    seq(|rows|, i requires 0 <= i < |rows| => (LabelText(rows[i].0), rows[i].1))
  }

  /** Each label sits in ORDER at its rank. */
  lemma OrderAtRank(l: Label)
    ensures ORDER[Rank(l)] == l
  {
  }

  /** Each position of ORDER is its label's rank. */
  lemma RankOfOrder(k: nat)
    requires k < |ORDER|
    ensures Rank(ORDER[k]) == k
  {
    if k == 0 {} else if k == 1 {} else if k == 2 {} else if k == 3 {} else if k == 4 {} else if k == 5 {} else {}
  }

  /**
   * The rows from `k` on follow ORDER (so each label appears at most once) and
   * each carries its label's value. With `k` = 0 and the values of an EXIF
   * block this is the order Camera, Lens, Aperture, Shutter speed, ISO,
   * Software, Date of the summary.
   */
  lemma {:induction false} RowsFromOrdered(values: seq<Option<string>>, k: nat)
    requires |values| == |ORDER| && k <= |ORDER|
    ensures var rows := RowsFrom(values, k);
      && (forall i :: 0 <= i < |rows| ==> k <= Rank(rows[i].0))
      && (forall i, j :: 0 <= i < j < |rows| ==> Rank(rows[i].0) < Rank(rows[j].0))
      && (forall i :: 0 <= i < |rows| ==> values[Rank(rows[i].0)] == Some(rows[i].1))
    decreases |ORDER| - k
  {
    if k < |ORDER| {
      RowsFromOrdered(values, k + 1);
      RankOfOrder(k);
      var rest := RowsFrom(values, k + 1);
      if values[k].Some? {
        var rows := [(ORDER[k], values[k].value)] + rest;
        assert RowsFrom(values, k) == rows;
        assert forall i :: 1 <= i < |rows| ==> rows[i] == rest[i - 1];
      } else {
        assert RowsFrom(values, k) == rest;
      }
    }
  }

  /** Every label of ORDER from `k` on that has a value has a row with it. */
  lemma {:induction false} RowsFromComplete(values: seq<Option<string>>, k: nat)
    requires |values| == |ORDER| && k <= |ORDER|
    ensures forall m :: k <= m < |ORDER| && values[m].Some? ==> (ORDER[m], values[m].value) in RowsFrom(values, k)
    decreases |ORDER| - k
  {
    if k < |ORDER| {
      RowsFromComplete(values, k + 1);
    }
  }

  /** Every label that has a value appears in the summary with it. */
  lemma SummaryComplete(exif: seq<ExifEntry>, l: Label)
    requires ValueFor(exif, l).Some?
    ensures (l, ValueFor(exif, l).value) in SummaryRows(exif)
  {
    var values := Values(exif);
    RowsFromComplete(values, 0);
    ValuesAtRank(exif, l);
    OrderAtRank(l);
  }

  /** A model that already names the make is shown alone. */
  lemma CameraModelNamesMake(make: string, model: string, v1: TagValue, v2: TagValue)
    requires Shown(make) && Shown(model)
    requires StartsWith(AsciiLowerStr(model), AsciiLowerStr(make))
    ensures CameraDescription([ExifEntry(Make, v1, make), ExifEntry(Model, v2, model)]) == Some(model)
  {
    var exif := [ExifEntry(Make, v1, make), ExifEntry(Model, v2, model)];
    assert FindEntry(exif, Make) == Some(exif[0]);
    assert FindEntry(exif, Model) == Some(exif[1]);
  }
}
