/**
 * `compute_display_dimensions` of src/image_processor.rs: the size at which an
 * image is shown in the page layout, and whether it is laid out as a wide
 * image. The source computes in `f64`; here the arithmetic is exact, over
 * `real`, and `f64::round` followed by the saturating `as u32` is written out.
 */
module DisplayLayout {
  import opened Strings

  datatype Display = Display(width: nat, height: nat, isWide: bool)

  /** `f64::round` for a non-negative value: halves go up. */
  function Round(x: real): (r: int)
    requires x >= 0.0
    ensures r >= 0
    ensures r as real <= x + 0.5 < r as real + 1.0
  {
    (x + 0.5).Floor
  }

  /** `x.round().max(1.0) as u32`: at least 1, and saturating at the largest `u32`. */
  function ToPixels(x: real): (r: nat)
    requires x >= 0.0
    ensures 1 <= r <= U32_MAX
  {
    var n := Round(x);
    if n < 1 then 1 else if n > U32_MAX then U32_MAX else n
  }

  function MinReal(a: real, b: real): real { if a <= b then a else b }
  function MaxReal(a: real, b: real): real { if a >= b then a else b }

  /** The layout limit the computation uses: never below 1. */
  function LayoutOf(layoutLimit: nat): (r: real)
    ensures r >= 1.0
  {
    if layoutLimit < 1 then 1.0 else layoutLimit as real
  }

  /** A non-positive measured side is replaced by the layout limit. */
  function SideOf(x: real, layout: real): (r: real)
    requires layout >= 1.0
    ensures r > 0.0
    ensures x > 0.0 ==> r == x
  {
    if x > 0.0 then x else layout
  }

  /** The aspect ratio of the image as the computation sees it. */
  function AspectRatio(width: real, height: real, layoutLimit: nat): (r: real)
    ensures r > 0.0
  {
    var layout := LayoutOf(layoutLimit);
    SideOf(width, layout) / SideOf(height, layout)
  }

  /** The unrounded (width, height) the source computes before converting to pixels. */
  function DisplaySize(width: real, height: real, layoutLimit: nat): (r: (real, real))
    ensures r.0 > 0.0 && r.1 > 0.0
  {
    var layout := LayoutOf(layoutLimit);
    var w := SideOf(width, layout);
    var h := SideOf(height, layout);
    ShapedSize(layout, w, h, w / h)
  }

  /** The size by shape, for the sides `w`, `h` and their ratio. */
  function ShapedSize(layout: real, w: real, h: real, ratio: real): (real, real)
  {
    if ratio < 1.0 then
      var maxHeight := MinReal(layout, h);
      (MaxReal(maxHeight * ratio, 1.0), maxHeight)
    else if ratio >= 2.0 then
      var dw := MinReal(w, layout * 2.0);
      (dw, MaxReal(dw / ratio, 1.0))
    else
      var dw := MinReal(layout, w);
      (dw, MaxReal(dw / ratio, 1.0))
  }

  /** `compute_display_dimensions(width, height, layout_limit)`. */
  function ComputeDisplayDimensions(width: real, height: real, layoutLimit: nat): (r: Display)
    ensures 1 <= r.width <= U32_MAX && 1 <= r.height <= U32_MAX
    ensures r.isWide <==> AspectRatio(width, height, layoutLimit) >= 2.0
  {
    var size := DisplaySize(width, height, layoutLimit);
    Display(ToPixels(size.0), ToPixels(size.1), AspectRatio(width, height, layoutLimit) >= 2.0)
  }

  lemma ScaleDown(a: real, ratio: real)
    requires a > 0.0 && 0.0 < ratio < 1.0
    ensures a * ratio < a
  {
  }

  lemma DivideByAtLeast(d: real, ratio: real, k: real)
    requires d > 0.0 && ratio >= k && k > 0.0
    ensures d / ratio <= d / k
  {
    assert d / ratio * ratio == d;
    assert d / k * k == d;
  }

  /** Converting a value no larger than a whole number `n` >= 1 gives at most `n` pixels. */
  lemma ToPixelsAtMost(x: real, n: nat)
    requires 0.0 <= x <= n as real && 1 <= n
    ensures ToPixels(x) <= n
  {
  }

  /**
   * The caps by shape. A portrait image is at most the layout limit high; an
   * image up to twice as wide as high is at most the layout limit wide; a wide
   * one at most twice the layout limit wide. In each case the capped side is
   * the smaller of the measured side and the cap.
   */
  lemma DisplayCaps(width: real, height: real, layoutLimit: nat)
    requires width > 0.0 && height > 0.0 && 1 <= layoutLimit
    ensures var ratio := width / height;
      var size := DisplaySize(width, height, layoutLimit);
      var l := layoutLimit as real;
      && (ratio < 1.0 ==> size.1 == MinReal(l, height))
      && (1.0 <= ratio < 2.0 ==> size.0 == MinReal(l, width))
      && (ratio >= 2.0 ==> size.0 == MinReal(width, 2.0 * l))
  {
  }

  /** Before rounding: the height is at most the layout, the width at most twice it. */
  lemma SizeWithinLayout(width: real, height: real, layoutLimit: nat)
    ensures var size := DisplaySize(width, height, layoutLimit);
      var layout := LayoutOf(layoutLimit);
      && size.1 <= layout && size.0 <= 2.0 * layout
      && (AspectRatio(width, height, layoutLimit) < 2.0 ==> size.0 <= layout)
  {
    var layout := LayoutOf(layoutLimit);
    var w := SideOf(width, layout);
    var h := SideOf(height, layout);
    QuotientPositive(w, h);
    ShapedSizeWithin(layout, w, h, w / h);
  }

  lemma ShapedSizeWithin(layout: real, w: real, h: real, ratio: real)
    requires layout >= 1.0 && w > 0.0 && h > 0.0 && ratio > 0.0
    ensures var size := ShapedSize(layout, w, h, ratio);
      && size.1 <= layout && size.0 <= 2.0 * layout
      && (ratio < 2.0 ==> size.0 <= layout)
  {
    if ratio < 1.0 {
      PortraitWithin(layout, h, ratio);
    } else if ratio >= 2.0 {
      WideWithin(layout, w, ratio);
    } else {
      SquarishWithin(layout, w, ratio);
    }
  }

  lemma QuotientPositive(a: real, b: real)
    requires a > 0.0 && b > 0.0
    ensures a / b > 0.0
  {
    assert a / b * b == a;
  }

  lemma PortraitWithin(layout: real, h: real, ratio: real)
    requires layout >= 1.0 && h > 0.0 && 0.0 < ratio < 1.0
    ensures MinReal(layout, h) <= layout && MaxReal(MinReal(layout, h) * ratio, 1.0) <= layout
  {
    ScaleDown(MinReal(layout, h), ratio);
  }

  lemma WideWithin(layout: real, w: real, ratio: real)
    requires layout >= 1.0 && w > 0.0 && ratio >= 2.0
    ensures var dw := MinReal(w, layout * 2.0); dw <= 2.0 * layout && MaxReal(dw / ratio, 1.0) <= layout
  {
    var dw := MinReal(w, layout * 2.0);
    DivideByAtLeast(dw, ratio, 2.0);
    assert dw / 2.0 <= layout;
  }

  lemma SquarishWithin(layout: real, w: real, ratio: real)
    requires layout >= 1.0 && w > 0.0 && 1.0 <= ratio < 2.0
    ensures var dw := MinReal(layout, w); dw <= layout && MaxReal(dw / ratio, 1.0) <= layout
  {
    DivideByAtLeast(MinReal(layout, w), ratio, 1.0);
  }

  /**
   * Whatever the shape, the shown height is at most the layout limit and the
   * shown width at most twice the layout limit; an image that is not wide is at
   * most the layout limit wide.
   */
  lemma DisplayWithinLayout(width: real, height: real, layoutLimit: nat)
    requires 1 <= layoutLimit
    ensures ComputeDisplayDimensions(width, height, layoutLimit).height <= layoutLimit
    ensures ComputeDisplayDimensions(width, height, layoutLimit).width <= 2 * layoutLimit
    ensures !ComputeDisplayDimensions(width, height, layoutLimit).isWide ==>
      ComputeDisplayDimensions(width, height, layoutLimit).width <= layoutLimit
  {
    var size := DisplaySize(width, height, layoutLimit);
    SizeWithinLayout(width, height, layoutLimit);
    ToPixelsAtMost(size.0, 2 * layoutLimit);
    ToPixelsAtMost(size.1, layoutLimit);
    if AspectRatio(width, height, layoutLimit) < 2.0 {
      ToPixelsAtMost(size.0, layoutLimit);
    }
  }

  /** A panorama 4000 x 1000 with a 1200 layout: 2400 x 600, wide. */
  lemma PanoramaExample()
    ensures ComputeDisplayDimensions(4000.0, 1000.0, 1200) == Display(2400, 600, true)
  {
    assert DisplaySize(4000.0, 1000.0, 1200) == (2400.0, 600.0);
  }

  /** A portrait 800 x 1200 with a 1200 layout keeps its size. */
  lemma PortraitExample()
    ensures ComputeDisplayDimensions(800.0, 1200.0, 1200) == Display(800, 1200, false)
  {
    assert DisplaySize(800.0, 1200.0, 1200) == (800.0, 1200.0);
  }

  /** A 16:9 image 1600 x 900 with a 1200 layout: 1200 x 675. */
  lemma LandscapeExample()
    ensures ComputeDisplayDimensions(1600.0, 900.0, 1200) == Display(1200, 675, false)
  {
    assert DisplaySize(1600.0, 900.0, 1200) == (1200.0, 675.0);
  }

  /** Unknown sizes (zero) are shown as a layout-limit square. */
  lemma UnknownSizeExample()
    ensures ComputeDisplayDimensions(0.0, 0.0, 1200) == Display(1200, 1200, false)
  {
    assert DisplaySize(0.0, 0.0, 1200) == (1200.0, 1200.0);
  }
}
