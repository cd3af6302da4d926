/** The whole resize: its shortcuts are only shortcuts, and flat images stay flat. */
module ImageResize {
  import opened BoxSplit
  import opened Convolution
  import opened Reals
  import opened Resize
  import opened WeightSums
  import opened Windows

  /** The part of the source that is resized. */
  datatype Box = Box(x0: real, y0: real, x1: real, y1: real)

  function Across(src: Raster, outW: nat, box: Box): Axis { Axis(src.width, box.x0, box.x1, outW) }

  function Down(src: Raster, outH: nat, box: Box): Axis { Axis(|src.rows|, box.y0, box.y1, outH) }

  /** An image, a size and a part of the image that can be resized to it. */
  ghost predicate Resizable(src: Raster, outW: nat, outH: nat, box: Box) {
    src.Valid() && Across(src, outW, box).Valid() && Down(src, outH, box).Valid()
  }

  /** Coefficients for both directions. */
  ghost predicate Tables(src: Raster, outW: nat, outH: nat, box: Box, cx: Coeffs, cy: Coeffs) {
    && CoeffsFor(cx, Across(src, outW, box)) && CoeffsFor(cy, Down(src, outH, box))
    && Within(cx, 0, src.width) && Within(cy, 0, |src.rows|)
  }

  /** Both passes over the whole image, nothing cropped or skipped. */
  ghost function TwoPass(src: Raster, cx: Coeffs, cy: Coeffs): (out: Raster)
    requires src.Valid() && Within(cx, 0, src.width) && Within(cy, 0, |src.rows|)
    ensures out.Valid() && out.width == |cx.bounds| && |out.rows| == |cy.bounds|
  {
    VerticalOf(HorizontalOf(src, 0, |src.rows|, cx), cy)
  }

  /** `out` is what both full passes give for a part of `src`. */
  ghost predicate BothPasses(src: Raster, outW: nat, outH: nat, box: Box, out: Raster) {
    && Resizable(src, outW, outH, box)
    && exists cx, cy :: Tables(src, outW, outH, box, cx, cy) && out == TwoPass(src, cx, cy)
  }

  // ----- coefficients as values -----

  ghost function PaddedTaps(g: Axis, xx: nat): (taps: seq<int>)
    requires g.Valid() && xx < g.outSize
    ensures |taps| == g.Ksize() && 0 <= g.End(xx) - g.First(xx) <= |taps|
    ensures TapsFor(g, xx, taps[..g.End(xx) - g.First(xx)])
  {
    WindowFits(g, xx);
    var fixed := FixedTaps(Normalized(RawTaps(g, xx)));
    var taps := fixed + seq(g.Ksize() - |fixed|, i => 0);
    assert taps[..|fixed|] == fixed;
    taps
  }

  /** The coefficients of an axis, without computing them. */
  ghost function CoeffsOf(g: Axis): (c: Coeffs)
    requires g.Valid()
    ensures CoeffsFor(c, g)
  {
    assert forall xx :: 0 <= xx < g.outSize ==> 0 <= g.First(xx) < g.End(xx) by {
      forall xx | 0 <= xx < g.outSize ensures 0 <= g.First(xx) < g.End(xx) { WindowFits(g, xx); }
    }
    assert g.Ksize() >= 0 by { WindowFits(g, 0); }
    Coeffs(g.Ksize(),
           seq(g.outSize, xx requires 0 <= xx < g.outSize => (g.First(xx), g.End(xx) - g.First(xx))),
           seq(g.outSize, xx requires 0 <= xx < g.outSize => PaddedTaps(g, xx)))
  }

  // ----- resample -----

  /** A horizontal pass over the whole width without scaling changes nothing. */
  lemma IdleHorizontal(src: Raster, c: Coeffs, g: Axis)
    requires src.Valid() && CoeffsFor(c, g) && g.in0 == 0.0 && g.outSize == g.inSize == src.width && Unscaled(g)
    requires Within(c, 0, src.width)
    ensures HorizontalOf(src, 0, |src.rows|, c) == src
  {
    var out := HorizontalOf(src, 0, |src.rows|, c);
    forall y | 0 <= y < |src.rows| ensures out.rows[y] == src.rows[y] {
      UnscaledRow(src.rows[y], c, g);
    }
    assert out.rows == src.rows;
  }

  lemma IdleVertical(src: Raster, c: Coeffs, g: Axis)
    requires src.Valid() && CoeffsFor(c, g) && g.in0 == 0.0 && g.outSize == g.inSize == |src.rows| && Unscaled(g)
    requires Within(c, 0, |src.rows|)
    ensures VerticalOf(src, c) == src
  {
    UnscaledColumns(src, c, g);
  }

  /** A pass is needed unless it would copy everything. */
  predicate Needed(g: Axis) { g.outSize != g.inSize || g.in0 != 0.0 || g.in1 != g.outSize as real }

  /** The rows the vertical pass reads. */
  method RowRange(vert: Coeffs, ghost down: Axis) returns (first: nat, last: nat)
    requires CoeffsFor(vert, down)
    ensures first == down.First(0) && last == down.End(down.outSize - 1)
    ensures first <= last <= down.inSize && Within(vert, first, last)
  {
    WindowsWithin(vert, down);
    assert SampleFor(vert, down, 0) && SampleFor(vert, down, down.outSize - 1);
    first := vert.bounds[0].0;
    var (lastMin, lastLen) := vert.bounds[|vert.bounds| - 1];
    last := lastMin + lastLen;
  }

  /** Both passes, the first one cropped; the second one is skipped if it would copy everything. */
  method ResampleCropped(src: Raster, outW: nat, outH: nat, box: Box, horiz: Coeffs, vert: Coeffs) returns (out: Raster)
    requires Resizable(src, outW, outH, box) && Tables(src, outW, outH, box, horiz, vert)
    ensures out == TwoPass(src, horiz, vert)
  {
    var down := Down(src, outH, box);
    var first, last := RowRange(vert, down);
    var middle := Horizontal(src, first, last - first, horiz);
    if Needed(down) {
      CroppedIsUncropped(src, horiz, vert, first, last);
      out := Vertical(middle, Shifted(vert, first));
    } else {
      WholeSourceIsUsed(down);
      IdleVertical(middle, vert, down);
      out := middle;
    }
  }

  /** The resampler: crops the first pass, skips passes that are not needed, and still gives both full passes. */
  method Resample(src: Raster, outW: nat, outH: nat, box: Box) returns (out: Raster)
    requires Resizable(src, outW, outH, box)
    ensures BothPasses(src, outW, outH, box, out)
  {
    var (across, down) := (Across(src, outW, box), Down(src, outH, box));
    var vert := Precompute(down);
    WindowsWithin(vert, down);
    if Needed(across) {
      var horiz := Precompute(across);
      WindowsWithin(horiz, across);
      assert Tables(src, outW, outH, box, horiz, vert);
      out := ResampleCropped(src, outW, outH, box, horiz, vert);
      return;
    }
    ghost var cx := CoeffsOf(across);
    WindowsWithin(cx, across);
    assert Tables(src, outW, outH, box, cx, vert);
    IdleHorizontal(src, cx, across);
    if Needed(down) {
      out := Vertical(src, vert);
    } else {
      IdleVertical(src, vert, down);
      out := src;
    }
  }

  // ----- the crop shortcut -----

  /** The box covers whole pixels and is as large as the result. */
  predicate IsCrop(outW: nat, outH: nat, box: Box) {
    && box.x0 - Trunc(box.x0) as real == 0.0 && box.x1 - box.x0 == outW as real
    && box.y0 - Trunc(box.y0) as real == 0.0 && box.y1 - box.y0 == outH as real
  }

  /** Copying the box is what both passes would compute. */
  lemma CropIsTwoPass(src: Raster, outW: nat, outH: nat, box: Box, cx: Coeffs, cy: Coeffs)
    requires Resizable(src, outW, outH, box) && Tables(src, outW, outH, box, cx, cy) && IsCrop(outW, outH, box)
    ensures var (x0, y0) := (Trunc(box.x0), Trunc(box.y0));
      && 0 <= x0 && x0 + outW <= src.width && 0 <= y0 && y0 + outH <= |src.rows|
      && TwoPass(src, cx, cy).rows == seq(outH, y requires 0 <= y < outH => src.rows[y0 + y][x0..x0 + outW])
  {
    var (x0, y0) := (Trunc(box.x0), Trunc(box.y0));
    var (across, down) := (Across(src, outW, box), Down(src, outH, box));
    assert across.in0.Floor == x0 && down.in0.Floor == y0;
    var middle := HorizontalOf(src, 0, |src.rows|, cx);
    UnscaledRow(src.rows[0], cx, across);
    forall r | 0 <= r < |src.rows| ensures middle.rows[r] == src.rows[r][x0..x0 + outW] {
      UnscaledRow(src.rows[r], cx, across);
    }
    UnscaledColumns(middle, cy, down);
    var rows := TwoPass(src, cx, cy).rows;
    assert rows == middle.rows[y0..y0 + outH];
  }

  method Crop(src: Raster, x0: nat, y0: nat, outW: nat, outH: nat) returns (out: Raster)
    requires src.Valid() && x0 + outW <= src.width && y0 + outH <= |src.rows|
    ensures out == Raster(outW, seq(outH, y requires 0 <= y < outH => src.rows[y0 + y][x0..x0 + outW]))
  {
    var rows: seq<seq<Color>> := [];
    for y := 0 to outH
      invariant |rows| == y && forall r :: 0 <= r < y ==> rows[r] == src.rows[y0 + r][x0..x0 + outW]
    {
      rows := rows + [src.rows[y0 + y][x0..x0 + outW]];
    }
    out := Raster(outW, rows);
  }

  /** Resizing a part of an image: a crop where that is enough, and never different from resampling. */
  method ImResize(src: Raster, outW: nat, outH: nat, box: Box) returns (out: Raster)
    requires Resizable(src, outW, outH, box)
    ensures BothPasses(src, outW, outH, box, out)
  {
    if IsCrop(outW, outH, box) {
      var (across, down) := (Across(src, outW, box), Down(src, outH, box));
      ghost var (cx, cy) := (CoeffsOf(across), CoeffsOf(down));
      WindowsWithin(cx, across);
      WindowsWithin(cy, down);
      assert Tables(src, outW, outH, box, cx, cy);
      CropIsTwoPass(src, outW, outH, box, cx, cy);
      out := Crop(src, Trunc(box.x0), Trunc(box.y0), outW, outH);
    } else {
      out := Resample(src, outW, outH, box);
    }
  }

  // ----- flat images -----

  ghost predicate Flat(image: Raster, c: Color) {
    forall y, x :: 0 <= y < |image.rows| && 0 <= x < |image.rows[y]| ==> image.rows[y][x] == c
  }

  const FLAT_SCALE: nat := 4112

  lemma FewTaps(g: Axis, xx: nat)
    requires g.Valid() && xx < g.outSize && g.Scale() <= FLAT_SCALE as real
    ensures 0 <= g.End(xx) - g.First(xx) <= FLAT_TAPS
  {
    WindowFits(g, xx);
    WindowReach(g, xx);
    assert g.Support() <= 2.0 * FLAT_SCALE as real;
  }

  /** A window of one colour gives that colour. */
  lemma FlatSample(window: seq<Color>, c: Coeffs, g: Axis, xx: nat, color: Color)
    ensures FlatWindow(window, c, g, xx, color) ==> Blend(window, Taps(c, xx)) == color
  {
    if FlatWindow(window, c, g, xx, color) {
      FewTaps(g, xx);
      WeightsSumPositive(g, xx);
      FlatBlend(window, Normalized(RawTaps(g, xx)), color);
    }
  }

  /** `window` has one colour, and is as long as the window of sample `xx`. */
  ghost predicate FlatWindow(window: seq<Color>, c: Coeffs, g: Axis, xx: nat, color: Color) {
    && CoeffsFor(c, g) && xx < g.outSize && SampleFor(c, g, xx)
    && g.Scale() <= FLAT_SCALE as real && |window| == c.bounds[xx].1
    && forall k :: 0 <= k < |window| ==> window[k] == color
  }

  lemma FlatHorizontal(src: Raster, c: Coeffs, g: Axis, color: Color)
    requires src.Valid() && CoeffsFor(c, g) && Within(c, 0, src.width) && Flat(src, color)
    requires g.Scale() <= FLAT_SCALE as real
    ensures Flat(HorizontalOf(src, 0, |src.rows|, c), color)
  {
    var out := HorizontalOf(src, 0, |src.rows|, c);
    forall y, x | 0 <= y < |out.rows| && 0 <= x < |out.rows[y]| ensures out.rows[y][x] == color {
      assert out.rows[y] == RowOf(src.rows[y], c);
      FlatPixel(src.rows[y], c, g, x, color);
    }
  }

  lemma FlatPixel(row: seq<Color>, c: Coeffs, g: Axis, x: nat, color: Color)
    requires CoeffsFor(c, g) && Within(c, 0, |row|) && x < |c.bounds|
    requires g.Scale() <= FLAT_SCALE as real && forall k :: 0 <= k < |row| ==> row[k] == color
    ensures RowPixel(row, c, x) == color
  {
    assert SampleFor(c, g, x);
    var (first, n) := c.bounds[x];
    FlatSample(row[first..first + n], c, g, x, color);
  }

  lemma FlatVertical(src: Raster, c: Coeffs, g: Axis, color: Color)
    requires src.Valid() && CoeffsFor(c, g) && Within(c, 0, |src.rows|) && Flat(src, color)
    requires g.Scale() <= FLAT_SCALE as real
    ensures Flat(VerticalOf(src, c), color)
  {
    var out := VerticalOf(src, c);
    forall y, x | 0 <= y < |out.rows| && 0 <= x < |out.rows[y]| ensures out.rows[y][x] == color {
      assert SampleFor(c, g, y) && out.rows[y][x] == ColumnPixel(src, c, x, y);
      var (first, n) := c.bounds[y];
      FlatSample(Column(src, x, first, n), c, g, y, color);
    }
  }

  /** A flat image stays flat, in its exact colour, at any reduction up to 4112 to one. */
  lemma FlatTwoPass(src: Raster, outW: nat, outH: nat, box: Box, cx: Coeffs, cy: Coeffs, color: Color)
    requires Resizable(src, outW, outH, box) && Tables(src, outW, outH, box, cx, cy) && Flat(src, color)
    requires Across(src, outW, box).Scale() <= FLAT_SCALE as real && Down(src, outH, box).Scale() <= FLAT_SCALE as real
    ensures Flat(TwoPass(src, cx, cy), color)
  {
    FlatHorizontal(src, cx, Across(src, outW, box), color);
    FlatVertical(HorizontalOf(src, 0, |src.rows|, cx), cy, Down(src, outH, box), color);
  }

  // ----- resize -----

  function FullBox(src: Raster): Box { Box(0.0, 0.0, src.width as real, |src.rows| as real) }

  /** `out` is both full passes over the whole of `src`. */
  ghost predicate Resampled(src: Raster, outW: nat, outH: nat, out: Raster) {
    BothPasses(src, outW, outH, FullBox(src), out)
  }

  /** Very tall images are reduced in two steps, height first. */
  predicate Tall(src: Raster, outH: nat) { |src.rows| > src.width * 100 && outH < |src.rows| }

  /**
   * The resize: a copy for the same size, otherwise both passes, over the whole image or, for very
   * tall ones, first for the height alone.
   */
  method ResizeImage(src: Raster, outW: nat, outH: nat) returns (out: Raster)
    requires src.Valid() && src.width > 0 && |src.rows| > 0 && outW > 0 && outH > 0
    ensures out.Valid() && out.width == outW && |out.rows| == outH
    ensures
      if src.width == outW && |src.rows| == outH then out == src
      else if Tall(src, outH) then
        exists tall :: Resampled(src, src.width, outH, tall) && Resampled(tall, outW, outH, out)
      else Resampled(src, outW, outH, out)
    ensures forall c ::
      src.width <= FLAT_SCALE * outW && |src.rows| <= FLAT_SCALE * outH && Flat(src, c) ==> Flat(out, c)
  {
    if src.width == outW && |src.rows| == outH {
      return src;
    }
    if Tall(src, outH) {
      var tall := Whole(src, src.width, outH);
      out := Whole(tall, outW, outH);
    } else {
      out := Whole(src, outW, outH);
    }
  }

  /** One step: the whole image to a new size. */
  method Whole(src: Raster, outW: nat, outH: nat) returns (out: Raster)
    requires src.Valid() && src.width > 0 && |src.rows| > 0 && outW > 0 && outH > 0
    ensures Resampled(src, outW, outH, out)
    ensures out.Valid() && out.width == outW && |out.rows| == outH
    ensures forall c ::
      src.width <= FLAT_SCALE * outW && |src.rows| <= FLAT_SCALE * outH && Flat(src, c) ==> Flat(out, c)
  {
    out := ImResize(src, outW, outH, FullBox(src));
    ghost var cx, cy :| Tables(src, outW, outH, FullBox(src), cx, cy) && out == TwoPass(src, cx, cy);
    if src.width <= FLAT_SCALE * outW && |src.rows| <= FLAT_SCALE * outH {
      ModestScale(src.width, outW);
      ModestScale(|src.rows|, outH);
      forall c | Flat(src, c) ensures Flat(out, c) {
        FlatTwoPass(src, outW, outH, FullBox(src), cx, cy, c);
      }
    }
  }

  lemma ModestScale(size: nat, outSize: nat)
    requires size > 0 && outSize > 0 && size <= FLAT_SCALE * outSize
    ensures Axis(size, 0.0, size as real, outSize).Scale() <= FLAT_SCALE as real
  {
    var s := size as real / outSize as real;
    assert s * outSize as real == size as real;
    assert (FLAT_SCALE * outSize) as real == FLAT_SCALE as real * outSize as real;
    if s > FLAT_SCALE as real {
      ProductPositive(s - FLAT_SCALE as real, outSize as real);
    }
  }
}
