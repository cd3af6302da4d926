/** The two-pass bicubic resize, with the first pass cropped to the rows the second one needs. */
module Resize {
  import opened BoxSplit
  import opened Convolution
  import opened Windows

  /** An image as its rows. */
  datatype Raster = Raster(width: nat, rows: seq<seq<Color>>)
  {
    ghost predicate Valid() { forall y :: 0 <= y < |rows| ==> |rows[y]| == width }
  }

  // ----- coefficients -----

  /** For each output sample its window and its taps, padded to `ksize`. */
  datatype Coeffs = Coeffs(ksize: nat, bounds: seq<(nat, nat)>, kk: seq<seq<int>>)

  ghost predicate TapsFor(g: Axis, xx: nat, taps: seq<int>)
    requires g.Valid() && xx < g.outSize
  {
    taps == FixedTaps(Normalized(RawTaps(g, xx)))
  }

  ghost predicate CoeffsFor(c: Coeffs, g: Axis) {
    && g.Valid() && c.ksize == g.Ksize()
    && |c.bounds| == |c.kk| == g.outSize
    && forall xx :: 0 <= xx < g.outSize ==> SampleFor(c, g, xx)
  }

  ghost predicate SampleFor(c: Coeffs, g: Axis, xx: nat)
    requires g.Valid() && xx < g.outSize && |c.bounds| == |c.kk| == g.outSize
  {
    && c.bounds[xx] == (g.First(xx), g.End(xx) - g.First(xx))
    && |c.kk[xx]| == c.ksize && c.bounds[xx].1 <= c.ksize
    && TapsFor(g, xx, c.kk[xx][..c.bounds[xx].1])
  }

  method RawWeights(g: Axis, xx: nat, xmin: int, count: nat) returns (weights: seq<real>, ww: real)
    requires g.Valid() && xx < g.outSize && xmin == g.First(xx) && count == g.End(xx) - g.First(xx)
    ensures weights == RawTaps(g, xx) && ww == TapSum(weights)
  {
    weights, ww := [], 0.0;
    for x := 0 to count
      invariant |weights| == x && ww == TapSum(weights)
      invariant forall i :: 0 <= i < x ==> weights[i] == RawTap(g, xx, i)
    {
      var w := RawTap(g, xx, x);
      assert (weights + [w])[..x] == weights;
      weights, ww := weights + [w], ww + w;
    }
  }

  method Normalize(weights: seq<real>, ww: real) returns (taps: seq<real>)
    requires ww == TapSum(weights)
    ensures taps == Normalized(weights)
  {
    if ww == 0.0 {
      return weights;
    }
    taps := [];
    for x := 0 to |weights|
      invariant taps == Scaled(weights[..x], ww)
    {
      assert weights[..x + 1][..x] == weights[..x];
      taps := taps + [weights[x] / ww];
    }
    assert weights[..|weights|] == weights;
  }

  method Sample(g: Axis, xx: nat) returns (bound: (nat, nat), taps: seq<int>)
    requires g.Valid() && xx < g.outSize
    ensures bound == (g.First(xx), g.End(xx) - g.First(xx)) && |taps| == g.Ksize() && bound.1 <= |taps|
    ensures TapsFor(g, xx, taps[..bound.1])
  {
    WindowFits(g, xx);
    var xmin := g.First(xx);
    var count := g.End(xx) - xmin;
    var weights, ww := RawWeights(g, xx, xmin, count);
    var normalized := Normalize(weights, ww);
    var fixed := FixedTaps(normalized);
    bound := (xmin, count);
    taps := fixed + seq(g.Ksize() - count, i => Fixed(0.0));
    assert taps[..count] == fixed;
  }

  method Precompute(g: Axis) returns (c: Coeffs)
    requires g.Valid()
    ensures CoeffsFor(c, g)
  {
    assert g.Ksize() >= 0 by { WindowFits(g, 0); }
    var bounds: seq<(nat, nat)>, kk: seq<seq<int>> := [], [];
    for xx := 0 to g.outSize
      invariant |bounds| == |kk| == xx
      invariant forall x :: 0 <= x < xx ==>
        && bounds[x] == (g.First(x), g.End(x) - g.First(x)) && |kk[x]| == g.Ksize() && bounds[x].1 <= |kk[x]|
        && TapsFor(g, x, kk[x][..bounds[x].1])
    {
      var bound, taps := Sample(g, xx);
      bounds, kk := bounds + [bound], kk + [taps];
    }
    c := Coeffs(g.Ksize(), bounds, kk);
  }

  // ----- the two passes -----

  /** All windows lie in the range from `first` up to `last`. */
  ghost predicate Within(c: Coeffs, first: nat, last: nat) {
    && |c.bounds| == |c.kk|
    && forall xx :: 0 <= xx < |c.bounds| ==>
         first <= c.bounds[xx].0 && c.bounds[xx].0 + c.bounds[xx].1 <= last && c.bounds[xx].1 <= |c.kk[xx]|
  }

  function Taps(c: Coeffs, xx: nat): seq<int>
    requires xx < |c.bounds| == |c.kk| && c.bounds[xx].1 <= |c.kk[xx]|
  {
    c.kk[xx][..c.bounds[xx].1]
  }

  function RowPixel(row: seq<Color>, c: Coeffs, xx: nat): Color
    requires xx < |c.bounds| == |c.kk| && c.bounds[xx].1 <= |c.kk[xx]|
    requires c.bounds[xx].0 + c.bounds[xx].1 <= |row|
  {
    Blend(row[c.bounds[xx].0..c.bounds[xx].0 + c.bounds[xx].1], Taps(c, xx))
  }

  ghost function RowOf(row: seq<Color>, c: Coeffs): (out: seq<Color>)
    requires Within(c, 0, |row|)
    ensures |out| == |c.bounds| && forall xx :: 0 <= xx < |c.bounds| ==> out[xx] == RowPixel(row, c, xx)
  {
    seq(|c.bounds|, xx requires 0 <= xx < |c.bounds| => RowPixel(row, c, xx))
  }

  /** The horizontal pass over `count` rows from `offset`. */
  ghost function HorizontalOf(src: Raster, offset: nat, count: nat, c: Coeffs): (out: Raster)
    requires src.Valid() && offset + count <= |src.rows| && Within(c, 0, src.width)
    ensures out.Valid() && out.width == |c.bounds| && |out.rows| == count
    ensures forall y :: 0 <= y < count ==> out.rows[y] == RowOf(src.rows[y + offset], c)
  {
    var rows := seq(count, y requires 0 <= y < count => RowOf(src.rows[y + offset], c));
    assert forall y :: 0 <= y < count ==> rows[y] == RowOf(src.rows[y + offset], c);
    Raster(|c.bounds|, rows)
  }

  /** `n` pixels of column `x` from row `first`. */
  function Column(src: Raster, x: nat, first: nat, n: nat): (column: seq<Color>)
    requires src.width > x && first + n <= |src.rows| && forall y :: 0 <= y < |src.rows| ==> |src.rows[y]| == src.width
    ensures |column| == n && forall y :: 0 <= y < n ==> column[y] == src.rows[first + y][x]
  {
    seq(n, y requires 0 <= y < n => src.rows[first + y][x])
  }

  ghost function ColumnPixel(src: Raster, c: Coeffs, x: nat, yy: nat): Color
    requires src.Valid() && x < src.width && Within(c, 0, |src.rows|) && yy < |c.bounds|
  {
    Blend(Column(src, x, c.bounds[yy].0, c.bounds[yy].1), Taps(c, yy))
  }

  ghost function VerticalOf(src: Raster, c: Coeffs): (out: Raster)
    requires src.Valid() && Within(c, 0, |src.rows|)
    ensures out.Valid() && out.width == src.width && |out.rows| == |c.bounds|
    ensures forall yy, x :: 0 <= yy < |c.bounds| && 0 <= x < src.width ==> out.rows[yy][x] == ColumnPixel(src, c, x, yy)
  {
    Raster(src.width, seq(|c.bounds|, yy requires 0 <= yy < |c.bounds| =>
      seq(src.width, x requires 0 <= x < src.width => ColumnPixel(src, c, x, yy))))
  }

  method Horizontal(src: Raster, offset: nat, count: nat, c: Coeffs) returns (out: Raster)
    requires src.Valid() && offset + count <= |src.rows| && Within(c, 0, src.width)
    ensures out == HorizontalOf(src, offset, count, c)
  {
    var rows: seq<seq<Color>> := [];
    for yy := 0 to count
      invariant |rows| == yy && forall y :: 0 <= y < yy ==> rows[y] == RowOf(src.rows[y + offset], c)
    {
      var source := src.rows[yy + offset];
      var row: seq<Color> := [];
      for xx := 0 to |c.bounds|
        invariant |row| == xx && forall x :: 0 <= x < xx ==> row[x] == RowPixel(source, c, x)
      {
        var (xmin, xmax) := c.bounds[xx];
        var pixel := Convolve(source[xmin..xmin + xmax], Taps(c, xx));
        row := row + [pixel];
      }
      assert row == RowOf(source, c);
      rows := rows + [row];
    }
    out := Raster(|c.bounds|, rows);
  }

  method Vertical(src: Raster, c: Coeffs) returns (out: Raster)
    requires src.Valid() && Within(c, 0, |src.rows|)
    ensures out == VerticalOf(src, c)
  {
    var rows: seq<seq<Color>> := [];
    for yy := 0 to |c.bounds|
      invariant |rows| == yy && forall y :: 0 <= y < yy ==> rows[y] == VerticalOf(src, c).rows[y]
    {
      var (ymin, ymax) := c.bounds[yy];
      var row: seq<Color> := [];
      for xx := 0 to src.width
        invariant |row| == xx && forall x :: 0 <= x < xx ==> row[x] == ColumnPixel(src, c, x, yy)
      {
        var pixel := Convolve(Column(src, xx, ymin, ymax), Taps(c, yy));
        row := row + [pixel];
      }
      assert row == VerticalOf(src, c).rows[yy];
      rows := rows + [row];
    }
    out := Raster(src.width, rows);
  }

  // ----- cropping -----

  /** The vertical coefficients moved up to a source that starts at row `first`. */
  function Shifted(c: Coeffs, first: nat): (shifted: Coeffs)
    requires forall yy :: 0 <= yy < |c.bounds| ==> first <= c.bounds[yy].0
    ensures shifted.kk == c.kk && |shifted.bounds| == |c.bounds|
    ensures forall yy :: 0 <= yy < |c.bounds| ==> shifted.bounds[yy] == (c.bounds[yy].0 - first, c.bounds[yy].1)
  {
    c.(bounds := seq(|c.bounds|, yy requires 0 <= yy < |c.bounds| => (c.bounds[yy].0 - first, c.bounds[yy].1)))
  }

  /** `part` is the rows of `whole` from `first` on, as many as it has. */
  ghost predicate PartOf(part: Raster, whole: Raster, first: nat) {
    && part.Valid() && whole.Valid() && part.width == whole.width
    && first + |part.rows| <= |whole.rows|
    && forall y :: 0 <= y < |part.rows| ==> part.rows[y] == whole.rows[first + y]
  }

  /** Reading a part of an image with windows moved to it is reading the image. */
  lemma PartIsEnough(part: Raster, whole: Raster, c: Coeffs, first: nat)
    requires PartOf(part, whole, first) && Within(c, first, first + |part.rows|)
    ensures Within(Shifted(c, first), 0, |part.rows|) && Within(c, 0, |whole.rows|)
    ensures VerticalOf(part, Shifted(c, first)) == VerticalOf(whole, c)
  {
    var (a, b) := (VerticalOf(part, Shifted(c, first)), VerticalOf(whole, c));
    forall yy | 0 <= yy < |c.bounds| ensures a.rows[yy] == b.rows[yy] {
      forall x | 0 <= x < part.width ensures a.rows[yy][x] == b.rows[yy][x] {
        MovedColumn(part, whole, first, x, c.bounds[yy].0, c.bounds[yy].1);
      }
    }
  }

  /** Computing only the rows the second pass reads, and moving its windows, changes nothing. */
  lemma CroppedIsUncropped(src: Raster, cx: Coeffs, cy: Coeffs, first: nat, last: nat)
    requires src.Valid() && Within(cx, 0, src.width) && first <= last <= |src.rows| && Within(cy, first, last)
    ensures Within(Shifted(cy, first), 0, last - first)
    ensures VerticalOf(HorizontalOf(src, first, last - first, cx), Shifted(cy, first))
         == VerticalOf(HorizontalOf(src, 0, |src.rows|, cx), cy)
  {
    var (part, whole) := (HorizontalOf(src, first, last - first, cx), HorizontalOf(src, 0, |src.rows|, cx));
    forall y | 0 <= y < last - first ensures part.rows[y] == whole.rows[first + y] {
      assert part.rows[y] == RowOf(src.rows[y + first], cx);
    }
    PartIsEnough(part, whole, cy, first);
  }

  lemma MovedColumn(part: Raster, whole: Raster, first: nat, x: nat, ymin: nat, n: nat)
    requires PartOf(part, whole, first) && x < part.width
    requires first <= ymin && ymin - first + n <= |part.rows|
    ensures Column(part, x, ymin - first, n) == Column(whole, x, ymin, n)
  {
  }

  lemma WindowsWithin(c: Coeffs, g: Axis)
    requires CoeffsFor(c, g)
    ensures Within(c, 0, g.inSize)
    ensures g.First(0) >= 0 && g.First(0) <= g.End(g.outSize - 1) <= g.inSize
    ensures Within(c, g.First(0), g.End(g.outSize - 1))
  {
    WindowFits(g, 0);
    WindowFits(g, g.outSize - 1);
    WindowsAscend(g, 0, g.outSize - 1);
    forall xx | 0 <= xx < g.outSize
      ensures g.First(0) <= c.bounds[xx].0 && c.bounds[xx].0 + c.bounds[xx].1 <= g.End(g.outSize - 1)
        && c.bounds[xx].1 <= |c.kk[xx]|
    {
      assert SampleFor(c, g, xx);
      WindowFits(g, xx);
      WindowsAscend(g, 0, xx);
      WindowsAscend(g, xx, g.outSize - 1);
    }
  }

  // ----- passes that only crop -----

  /** A pass without scaling from a whole sample on: it copies `outSize` samples from `in0`. */
  predicate Unscaled(g: Axis) {
    g.in0 == g.in0.Floor as real && g.in1 - g.in0 == g.outSize as real
  }

  /** One tap is one, at the sample that is copied; the others are zero. */
  ghost predicate OneHot(taps: seq<real>, p: nat) {
    p < |taps| && forall i :: 0 <= i < |taps| ==> taps[i] == if i == p then 1.0 else 0.0
  }

  lemma {:induction false} OneHotSum(taps: seq<real>, p: nat)
    requires forall i :: 0 <= i < |taps| ==> taps[i] == if i == p then 1.0 else 0.0
    ensures TapSum(taps) == if p < |taps| then 1.0 else 0.0
  {
    if |taps| > 0 {
      OneHotSum(taps[..|taps| - 1], p);
    }
  }

  lemma UnscaledWindow(g: Axis, xx: nat) returns (p: nat)
    requires g.Valid() && Unscaled(g) && xx < g.outSize
    ensures p == g.in0.Floor + xx < g.inSize && g.Center(xx) == p as real + 0.5 && g.FilterScale() == 1.0
    ensures g.First(xx) == MaxInt(p - 1, 0) && g.End(xx) == MinInt(p + 3, g.inSize)
  {
    SelfRatio(g.outSize as real);
    assert g.Scale() == 1.0;
    p := g.in0.Floor + xx;
  }

  lemma SelfRatio(n: real)
    requires n > 0.0
    ensures n / n == 1.0
  {
  }

  lemma UnscaledTap(g: Axis, xx: nat, p: nat, i: nat)
    requires g.Valid() && xx < g.outSize && i < |RawTaps(g, xx)|
    requires g.Center(xx) == p as real + 0.5 && g.FilterScale() == 1.0 && p - 1 <= i + g.First(xx) <= p + 2
    ensures RawTaps(g, xx)[i] == if i + g.First(xx) == p then 1.0 else 0.0
  {
    WindowFits(g, xx);
    assert RawTaps(g, xx)[i] == RawTap(g, xx, i);
    UnscaledWeight(i + g.First(xx), p, g.Center(xx), g.FilterScale());
  }

  lemma UnscaledTaps(g: Axis, xx: nat) returns (p: nat)
    requires g.Valid() && Unscaled(g) && xx < g.outSize
    ensures p == g.in0.Floor + xx && g.First(xx) <= p < g.End(xx)
    ensures OneHot(RawTaps(g, xx), p - g.First(xx)) && Normalized(RawTaps(g, xx)) == RawTaps(g, xx)
  {
    p := UnscaledWindow(g, xx);
    WindowFits(g, xx);
    var (raw, at) := (RawTaps(g, xx), p - g.First(xx));
    forall i | 0 <= i < |raw| ensures raw[i] == if i == at then 1.0 else 0.0 {
      UnscaledTap(g, xx, p, i);
    }
    OneHotSum(raw, at);
    ScaledByOne(raw);
  }

  lemma UnscaledWeight(j: int, p: int, center: real, scale: real)
    requires scale == 1.0 && center == p as real + 0.5 && p - 1 <= j <= p + 2
    ensures WeightOf(j, center, scale) == if j == p then 1.0 else 0.0
  {
    assert j as real - center + 0.5 == (j - p) as real;
    SmallBicubic(j - p);
  }

  lemma SmallBicubic(d: int)
    requires -1 <= d <= 2
    ensures Bicubic(d as real * (1.0 / 1.0)) == if d == 0 then 1.0 else 0.0
  {
    assert Bicubic(-1.0) == Bicubic(1.0) == 0.0;
    assert Bicubic(0.0) == 1.0;
    assert Bicubic(2.0) == 0.0;
    assert d == -1 || d == 0 || d == 1 || d == 2;
  }

  lemma {:induction false} ScaledByOne(raw: seq<real>)
    ensures Scaled(raw, 1.0) == raw
  {
    if |raw| > 0 {
      ScaledByOne(raw[..|raw| - 1]);
    }
  }

  /** Blending with one tap of one gives the pixel under it. */
  lemma OneHotBlend(window: seq<Color>, taps: seq<real>, p: nat)
    requires |window| == |taps| && OneHot(taps, p)
    ensures Blend(window, FixedTaps(taps)) == window[p]
  {
    forall ch | 0 <= ch < 3 ensures Clip8(ROUND + Dot(window, FixedTaps(taps), ch)) == window[p].At(ch) {
      var terms := Terms(window, FixedTaps(taps), ch);
      forall i | 0 <= i < |terms| ensures terms[i] == if i == p then window[p].At(ch) * ONE else 0 {
        FixedUnit(taps[i]);
      }
      OneTerm(terms, p, window[p].At(ch) * ONE);
      assert (ROUND + window[p].At(ch) * ONE) / ONE == window[p].At(ch);
    }
    BlendChannel(window, FixedTaps(taps), 0);
    BlendChannel(window, FixedTaps(taps), 1);
    BlendChannel(window, FixedTaps(taps), 2);
  }

  lemma FixedUnit(k: real)
    requires k == 0.0 || k == 1.0
    ensures Fixed(k) == if k == 1.0 then ONE else 0
  {
  }

  lemma {:induction false} OneTerm(terms: seq<int>, p: nat, v: int)
    requires forall i :: 0 <= i < |terms| ==> terms[i] == if i == p then v else 0
    ensures SumInts(terms) == if p < |terms| then v else 0
  {
    if |terms| > 0 {
      OneTerm(terms[..|terms| - 1], p, v);
    }
  }

  /** The sample an unscaled pass copies, and the taps that do it. */
  lemma CopiedSample(c: Coeffs, g: Axis, x: nat) returns (p: nat, taps: seq<real>)
    requires CoeffsFor(c, g) && Unscaled(g) && x < g.outSize
    ensures p == g.in0.Floor + x && c.bounds[x].0 <= p < c.bounds[x].0 + c.bounds[x].1
    ensures |taps| == c.bounds[x].1 <= |c.kk[x]| && Taps(c, x) == FixedTaps(taps)
    ensures OneHot(taps, p - c.bounds[x].0)
  {
    assert SampleFor(c, g, x);
    p := UnscaledTaps(g, x);
    taps := RawTaps(g, x);
  }

  lemma UnscaledPixel(row: seq<Color>, c: Coeffs, g: Axis, x: nat)
    requires CoeffsFor(c, g) && Unscaled(g) && Within(c, 0, |row|) && x < g.outSize
    ensures 0 <= g.in0.Floor + x < |row| && RowPixel(row, c, x) == row[g.in0.Floor + x]
  {
    var p, taps := CopiedSample(c, g, x);
    var (first, n) := c.bounds[x];
    OneHotBlend(row[first..first + n], taps, p - first);
  }

  /** An unscaled horizontal pass copies a part of each row. */
  lemma UnscaledRow(row: seq<Color>, c: Coeffs, g: Axis)
    requires CoeffsFor(c, g) && Unscaled(g) && g.inSize == |row| && Within(c, 0, |row|)
    ensures 0 <= g.in0.Floor && g.in0.Floor + g.outSize <= |row|
    ensures RowOf(row, c) == row[g.in0.Floor..g.in0.Floor + g.outSize]
  {
    var out := RowOf(row, c);
    forall x | 0 <= x < g.outSize ensures g.in0.Floor + x < |row| && out[x] == row[g.in0.Floor + x] {
      UnscaledPixel(row, c, g, x);
    }
  }

  lemma UnscaledColumnPixel(src: Raster, c: Coeffs, g: Axis, x: nat, y: nat)
    requires src.Valid() && CoeffsFor(c, g) && Unscaled(g) && Within(c, 0, |src.rows|) && y < g.outSize && x < src.width
    ensures 0 <= g.in0.Floor + y < |src.rows| && ColumnPixel(src, c, x, y) == src.rows[g.in0.Floor + y][x]
  {
    var p, taps := CopiedSample(c, g, y);
    var (first, n) := c.bounds[y];
    OneHotBlend(Column(src, x, first, n), taps, p - first);
  }

  /** An unscaled vertical pass copies some of the rows. */
  lemma UnscaledColumns(src: Raster, c: Coeffs, g: Axis)
    requires src.Valid() && CoeffsFor(c, g) && Unscaled(g) && g.inSize == |src.rows| && Within(c, 0, |src.rows|)
    ensures 0 <= g.in0.Floor && g.in0.Floor + g.outSize <= |src.rows|
    ensures VerticalOf(src, c).rows == src.rows[g.in0.Floor..g.in0.Floor + g.outSize]
  {
    var (out, part) := (VerticalOf(src, c), src.rows[g.in0.Floor..g.in0.Floor + g.outSize]);
    forall y | 0 <= y < g.outSize ensures out.rows[y] == part[y] {
      forall x | 0 <= x < src.width ensures out.rows[y][x] == part[y][x] {
        UnscaledColumnPixel(src, c, g, x, y);
      }
    }
  }
}
