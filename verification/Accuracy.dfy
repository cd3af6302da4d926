/** The fixed-point arithmetic of the resize: it never leaves 32 bits, and how far it is from the exact result. */
module Accuracy {
  import opened BoxSplit
  import opened Convolution
  import opened ImageResize
  import opened Reals
  import opened Resize
  import opened WeightSums
  import opened Windows

  // ----- normalised weights -----

  lemma {:induction false} ScaledAbs(raw: seq<real>, total: real)
    requires total > 0.0
    ensures Mul(AbsSum(Scaled(raw, total)), total) == AbsSum(raw)
  {
    if |raw| > 0 {
      var (rest, last) := (raw[..|raw| - 1], raw[|raw| - 1]);
      ScaledAbs(rest, total);
      assert Scaled(raw, total)[..|raw| - 1] == Scaled(rest, total);
      AbsQuotient(last, total);
      Distributes(AbsSum(Scaled(rest, total)), Abs(last / total), total);
    }
  }

  lemma AbsQuotient(x: real, d: real)
    requires d > 0.0
    ensures Mul(Abs(x / d), d) == Abs(x)
  {
    var q := x / d;
    assert q * d == x;
    if q >= 0.0 { ProductSign(q, d); } else { ProductPositive(-q, d); assert (-q) * d == -(q * d); }
  }

  lemma Distributes(a: real, b: real, c: real)
    ensures Mul(a + b, c) == Mul(a, c) + Mul(b, c)
  {
  }

  /** The absolute values of normalised weights sum to less than 1.9. */
  lemma NormalizedAbs(g: Axis, xx: nat)
    requires g.Valid() && xx < g.outSize
    ensures AbsSum(Normalized(RawTaps(g, xx))) < 1.9
  {
    var raw := RawTaps(g, xx);
    var total := TapSum(raw);
    WeightsSumPositive(g, xx);
    LittleCancels(g, xx);
    ScaledAbs(raw, total);
    Quotient(AbsSum(Scaled(raw, total)), total);
  }

  lemma Quotient(a: real, total: real)
    requires total > 0.0 && 10.0 * Mul(a, total) < 19.0 * total
    ensures a < 1.9
  {
    assert (1.9 - a) * total == 1.9 * total - Mul(a, total);
    PositiveFactor(1.9 - a, total);
  }

  // ----- 32 bits -----

  function AbsInt(v: int): nat { if v >= 0 then v else -v }

  function AbsInts(s: seq<int>): nat {
    if |s| == 0 then 0 else AbsInts(s[..|s| - 1]) + AbsInt(s[|s| - 1])
  }

  /** Rounding adds at most half a unit for each tap. */
  lemma {:induction false} FixedAbs(taps: seq<real>)
    ensures AbsInts(FixedTaps(taps)) as real <= AbsSum(taps) * ONE as real + 0.5 * |taps| as real
  {
    if |taps| > 0 {
      var n := |taps| - 1;
      FixedAbs(taps[..n]);
      assert FixedTaps(taps)[..n] == FixedTaps(taps[..n]);
      FixedError(taps[n]);
    }
  }

  lemma {:induction false} PrefixAbs(taps: seq<int>, x: nat)
    requires x <= |taps|
    ensures AbsInts(taps[..x]) <= AbsInts(taps)
    decreases |taps|
  {
    if x < |taps| {
      PrefixAbs(taps[..|taps| - 1], x);
      assert taps[..|taps| - 1][..x] == taps[..x];
    } else {
      assert taps[..x] == taps;
    }
  }

  /** A sum of bytes times taps is at most 255 times the sum of the absolute taps. */
  lemma {:induction false} DotBound(window: seq<Color>, taps: seq<int>, ch: nat)
    requires |window| == |taps| && ch < 3
    ensures AbsInt(Dot(window, taps, ch)) <= 255 * AbsInts(taps)
  {
    if |taps| > 0 {
      var n := |taps| - 1;
      DotBound(window[..n], taps[..n], ch);
      assert window[..n + 1] == window && taps[..n + 1] == taps;
      DotNext(window, taps, n);
      TermBound(window[n].At(ch), taps[n]);
    }
  }

  lemma TermBound(v: nat, k: int)
    requires v < 256
    ensures AbsInt(v * k) <= 255 * AbsInt(k)
  {
    if k >= 0 {
      assert v * k <= 255 * k by { assert (255 - v) * k >= 0; }
    } else {
      assert v * -k <= 255 * -k by { assert (255 - v) * -k >= 0; }
    }
  }

  predicate FitsI32(v: int) { -0x8000_0000 <= v < 0x8000_0000 }

  /** The longest window the bound covers; 16 million pixels brought to 100 need 640001 taps. */
  const MAX_TAPS: nat := 888_205

  /**
   * Every accumulator, after any number of taps of any window, fits 32 bits, as do the taps: no
   * addition of either pass overflows, whatever the pixels are.
   */
  lemma AccumulatorsFit(g: Axis, xx: nat, window: seq<Color>, x: nat, ch: nat)
    requires g.Valid() && xx < g.outSize && ch < 3
    requires g.End(xx) - g.First(xx) == |window| <= MAX_TAPS && x <= |window|
    ensures var taps := FixedTaps(Normalized(RawTaps(g, xx)));
      && |taps| == |window| && FitsI32(ROUND + Dot(window[..x], taps[..x], ch))
      && (x < |taps| ==> FitsI32(taps[x]) && FitsI32(window[x].At(ch) * taps[x]))
  {
    WindowFits(g, xx);
    var exact := Normalized(RawTaps(g, xx));
    var taps := FixedTaps(exact);
    NormalizedAbs(g, xx);
    FixedAbs(exact);
    AbsLimit(AbsInts(taps), AbsSum(exact), |taps|);
    PrefixAbs(taps, x);
    DotBound(window[..x], taps[..x], ch);
    if x < |taps| {
      PrefixAbs(taps, x + 1);
      assert taps[..x + 1][..x] == taps[..x];
      TermBound(window[x].At(ch), taps[x]);
    }
  }

  lemma AbsLimit(sum: nat, exact: real, n: nat)
    requires exact < 1.9 && n <= MAX_TAPS && sum as real <= exact * ONE as real + 0.5 * n as real
    ensures 255 * sum + ROUND < 0x8000_0000
  {
    assert exact * ONE as real <= 1.9 * ONE as real;
    assert 255.0 * sum as real + ROUND as real < 0x8000_0000 as real;
  }

  // ----- one pass -----

  /** How far a channel may be from the exact, clamped convolution of `n` samples. */
  function PassError(n: nat): real { 0.5 + 127.5 * n as real / ONE as real }

  /** Each channel of a horizontal pass is within this bound of the exact, clamped convolution. */
  lemma HorizontalError(src: Raster, c: Coeffs, g: Axis, y: nat, x: nat, ch: nat)
    requires src.Valid() && CoeffsFor(c, g) && Within(c, 0, src.width) && g.inSize == src.width
    requires y < |src.rows| && x < g.outSize && ch < 3
    ensures 0 <= g.First(x) < g.End(x) <= src.width
    ensures var window := src.rows[y][g.First(x)..g.End(x)];
      Abs(HorizontalOf(src, 0, |src.rows|, c).rows[y][x].At(ch) as real
          - Clamp(RealDot(window, Normalized(RawTaps(g, x)), ch), 0.0, 255.0))
        <= PassError(|window|)
  {
    WindowFits(g, x);
    assert SampleFor(c, g, x);
    BlendError(src.rows[y][g.First(x)..g.End(x)], Normalized(RawTaps(g, x)), ch);
  }

  /** The same for a vertical pass. */
  lemma VerticalError(src: Raster, c: Coeffs, g: Axis, y: nat, x: nat, ch: nat)
    requires src.Valid() && CoeffsFor(c, g) && Within(c, 0, |src.rows|) && g.inSize == |src.rows|
    requires y < g.outSize && x < src.width && ch < 3
    ensures 0 <= g.First(y) < g.End(y) <= |src.rows|
    ensures var window := Column(src, x, g.First(y), g.End(y) - g.First(y));
      Abs(VerticalOf(src, c).rows[y][x].At(ch) as real
          - Clamp(RealDot(window, Normalized(RawTaps(g, y)), ch), 0.0, 255.0))
        <= PassError(|window|)
  {
    WindowFits(g, y);
    assert SampleFor(c, g, y);
    assert VerticalOf(src, c).rows[y][x] == ColumnPixel(src, c, x, y);
    BlendError(Column(src, x, g.First(y), g.End(y) - g.First(y)), Normalized(RawTaps(g, y)), ch);
  }

  // ----- both passes -----

  function Products(values: seq<real>, taps: seq<real>): (terms: seq<real>)
    requires |values| == |taps|
    ensures |terms| == |taps| && forall i :: 0 <= i < |taps| ==> IsProduct(terms[i], values[i], taps[i])
  {
    seq(|taps|, i requires 0 <= i < |taps| => values[i] * taps[i])
  }

  /** The weighted sum of exact samples. */
  function ExactDot(values: seq<real>, taps: seq<real>): real
    requires |values| == |taps|
  {
    TapSum(Products(values, taps))
  }

  function Channel(window: seq<Color>, ch: nat): (values: seq<real>)
    requires ch < 3
    ensures |values| == |window| && forall i :: 0 <= i < |window| ==> values[i] == window[i].At(ch) as real
  {
    seq(|window|, i requires 0 <= i < |window| => window[i].At(ch) as real)
  }

  lemma BytesAreExact(window: seq<Color>, taps: seq<real>, ch: nat)
    requires |window| == |taps| && ch < 3
    ensures RealDot(window, taps, ch) == ExactDot(Channel(window, ch), taps)
  {
    var (a, b) := (RealTerms(window, taps, ch), Products(Channel(window, ch), taps));
    forall i | 0 <= i < |taps| ensures a[i] == b[i] {
      assert IsProduct(a[i], window[i].At(ch) as real, taps[i]) && IsProduct(b[i], Channel(window, ch)[i], taps[i]);
    }
    assert a == b;
  }

  predicate Near(x: real, y: real, e: real) { Abs(x - y) <= e }

  lemma {:induction false} SumNear(x: seq<real>, y: seq<real>, bounds: seq<real>)
    requires |x| == |y| == |bounds| && forall i :: 0 <= i < |x| ==> Near(x[i], y[i], bounds[i])
    ensures Near(TapSum(x), TapSum(y), TapSum(bounds))
  {
    if |x| > 0 {
      var n := |x| - 1;
      SumNear(x[..n], y[..n], bounds[..n]);
      assert Near(x[n], y[n], bounds[n]);
    }
  }

  function AbsTaps(taps: seq<real>): (abs: seq<real>)
    ensures |abs| == |taps| && forall i :: 0 <= i < |taps| ==> abs[i] == Abs(taps[i])
  {
    seq(|taps|, i requires 0 <= i < |taps| => Abs(taps[i]))
  }

  lemma {:induction false} AbsSumIsSum(taps: seq<real>, abs: seq<real>)
    requires |abs| == |taps| && forall i :: 0 <= i < |taps| ==> abs[i] == Abs(taps[i])
    ensures AbsSum(taps) == TapSum(abs)
  {
    if |taps| > 0 { AbsSumIsSum(taps[..|taps| - 1], abs[..|taps| - 1]); }
  }

  function Scaling(e: real, abs: seq<real>): (bounds: seq<real>)
    ensures |bounds| == |abs| && forall i :: 0 <= i < |abs| ==> IsProduct(bounds[i], e, abs[i])
  {
    seq(|abs|, i requires 0 <= i < |abs| => e * abs[i])
  }

  lemma {:induction false} ScalingSum(e: real, abs: seq<real>)
    ensures TapSum(Scaling(e, abs)) == Mul(e, TapSum(abs))
  {
    ScaledTerms(Scaling(e, abs), abs, e);
  }

  lemma TermNear(a: seq<real>, b: seq<real>, taps: seq<real>, e: real, i: nat)
    requires |a| == |b| == |taps| && i < |a| && Near(a[i], b[i], e)
    ensures Near(Products(a, taps)[i], Products(b, taps)[i], Scaling(e, AbsTaps(taps))[i])
  {
    assert IsProduct(Products(a, taps)[i], a[i], taps[i]) && IsProduct(Products(b, taps)[i], b[i], taps[i]);
    assert IsProduct(Scaling(e, AbsTaps(taps))[i], e, Abs(taps[i]));
    ErrorOfTerm(a[i], b[i], taps[i], e);
  }

  /** Errors in the samples pass on, weighted by the absolute taps. */
  lemma {:induction false} ErrorsPassOn(a: seq<real>, b: seq<real>, taps: seq<real>, e: real)
    requires |a| == |b| == |taps| && forall i :: 0 <= i < |a| ==> Near(a[i], b[i], e)
    ensures Near(ExactDot(a, taps), ExactDot(b, taps), Mul(e, AbsSum(taps)))
  {
    var bounds := Scaling(e, AbsTaps(taps));
    forall i | 0 <= i < |taps| ensures Near(Products(a, taps)[i], Products(b, taps)[i], bounds[i]) {
      TermNear(a, b, taps, e, i);
    }
    SumNear(Products(a, taps), Products(b, taps), bounds);
    AbsSumIsSum(taps, AbsTaps(taps));
    ScalingSum(e, AbsTaps(taps));
  }

  lemma {:induction false} WeightedNear(a: seq<real>, b: seq<real>, taps: seq<real>, e: real)
    requires |a| == |b| == |taps| && AbsSum(taps) < 1.9 && e >= 0.0
    requires forall i :: 0 <= i < |a| ==> Near(a[i], b[i], e)
    ensures Near(ExactDot(a, taps), ExactDot(b, taps), 1.9 * e)
  {
    ErrorsPassOn(a, b, taps, e);
    MulAtMost(e, AbsSum(taps));
  }

  lemma MulAtMost(e: real, s: real)
    requires s < 1.9 && e >= 0.0
    ensures Mul(e, s) <= 1.9 * e
  {
    ProductSign(e, 1.9 - s);
    assert e * (1.9 - s) == 1.9 * e - e * s;
  }

  lemma ErrorOfTerm(a: real, b: real, k: real, e: real)
    requires Near(a, b, e)
    ensures Abs(a * k - b * k) <= Mul(e, Abs(k))
  {
    var d := a - b;
    assert a * k - b * k == d * k;
    ProductSign(e - d, Abs(k));
    ProductSign(e + d, Abs(k));
    assert (e - d) * Abs(k) == Mul(e, Abs(k)) - d * Abs(k);
    assert (e + d) * Abs(k) == Mul(e, Abs(k)) + d * Abs(k);
    if k < 0.0 { assert d * Abs(k) == -(d * k); }
  }

  lemma ClampNear(x: real, y: real, e: real)
    requires Near(x, y, e)
    ensures Near(Clamp(x, 0.0, 255.0), Clamp(y, 0.0, 255.0), e)
  {
  }

  /** A sample between the passes, exactly. */
  function MidSample(src: Raster, g: Axis, y: nat, x: nat, ch: nat): real
    requires src.Valid() && g.Valid() && g.inSize == src.width && y < |src.rows| && x < g.outSize && ch < 3
  {
    WindowFits(g, x);
    Clamp(RealDot(src.rows[y][g.First(x)..g.End(x)], Normalized(RawTaps(g, x)), ch), 0.0, 255.0)
  }

  /** What the second pass reads, from row `first` on, if the first one is exact. */
  function MidColumn(src: Raster, g: Axis, x: nat, first: nat, n: nat, ch: nat): (values: seq<real>)
    requires src.Valid() && g.Valid() && g.inSize == src.width && x < g.outSize && ch < 3
    requires first + n <= |src.rows|
    ensures |values| == n && forall k :: 0 <= k < n ==> values[k] == MidSample(src, g, first + k, x, ch)
  {
    seq(n, k requires 0 <= k < n => MidSample(src, g, first + k, x, ch))
  }

  lemma SampleNear(src: Raster, c: Coeffs, g: Axis, x: nat, y: nat, ch: nat)
    requires src.Valid() && CoeffsFor(c, g) && Within(c, 0, src.width) && g.inSize == src.width
    requires x < g.outSize && ch < 3 && y < |src.rows|
    ensures 0 <= g.First(x) < g.End(x)
    ensures Near(HorizontalOf(src, 0, |src.rows|, c).rows[y][x].At(ch) as real, MidSample(src, g, y, x, ch),
                 PassError(g.End(x) - g.First(x)))
  {
    HorizontalError(src, c, g, y, x, ch);
  }

  lemma ColumnNear(src: Raster, mid: Raster, g: Axis, x: nat, first: nat, n: nat, ch: nat, e: real)
    requires src.Valid() && mid.Valid() && |mid.rows| == |src.rows| && x < mid.width
    requires g.Valid() && g.inSize == src.width && x < g.outSize && ch < 3 && first + n <= |src.rows|
    requires forall y :: 0 <= y < |src.rows| ==> Near(mid.rows[y][x].At(ch) as real, MidSample(src, g, y, x, ch), e)
    ensures forall k :: 0 <= k < n ==>
      Near(Channel(Column(mid, x, first, n), ch)[k], MidColumn(src, g, x, first, n, ch)[k], e)
  {
    forall k | 0 <= k < n
      ensures Near(Channel(Column(mid, x, first, n), ch)[k], MidColumn(src, g, x, first, n, ch)[k], e)
    {
      assert Near(mid.rows[first + k][x].At(ch) as real, MidSample(src, g, first + k, x, ch), e);
      assert Column(mid, x, first, n)[k] == mid.rows[first + k][x];
    }
  }

  lemma FirstPassNear(src: Raster, c: Coeffs, g: Axis, x: nat, first: nat, n: nat, ch: nat)
    requires src.Valid() && CoeffsFor(c, g) && Within(c, 0, src.width) && g.inSize == src.width
    requires x < g.outSize && ch < 3 && first + n <= |src.rows|
    ensures 0 <= g.First(x) < g.End(x)
    ensures var a := Channel(Column(HorizontalOf(src, 0, |src.rows|, c), x, first, n), ch);
      forall k :: 0 <= k < n ==> Near(a[k], MidColumn(src, g, x, first, n, ch)[k], PassError(g.End(x) - g.First(x)))
  {
    WindowFits(g, x);
    var (mid, e) := (HorizontalOf(src, 0, |src.rows|, c), PassError(g.End(x) - g.First(x)));
    forall y | 0 <= y < |src.rows| ensures Near(mid.rows[y][x].At(ch) as real, MidSample(src, g, y, x, ch), e) {
      SampleNear(src, c, g, x, y, ch);
    }
    ColumnNear(src, mid, g, x, first, n, ch, e);
  }

  /** The exact value of an output channel: both convolutions exact, each clamped to a byte's range. */
  function ExactPixel(src: Raster, across: Axis, down: Axis, y: nat, x: nat, ch: nat): real
    requires src.Valid() && across.Valid() && across.inSize == src.width && x < across.outSize && ch < 3
    requires down.Valid() && down.inSize == |src.rows| && y < down.outSize
  {
    WindowFits(down, y);
    var mid := MidColumn(src, across, x, down.First(y), down.End(y) - down.First(y), ch);
    Clamp(ExactDot(mid, Normalized(RawTaps(down, y))), 0.0, 255.0)
  }

  /** `v` is near the convolution of the bytes, which are near the exact samples. */
  lemma {:induction false} PassesCombine(window: seq<Color>, exact: seq<real>, taps: seq<real>, ch: nat, e: real,
                                         v: real, e': real)
    requires |window| == |exact| == |taps| && ch < 3 && AbsSum(taps) < 1.9 && e >= 0.0
    requires forall k :: 0 <= k < |exact| ==> Near(Channel(window, ch)[k], exact[k], e)
    requires Abs(v - Clamp(RealDot(window, taps, ch), 0.0, 255.0)) <= e'
    ensures Near(v, Clamp(ExactDot(exact, taps), 0.0, 255.0), e' + 1.9 * e)
  {
    BytesAreExact(window, taps, ch);
    WeightedNear(Channel(window, ch), exact, taps, e);
    ClampNear(RealDot(window, taps, ch), ExactDot(exact, taps), 1.9 * e);
  }

  /** The second pass over samples that are within `e` of the exact ones. */
  lemma SecondPass(mid: Raster, c: Coeffs, g: Axis, y: nat, x: nat, ch: nat, first: nat, n: nat,
                   exact: seq<real>, e: real)
    requires mid.Valid() && CoeffsFor(c, g) && Within(c, 0, |mid.rows|) && g.inSize == |mid.rows|
    requires y < g.outSize && x < mid.width && ch < 3 && e >= 0.0
    requires first == g.First(y) && first + n == g.End(y) <= |mid.rows| && |exact| == n
    requires forall k :: 0 <= k < n ==> Near(Channel(Column(mid, x, first, n), ch)[k], exact[k], e)
    ensures |Normalized(RawTaps(g, y))| == n
    ensures Near(VerticalOf(mid, c).rows[y][x].At(ch) as real,
                 Clamp(ExactDot(exact, Normalized(RawTaps(g, y))), 0.0, 255.0), PassError(n) + 1.9 * e)
  {
    var (window, taps) := (Column(mid, x, first, n), Normalized(RawTaps(g, y)));
    var v := VerticalOf(mid, c).rows[y][x].At(ch) as real;
    assert |taps| == n && AbsSum(taps) < 1.9 by {
      WindowFits(g, y);
      NormalizedAbs(g, y);
    }
    assert Abs(v - Clamp(RealDot(window, taps, ch), 0.0, 255.0)) <= PassError(n) by {
      VerticalError(mid, c, g, y, x, ch);
    }
    PassesCombine(window, exact, taps, ch, e, v, PassError(n));
  }

  /** `n` samples from `first` on are read for output sample `x`. */
  ghost predicate Reads(g: Axis, x: nat, first: nat, n: nat) {
    g.Valid() && x < g.outSize && g.First(x) == first && g.End(x) == first + n
  }

  lemma TwoAxisError(src: Raster, cx: Coeffs, cy: Coeffs, across: Axis, down: Axis, y: nat, x: nat, ch: nat,
                     left: nat, w: nat, first: nat, n: nat)
    requires src.Valid() && CoeffsFor(cx, across) && Within(cx, 0, src.width) && across.inSize == src.width
    requires CoeffsFor(cy, down) && Within(cy, 0, |src.rows|) && down.inSize == |src.rows|
    requires ch < 3 && Reads(across, x, left, w) && Reads(down, y, first, n) && first + n <= |src.rows|
    ensures |Normalized(RawTaps(down, y))| == n
    ensures Near(VerticalOf(HorizontalOf(src, 0, |src.rows|, cx), cy).rows[y][x].At(ch) as real,
                 Clamp(ExactDot(MidColumn(src, across, x, first, n, ch), Normalized(RawTaps(down, y))), 0.0, 255.0),
                 PassError(n) + 1.9 * PassError(w))
  {
    var (mid, exact) := (HorizontalOf(src, 0, |src.rows|, cx), MidColumn(src, across, x, first, n, ch));
    assert forall k :: 0 <= k < n ==> Near(Channel(Column(mid, x, first, n), ch)[k], exact[k], PassError(w)) by {
      FirstPassNear(src, cx, across, x, first, n, ch);
    }
    SecondPass(mid, cy, down, y, x, ch, first, n, exact, PassError(w));
  }

  lemma ExactPixelOf(src: Raster, across: Axis, down: Axis, y: nat, x: nat, ch: nat, first: nat, n: nat)
    requires src.Valid() && across.Valid() && across.inSize == src.width && x < across.outSize && ch < 3
    requires Reads(down, y, first, n) && down.inSize == |src.rows| && first + n <= |src.rows|
    requires |Normalized(RawTaps(down, y))| == n
    ensures ExactPixel(src, across, down, y, x, ch) ==
      Clamp(ExactDot(MidColumn(src, across, x, first, n, ch), Normalized(RawTaps(down, y))), 0.0, 255.0)
  {
  }

  lemma AxesError(src: Raster, cx: Coeffs, cy: Coeffs, across: Axis, down: Axis, y: nat, x: nat, ch: nat,
                  left: nat, w: nat, first: nat, n: nat)
    requires src.Valid() && CoeffsFor(cx, across) && Within(cx, 0, src.width) && across.inSize == src.width
    requires CoeffsFor(cy, down) && Within(cy, 0, |src.rows|) && down.inSize == |src.rows|
    requires ch < 3 && Reads(across, x, left, w) && Reads(down, y, first, n) && first + n <= |src.rows|
    ensures Near(TwoPass(src, cx, cy).rows[y][x].At(ch) as real, ExactPixel(src, across, down, y, x, ch),
                 PassError(n) + 1.9 * PassError(w))
  {
    TwoAxisError(src, cx, cy, across, down, y, x, ch, left, w, first, n);
    ExactPixelOf(src, across, down, y, x, ch, first, n);
  }

  /**
   * Both passes together: each channel is within the error of the second pass, plus 1.9 times that
   * of the first, of the exact value.
   */
  lemma TwoPassError(src: Raster, outW: nat, outH: nat, box: Box, cx: Coeffs, cy: Coeffs, y: nat, x: nat, ch: nat)
    requires Resizable(src, outW, outH, box) && Tables(src, outW, outH, box, cx, cy)
    requires y < outH && x < outW && ch < 3
    ensures var (across, down) := (Across(src, outW, box), Down(src, outH, box));
      && across.First(x) < across.End(x) && down.First(y) < down.End(y)
      && Near(TwoPass(src, cx, cy).rows[y][x].At(ch) as real, ExactPixel(src, across, down, y, x, ch),
              PassError(down.End(y) - down.First(y)) + 1.9 * PassError(across.End(x) - across.First(x)))
  {
    var (across, down) := (Across(src, outW, box), Down(src, outH, box));
    WindowFits(across, x);
    WindowFits(down, y);
    AxesError(src, cx, cy, across, down, y, x, ch, across.First(x), across.End(x) - across.First(x),
              down.First(y), down.End(y) - down.First(y));
  }
}
