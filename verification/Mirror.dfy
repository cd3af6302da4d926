/** A mirrored image is resized to the mirrored result, bit for bit: windows favour no side and miss no weight. */
module Mirror {
  import opened BoxSplit
  import opened Convolution
  import opened ImageResize
  import Interpolation
  import opened Reals
  import opened Resize
  import opened Windows
  import opened WeightSums

  // ----- sums in reverse -----

  function Rev<T>(s: seq<T>): (r: seq<T>)
    ensures |r| == |s| && forall i :: 0 <= i < |s| ==> r[i] == s[|s| - 1 - i]
  {
    seq(|s|, i requires 0 <= i < |s| => s[|s| - 1 - i])
  }

  lemma {:induction false} TapSumAppend(a: seq<real>, b: seq<real>)
    ensures TapSum(a + b) == TapSum(a) + TapSum(b)
  {
    if |b| == 0 {
      assert a + b == a;
    } else {
      TapSumAppend(a, b[..|b| - 1]);
      assert (a + b)[..|a + b| - 1] == a + b[..|b| - 1];
    }
  }

  lemma {:induction false} RevSum(s: seq<real>)
    ensures TapSum(Rev(s)) == TapSum(s)
  {
    if |s| == 0 {
      assert Rev(s) == s;
    } else {
      var rest := s[1..];
      RevSum(rest);
      TapSumAppend([s[0]], rest);
      assert s == [s[0]] + rest;
      assert Rev(s)[..|s| - 1] == Rev(rest);
      assert TapSum([s[0]]) == TapSum([s[0]][..0]) + s[0];
    }
  }

  ghost predicate Zeros(s: seq<real>, lo: nat, hi: nat) { hi <= |s| && forall i :: lo <= i < hi ==> s[i] == 0.0 }

  lemma {:induction false} ZeroSum(s: seq<real>)
    requires Zeros(s, 0, |s|)
    ensures TapSum(s) == 0.0
  {
    if |s| > 0 { ZeroSum(s[..|s| - 1]); }
  }

  /** What lies outside a part adds nothing if it is zero. */
  lemma {:induction false} PartSum(s: seq<real>, first: nat, end: nat)
    requires first <= end <= |s| && Zeros(s, 0, first) && Zeros(s, end, |s|)
    ensures TapSum(s[first..end]) == TapSum(s)
  {
    ZeroSum(s[..first]);
    ZeroSum(s[end..]);
    assert s == s[..first] + s[first..end] + s[end..];
    TapSumAppend(s[..first] + s[first..end], s[end..]);
    TapSumAppend(s[..first], s[first..end]);
  }

  function AsReals(s: seq<int>): (r: seq<real>)
    ensures |r| == |s| && forall i :: 0 <= i < |s| ==> r[i] == s[i] as real
  {
    seq(|s|, i requires 0 <= i < |s| => s[i] as real)
  }

  lemma {:induction false} SumAsReal(s: seq<int>)
    ensures SumInts(s) as real == TapSum(AsReals(s))
  {
    if |s| > 0 {
      SumAsReal(s[..|s| - 1]);
      assert AsReals(s)[..|s| - 1] == AsReals(s[..|s| - 1]);
    }
  }

  // ----- windows miss nothing -----

  /** The weight of source sample `j`, in the window or not. */
  function WeightAt(g: Axis, xx: nat, j: int): real
    requires g.Valid()
  {
    WeightOf(j, g.Center(xx), g.FilterScale())
  }

  predicate InWindow(g: Axis, xx: nat, j: int)
    requires g.Valid()
  {
    g.First(xx) <= j < g.End(xx)
  }

  /** Sample `j` is at least the whole support away from the centre. */
  predicate Beyond(j: int, c: real, scale: real) {
    j as real - c + 0.5 >= 2.0 * scale || j as real - c + 0.5 <= -2.0 * scale
  }

  lemma FarOut(j: int, c: real, scale: real)
    requires scale >= 1.0 && Beyond(j, c, scale)
    ensures WeightOf(j, c, scale) == 0.0
  {
    Interpolation.WeightSign(j, c, scale);
  }

  /** A source sample outside the window has no weight. */
  lemma WindowMissesNothing(g: Axis, xx: nat, j: nat)
    requires g.Valid() && xx < g.outSize && j < g.inSize && !InWindow(g, xx, j)
    ensures WeightAt(g, xx, j) == 0.0
  {
    CenterInside(g, xx);
    OutOfReach(g.Center(xx), g.FilterScale(), g.First(xx), g.End(xx), g.inSize, j);
    FarOut(j, g.Center(xx), g.FilterScale());
  }

  lemma OutOfReach(c: real, scale: real, first: int, end: int, n: nat, j: nat)
    requires 0.0 < c < n as real && scale >= 1.0 && j < n && !(first <= j < end)
    requires first == MaxInt(Trunc(c - 2.0 * scale + 0.5), 0) && end == MinInt(Trunc(c + 2.0 * scale + 0.5), n)
    ensures Beyond(j, c, scale)
  {
  }

  function AllWeights(g: Axis, xx: nat): (w: seq<real>)
    requires g.Valid()
    ensures |w| == g.inSize && forall j :: 0 <= j < |w| ==> w[j] == WeightAt(g, xx, j)
  {
    seq(g.inSize, j => WeightAt(g, xx, j))
  }

  /** So the weights of a window add up to those of all samples. */
  lemma WindowTotal(g: Axis, xx: nat)
    requires g.Valid() && xx < g.outSize
    ensures TapSum(RawTaps(g, xx)) == TapSum(AllWeights(g, xx))
  {
    WindowFits(g, xx);
    var (all, first, end) := (AllWeights(g, xx), g.First(xx), g.End(xx));
    forall j: nat | j < first || end <= j < g.inSize ensures all[j] == 0.0 {
      WindowMissesNothing(g, xx, j);
    }
    assert RawTaps(g, xx) == all[first..end];
    PartSum(all, first, end);
  }

  // ----- the mirrored axis -----

  /** The same part of the source and the same result, seen from the other side. */
  function Mirrored(g: Axis): (m: Axis)
    requires g.Valid()
    ensures m.Valid()
  {
    Axis(g.inSize, g.inSize as real - g.in1, g.inSize as real - g.in0, g.outSize)
  }

  lemma MirroredCenter(g: Axis, xx: nat)
    requires g.Valid() && xx < g.outSize
    ensures Mirrored(g).Center(g.outSize - 1 - xx) == g.inSize as real - g.Center(xx)
    ensures Mirrored(g).FilterScale() == g.FilterScale()
  {
    ScaleIsPositive(g);
    var (s, n, x) := (g.Scale(), g.outSize as real, xx as real + 0.5);
    assert Mirrored(g).Scale() == s;
    assert (n - x) * s == n * s - x * s;
    assert (g.outSize - 1 - xx) as real + 0.5 == n - x;
  }

  lemma Even(x: real)
    ensures Bicubic(-x) == Bicubic(x)
  {
  }

  /** Mirrored samples have the same weight. */
  lemma WeightIsMirrored(g: Axis, xx: nat, j: int)
    requires g.Valid() && xx < g.outSize
    ensures WeightAt(Mirrored(g), g.outSize - 1 - xx, g.inSize - 1 - j) == WeightAt(g, xx, j)
  {
    MirroredCenter(g, xx);
    WeightFromEitherSide(j, g.inSize, g.Center(xx), g.FilterScale());
  }

  lemma WeightFromEitherSide(j: int, n: nat, center: real, scale: real)
    requires scale >= 1.0
    ensures WeightOf(n - 1 - j, n as real - center, scale) == WeightOf(j, center, scale)
  {
    var (d, q) := (j as real - center + 0.5, 1.0 / scale);
    assert (n - 1 - j) as real - (n as real - center) + 0.5 == -d;
    assert (-d) * q == -(d * q);
    Even(d * q);
  }

  /** Windows are mirrored up to samples without weight, and so are the weights. */
  lemma WindowIsMirrored(g: Axis, xx: nat, j: nat)
    requires g.Valid() && xx < g.outSize && j < g.inSize
    ensures WeightAt(Mirrored(g), g.outSize - 1 - xx, g.inSize - 1 - j) == WeightAt(g, xx, j)
    ensures InWindow(g, xx, j) != InWindow(Mirrored(g), g.outSize - 1 - xx, g.inSize - 1 - j) ==>
      WeightAt(g, xx, j) == 0.0
  {
    WeightIsMirrored(g, xx, j);
    if !InWindow(g, xx, j) {
      WindowMissesNothing(g, xx, j);
    } else if !InWindow(Mirrored(g), g.outSize - 1 - xx, g.inSize - 1 - j) {
      WindowMissesNothing(Mirrored(g), g.outSize - 1 - xx, g.inSize - 1 - j);
    }
  }

  lemma TotalIsMirrored(g: Axis, xx: nat)
    requires g.Valid() && xx < g.outSize
    ensures TapSum(RawTaps(Mirrored(g), g.outSize - 1 - xx)) == TapSum(RawTaps(g, xx))
  {
    var (m, yy) := (Mirrored(g), g.outSize - 1 - xx);
    forall j | 0 <= j < g.inSize ensures AllWeights(m, yy)[j] == Rev(AllWeights(g, xx))[j] {
      WeightIsMirrored(g, xx, g.inSize - 1 - j);
    }
    assert AllWeights(m, yy) == Rev(AllWeights(g, xx));
    RevSum(AllWeights(g, xx));
    WindowTotal(g, xx);
    WindowTotal(m, yy);
  }

  // ----- one output sample -----

  /** The fixed-point tap of source sample `j`, zero outside the window. */
  function TapAt(g: Axis, xx: nat, j: int): int
    requires g.Valid() && xx < g.outSize
  {
    if TapSum(RawTaps(g, xx)) == 0.0 then 0 else Fixed(WeightAt(g, xx, j) / TapSum(RawTaps(g, xx)))
  }

  lemma {:induction false} ScaledAt(raw: seq<real>, total: real, i: nat)
    requires total != 0.0 && i < |raw|
    ensures Scaled(raw, total)[i] == raw[i] / total
  {
    if i < |raw| - 1 { ScaledAt(raw[..|raw| - 1], total, i); }
  }

  lemma TapOfWindow(g: Axis, xx: nat, i: nat)
    requires g.Valid() && xx < g.outSize && i < |RawTaps(g, xx)|
    ensures FixedTaps(Normalized(RawTaps(g, xx)))[i] == TapAt(g, xx, i + g.First(xx))
  {
    WeightsSumPositive(g, xx);
    NormalizedAt(RawTaps(g, xx), i);
    RawIsWeight(g, xx, i);
  }

  lemma {:induction false} NormalizedAt(raw: seq<real>, i: nat)
    requires TapSum(raw) != 0.0 && i < |raw|
    ensures FixedTaps(Normalized(raw))[i] == Fixed(raw[i] / TapSum(raw))
  {
    ScaledAt(raw, TapSum(raw), i);
  }

  lemma RawIsWeight(g: Axis, xx: nat, i: nat)
    requires g.Valid() && xx < g.outSize && i < |RawTaps(g, xx)|
    ensures RawTaps(g, xx)[i] == WeightAt(g, xx, i + g.First(xx))
  {
    WindowFits(g, xx);
    assert RawTaps(g, xx)[i] == RawTap(g, xx, i);
  }

  /** What each source sample adds to a channel. */
  function AllTerms(g: Axis, xx: nat, row: seq<Color>, ch: nat): (terms: seq<real>)
    requires g.Valid() && xx < g.outSize && |row| == g.inSize && ch < 3
    ensures |terms| == |row| && forall j :: 0 <= j < |row| ==> terms[j] == (row[j].At(ch) * TapAt(g, xx, j)) as real
  {
    seq(|row|, j requires 0 <= j < |row| => (row[j].At(ch) * TapAt(g, xx, j)) as real)
  }

  lemma NoTap(g: Axis, xx: nat, j: nat)
    requires g.Valid() && xx < g.outSize && j < g.inSize && !InWindow(g, xx, j)
    ensures TapAt(g, xx, j) == 0
  {
    WindowMissesNothing(g, xx, j);
  }

  lemma DotOverAll(g: Axis, xx: nat, row: seq<Color>, ch: nat)
    requires g.Valid() && xx < g.outSize && |row| == g.inSize && ch < 3
    ensures 0 <= g.First(xx) < g.End(xx) <= |row|
    ensures Dot(row[g.First(xx)..g.End(xx)], FixedTaps(Normalized(RawTaps(g, xx))), ch) as real
         == TapSum(AllTerms(g, xx, row, ch))
  {
    WindowFits(g, xx);
    var (all, first, end) := (AllTerms(g, xx, row, ch), g.First(xx), g.End(xx));
    var terms := Terms(row[first..end], FixedTaps(Normalized(RawTaps(g, xx))), ch);
    forall i | 0 <= i < end - first ensures AsReals(terms)[i] == all[first..end][i] {
      TapOfWindow(g, xx, i);
    }
    assert AsReals(terms) == all[first..end];
    forall j: nat | j < first || end <= j < |row| ensures all[j] == 0.0 {
      NoTap(g, xx, j);
    }
    SumAsReal(terms);
    PartSum(all, first, end);
  }

  lemma TermsAreMirrored(g: Axis, xx: nat, row: seq<Color>, ch: nat)
    requires g.Valid() && xx < g.outSize && |row| == g.inSize && ch < 3
    ensures AllTerms(Mirrored(g), g.outSize - 1 - xx, Rev(row), ch) == Rev(AllTerms(g, xx, row, ch))
  {
    TotalIsMirrored(g, xx);
    var (a, b) := (AllTerms(Mirrored(g), g.outSize - 1 - xx, Rev(row), ch), Rev(AllTerms(g, xx, row, ch)));
    forall j | 0 <= j < |row| ensures a[j] == b[j] {
      WeightIsMirrored(g, xx, |row| - 1 - j);
    }
  }

  /** The blend of source sample `xx`, read from the source as a whole. */
  function SampleOf(g: Axis, xx: nat, row: seq<Color>): Color
    requires g.Valid() && xx < g.outSize && |row| == g.inSize
  {
    WindowFits(g, xx);
    Blend(row[g.First(xx)..g.End(xx)], FixedTaps(Normalized(RawTaps(g, xx))))
  }

  /** A name for `SampleOf` under which windows and taps stay folded where only the value matters. */
  type Sampling = (Axis, nat, seq<Color>) -> Color

  ghost predicate IsSampling(f: Sampling) {
    forall g: Axis, xx: nat, row: seq<Color> {:trigger SampleOf(g, xx, row)} ::
      g.Valid() && xx < g.outSize && |row| == g.inSize ==> f(g, xx, row) == SampleOf(g, xx, row)
  }

  lemma AnySampling() returns (f: Sampling)
    ensures IsSampling(f)
  {
    f := (g: Axis, xx: nat, row: seq<Color>) =>
      if g.Valid() && xx < g.outSize && |row| == g.inSize then SampleOf(g, xx, row) else Color(0, 0, 0);
  }

  lemma TermSumsAgree(g: Axis, xx: nat, row: seq<Color>, ch: nat)
    requires g.Valid() && xx < g.outSize && |row| == g.inSize && ch < 3
    ensures TapSum(AllTerms(Mirrored(g), g.outSize - 1 - xx, Rev(row), ch)) == TapSum(AllTerms(g, xx, row, ch))
  {
    TermsAreMirrored(g, xx, row, ch);
    RevSum(AllTerms(g, xx, row, ch));
  }

  lemma SampleChannel(g: Axis, xx: nat, row: seq<Color>, ch: nat, f: Sampling) returns (dot: int)
    requires g.Valid() && xx < g.outSize && |row| == g.inSize && ch < 3 && IsSampling(f)
    ensures dot as real == TapSum(AllTerms(g, xx, row, ch)) && f(g, xx, row).At(ch) == Clip8(ROUND + dot)
  {
    DotOverAll(g, xx, row, ch);
    assert f(g, xx, row) == SampleOf(g, xx, row);
    var (window, taps) := (row[g.First(xx)..g.End(xx)], FixedTaps(Normalized(RawTaps(g, xx))));
    dot := Dot(window, taps, ch);
    BlendChannel(window, taps, ch);
  }

  lemma ChannelIsMirrored(g: Axis, xx: nat, row: seq<Color>, ch: nat, f: Sampling)
    requires g.Valid() && xx < g.outSize && |row| == g.inSize && ch < 3 && IsSampling(f)
    ensures f(Mirrored(g), g.outSize - 1 - xx, Rev(row)).At(ch) == f(g, xx, row).At(ch)
  {
    var d := SampleChannel(g, xx, row, ch, f);
    var e := SampleChannel(Mirrored(g), g.outSize - 1 - xx, Rev(row), ch, f);
    assert d as real == e as real by { TermSumsAgree(g, xx, row, ch); }
  }

  /** The mirrored source gives the same sample on the other side. */
  lemma SampleIsMirrored(g: Axis, xx: nat, row: seq<Color>, f: Sampling)
    requires g.Valid() && xx < g.outSize && |row| == g.inSize && IsSampling(f)
    ensures f(Mirrored(g), g.outSize - 1 - xx, Rev(row)) == f(g, xx, row)
  {
    ChannelIsMirrored(g, xx, row, 0, f);
    ChannelIsMirrored(g, xx, row, 1, f);
    ChannelIsMirrored(g, xx, row, 2, f);
  }

  // ----- whole images -----

  /** Left and right exchanged. */
  function FlipX(src: Raster): (out: Raster)
    ensures out.width == src.width && |out.rows| == |src.rows|
    ensures forall y :: 0 <= y < |src.rows| ==> out.rows[y] == Rev(src.rows[y])
  {
    Raster(src.width, seq(|src.rows|, y requires 0 <= y < |src.rows| => Rev(src.rows[y])))
  }

  /** Top and bottom exchanged. */
  function FlipY(src: Raster): Raster { Raster(src.width, Rev(src.rows)) }

  lemma RowPixelIsSample(row: seq<Color>, c: Coeffs, g: Axis, xx: nat, f: Sampling)
    requires CoeffsFor(c, g) && Within(c, 0, |row|) && |row| == g.inSize && xx < g.outSize
    requires IsSampling(f)
    ensures RowPixel(row, c, xx) == f(g, xx, row)
  {
    assert SampleFor(c, g, xx) && f(g, xx, row) == SampleOf(g, xx, row);
  }

  lemma ColumnPixelIsSample(src: Raster, c: Coeffs, g: Axis, x: nat, yy: nat, f: Sampling)
    requires src.Valid() && CoeffsFor(c, g) && Within(c, 0, |src.rows|) && |src.rows| == g.inSize
    requires x < src.width && yy < g.outSize && IsSampling(f)
    ensures ColumnPixel(src, c, x, yy) == f(g, yy, Column(src, x, 0, |src.rows|))
  {
    var whole := Column(src, x, 0, |src.rows|);
    assert SampleFor(c, g, yy) && f(g, yy, whole) == SampleOf(g, yy, whole);
    var (first, n) := c.bounds[yy];
    assert Column(src, x, first, n) == whole[first..first + n];
  }

  lemma RowIsMirrored(row: seq<Color>, c: Coeffs, m: Coeffs, g: Axis, f: Sampling)
    requires IsSampling(f)
    requires CoeffsFor(c, g) && CoeffsFor(m, Mirrored(g)) && |row| == g.inSize
    requires Within(c, 0, |row|) && Within(m, 0, |row|)
    ensures RowOf(Rev(row), m) == Rev(RowOf(row, c))
  {
    var (a, b, n) := (RowOf(Rev(row), m), RowOf(row, c), g.outSize);
    assert |a| == |b| == n;
    forall xx | 0 <= xx < n ensures a[n - 1 - xx] == b[xx] {
      PixelIsMirrored(row, c, m, g, xx, f);
    }
    Backwards(a, b);
  }

  lemma FromTheEnd<T>(a: seq<T>, b: seq<T>)
    requires |a| == |b| && forall i :: 0 <= i < |a| ==> a[i] == b[|b| - 1 - i]
    ensures a == Rev(b)
  {
  }

  lemma Backwards<T>(a: seq<T>, b: seq<T>)
    requires |a| == |b| && forall i :: 0 <= i < |b| ==> a[|b| - 1 - i] == b[i]
    ensures a == Rev(b)
  {
    forall j | 0 <= j < |a| ensures a[j] == Rev(b)[j] {
      assert a[|b| - 1 - (|b| - 1 - j)] == b[|b| - 1 - j];
    }
  }

  lemma PixelIsMirrored(row: seq<Color>, c: Coeffs, m: Coeffs, g: Axis, xx: nat, f: Sampling)
    requires IsSampling(f)
    requires CoeffsFor(c, g) && CoeffsFor(m, Mirrored(g)) && |row| == g.inSize && xx < g.outSize
    requires Within(c, 0, |row|) && Within(m, 0, |row|)
    ensures RowOf(Rev(row), m)[g.outSize - 1 - xx] == RowOf(row, c)[xx]
  {
    RowPixelIsSample(Rev(row), m, Mirrored(g), g.outSize - 1 - xx, f);
    RowPixelIsSample(row, c, g, xx, f);
    SampleIsMirrored(g, xx, row, f);
  }

  lemma HorizontalIsMirrored(src: Raster, c: Coeffs, m: Coeffs, g: Axis, f: Sampling)
    requires IsSampling(f)
    requires src.Valid() && CoeffsFor(c, g) && CoeffsFor(m, Mirrored(g)) && src.width == g.inSize
    requires Within(c, 0, src.width) && Within(m, 0, src.width)
    ensures FlipX(src).Valid()
    ensures HorizontalOf(FlipX(src), 0, |src.rows|, m) == FlipX(HorizontalOf(src, 0, |src.rows|, c))
  {
    var (a, b) := (HorizontalOf(FlipX(src), 0, |src.rows|, m), FlipX(HorizontalOf(src, 0, |src.rows|, c)));
    forall y | 0 <= y < |src.rows| ensures a.rows[y] == b.rows[y] {
      RowIsMirrored(src.rows[y], c, m, g, f);
      assert a.rows[y] == RowOf(FlipX(src).rows[y + 0], m);
    }
    assert a.rows == b.rows;
  }

  lemma VerticalKeepsFlip(mid: Raster, c: Coeffs)
    requires mid.Valid() && Within(c, 0, |mid.rows|)
    ensures FlipX(mid).Valid() && VerticalOf(FlipX(mid), c) == FlipX(VerticalOf(mid, c))
  {
    var (a, b) := (VerticalOf(FlipX(mid), c), FlipX(VerticalOf(mid, c)));
    forall yy | 0 <= yy < |c.bounds| ensures a.rows[yy] == b.rows[yy] {
      BlendedRowIsMoved(mid, c, yy);
    }
    assert a.rows == b.rows;
  }

  lemma BlendedRowIsMoved(mid: Raster, c: Coeffs, yy: nat)
    requires mid.Valid() && Within(c, 0, |mid.rows|) && yy < |c.bounds|
    ensures FlipX(mid).Valid() && VerticalOf(FlipX(mid), c).rows[yy] == Rev(VerticalOf(mid, c).rows[yy])
  {
    var (a, b, n) := (VerticalOf(FlipX(mid), c).rows[yy], VerticalOf(mid, c).rows[yy], mid.width);
    assert |a| == |b| == n;
    forall x | 0 <= x < n ensures a[x] == b[n - 1 - x] {
      ColumnPixelIsMoved(mid, c, x, yy);
    }
    FromTheEnd(a, b);
  }

  lemma ColumnPixelIsMoved(mid: Raster, c: Coeffs, x: nat, yy: nat)
    requires mid.Valid() && Within(c, 0, |mid.rows|) && x < mid.width && yy < |c.bounds|
    ensures FlipX(mid).Valid()
    ensures VerticalOf(FlipX(mid), c).rows[yy][x] == VerticalOf(mid, c).rows[yy][mid.width - 1 - x]
  {
    ColumnIsMoved(mid, x, c.bounds[yy].0, c.bounds[yy].1);
    assert ColumnPixel(FlipX(mid), c, x, yy) == ColumnPixel(mid, c, mid.width - 1 - x, yy);
  }

  lemma ColumnIsMoved(mid: Raster, x: nat, first: nat, n: nat)
    requires mid.Valid() && x < mid.width && first + n <= |mid.rows|
    ensures FlipX(mid).Valid() && Column(FlipX(mid), x, first, n) == Column(mid, mid.width - 1 - x, first, n)
  {
  }

  lemma HorizontalKeepsFlip(src: Raster, c: Coeffs)
    requires src.Valid() && Within(c, 0, src.width)
    ensures FlipY(src).Valid()
    ensures HorizontalOf(FlipY(src), 0, |src.rows|, c) == FlipY(HorizontalOf(src, 0, |src.rows|, c))
  {
    var (a, b) := (HorizontalOf(FlipY(src), 0, |src.rows|, c), FlipY(HorizontalOf(src, 0, |src.rows|, c)));
    forall y | 0 <= y < |src.rows| ensures a.rows[y] == b.rows[y] {
      assert a.rows[y] == RowOf(FlipY(src).rows[y + 0], c);
      assert b.rows[y] == RowOf(src.rows[|src.rows| - 1 - y + 0], c);
    }
    assert a.rows == b.rows;
  }

  lemma VerticalIsMirrored(mid: Raster, c: Coeffs, m: Coeffs, g: Axis, f: Sampling)
    requires IsSampling(f)
    requires mid.Valid() && CoeffsFor(c, g) && CoeffsFor(m, Mirrored(g)) && |mid.rows| == g.inSize
    requires Within(c, 0, |mid.rows|) && Within(m, 0, |mid.rows|)
    ensures FlipY(mid).Valid() && VerticalOf(FlipY(mid), m) == FlipY(VerticalOf(mid, c))
  {
    assert FlipY(mid).Valid();
    var (a, b, n) := (VerticalOf(FlipY(mid), m).rows, VerticalOf(mid, c).rows, g.outSize);
    assert |a| == |b| == n;
    forall yy | 0 <= yy < n ensures a[n - 1 - yy] == b[yy] {
      BlendedRowIsMirrored(mid, c, m, g, yy, f);
    }
    Backwards(a, b);
  }

  lemma BlendedRowIsMirrored(mid: Raster, c: Coeffs, m: Coeffs, g: Axis, yy: nat, f: Sampling)
    requires IsSampling(f)
    requires mid.Valid() && CoeffsFor(c, g) && CoeffsFor(m, Mirrored(g)) && |mid.rows| == g.inSize
    requires Within(c, 0, |mid.rows|) && Within(m, 0, |mid.rows|) && yy < g.outSize
    ensures FlipY(mid).Valid() && VerticalOf(FlipY(mid), m).rows[g.outSize - 1 - yy] == VerticalOf(mid, c).rows[yy]
  {
    var (a, b) := (VerticalOf(FlipY(mid), m).rows[g.outSize - 1 - yy], VerticalOf(mid, c).rows[yy]);
    forall x | 0 <= x < mid.width ensures a[x] == b[x] {
      ColumnPixelIsMirrored(mid, c, m, g, x, yy, f);
    }
  }

  lemma ColumnPixelIsMirrored(mid: Raster, c: Coeffs, m: Coeffs, g: Axis, x: nat, yy: nat, f: Sampling)
    requires IsSampling(f)
    requires mid.Valid() && CoeffsFor(c, g) && CoeffsFor(m, Mirrored(g)) && |mid.rows| == g.inSize
    requires Within(c, 0, |mid.rows|) && Within(m, 0, |mid.rows|) && x < mid.width && yy < g.outSize
    ensures FlipY(mid).Valid()
    ensures VerticalOf(FlipY(mid), m).rows[g.outSize - 1 - yy][x] == VerticalOf(mid, c).rows[yy][x]
  {
    ColumnIsReversed(mid, x);
    ColumnPixelIsSample(mid, c, g, x, yy, f);
    ColumnPixelIsSample(FlipY(mid), m, Mirrored(g), x, g.outSize - 1 - yy, f);
    SampleIsMirrored(g, yy, Column(mid, x, 0, |mid.rows|), f);
  }

  lemma ColumnIsReversed(mid: Raster, x: nat)
    requires mid.Valid() && x < mid.width
    ensures FlipY(mid).Valid() && |FlipY(mid).rows| == |mid.rows|
    ensures Column(FlipY(mid), x, 0, |mid.rows|) == Rev(Column(mid, x, 0, |mid.rows|))
  {
    var (a, b) := (Column(FlipY(mid), x, 0, |mid.rows|), Rev(Column(mid, x, 0, |mid.rows|)));
    forall y | 0 <= y < |mid.rows| ensures a[y] == b[y] {
      assert FlipY(mid).rows[y] == mid.rows[|mid.rows| - 1 - y];
    }
  }

  function BoxFlippedX(src: Raster, box: Box): Box {
    Box(src.width as real - box.x1, box.y0, src.width as real - box.x0, box.y1)
  }

  function BoxFlippedY(src: Raster, box: Box): Box {
    Box(box.x0, |src.rows| as real - box.y1, box.x1, |src.rows| as real - box.y0)
  }

  /** Mirroring an image left to right, and the part to be resized with it, mirrors the result. */
  lemma ResizeKeepsFlipX(src: Raster, outW: nat, outH: nat, box: Box, out: Raster)
    requires BothPasses(src, outW, outH, box, out)
    ensures BothPasses(FlipX(src), outW, outH, BoxFlippedX(src, box), FlipX(out))
  {
    var cx, cy :| Tables(src, outW, outH, box, cx, cy) && out == TwoPass(src, cx, cy);
    var (g, flipped) := (Across(src, outW, box), BoxFlippedX(src, box));
    var m := CoeffsOf(Mirrored(g));
    WindowsWithin(m, Mirrored(g));
    var f := AnySampling();
    HorizontalIsMirrored(src, cx, m, g, f);
    VerticalKeepsFlip(HorizontalOf(src, 0, |src.rows|, cx), cy);
    assert Across(FlipX(src), outW, flipped) == Mirrored(g);
    assert Tables(FlipX(src), outW, outH, flipped, m, cy);
    assert FlipX(out) == TwoPass(FlipX(src), m, cy);
  }

  /** So does mirroring it top to bottom. */
  lemma ResizeKeepsFlipY(src: Raster, outW: nat, outH: nat, box: Box, out: Raster)
    requires BothPasses(src, outW, outH, box, out)
    ensures BothPasses(FlipY(src), outW, outH, BoxFlippedY(src, box), FlipY(out))
  {
    var cx, cy :| Tables(src, outW, outH, box, cx, cy) && out == TwoPass(src, cx, cy);
    var (g, flipped) := (Down(src, outH, box), BoxFlippedY(src, box));
    var m := CoeffsOf(Mirrored(g));
    WindowsWithin(m, Mirrored(g));
    HorizontalKeepsFlip(src, cx);
    var f := AnySampling();
    VerticalIsMirrored(HorizontalOf(src, 0, |src.rows|, cx), cy, m, g, f);
    assert Down(FlipY(src), outH, flipped) == Mirrored(g);
    assert Tables(FlipY(src), outW, outH, flipped, cx, m);
    assert FlipY(out) == TwoPass(FlipY(src), cx, m);
  }

  // ----- the result is determined -----

  lemma SameRow(row: seq<Color>, c: Coeffs, d: Coeffs, g: Axis)
    requires CoeffsFor(c, g) && CoeffsFor(d, g) && Within(c, 0, |row|) && Within(d, 0, |row|)
    ensures RowOf(row, c) == RowOf(row, d)
  {
    var (a, b) := (RowOf(row, c), RowOf(row, d));
    forall xx | 0 <= xx < g.outSize ensures a[xx] == b[xx] {
      SamePixel(row, c, d, g, xx);
    }
  }

  lemma SamePixel(row: seq<Color>, c: Coeffs, d: Coeffs, g: Axis, xx: nat)
    requires CoeffsFor(c, g) && CoeffsFor(d, g) && Within(c, 0, |row|) && Within(d, 0, |row|) && xx < g.outSize
    ensures RowOf(row, c)[xx] == RowOf(row, d)[xx]
  {
    assert SampleFor(c, g, xx) && SampleFor(d, g, xx);
    assert c.bounds[xx] == d.bounds[xx] && Taps(c, xx) == Taps(d, xx);
    assert RowPixel(row, c, xx) == RowPixel(row, d, xx);
  }

  lemma SameHorizontal(src: Raster, c: Coeffs, d: Coeffs, g: Axis)
    requires src.Valid() && CoeffsFor(c, g) && CoeffsFor(d, g) && Within(c, 0, src.width) && Within(d, 0, src.width)
    ensures HorizontalOf(src, 0, |src.rows|, c) == HorizontalOf(src, 0, |src.rows|, d)
  {
    var (a, b) := (HorizontalOf(src, 0, |src.rows|, c), HorizontalOf(src, 0, |src.rows|, d));
    forall y | 0 <= y < |src.rows| ensures a.rows[y] == b.rows[y] {
      SameRow(src.rows[y + 0], c, d, g);
    }
    assert a.rows == b.rows;
  }

  lemma SameBlendedRow(mid: Raster, c: Coeffs, d: Coeffs, g: Axis, yy: nat)
    requires mid.Valid() && CoeffsFor(c, g) && CoeffsFor(d, g) && Within(c, 0, |mid.rows|) && Within(d, 0, |mid.rows|)
    requires yy < g.outSize
    ensures VerticalOf(mid, c).rows[yy] == VerticalOf(mid, d).rows[yy]
  {
    assert SampleFor(c, g, yy) && SampleFor(d, g, yy);
    forall x | 0 <= x < mid.width ensures VerticalOf(mid, c).rows[yy][x] == VerticalOf(mid, d).rows[yy][x] {
      assert ColumnPixel(mid, c, x, yy) == ColumnPixel(mid, d, x, yy);
    }
  }

  lemma SameVertical(mid: Raster, c: Coeffs, d: Coeffs, g: Axis)
    requires mid.Valid() && CoeffsFor(c, g) && CoeffsFor(d, g) && Within(c, 0, |mid.rows|) && Within(d, 0, |mid.rows|)
    ensures VerticalOf(mid, c) == VerticalOf(mid, d)
  {
    var (a, b) := (VerticalOf(mid, c), VerticalOf(mid, d));
    forall yy | 0 <= yy < g.outSize ensures a.rows[yy] == b.rows[yy] {
      SameBlendedRow(mid, c, d, g, yy);
    }
    assert a.rows == b.rows;
  }

  /** Both passes give one result, whichever tables hold the taps. */
  lemma ResultIsUnique(src: Raster, outW: nat, outH: nat, box: Box, a: Raster, b: Raster)
    requires BothPasses(src, outW, outH, box, a) && BothPasses(src, outW, outH, box, b)
    ensures a == b
  {
    var cx, cy :| Tables(src, outW, outH, box, cx, cy) && a == TwoPass(src, cx, cy);
    var dx, dy :| Tables(src, outW, outH, box, dx, dy) && b == TwoPass(src, dx, dy);
    SameHorizontal(src, cx, dx, Across(src, outW, box));
    SameVertical(HorizontalOf(src, 0, |src.rows|, cx), cy, dy, Down(src, outH, box));
  }

  /** Resizing a whole image commutes with mirroring it either way. */
  lemma ResizeCommutes(src: Raster, outW: nat, outH: nat, out: Raster, mirrored: Raster)
    requires Resampled(src, outW, outH, out)
    ensures Resampled(FlipX(src), outW, outH, mirrored) <==> mirrored == FlipX(out)
    ensures Resampled(FlipY(src), outW, outH, mirrored) <==> mirrored == FlipY(out)
  {
    ResizeKeepsFlipX(src, outW, outH, FullBox(src), out);
    ResizeKeepsFlipY(src, outW, outH, FullBox(src), out);
    assert BoxFlippedX(src, FullBox(src)) == FullBox(FlipX(src));
    assert BoxFlippedY(src, FullBox(src)) == FullBox(FlipY(src));
    if Resampled(FlipX(src), outW, outH, mirrored) {
      ResultIsUnique(FlipX(src), outW, outH, FullBox(FlipX(src)), mirrored, FlipX(out));
    }
    if Resampled(FlipY(src), outW, outH, mirrored) {
      ResultIsUnique(FlipY(src), outW, outH, FullBox(FlipY(src)), mirrored, FlipY(out));
    }
  }
}
