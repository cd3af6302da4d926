/** The bicubic filter as an interpolation: the smooth curve through four samples, exact on lines and parabolas. */
module Interpolation {
  import opened Accuracy
  import opened Convolution
  import opened Reals
  import Resize
  import WeightSums
  import opened Windows

  // ----- the filter -----

  /** The weights of the four samples around a point `t` of the way from the second to the third. */
  lemma KernelWeights(t: real)
    requires 0.0 <= t <= 1.0
    ensures var (t2, t3) := (t * t, t * t * t);
      && Bicubic(1.0 + t) == -0.5 * t3 + t2 - 0.5 * t
      && Bicubic(t) == 1.5 * t3 - 2.5 * t2 + 1.0
      && Bicubic(1.0 - t) == -1.5 * t3 + 2.0 * t2 + 0.5 * t
      && Bicubic(2.0 - t) == 0.5 * t3 - 0.5 * t2
  {
    MainLobe(t);
    MainLobe(1.0 - t);
    SideLobe(1.0 + t);
    SideLobe(2.0 - t);
  }

  lemma MainLobe(x: real)
    requires 0.0 <= x <= 1.0
    ensures Bicubic(x) == 1.5 * (x * x * x) - 2.5 * (x * x) + 1.0
  {
  }

  lemma SideLobe(x: real)
    requires 1.0 <= x <= 2.0
    ensures Bicubic(x) == -0.5 * (x * x * x) + 2.5 * (x * x) - 4.0 * x + 2.0
  {
  }

  /** The weights sum to one, and keep the first and the second moment. */
  lemma Moments(t: real)
    requires 0.0 <= t <= 1.0
    ensures Bicubic(1.0 + t) + Bicubic(t) + Bicubic(1.0 - t) + Bicubic(2.0 - t) == 1.0
    ensures -Bicubic(1.0 + t) + Bicubic(1.0 - t) + 2.0 * Bicubic(2.0 - t) == t
    ensures Bicubic(1.0 + t) + Bicubic(1.0 - t) + 4.0 * Bicubic(2.0 - t) == t * t
  {
    KernelWeights(t);
  }

  /** The cubic from `p` to `q` with slopes `dp` and `dq` at its ends. */
  function Hermite(p: real, q: real, dp: real, dq: real, t: real): real {
    p + dp * t + (3.0 * (q - p) - 2.0 * dp - dq) * (t * t) + (2.0 * (p - q) + dp + dq) * (t * t * t)
  }

  /** The curve between the two middle ones of four samples; its slopes are those of the chords over them. */
  function Curve(p0: real, p1: real, p2: real, p3: real, t: real): real {
    Hermite(p1, p2, (p2 - p0) / 2.0, (p3 - p1) / 2.0, t)
  }

  lemma WeightsGiveCurve(p0: real, p1: real, p2: real, p3: real, t: real)
    requires 0.0 <= t <= 1.0
    ensures p0 * Bicubic(1.0 + t) + p1 * Bicubic(t) + p2 * Bicubic(1.0 - t) + p3 * Bicubic(2.0 - t)
         == Curve(p0, p1, p2, p3, t)
  {
    KernelWeights(t);
    Expand(p0, p1, p2, p3, t, t * t, t * t * t);
  }

  lemma Expand(p0: real, p1: real, p2: real, p3: real, t: real, t2: real, t3: real)
    ensures p0 * (-0.5 * t3 + t2 - 0.5 * t) + p1 * (1.5 * t3 - 2.5 * t2 + 1.0)
          + p2 * (-1.5 * t3 + 2.0 * t2 + 0.5 * t) + p3 * (0.5 * t3 - 0.5 * t2)
         == p1 + (p2 - p0) / 2.0 * t + (3.0 * (p2 - p1) - (p2 - p0) - (p3 - p1) / 2.0) * t2
          + (2.0 * (p1 - p2) + (p2 - p0) / 2.0 + (p3 - p1) / 2.0) * t3
  {
  }

  // ----- windows without reduction -----

  /** Where output sample `xx` lies between the source samples. */
  function Position(g: Axis, xx: nat): real
    requires g.Valid()
  {
    g.Center(xx) - 0.5
  }

  /** Nothing is reduced, and the four samples around the position exist. */
  predicate Surrounded(g: Axis, xx: nat) {
    && g.Valid() && xx < g.outSize && g.Scale() <= 1.0
    && 1 <= Position(g, xx).Floor && Position(g, xx).Floor + 3 <= g.inSize
  }

  lemma FourSamples(g: Axis, xx: nat)
    requires Surrounded(g, xx)
    ensures var n := Position(g, xx).Floor; g.First(xx) == n - 1 && g.End(xx) == n + 3
  {
  }

  lemma FourWeights(g: Axis, xx: nat)
    requires Surrounded(g, xx)
    ensures var u := Position(g, xx); var t := u - u.Floor as real;
      RawTaps(g, xx) == [Bicubic(1.0 + t), Bicubic(t), Bicubic(1.0 - t), Bicubic(2.0 - t)]
  {
    FourSamples(g, xx);
    var raw := RawTaps(g, xx);
    forall i | 0 <= i < 4 ensures raw[i] == WeightAround(Position(g, xx), i) {
      AroundPosition(g, xx, i);
    }
  }

  /** The weight of the i-th of the four samples around a position. */
  function WeightAround(u: real, i: nat): real {
    var t := u - u.Floor as real;
    if i == 0 then Bicubic(1.0 + t) else if i == 1 then Bicubic(t)
    else if i == 2 then Bicubic(1.0 - t) else Bicubic(2.0 - t)
  }

  lemma AroundPosition(g: Axis, xx: nat, i: nat)
    requires Surrounded(g, xx) && i < 4
    ensures RawTap(g, xx, i) == WeightAround(Position(g, xx), i)
  {
    FourSamples(g, xx);
    var d := (i + g.First(xx)) as real - g.Center(xx) + 0.5;
    assert g.FilterScale() == 1.0 && d * (1.0 / 1.0) == d;
  }

  lemma {:induction false} FourTerms(s: seq<real>)
    requires |s| == 4
    ensures TapSum(s) == s[0] + s[1] + s[2] + s[3]
  {
    assert s[..3][..2] == s[..2] && s[..2][..1] == s[..1] && s[..1][..0] == [];
    assert TapSum(s[..1]) == TapSum(s[..1][..0]) + s[0];
    assert TapSum(s[..2]) == TapSum(s[..1]) + s[1];
    assert TapSum(s[..3]) == TapSum(s[..2]) + s[2];
  }

  /**
   * Where nothing is reduced, the exact result is the smooth curve through the four samples around
   * the position of the output sample.
   */
  lemma EnlargingInterpolates(g: Axis, xx: nat, values: seq<real>)
    requires Surrounded(g, xx) && |values| == g.inSize
    ensures 0 <= g.First(xx) < g.End(xx) <= |values| && |Normalized(RawTaps(g, xx))| == g.End(xx) - g.First(xx)
    ensures var u := Position(g, xx); var n := u.Floor;
      ExactDot(values[g.First(xx)..g.End(xx)], Normalized(RawTaps(g, xx)))
        == Curve(values[n - 1], values[n], values[n + 1], values[n + 2], u - n as real)
  {
    var u := Position(g, xx);
    var n := u.Floor;
    FourSamples(g, xx);
    FourWeights(g, xx);
    CurveOfWindow(values[n - 1..n + 3], RawTaps(g, xx), u - n as real);
  }

  lemma CurveOfWindow(window: seq<real>, raw: seq<real>, t: real)
    requires |window| == 4 && 0.0 <= t <= 1.0
    requires raw == [Bicubic(1.0 + t), Bicubic(t), Bicubic(1.0 - t), Bicubic(2.0 - t)]
    ensures |Normalized(raw)| == 4
    ensures ExactDot(window, Normalized(raw)) == Curve(window[0], window[1], window[2], window[3], t)
  {
    Moments(t);
    FourTerms(raw);
    SameTaps(raw);
    DotOfFour(window, raw);
    WeightsGiveCurve(window[0], window[1], window[2], window[3], t);
  }

  lemma {:induction false} SameTaps(raw: seq<real>)
    requires TapSum(raw) == 1.0
    ensures Normalized(raw) == raw
  {
    Resize.ScaledByOne(raw);
  }

  lemma DotOfFour(values: seq<real>, taps: seq<real>)
    requires |values| == |taps| == 4
    ensures ExactDot(values, taps)
         == values[0] * taps[0] + values[1] * taps[1] + values[2] * taps[2] + values[3] * taps[3]
  {
    var terms := Products(values, taps);
    FourTerms(terms);
    assert forall i :: 0 <= i < 4 ==> IsProduct(terms[i], values[i], taps[i]);
  }

  // ----- lines and parabolas -----

  /** The samples of a parabola, or of a line if `c` is zero. */
  predicate OnParabola(values: seq<real>, a: real, b: real, c: real) {
    forall j :: 0 <= j < |values| ==> values[j] == ParabolaAt(a, b, c, j as real)
  }

  function ParabolaAt(a: real, b: real, c: real, x: real): real { a + b * x + c * (x * x) }

  lemma CurveOfParabola(a: real, b: real, c: real, n: real, t: real)
    ensures Curve(ParabolaAt(a, b, c, n - 1.0), ParabolaAt(a, b, c, n), ParabolaAt(a, b, c, n + 1.0),
                  ParabolaAt(a, b, c, n + 2.0), t) == ParabolaAt(a, b, c, n + t)
  {
    var (p0, p1) := (ParabolaAt(a, b, c, n - 1.0), ParabolaAt(a, b, c, n));
    var (p2, p3) := (ParabolaAt(a, b, c, n + 1.0), ParabolaAt(a, b, c, n + 2.0));
    var e := b + 2.0 * (c * n);
    assert p0 == p1 - e + c;
    assert p2 == p1 + e + c;
    assert p3 == p1 + 2.0 * e + 4.0 * c;
    CurveOfSteps(p1, e, c, t);
    assert ParabolaAt(a, b, c, n + t) == p1 + e * t + c * (t * t);
  }

  lemma CurveOfSteps(p: real, e: real, c: real, t: real)
    ensures Curve(p - e + c, p, p + e + c, p + 2.0 * e + 4.0 * c, t) == p + e * t + c * (t * t)
  {
  }

  /** Where nothing is reduced, samples of a line or a parabola give its very value at the position. */
  lemma ParabolaIsKept(g: Axis, xx: nat, values: seq<real>, a: real, b: real, c: real)
    requires Surrounded(g, xx) && |values| == g.inSize && OnParabola(values, a, b, c)
    ensures 0 <= g.First(xx) < g.End(xx) <= |values| && |Normalized(RawTaps(g, xx))| == g.End(xx) - g.First(xx)
    ensures ExactDot(values[g.First(xx)..g.End(xx)], Normalized(RawTaps(g, xx))) == ParabolaAt(a, b, c, Position(g, xx))
  {
    var u := Position(g, xx);
    var n := u.Floor;
    EnlargingInterpolates(g, xx, values);
    FourOnParabola(values, n, u - n as real, a, b, c);
  }

  lemma FourOnParabola(values: seq<real>, n: int, t: real, a: real, b: real, c: real)
    requires 1 <= n && n + 2 < |values| && OnParabola(values, a, b, c)
    ensures Curve(values[n - 1], values[n], values[n + 1], values[n + 2], t) == ParabolaAt(a, b, c, n as real + t)
  {
    CurveOfParabola(a, b, c, n as real, t);
    assert values[n - 1] == ParabolaAt(a, b, c, n as real - 1.0);
    assert values[n + 1] == ParabolaAt(a, b, c, n as real + 1.0);
    assert values[n + 2] == ParabolaAt(a, b, c, n as real + 2.0);
  }

  /** A horizontal ramp stays a ramp: its value at the position of the output sample. */
  lemma RampIsKept(g: Axis, xx: nat, values: seq<real>, a: real, b: real)
    requires Surrounded(g, xx) && |values| == g.inSize
    requires forall j :: 0 <= j < |values| ==> values[j] == a + b * j as real
    ensures 0 <= g.First(xx) < g.End(xx) <= |values| && |Normalized(RawTaps(g, xx))| == g.End(xx) - g.First(xx)
    ensures ExactDot(values[g.First(xx)..g.End(xx)], Normalized(RawTaps(g, xx))) == a + b * Position(g, xx)
  {
    ParabolaIsKept(g, xx, values, a, b, 0.0);
  }

  // ----- how far the filter reaches -----

  lemma MainIsPositive(x: real)
    requires 0.0 <= x < 1.0
    ensures Bicubic(x) > 0.0
  {
    WeightSums.Square(x);
    PositiveProduct(1.0 - x, 1.0 + x - 1.5 * (x * x), Bicubic(x));
  }

  lemma SideIsNegative(x: real)
    requires 1.0 < x < 2.0
    ensures Bicubic(x) < 0.0
  {
    var (y, z) := (x - 1.0, 2.0 - x);
    var zz := z * z;
    PositiveProduct(z, z, zz);
    PositiveProduct(y, zz, -2.0 * Bicubic(x));
  }

  lemma PositiveProduct(a: real, b: real, p: real)
    requires a > 0.0 && b > 0.0 && p == a * b
    ensures p > 0.0
  {
  }

  lemma FilterSign(x: real)
    requires 0.0 <= x
    ensures (Bicubic(x) > 0.0 <==> x < 1.0) && (Bicubic(x) < 0.0 <==> 1.0 < x < 2.0)
  {
    if x < 1.0 {
      MainIsPositive(x);
    } else if x == 1.0 {
      assert Bicubic(1.0) == 0.0;
    } else if x < 2.0 {
      SideIsNegative(x);
    }
  }

  /** The distance of output samples, but not less than that of source samples. */
  function Pitch(g: Axis, xx: nat): real
    requires g.Valid()
  {
    Max(g.Center(xx + 1) - g.Center(xx), 1.0)
  }

  lemma PitchIsScale(g: Axis, xx: nat)
    requires g.Valid()
    ensures Pitch(g, xx) == g.FilterScale()
  {
    var s := g.Scale();
    assert ((xx + 1) as real + 0.5) * s == (xx as real + 0.5) * s + s;
  }

  /**
   * Source samples nearer to the centre than the next output sample count positively, those nearer
   * than the one after that negatively, and no others count: a reduction widens the filter by just
   * as much as it spreads the output samples.
   */
  lemma LobesMeetNeighbours(g: Axis, xx: nat, j: int)
    requires g.Valid()
    ensures var (w, d) := (WeightOf(j, g.Center(xx), g.FilterScale()), Abs(j as real + 0.5 - g.Center(xx)));
      var p := Pitch(g, xx);
      (w > 0.0 <==> d < p) && (w < 0.0 <==> p < d < 2.0 * p)
  {
    PitchIsScale(g, xx);
    WeightSign(j, g.Center(xx), g.FilterScale());
  }

  lemma WeightSign(j: int, center: real, scale: real)
    requires scale >= 1.0
    ensures var (w, d) := (WeightOf(j, center, scale), Abs(j as real + 0.5 - center));
      (w > 0.0 <==> d < scale) && (w < 0.0 <==> scale < d < 2.0 * scale)
  {
    var u := j as real - center + 0.5;
    assert u == j as real + 0.5 - center;
    SignAtDistance(u, scale);
  }

  lemma SignAtDistance(u: real, scale: real)
    requires scale >= 1.0
    ensures var w := Bicubic(u * (1.0 / scale));
      (w > 0.0 <==> Abs(u) < scale) && (w < 0.0 <==> scale < Abs(u) < 2.0 * scale)
  {
    var x := u * (1.0 / scale);
    assert x == u / scale;
    var q := Abs(u) / scale;
    assert q * scale == Abs(u) && Abs(x) == q;
    Compare(q, 1.0, scale);
    Compare(q, 2.0, scale);
    FilterSign(q);
    assert Bicubic(x) == Bicubic(q);
  }

  lemma Compare(q: real, c: real, scale: real)
    requires scale > 0.0
    ensures q < c <==> q * scale < c * scale
    ensures q > c <==> q * scale > c * scale
  {
    if q < c { ProductPositive(c - q, scale); }
    if q > c { ProductPositive(q - c, scale); }
  }
}
