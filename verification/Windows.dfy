/** Which source samples an output sample of a bicubic resize looks at, and with which weights. */
module Windows {
  import opened Reals

  const BICUBIC_SUPPORT: real := 2.0
  const ONE: int := 0x40_0000

  function Bicubic(x: real): real {
    var a := -0.5;
    var x := Abs(x);
    if x < 1.0 then ((a + 2.0) * x - (a + 3.0)) * x * x + 1.0
    else if x < 2.0 then (((x - 5.0) * x + 8.0) * x - 4.0) * a
    else 0.0
  }

  /** One direction of a resize: `outSize` samples from the part `in0` to `in1` of `inSize` samples. */
  datatype Axis = Axis(inSize: nat, in0: real, in1: real, outSize: nat)
  {
    predicate Valid() { 0.0 <= in0 < in1 <= inSize as real && outSize > 0 }

    function Scale(): real
      requires Valid()
    {
      (in1 - in0) / outSize as real
    }

    function FilterScale(): real
      requires Valid()
    {
      Max(Scale(), 1.0)
    }

    function Support(): real
      requires Valid()
    {
      BICUBIC_SUPPORT * FilterScale()
    }

    function Ksize(): int
      requires Valid()
    {
      Ceil(Support()) * 2 + 1
    }

    function Center(xx: nat): real
      requires Valid()
    {
      in0 + (xx as real + 0.5) * Scale()
    }

    /** The first source sample of the window. */
    function First(xx: nat): int
      requires Valid()
    {
      MaxInt(Trunc(Center(xx) - Support() + 0.5), 0)
    }

    /** The end of the window. */
    function End(xx: nat): int
      requires Valid()
    {
      MinInt(Trunc(Center(xx) + Support() + 0.5), inSize)
    }
  }

  function Ceil(x: real): int { -((-x).Floor) }

  function MaxInt(a: int, b: int): int { if a >= b then a else b }

  function MinInt(a: int, b: int): int { if a <= b then a else b }

  lemma TruncMonotone(x: real, y: real)
    requires x <= y
    ensures Trunc(x) <= Trunc(y)
  {
  }

  lemma ScaleIsPositive(g: Axis)
    requires g.Valid()
    ensures g.Scale() > 0.0 && g.Scale() * g.outSize as real == g.in1 - g.in0
  {
    assert g.Scale() * g.outSize as real == g.in1 - g.in0;
    PositiveFactor(g.Scale(), g.outSize as real);
  }

  lemma PositiveFactor(a: real, b: real)
    requires b > 0.0 && a * b > 0.0
    ensures a > 0.0
  {
    if a <= 0.0 {
      ProductSign(-a, b);
    }
  }

  /** Output sample `xx` is centred inside the box. */
  lemma CenterInside(g: Axis, xx: nat)
    requires g.Valid() && xx < g.outSize
    ensures g.in0 < g.Center(xx) < g.in1
  {
    ScaleIsPositive(g);
    InsideScaled(g.Scale(), xx as real + 0.5, g.outSize as real, g.in1 - g.in0);
  }

  lemma InsideScaled(s: real, x: real, n: real, width: real)
    requires s > 0.0 && 0.0 < x < n && s * n == width
    ensures 0.0 < x * s < width
  {
    ProductPositive(x, s);
    ProductPositive(n - x, s);
    assert (n - x) * s == n * s - x * s;
  }

  lemma CentersAscend(g: Axis, xx: nat, yy: nat)
    requires g.Valid() && xx <= yy
    ensures g.Center(xx) <= g.Center(yy)
  {
    ScaleIsPositive(g);
    var (s, d) := (g.Scale(), yy as real - xx as real);
    ProductSign(d, s);
    assert (yy as real + 0.5) * s == (xx as real + 0.5) * s + d * s;
  }

  /** Every window lies inside the source, is not empty, and has at most `Ksize` samples. */
  lemma WindowFits(g: Axis, xx: nat)
    requires g.Valid() && xx < g.outSize
    ensures 0 <= g.First(xx) < g.End(xx) <= g.inSize
    ensures g.End(xx) - g.First(xx) <= g.Ksize()
  {
    CenterInside(g, xx);
    var (c, s) := (g.Center(xx), g.Support());
    assert s >= 2.0;
    assert Trunc(c + s + 0.5) as real > c + s - 0.5;
    assert g.First(xx) as real < c;
    assert Trunc(c - s + 0.5) as real > c - s - 0.5;
    assert (g.End(xx) - g.First(xx)) as real < 2.0 * s + 1.0;
    assert Ceil(s) as real >= s;
  }

  /** A window contains the sample at its centre and reaches no farther than the support. */
  lemma WindowReach(g: Axis, xx: nat)
    requires g.Valid() && xx < g.outSize
    ensures g.First(xx) <= g.Center(xx).Floor < g.End(xx)
    ensures g.First(xx) as real > g.Center(xx) - g.Support() - 0.5
    ensures g.End(xx) as real <= g.Center(xx) + g.Support() + 0.5
  {
    CenterInside(g, xx);
    var (c, s) := (g.Center(xx), g.Support());
    assert s >= 2.0;
    assert Trunc(c + s + 0.5) as real > c + s - 0.5;
    assert g.First(xx) as real <= Max(c - s + 0.5, 0.0);
    assert Trunc(c - s + 0.5) as real > c - s - 0.5;
  }

  /** Windows move forward: neither their starts nor their ends ever go back. */
  lemma WindowsAscend(g: Axis, xx: nat, yy: nat)
    requires g.Valid() && xx <= yy
    ensures g.First(xx) <= g.First(yy) && g.End(xx) <= g.End(yy)
  {
    CentersAscend(g, xx, yy);
    TruncMonotone(g.Center(xx) - g.Support() + 0.5, g.Center(yy) - g.Support() + 0.5);
    TruncMonotone(g.Center(xx) + g.Support() + 0.5, g.Center(yy) + g.Support() + 0.5);
  }

  /** Over the whole source, the first window starts at the first sample and the last ends at the last. */
  lemma WholeSourceIsUsed(g: Axis)
    requires g.Valid() && g.in0 == 0.0 && g.in1 == g.inSize as real
    ensures g.First(0) == 0 && g.End(g.outSize - 1) == g.inSize
  {
    ScaleIsPositive(g);
    var (s, n) := (g.Scale(), g.outSize as real);
    assert g.Center(0) == 0.5 * s;
    assert (n - 0.5) * s == n * s - 0.5 * s;
    assert g.Center(g.outSize - 1) == g.in1 - 0.5 * s;
    assert g.Support() >= 2.0 * s && g.Support() >= 2.0;
  }

  // ----- weights -----

  /** The unnormalised weight of source sample `j` for an output sample centred at `center`. */
  function WeightOf(j: int, center: real, filterScale: real): real
    requires filterScale >= 1.0
  {
    Bicubic((j as real - center + 0.5) * (1.0 / filterScale))
  }

  /** The unnormalised weight of the `x`-th sample of a window. */
  function RawTap(g: Axis, xx: nat, x: int): real
    requires g.Valid()
  {
    WeightOf(x + g.First(xx), g.Center(xx), g.FilterScale())
  }

  function RawTaps(g: Axis, xx: nat): seq<real>
    requires g.Valid() && xx < g.outSize
  {
    WindowFits(g, xx);
    seq(g.End(xx) - g.First(xx), x => RawTap(g, xx, x))
  }

  function TapSum(s: seq<real>): real {
    if |s| == 0 then 0.0 else TapSum(s[..|s| - 1]) + s[|s| - 1]
  }

  /** The weights divided by their sum, unless it is zero. */
  function Normalized(raw: seq<real>): (taps: seq<real>)
    ensures |taps| == |raw|
  {
    if TapSum(raw) == 0.0 then raw else Scaled(raw, TapSum(raw))
  }

  function Scaled(raw: seq<real>, total: real): (taps: seq<real>)
    requires total != 0.0
    ensures |taps| == |raw|
  {
    if |raw| == 0 then [] else Scaled(raw[..|raw| - 1], total) + [raw[|raw| - 1] / total]
  }

  lemma {:induction false} ScaledSum(raw: seq<real>, total: real)
    requires total != 0.0
    ensures Mul(TapSum(Scaled(raw, total)), total) == TapSum(raw)
  {
    if |raw| > 0 {
      var rest := raw[..|raw| - 1];
      ScaledSum(rest, total);
      var (a, b) := (TapSum(Scaled(rest, total)), raw[|raw| - 1] / total);
      assert Scaled(raw, total)[..|raw| - 1] == Scaled(rest, total);
      assert (a + b) * total == a * total + b * total;
    }
  }

  /** Normalised weights sum to one, exactly when the raw weights do not cancel out (or already do sum to one). */
  lemma {:induction false} NormalizedSum(raw: seq<real>)
    ensures TapSum(Normalized(raw)) == 1.0 <==> TapSum(raw) != 0.0
  {
    if TapSum(raw) != 0.0 {
      ScaledSum(raw, TapSum(raw));
      NoChange(TapSum(Normalized(raw)), TapSum(raw));
    }
  }

  lemma NoChange(t: real, x: real)
    requires Mul(t, x) == x && x != 0.0
    ensures t == 1.0
  {
    assert (t - 1.0) * x == 0.0;
  }

  /** A weight in 22-bit fixed point, rounded half away from zero. */
  function Fixed(k: real): int {
    if k < 0.0 then Trunc(-0.5 + k * ONE as real) else Trunc(0.5 + k * ONE as real)
  }

  /** Rounding treats both signs alike. */
  lemma FixedIsOdd(k: real)
    ensures Fixed(-k) == -Fixed(k)
  {
  }

  lemma FixedError(k: real)
    ensures Abs(Fixed(k) as real - k * ONE as real) <= 0.5
  {
  }

  function FixedTaps(taps: seq<real>): (fixed: seq<int>)
    ensures |fixed| == |taps| && forall i :: 0 <= i < |taps| ==> fixed[i] == Fixed(taps[i])
  {
    seq(|taps|, i requires 0 <= i < |taps| => Fixed(taps[i]))
  }
}
