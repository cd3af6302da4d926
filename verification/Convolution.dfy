/** Fixed-point convolution of a window of samples, and how far it is from the exact one. */
module Convolution {
  import opened BoxSplit
  import opened Reals
  import opened Windows

  const ROUND: int := 0x20_0000

  /** The arithmetic shift by 22 bits, clamped to a byte. */
  function Clip8(ss: int): Byte {
    var v := ss / ONE;
    if v < 0 then 0 else if v > 255 then 255 else v
  }

  function SumInts(s: seq<int>): int {
    if |s| == 0 then 0 else SumInts(s[..|s| - 1]) + s[|s| - 1]
  }

  /** Each sample's channel times its tap. */
  function Terms(window: seq<Color>, taps: seq<int>, ch: nat): (terms: seq<int>)
    requires |window| == |taps| && ch < 3
    ensures |terms| == |taps| && forall i :: 0 <= i < |taps| ==> terms[i] == window[i].At(ch) * taps[i]
  {
    seq(|taps|, i requires 0 <= i < |taps| => window[i].At(ch) * taps[i])
  }

  function Dot(window: seq<Color>, taps: seq<int>, ch: nat): int
    requires |window| == |taps| && ch < 3
  {
    SumInts(Terms(window, taps, ch))
  }

  /** One output pixel. */
  function Blend(window: seq<Color>, taps: seq<int>): Color
    requires |window| == |taps|
  {
    Color(Clip8(ROUND + Dot(window, taps, 0)), Clip8(ROUND + Dot(window, taps, 1)), Clip8(ROUND + Dot(window, taps, 2)))
  }

  method Convolve(window: seq<Color>, taps: seq<int>) returns (c: Color)
    requires |window| == |taps|
    ensures c == Blend(window, taps)
  {
    var red, green, blue := ROUND, ROUND, ROUND;
    for x := 0 to |taps|
      invariant red == ROUND + Dot(window[..x], taps[..x], 0)
      invariant green == ROUND + Dot(window[..x], taps[..x], 1)
      invariant blue == ROUND + Dot(window[..x], taps[..x], 2)
    {
      DotNext(window, taps, x);
      red := red + window[x].At(0) * taps[x];
      green := green + window[x].At(1) * taps[x];
      blue := blue + window[x].At(2) * taps[x];
    }
    assert window[..|taps|] == window && taps[..|taps|] == taps;
    c := Color(Clip8(red), Clip8(green), Clip8(blue));
  }

  lemma DotNext(window: seq<Color>, taps: seq<int>, x: nat)
    requires |window| == |taps| && x < |taps|
    ensures forall ch :: 0 <= ch < 3 ==>
      Dot(window[..x + 1], taps[..x + 1], ch) == Dot(window[..x], taps[..x], ch) + window[x].At(ch) * taps[x]
  {
    forall ch | 0 <= ch < 3
      ensures Dot(window[..x + 1], taps[..x + 1], ch) == Dot(window[..x], taps[..x], ch) + window[x].At(ch) * taps[x]
    {
      assert Terms(window[..x + 1], taps[..x + 1], ch)[..x] == Terms(window[..x], taps[..x], ch);
    }
  }

  // ----- rounding -----

  predicate IsProduct(term: real, v: real, k: real) { term == v * k }

  function RealTerms(window: seq<Color>, taps: seq<real>, ch: nat): (terms: seq<real>)
    requires |window| == |taps| && ch < 3
    ensures |terms| == |taps| && forall i :: 0 <= i < |taps| ==> IsProduct(terms[i], window[i].At(ch) as real, taps[i])
  {
    seq(|taps|, i requires 0 <= i < |taps| => window[i].At(ch) as real * taps[i])
  }

  /** The exact weighted sum. */
  function RealDot(window: seq<Color>, taps: seq<real>, ch: nat): real
    requires |window| == |taps| && ch < 3
  {
    TapSum(RealTerms(window, taps, ch))
  }

  /** `term` is at most half a unit times 255 away from `exact` units. */
  predicate Close(term: int, exact: real) { Abs(term as real - exact * ONE as real) <= 127.5 }

  lemma {:induction false} SumError(terms: seq<int>, exacts: seq<real>)
    requires |terms| == |exacts| && forall i :: 0 <= i < |terms| ==> Close(terms[i], exacts[i])
    ensures Abs(SumInts(terms) as real - TapSum(exacts) * ONE as real) <= 127.5 * |terms| as real
  {
    if |terms| > 0 {
      var n := |terms| - 1;
      SumError(terms[..n], exacts[..n]);
      assert Close(terms[n], exacts[n]);
    }
  }

  /** Each rounded tap adds at most half a unit times 255 to the error. */
  lemma DotError(window: seq<Color>, taps: seq<real>, ch: nat)
    requires |window| == |taps| && ch < 3
    ensures Abs(Dot(window, FixedTaps(taps), ch) as real - RealDot(window, taps, ch) * ONE as real)
         <= 127.5 * |taps| as real
  {
    var (terms, exacts) := (Terms(window, FixedTaps(taps), ch), RealTerms(window, taps, ch));
    forall i | 0 <= i < |taps| ensures Close(terms[i], exacts[i]) {
      assert IsProduct(exacts[i], window[i].At(ch) as real, taps[i]);
      TermError(window[i].At(ch), taps[i]);
    }
    SumError(terms, exacts);
  }

  lemma TermError(v: nat, k: real)
    requires v < 256
    ensures Close(v * Fixed(k), v as real * k)
  {
    FixedError(k);
    CastProduct(v, Fixed(k));
    Reassociate(v as real, k, Fixed(k) as real);
    SmallProduct(v as real, Fixed(k) as real - k * ONE as real);
  }

  lemma CastProduct(v: int, k: int)
    ensures (v * k) as real == v as real * k as real
  {
  }

  lemma Reassociate(w: real, k: real, x: real)
    ensures w * (x - k * ONE as real) == w * x - w * k * ONE as real
  {
  }

  lemma SmallProduct(w: real, d: real)
    requires 0.0 <= w <= 255.0 && Abs(d) <= 0.5
    ensures Abs(w * d) <= 127.5
  {
    var (below, above, p) := (w * (0.5 - d), w * (0.5 + d), w * d);
    ProductSign(w, 0.5 - d);
    ProductSign(w, 0.5 + d);
    assert below == 0.5 * w - p && above == 0.5 * w + p;
    assert -127.5 <= p <= 127.5;
  }

  /** Rounding and clipping: within half a step of the clamped exact value, plus the error of the taps. */
  lemma ClipError(dot: int, exact: real, error: real)
    requires Abs(dot as real - exact * ONE as real) <= error
    ensures Abs(Clip8(ROUND + dot) as real - Clamp(exact, 0.0, 255.0)) <= 0.5 + error / ONE as real
  {
    var (ss, r) := (ROUND + dot, (ROUND + dot) / ONE);
    assert ONE * r <= ss < ONE * r + ONE;
    var e := error / ONE as real;
    assert e * ONE as real == error;
    assert r as real - exact <= 0.5 + e;
    assert exact - r as real <= 0.5 + e;
    assert Clip8(ss) as real == Clamp(r as real, 0.0, 255.0);
  }

  /** Every channel of an output pixel is within this bound of the exact convolution. */
  lemma BlendError(window: seq<Color>, taps: seq<real>, ch: nat)
    requires |window| == |taps| && ch < 3
    ensures Abs(Blend(window, FixedTaps(taps)).At(ch) as real - Clamp(RealDot(window, taps, ch), 0.0, 255.0))
         <= 0.5 + 127.5 * |taps| as real / ONE as real
  {
    DotError(window, taps, ch);
    var error := 127.5 * |taps| as real;
    ClipError(Dot(window, FixedTaps(taps), ch), RealDot(window, taps, ch), error);
    BlendChannel(window, FixedTaps(taps), ch);
  }

  lemma BlendChannel(window: seq<Color>, taps: seq<int>, ch: nat)
    requires |window| == |taps| && ch < 3
    ensures Blend(window, taps).At(ch) == Clip8(ROUND + Dot(window, taps, ch))
  {
  }

  // ----- flat fields -----

  const FLAT_TAPS: nat := 16448

  lemma {:induction false} ScaledTerms(terms: seq<real>, taps: seq<real>, v: real)
    requires |terms| == |taps| && forall i :: 0 <= i < |taps| ==> IsProduct(terms[i], v, taps[i])
    ensures TapSum(terms) == v * TapSum(taps)
  {
    if |taps| > 0 {
      var n := |taps| - 1;
      ScaledTerms(terms[..n], taps[..n], v);
      assert IsProduct(terms[n], v, taps[n]);
      assert v * TapSum(taps) == v * TapSum(taps[..n]) + v * taps[n];
    }
  }

  /** Up to 16448 taps that sum to one keep a constant colour exactly. */
  lemma {:induction false} FlatBlend(window: seq<Color>, taps: seq<real>, c: Color)
    requires |window| == |taps| <= FLAT_TAPS && TapSum(taps) == 1.0
    requires forall k :: 0 <= k < |window| ==> window[k] == c
    ensures Blend(window, FixedTaps(taps)) == c
  {
    FlatChannel(window, taps, c, 0);
    FlatChannel(window, taps, c, 1);
    FlatChannel(window, taps, c, 2);
  }

  lemma {:induction false} FlatChannel(window: seq<Color>, taps: seq<real>, c: Color, ch: nat)
    requires |window| == |taps| <= FLAT_TAPS && TapSum(taps) == 1.0 && ch < 3
    requires forall k :: 0 <= k < |window| ==> window[k] == c
    ensures Clip8(ROUND + Dot(window, FixedTaps(taps), ch)) == c.At(ch)
  {
    FlatExact(window, taps, c, ch);
    DotError(window, taps, ch);
    ClipExact(Dot(window, FixedTaps(taps), ch), c.At(ch), RealDot(window, taps, ch), |taps|);
  }

  lemma {:induction false} FlatExact(window: seq<Color>, taps: seq<real>, c: Color, ch: nat)
    requires |window| == |taps| && TapSum(taps) == 1.0 && ch < 3
    requires forall k :: 0 <= k < |window| ==> window[k] == c
    ensures RealDot(window, taps, ch) == c.At(ch) as real
  {
    var terms := RealTerms(window, taps, ch);
    forall i | 0 <= i < |terms| ensures IsProduct(terms[i], c.At(ch) as real, taps[i]) {
      assert window[i] == c && IsProduct(terms[i], window[i].At(ch) as real, taps[i]);
    }
    ScaledTerms(terms, taps, c.At(ch) as real);
  }

  lemma ClipExact(dot: int, v: Byte, exact: real, n: nat)
    requires exact == v as real && n <= FLAT_TAPS
    requires Abs(dot as real - exact * ONE as real) <= 127.5 * n as real
    ensures Clip8(ROUND + dot) == v
  {
    var d := dot - v * ONE;
    assert d as real == dot as real - exact * ONE as real;
    assert 127.5 * n as real < ROUND as real;
    assert -ROUND < d < ROUND;
    assert (ROUND + dot) / ONE == v;
  }
}
