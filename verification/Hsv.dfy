/** RGB to HSV and back, over the reals. */
module Hsv {
  import opened Reals

  /** A colour as hue, saturation and value. */
  datatype Hsv = Hsv(h: real, s: real, v: real)

  datatype Rgb = Rgb(r: real, g: real, b: real)

  /** The remainder by 1 in the range from 0 up to 1, whatever the sign of `x`. */
  function PyMod1(x: real): (m: real)
    ensures 0.0 <= m < 1.0 && m == x - x.Floor as real
  {
    var m := x - Trunc(x) as real;
    if m == 0.0 then 0.0 else if m < 0.0 then m + 1.0 else m
  }

  /** The hue in sixths of a turn, from -1 to 5. */
  function Sixths(c: Rgb, max: real, range: real): real
    requires range != 0.0
  {
    var (rc, gc, bc) := ((max - c.r) / range, (max - c.g) / range, (max - c.b) / range);
    if c.r == max then bc - gc else if c.g == max then 2.0 + rc - bc else 4.0 + gc - rc
  }

  function RgbToHsv(c: Rgb): Hsv
    requires 0.0 <= c.r && 0.0 <= c.g && 0.0 <= c.b
  {
    var (max, min) := (Max(Max(c.r, c.g), c.b), Min(Min(c.r, c.g), c.b));
    if min == max then Hsv(0.0, 0.0, max)
    else
      var range := max - min;
      Hsv(PyMod1(Sixths(c, max, range) / 6.0), range / max, max)
  }

  function HsvToRgb(x: Hsv): Rgb {
    if x.s == 0.0 then Rgb(x.v, x.v, x.v)
    else
      var i := Trunc(x.h * 6.0);
      var f := x.h * 6.0 - i as real;
      var p := x.v * (1.0 - x.s);
      var q := x.v * (1.0 - x.s * f);
      var t := x.v * (1.0 - x.s * (1.0 - f));
      match i % 6
      case 0 => Rgb(x.v, t, p)
      case 1 => Rgb(q, x.v, p)
      case 2 => Rgb(p, x.v, t)
      case 3 => Rgb(p, q, x.v)
      case 4 => Rgb(t, p, x.v)
      case _ => Rgb(x.v, p, q)
  }

  // ----- what hue, saturation and value are -----

  /** The largest channel is the value, and the range of the channels its saturated part. */
  lemma ValueAndSaturation(c: Rgb)
    requires 0.0 <= c.r && 0.0 <= c.g && 0.0 <= c.b
    ensures var x := RgbToHsv(c); var (max, min) := (Max(Max(c.r, c.g), c.b), Min(Min(c.r, c.g), c.b));
      x.v == max && x.v * x.s == max - min
  {
    var (max, min) := (Max(Max(c.r, c.g), c.b), Min(Min(c.r, c.g), c.b));
    if min < max { Quotient(max - min, max); }
  }

  /**
   * From red over yellow, green, cyan, blue and magenta back to red, a sixth of a turn each: which
   * sixth, and how far into it, by the order of the channels and the place of the middle one.
   */
  lemma HueByOrder(c: Rgb)
    requires 0.0 <= c.r && 0.0 <= c.g && 0.0 <= c.b
    ensures var h := 6.0 * RgbToHsv(c).h;
      && (c.r > c.b && c.r >= c.g >= c.b ==> h == (c.g - c.b) / (c.r - c.b))
      && (c.g > c.r >= c.b ==> h == 2.0 - (c.r - c.b) / (c.g - c.b))
      && (c.g > c.r && c.g >= c.b >= c.r ==> h == 2.0 + (c.b - c.r) / (c.g - c.r))
      && (c.b > c.g >= c.r ==> h == 4.0 - (c.g - c.r) / (c.b - c.r))
      && (c.b > c.r >= c.g ==> h == 4.0 + (c.r - c.g) / (c.b - c.g))
      && (c.r >= c.b > c.g ==> h == 6.0 - (c.b - c.g) / (c.r - c.g))
  {
    var (max, min) := (Max(Max(c.r, c.g), c.b), Min(Min(c.r, c.g), c.b));
    if min < max {
      var h := HueValue(c, max, min);
      Reversed(c.r, c.b, max - min);
      Reversed(c.g, c.r, max - min);
      Reversed(c.b, c.g, max - min);
    }
  }

  lemma HueValue(c: Rgb, max: real, min: real) returns (h: real)
    requires 0.0 <= c.r && 0.0 <= c.g && 0.0 <= c.b
    requires max == Max(Max(c.r, c.g), c.b) && min == Min(Min(c.r, c.g), c.b) && min < max
    ensures h == 6.0 * RgbToHsv(c).h
    ensures h == if c.r == max then (if c.b > c.g then 6.0 + (c.g - c.b) / (max - min) else (c.g - c.b) / (max - min))
      else if c.g == max then 2.0 + (c.b - c.r) / (max - min) else 4.0 + (c.r - c.g) / (max - min)
  {
    Differences(c, max, max - min);
    MiddleWithin(c, max, min);
    HueTurns(Sixths(c, max, max - min));
    h := 6.0 * RgbToHsv(c).h;
  }

  lemma Reversed(a: real, b: real, d: real)
    requires d != 0.0
    ensures (b - a) / d == -((a - b) / d)
  {
  }

  /** The place of a channel between the others is a share of their range. */
  lemma MiddleWithin(c: Rgb, max: real, min: real)
    requires max == Max(Max(c.r, c.g), c.b) && min == Min(Min(c.r, c.g), c.b) && min < max
    ensures var x := Sixths(c, max, max - min); -1.0 <= x < 6.0
    ensures c.r == max && c.b > c.g ==> Sixths(c, max, max - min) < 0.0
    ensures !(c.r == max && c.b > c.g) ==> Sixths(c, max, max - min) >= 0.0
  {
    Differences(c, max, max - min);
    ShareBounds(c.g - c.b, max - min);
    ShareBounds(c.b - c.r, max - min);
    ShareBounds(c.r - c.g, max - min);
  }

  lemma ShareBounds(a: real, d: real)
    requires d > 0.0 && -d <= a <= d
    ensures -1.0 <= a / d <= 1.0 && (a < 0.0 <==> a / d < 0.0)
    ensures a < d ==> a / d < 1.0
  {
    var q := a / d;
    assert q * d == a;
    if q > 1.0 { ProductPositive(q - 1.0, d); }
    if q < -1.0 { ProductPositive(-1.0 - q, d); }
    if q < 0.0 { ProductPositive(-q, d); } else { ProductSign(q, d); }
    if q >= 1.0 { ProductSign(q - 1.0, d); }
  }

  // ----- the round trip -----

  lemma Quotient(a: real, d: real)
    requires d > 0.0
    ensures d * (a / d) == a
    ensures a >= 0.0 ==> a / d >= 0.0
    ensures a > 0.0 ==> a / d > 0.0
    ensures a < d ==> a / d < 1.0
    ensures a == d ==> a / d == 1.0
  {
    var q := a / d;
    assert q * d == a;
    if a >= 0.0 && q < 0.0 { Signs(q, d); }
    if a > 0.0 && q <= 0.0 { Signs(q, d); }
    assert (1.0 - q) * d == d - a;
    if a < d && q >= 1.0 { Signs(1.0 - q, d); }
  }

  /** A negative share of `d`, as what is missing from a whole. */
  lemma Deficit(a: real, minus: real, d: real)
    requires d > 0.0 && 0.0 < a <= d && minus == -a
    ensures -1.0 <= minus / d < 0.0 && d * (1.0 + minus / d) == d - a
  {
    var q := minus / d;
    assert q * d == minus;
    if q >= 0.0 { Signs(-q, d); }
    assert (q + 1.0) * d == minus + d;
    if q < -1.0 { Signs(q + 1.0, d); }
  }

  lemma Signs(x: real, d: real)
    requires d > 0.0
    ensures x < 0.0 ==> x * d < 0.0
    ensures x <= 0.0 ==> x * d <= 0.0
  {
  }

  /** A hue of `sixths` comes back as itself, or a full turn later if it was negative. */
  lemma HueTurns(sixths: real)
    requires -1.0 <= sixths < 6.0
    ensures PyMod1(sixths / 6.0) * 6.0 == if sixths >= 0.0 then sixths else sixths + 6.0
  {
    var x := sixths / 6.0;
    assert x * 6.0 == sixths;
    assert x.Floor == if sixths >= 0.0 then 0 else -1;
  }

  /** The three products the sectors choose from, in terms of the range `d`. */
  lemma Mixes(v: real, d: real, f: real)
    requires v > 0.0
    ensures v * (1.0 - d / v) == v - d
    ensures v * (1.0 - d / v * f) == v - d * f
    ensures v * (1.0 - d / v * (1.0 - f)) == v - d + d * f
  {
    var s := d / v;
    assert v * s == d;
    assert v * (s * f) == (v * s) * f;
    assert v * (s * (1.0 - f)) == (v * s) * (1.0 - f);
  }

  /** The colour `f` of the way through sector `i`, with value `v` and range `d`. */
  function Sector(i: int, f: real, d: real, v: real): Rgb {
    var (p, q, t) := (v - d, v - d * f, v - d + d * f);
    if i == 0 then Rgb(v, t, p) else if i == 1 then Rgb(q, v, p) else if i == 2 then Rgb(p, v, t)
    else if i == 3 then Rgb(p, q, v) else if i == 4 then Rgb(t, p, v) else Rgb(v, p, q)
  }

  lemma DecodeSector(h: Hsv, x: real, i: int, p: real, q: real, t: real)
    requires h.s != 0.0 && h.h * 6.0 == x && Trunc(x) == i && 0 <= i <= 5
    requires h.v * (1.0 - h.s) == p && h.v * (1.0 - h.s * (x - i as real)) == q
    requires h.v * (1.0 - h.s * (1.0 - (x - i as real))) == t
    ensures HsvToRgb(h) == if i == 0 then Rgb(h.v, t, p) else if i == 1 then Rgb(q, h.v, p)
      else if i == 2 then Rgb(p, h.v, t) else if i == 3 then Rgb(p, q, h.v)
      else if i == 4 then Rgb(t, p, h.v) else Rgb(h.v, p, q)
  {
  }

  lemma Decode(x: real, i: int, d: real, v: real)
    requires v > 0.0 && d > 0.0 && 0 <= i <= 5 && i as real <= x < i as real + 1.0
    ensures HsvToRgb(Hsv(x / 6.0, d / v, v)) == Sector(i, x - i as real, d, v)
  {
    var h := Hsv(x / 6.0, d / v, v);
    assert h.s != 0.0 by { Quotient(d, v); }
    assert h.h * 6.0 == x && Trunc(x) == i;
    Mixes(v, d, x - i as real);
    DecodeSector(h, x, i, v - d, v - d * (x - i as real), v - d + d * (x - i as real));
  }

  lemma EncodedHue(c: Rgb, max: real, min: real)
    requires 0.0 <= c.r && 0.0 <= c.g && 0.0 <= c.b
    requires max == Max(Max(c.r, c.g), c.b) && min == Min(Min(c.r, c.g), c.b) && min < max
    requires -1.0 <= Sixths(c, max, max - min) < 6.0
    ensures var x := Sixths(c, max, max - min);
      RgbToHsv(c) == Hsv((if x >= 0.0 then x else x + 6.0) / 6.0, (max - min) / max, max)
  {
    HueTurns(Sixths(c, max, max - min));
  }

  lemma Differences(c: Rgb, max: real, d: real)
    requires d > 0.0
    ensures Sixths(c, max, d) == if c.r == max then (c.g - c.b) / d
      else if c.g == max then 2.0 + (c.b - c.r) / d else 4.0 + (c.r - c.g) / d
  {
    assert (max - c.b) / d - (max - c.g) / d == (c.g - c.b) / d;
    assert (max - c.r) / d - (max - c.b) / d == (c.b - c.r) / d;
    assert (max - c.g) / d - (max - c.r) / d == (c.r - c.g) / d;
  }

  /** The largest channel fixes an even sector; `a` and `b` are the channels the hue leans to and from. */
  ghost predicate Leans(c: Rgb, max: real, min: real, a: real, b: real, base: nat) {
    && max == Max(Max(c.r, c.g), c.b) && min == Min(Min(c.r, c.g), c.b) && min < max
    && match base
       case 0 => c == Rgb(max, a, b)
       case 2 => c == Rgb(b, max, a) && b < max
       case 4 => c == Rgb(a, b, max) && a < max && b < max
       case _ => false
  }

  /** The sixths of a hue, moved a full turn if negative. */
  function Turned(x: real): real { if x >= 0.0 then x else x + 6.0 }

  lemma Forward(c: Rgb, max: real, min: real, a: real, b: real, base: nat) returns (i: int)
    requires Leans(c, max, min, a, b, base) && a >= b
    ensures var x := base as real + (a - b) / (max - min);
      0.0 <= x < 6.0 && 0 <= i <= 5 && i as real <= x < i as real + 1.0 && Sector(i, x - i as real, max - min, max) == c
  {
    Quotient(a - b, max - min);
    i := if a - b < max - min then base else base + 1;
  }

  lemma Backward(c: Rgb, max: real, min: real, a: real, b: real, base: nat) returns (i: int)
    requires Leans(c, max, min, a, b, base) && a < b
    ensures var x := base as real + (a - b) / (max - min);
      && -1.0 <= x < 6.0 && 0 <= i <= 5 && i as real <= Turned(x) < i as real + 1.0
      && Sector(i, Turned(x) - i as real, max - min, max) == c
  {
    i := if base == 0 then 5 else base - 1;
    Deficit(b - a, a - b, max - min);
    var f := 1.0 + (a - b) / (max - min);
    assert Turned(base as real + (a - b) / (max - min)) - i as real == f;
    assert Sector(i, f, max - min, max) == c;
  }

  /** Decoding an encoded colour gives it back: all sectors, their boundaries, greys and wrapped hues. */
  lemma RoundTrip(c: Rgb)
    requires 0.0 <= c.r && 0.0 <= c.g && 0.0 <= c.b
    ensures HsvToRgb(RgbToHsv(c)) == c
  {
    var (max, min) := (Max(Max(c.r, c.g), c.b), Min(Min(c.r, c.g), c.b));
    if min < max {
      Differences(c, max, max - min);
      if c.r == max {
        RoundTripFrom(c, max, min, c.g, c.b, 0);
      } else if c.g == max {
        RoundTripFrom(c, max, min, c.b, c.r, 2);
      } else {
        RoundTripFrom(c, max, min, c.r, c.g, 4);
      }
    }
  }

  lemma RoundTripFrom(c: Rgb, max: real, min: real, a: real, b: real, base: nat)
    requires 0.0 <= c.r && 0.0 <= c.g && 0.0 <= c.b && Leans(c, max, min, a, b, base)
    requires Sixths(c, max, max - min) == base as real + (a - b) / (max - min)
    ensures HsvToRgb(RgbToHsv(c)) == c
  {
    var i;
    if a >= b {
      i := Forward(c, max, min, a, b, base);
    } else {
      i := Backward(c, max, min, a, b, base);
    }
    EncodedHue(c, max, min);
    Decode(Turned(Sixths(c, max, max - min)), i, max - min, max);
  }
}
