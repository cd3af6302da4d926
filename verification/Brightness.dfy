/** How bright a cover is rendered: the cross-cover curve between the bounds of a mode. */
module Brightness {
  import opened Types
  import opened Pick
  import opened Reals
  import opened Tone

  /** A power function on bases that are not negative: strictly increasing, from 0 at 0 to 1 at 1. */
  ghost predicate IsPower(power: (real, real) -> real, y: real) {
    && power(0.0, y) == 0.0 && power(1.0, y) == 1.0
    && forall a, b :: 0.0 <= a < b ==> power(a, y) < power(b, y)
  }

  /** Raising to a power of at most one moves bases up to one up, to a power of at least one down. */
  ghost predicate BendsAsPower(power: (real, real) -> real) {
    forall x, y :: 0.0 <= x <= 1.0 && y > 0.0 ==>
      (y <= 1.0 ==> power(x, y) >= x) && (y >= 1.0 ==> power(x, y) <= x)
  }

  // ----- covers of one lightness -----

  /** All slots have lightness `x`. */
  ghost predicate OneLightness(source: seq<Lch>, x: real) {
    |source| > 0 && forall i :: 0 <= i < |source| ==> source[i].l == x
  }

  lemma {:induction false} SameSum(source: seq<Lch>, x: real)
    requires forall i :: 0 <= i < |source| ==> source[i].l == x
    ensures SumL(source) == |source| as real * x
  {
    if |source| > 0 {
      SameSum(source[..|source| - 1], x);
      assert |source| as real * x == (|source| - 1) as real * x + x;
    }
  }

  lemma OneAnchor(source: seq<Lch>, x: real)
    requires OneLightness(source, x)
    ensures Anchor(source) == x
  {
    SameSum(source, x);
    Cancels(|source| as real, x);
  }

  lemma Cancels(n: real, x: real)
    requires n > 0.0
    ensures n * x / n == x
  {
  }

  /** The lightness at which every slot of such a cover is toned. */
  function Level(g: Gamut, mode: Mode, x: real): real {
    ToneSlot(g, x, mode, Lch(x, 0.0, 0.0)).l
  }

  lemma LevelOfAll(g: Gamut, source: seq<Lch>, mode: Mode, x: real)
    requires OneLightness(source, x)
    ensures forall i :: 0 <= i < |source| ==> ToneSlot(g, Anchor(source), mode, source[i]).l == Level(g, mode, x)
  {
    OneAnchor(source, x);
  }

  lemma PowerInUnit(power: (real, real) -> real, y: real, x: real)
    requires IsPower(power, y) && 0.0 <= x <= 1.0
    ensures 0.0 <= power(x, y) <= 1.0
    ensures (x > 0.0 ==> power(x, y) > 0.0) && (x < 1.0 ==> power(x, y) < 1.0)
  {
    if x > 0.0 { assert power(0.0, y) < power(x, y); }
    if x < 1.0 { assert power(x, y) < power(1.0, y); }
  }

  /** A point between the bounds of a mode, `p` of the way up. */
  function Between(mode: Mode, p: real): real { if mode.Dark? then 0.15 + 0.4 * p else 0.55 + 0.37 * p }

  lemma LevelBetween(g: Gamut, mode: Mode, x: real)
    requires IsPower(g.power, Gamma(mode)) && 0.0 <= x <= 1.0
    ensures Level(g, mode, x) == Between(mode, g.power(x, Gamma(mode)))
  {
    PowerInUnit(g.power, Gamma(mode), x);
  }

  /** Black covers are toned at the lower bound of the mode, white ones at the upper bound. */
  lemma ExtremesMeetBounds(g: Gamut, mode: Mode)
    requires IsPower(g.power, Gamma(mode))
    ensures Level(g, mode, 0.0) == EnvelopeLo(mode) && Level(g, mode, 1.0) == EnvelopeHi(mode)
  {
    LevelBetween(g, mode, 0.0);
    LevelBetween(g, mode, 1.0);
  }

  /** A brighter cover is toned strictly brighter. */
  lemma BrighterIsBrighter(g: Gamut, mode: Mode, x: real, y: real)
    requires IsPower(g.power, Gamma(mode)) && 0.0 <= x < y <= 1.0
    ensures Level(g, mode, x) < Level(g, mode, y)
  {
    LevelBetween(g, mode, x);
    LevelBetween(g, mode, y);
    assert g.power(x, Gamma(mode)) < g.power(y, Gamma(mode));
  }

  /** Against the straight line between its bounds, the dark mode lifts and the light mode lowers. */
  lemma ModesBendApart(g: Gamut, x: real)
    requires IsPower(g.power, Gamma(Dark)) && IsPower(g.power, Gamma(Light)) && BendsAsPower(g.power)
    requires 0.0 <= x <= 1.0
    ensures Level(g, Dark, x) >= EnvelopeLo(Dark) + (EnvelopeHi(Dark) - EnvelopeLo(Dark)) * x
    ensures Level(g, Light, x) <= EnvelopeLo(Light) + (EnvelopeHi(Light) - EnvelopeLo(Light)) * x
  {
    LevelBetween(g, Dark, x);
    LevelBetween(g, Light, x);
    var (p, q) := (g.power(x, Gamma(Dark)), g.power(x, Gamma(Light)));
    assert p >= x && q <= x;
  }

  // ----- any cover -----

  /** Toning does not clamp this slot. */
  predicate Unclamped(g: Gamut, anchor: real, mode: Mode, pick: Lch) {
    EnvelopeLo(mode) < ToneSlot(g, anchor, mode, pick).l < EnvelopeHi(mode)
  }

  ghost predicate NothingClamped(g: Gamut, source: seq<Lch>, mode: Mode) {
    |source| > 0 && forall i :: 0 <= i < |source| ==> Unclamped(g, Anchor(source), mode, source[i])
  }

  function SumToned(slots: seq<Toned>): real {
    if |slots| == 0 then 0.0 else SumToned(slots[..|slots| - 1]) + slots[|slots| - 1].l
  }

  /** The mean lightness of the toned slots. */
  function MeanToned(slots: seq<Toned>): real
    requires |slots| > 0
  {
    SumToned(slots) / |slots| as real
  }

  /** What toning gives. */
  ghost predicate TonedFrom(g: Gamut, source: seq<Lch>, mode: Mode, slots: seq<Toned>) {
    |source| > 0 && |slots| == |source|
    && forall i :: 0 <= i < |source| ==> slots[i] == ToneSlot(g, Anchor(source), mode, source[i])
  }

  lemma {:induction false} ShiftedSum(source: seq<Lch>, slots: seq<Toned>, shift: real)
    requires |slots| == |source| && forall i :: 0 <= i < |source| ==> slots[i].l == source[i].l + shift
    ensures SumToned(slots) == SumL(source) + |source| as real * shift
  {
    if |source| > 0 {
      var n := |source| - 1;
      ShiftedSum(source[..n], slots[..n], shift);
      assert |source| as real * shift == n as real * shift + shift;
    }
  }

  lemma ShiftedMean(sum: real, n: real, anchor: real, shift: real)
    requires n > 0.0 && sum / n == anchor
    ensures (sum + n * shift) / n == anchor + shift
  {
    assert (sum + n * shift) / n == sum / n + n * shift / n;
    Cancels(n, shift);
  }

  lemma MeanMoves(source: seq<Lch>, slots: seq<Toned>, shift: real)
    requires |slots| == |source| > 0 && forall i :: 0 <= i < |source| ==> slots[i].l == source[i].l + shift
    ensures MeanToned(slots) == Anchor(source) + shift
  {
    ShiftedSum(source, slots, shift);
    ShiftedMean(SumL(source), |source| as real, Anchor(source), shift);
  }

  /** Within a cover, slots keep their offsets from the mean as far as the bounds allow. */
  lemma OffsetsAreKept(g: Gamut, mode: Mode, anchor: real, pick: Lch)
    requires IsPower(g.power, Gamma(mode)) && 0.0 <= anchor <= 1.0
    ensures ToneSlot(g, anchor, mode, pick).l ==
      Clamp(Level(g, mode, anchor) + (pick.l - anchor), EnvelopeLo(mode), EnvelopeHi(mode))
  {
    LevelBetween(g, mode, anchor);
  }

  /**
   * If nothing is clamped, toning moves the mean of the cover to where a cover of one lightness
   * with that mean would be: the mean alone decides it.
   */
  lemma MeanIsCurved(g: Gamut, source: seq<Lch>, mode: Mode, slots: seq<Toned>)
    requires IsPower(g.power, Gamma(mode)) && TonedFrom(g, source, mode, slots) && NothingClamped(g, source, mode)
    requires 0.0 <= Anchor(source) <= 1.0
    ensures MeanToned(slots) == Level(g, mode, Anchor(source))
  {
    var anchor := Anchor(source);
    var shift := Level(g, mode, anchor) - anchor;
    forall i | 0 <= i < |source| ensures slots[i].l == source[i].l + shift {
      assert Unclamped(g, anchor, mode, source[i]);
      OffsetsAreKept(g, mode, anchor, source[i]);
    }
    MeanMoves(source, slots, shift);
  }

  /** A cover with the brighter mean is toned to the brighter mean, and equal means to equal ones. */
  lemma MeansKeepOrder(g: Gamut, mode: Mode, a: seq<Lch>, b: seq<Lch>, x: seq<Toned>, y: seq<Toned>)
    requires IsPower(g.power, Gamma(mode))
    requires TonedFrom(g, a, mode, x) && NothingClamped(g, a, mode) && 0.0 <= Anchor(a) <= 1.0
    requires TonedFrom(g, b, mode, y) && NothingClamped(g, b, mode) && 0.0 <= Anchor(b) <= 1.0
    ensures Anchor(a) < Anchor(b) <==> MeanToned(x) < MeanToned(y)
    ensures Anchor(a) == Anchor(b) <==> MeanToned(x) == MeanToned(y)
  {
    MeanIsCurved(g, a, mode, x);
    MeanIsCurved(g, b, mode, y);
    if Anchor(a) < Anchor(b) { BrighterIsBrighter(g, mode, Anchor(a), Anchor(b)); }
    if Anchor(b) < Anchor(a) { BrighterIsBrighter(g, mode, Anchor(b), Anchor(a)); }
  }
}
