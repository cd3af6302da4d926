/** The colour pipeline: from the pixels of a sample to picks, and from picks to a rendered palette. */
module Palette {
  import opened Types
  import opened BoxSplit
  import opened Hsv
  import opened Pick
  import opened PixelCounts
  import opened Quantize
  import opened Reals
  import opened Tone
  import W = WorkerSpec
  import R = WorkerRefinement

  const QUANTIZE_COLORS: nat := 16
  const DEFAULT_ACCENT: string := "#a48ec7"

  // ----- the histogram of a sample -----

  /** A colour with channels from 0 to 1. */
  function Unit(c: Color): Rgb {
    Rgb(c.r as real / 255.0, c.g as real / 255.0, c.b as real / 255.0)
  }

  /** A byte is its part of 255. */
  lemma UnitScales(c: Color)
    ensures var u := Unit(c);
      u.r * 255.0 == c.r as real && u.g * 255.0 == c.g as real && u.b * 255.0 == c.b as real
  {
  }

  /** The histogram lists the used palette entries: how often, and in which colour, recoverable from its HSV. */
  ghost predicate Lists(hist: seq<HistEntry>, used: seq<(nat, nat)>, palette: seq<Color>) {
    && |hist| == |used|
    && (forall k :: 0 <= k < |used| ==> used[k].1 < |palette|)
    && (forall k :: 0 <= k < |used| ==>
          && hist[k].count == used[k].0 && hist[k].hsv == RgbToHsv(Unit(palette[used[k].1]))
          && HsvToRgb(hist[k].hsv) == Unit(palette[used[k].1]))
  }

  lemma {:induction false} ListedTotal(hist: seq<HistEntry>, used: seq<(nat, nat)>)
    requires |hist| == |used| && forall k :: 0 <= k < |used| ==> hist[k].count == used[k].0
    ensures Pick.Total(hist) == SumCounts(used)
  {
    if |used| > 0 {
      ListedTotal(hist[..|hist| - 1], used[..|used| - 1]);
    }
  }

  /** `colour` is in the histogram. */
  ghost predicate Represented(hist: seq<HistEntry>, colour: Rgb) {
    exists k :: 0 <= k < |hist| && HsvToRgb(hist[k].hsv) == colour
  }

  /** What lies behind a histogram: the quantized sample, its boxes, and the entries in use. */
  datatype Sampled = Sampled(q: Quantized, entries: seq<Entry>, boxes: seq<BoxNode>, boxOf: map<nat, nat>,
                             used: seq<(nat, nat)>)

  /** The histogram of a quantized sample: every pixel is counted once, at its entry. */
  ghost predicate HistogramFrom(hist: seq<HistEntry>, pixels: seq<Color>, hash: Color -> nat, s: Sampled) {
    && QuantizedFrom(s.q, pixels, QUANTIZE_COLORS, hash, s.entries, s.boxes, s.boxOf)
    && Usage(s.used, s.q.indices, |s.q.palette|) && Lists(hist, s.used, s.q.palette)
    && Pick.Total(hist) == |pixels| && hist != []
  }

  method HistogramOfSample(pixels: seq<Color>, hash: Color -> nat)
    returns (hist: Option<seq<HistEntry>>, ghost s: Sampled)
    ensures hist.Some? && pixels == [] ==> hist.value == []
    ensures hist.Some? && pixels != [] ==> HistogramFrom(hist.value, pixels, hash, s)
    ensures |ColorSet(pixels)| <= MAX_HASH_ENTRIES ==> hist.Some?
  {
    var q, entries, boxes, boxOf := Quantize.Quantize(pixels, QUANTIZE_COLORS, hash);
    s := Sampled(Quantized([], []), [], [], map[], []);
    if pixels != [] {
      EntriesAreColors(pixels, hash, entries);
    }
    if q.None? {
      return None, s;
    }
    if pixels == [] {
      return Some([]), s;
    }
    NearestInPalette(q.value, pixels, hash, entries, boxes, boxOf);
    var used := Colors(q.value);
    var list := Convert(used, q.value.palette);
    ListedTotal(list, used);
    hist, s := Some(list), Sampled(q.value, entries, boxes, boxOf, used);
  }

  /** An image of few colours keeps all of them exactly. */
  lemma FewColorsAreKept(hist: seq<HistEntry>, pixels: seq<Color>, hash: Color -> nat, s: Sampled)
    requires HistogramFrom(hist, pixels, hash, s)
    requires |ColorSet(pixels)| <= QUANTIZE_COLORS && NoCollision(pixels, hash)
    ensures forall i :: 0 <= i < |pixels| ==> Represented(hist, Unit(pixels[i]))
  {
    NearestInPalette(s.q, pixels, hash, s.entries, s.boxes, s.boxOf);
    Lossless(s.q, pixels, QUANTIZE_COLORS, hash, s.entries, s.boxes, s.boxOf);
    forall i | 0 <= i < |pixels| ensures Represented(hist, Unit(pixels[i])) {
      assert IsShownAs(s.q, i, pixels[i]);
      UsedIsRepresented(s.q, s.used, hist, i);
    }
  }

  lemma NearestInPalette(q: Quantized, pixels: seq<Color>, hash: Color -> nat,
                         entries: seq<Entry>, boxes: seq<BoxNode>, boxOf: map<nat, nat>)
    requires QuantizedFrom(q, pixels, QUANTIZE_COLORS, hash, entries, boxes, boxOf)
    ensures |q.indices| == |pixels| && forall k :: 0 <= k < |q.indices| ==> q.indices[k] < |q.palette|
  {
    forall k | 0 <= k < |q.indices| ensures q.indices[k] < |q.palette| {
      assert NearestOwn(q.palette, pixels[k], hash, boxOf, q.indices[k]);
    }
  }

  lemma {:induction false} Occurs(indices: seq<Byte>, i: nat)
    requires i < |indices|
    ensures Occurrences(indices, indices[i]) > 0
  {
    if i < |indices| - 1 {
      Occurs(indices[..|indices| - 1], i);
    }
  }

  lemma UsedIsRepresented(q: Quantized, used: seq<(nat, nat)>, hist: seq<HistEntry>, i: nat)
    requires Usage(used, q.indices, |q.palette|) && Lists(hist, used, q.palette)
    requires i < |q.indices| && q.indices[i] < |q.palette|
    ensures Represented(hist, Unit(q.palette[q.indices[i]]))
  {
    Occurs(q.indices, i);
    assert Mentions(used, q.indices[i]);
    var k :| 0 <= k < |used| && used[k].1 == q.indices[i];
    assert HsvToRgb(hist[k].hsv) == Unit(q.palette[q.indices[i]]);
  }

  method Convert(used: seq<(nat, nat)>, palette: seq<Color>) returns (hist: seq<HistEntry>)
    requires forall k :: 0 <= k < |used| ==> used[k].1 < |palette|
    ensures Lists(hist, used, palette)
  {
    hist := [];
    for i := 0 to |used|
      invariant Lists(hist, used[..i], palette)
    {
      var color := Unit(palette[used[i].1]);
      RoundTrip(color);
      hist := hist + [HistEntry(used[i].0, RgbToHsv(color))];
    }
    assert used[..|used|] == used;
  }

  // ----- rendering -----

  /** Picks as selection returns them: three, the first `n` real and the rest repeating the last real one. */
  ghost predicate Padded(picks: seq<Lch>, n: nat) {
    |picks| == 3 && 1 <= n <= 3 && forall a :: n <= a < 3 ==> picks[a] == picks[n - 1]
  }

  /**
   * A slot shows its pick's hue and source chroma at a lightness inside the mode's envelope and
   * no farther than the separation allowance from where toning put it.
   */
  ghost predicate Shows(g: Gamut, anchor: real, mode: Mode, slot: Toned, pick: Lch) {
    && InEnvelope(slot, mode) && slot.h == pick.h && slot.cSrc == pick.c
    && Abs(slot.l - ToneSlot(g, anchor, mode, pick).l) <= MAX_SEPARATION_SHIFT
  }

  method RenderSlots(g: Gamut, picks: seq<Lch>, n: nat, mode: Mode)
    returns (slots: seq<Toned>, result: SeparationResult)
    requires Padded(picks, n)
    ensures |slots| == 3 && forall i :: 0 <= i < 3 ==> Shows(g, Anchor(picks), mode, slots[i], picks[i])
    ensures n == 1 ==> slots[0] == slots[1] == slots[2]
    ensures n >= 2 ==> (result.resolved <==> forall a, b :: 0 <= a < b < n ==> De(g, slots[a], slots[b]) >= MIN_DE)
  {
    var toned := ToneAll(g, picks, mode);
    ghost var order, rank, budget, path, passes;
    slots, result, order, rank, budget, path, passes := Separate(g, toned, mode, n);
    var anchor := Anchor(picks);
    forall i | 0 <= i < 3 ensures Shows(g, anchor, mode, slots[i], picks[i]) {
      ToningKeeps(g, anchor, mode, picks[i], picks[i]);
      if n >= 2 {
        SeparatedSlot(g, toned, n, mode, slots, result, order, rank, budget, path, passes, if i < n then i else n - 1);
      }
    }
    if n >= 2 {
      assert forall a :: 0 <= a < n ==> slots[..n][a] == slots[a];
    }
  }

  lemma SeparatedSlot(g: Gamut, toned: seq<Toned>, n: nat, mode: Mode, slots: seq<Toned>, result: SeparationResult,
                      order: seq<nat>, rank: seq<nat>, budget: seq<real>, path: seq<real>, passes: seq<State>,
                      i: nat)
    requires Separated(g, toned, n, mode, slots, result, order, rank, budget, path, passes) && i < n
    ensures forall a :: n <= a < |slots| ==> slots[a] == slots[n - 1]
    ensures slots[i].h == toned[i].h && slots[i].cSrc == toned[i].cSrc
    ensures Abs(slots[i].l - toned[i].l) <= MAX_SEPARATION_SHIFT
    ensures InEnvelope(toned[i], mode) ==> InEnvelope(slots[i], mode)
  {
    assert Moved(toned[..n][i], slots[..n][i], path[i], mode);
  }

  /** The rendered hex colours, or the default accent for a cover without usable colours. */
  method RenderPalette(g: Gamut, hex: (real, real, real) -> string, picks: seq<Lch>, n: nat, mode: Mode)
    returns (colors: W.Colors, ghost slots: seq<Toned>)
    requires picks == [] || Padded(picks, n)
    ensures picks == [] ==> colors == (DEFAULT_ACCENT, DEFAULT_ACCENT, DEFAULT_ACCENT)
    ensures picks != [] ==>
      && |slots| == 3 && (forall i :: 0 <= i < 3 ==> Shows(g, Anchor(picks), mode, slots[i], picks[i]))
      && colors == (Hex(g, hex, slots[0]), Hex(g, hex, slots[1]), Hex(g, hex, slots[2]))
  {
    if picks == [] {
      return (DEFAULT_ACCENT, DEFAULT_ACCENT, DEFAULT_ACCENT), [];
    }
    var out, result := RenderSlots(g, picks, n, mode);
    slots := out;
    colors := (Hex(g, hex, out[0]), Hex(g, hex, out[1]), Hex(g, hex, out[2]));
  }

  /** What is rendered is what separation measures: the slot's lightness and hue, at the chroma derived for them. */
  lemma RenderedIsMeasured(g: Gamut, hex: (real, real, real) -> string, t: Toned)
    requires 0.0 <= g.maxChroma(t.l, t.h)
    ensures exists c: real ::
      && Hex(g, hex, t) == hex(t.l, c, t.h) && LabOf(g, t) == g.toLab(t.l, c, t.h)
      && c <= g.maxChroma(t.l, t.h) && (t.cSrc < 0.02 ==> c <= t.cSrc)
      && (t.cSrc >= 0.02 ==> c >= 0.85 * g.maxChroma(t.l, t.h) && (c >= t.cSrc || c == g.maxChroma(t.l, t.h)))
  {
    var c := ChromaFor(g, t.l, t.h, t.cSrc);
    assert Hex(g, hex, t) == hex(t.l, c, t.h);
  }

  function Hex(g: Gamut, hex: (real, real, real) -> string, t: Toned): string {
    hex(t.l, ChromaFor(g, t.l, t.h, t.cSrc), t.h)
  }

  // ----- the one-slot memo -----

  type Picks = (seq<Lch>, nat)

  /** The uncached extraction, when selection depends on the content only. */
  function Uncached(picksOf: W.ContentId -> Picks, render: (Picks, Mode) -> W.Colors): R.Extraction {
    (content, mode) => render(picksOf(content), mode)
  }

  class PaletteMemo {
    const render: (Picks, Mode) -> W.Colors
    var slot: Option<(W.ContentId, Picks)>
    /** A history: how many times selection has been run. */
    ghost var selections: nat

    constructor (render: (Picks, Mode) -> W.Colors)
      ensures this.render == render && slot == None && selections == 0
    {
      this.render, slot, selections := render, None, 0;
    }

    /** The slot holds what selection gives for its key. */
    ghost predicate Valid(picksOf: W.ContentId -> Picks)
      reads this
    {
      slot.Some? ==> slot.value.1 == picksOf(slot.value.0)
    }

    /**
     * One extraction. `select` is what selecting from the file gives now, `None` if it panics.
     * The answer is the uncached one; selection runs exactly when the slot holds other content,
     * and a panic leaves the slot as it was.
     */
    method Get(ghost picksOf: W.ContentId -> Picks, select: Option<Picks>, mode: Mode, content: W.ContentId)
      returns (colors: Option<W.Colors>)
      requires Valid(picksOf) && (select.Some? ==> select.value == picksOf(content))
      modifies this
      ensures Valid(picksOf)
      ensures var hit := old(slot).Some? && old(slot).value.0 == content;
        && selections == old(selections) + (if hit then 0 else 1)
        && (colors.None? <==> !hit && select.None?)
        && slot == (if colors.None? then old(slot) else Some((content, picksOf(content))))
      ensures colors.Some? ==> colors.value == Uncached(picksOf, render)(content, mode)
    {
      if slot.None? || slot.value.0 != content {
        selections := selections + 1;
        if select.None? {
          return None;
        }
        slot := Some((content, select.value));
      }
      colors := Some(render(slot.value.1, mode));
    }

    /** A run of extractions gives what uncached extractions give; flipping the mode never selects again. */
    method GetAll(ghost picksOf: W.ContentId -> Picks, requests: seq<(Picks, Mode, W.ContentId)>)
      returns (all: seq<W.Colors>)
      requires Valid(picksOf) && forall i :: 0 <= i < |requests| ==> requests[i].0 == picksOf(requests[i].2)
      modifies this
      ensures Valid(picksOf) && |all| == |requests|
      ensures forall i :: 0 <= i < |requests| ==> all[i] == Uncached(picksOf, render)(requests[i].2, requests[i].1)
      ensures slot.Some? || requests == []
      ensures (forall i :: 0 <= i < |requests| ==> requests[i].2 == requests[0].2) ==> selections <= old(selections) + 1
    {
      all := [];
      for i := 0 to |requests|
        invariant Valid(picksOf) && |all| == i
        invariant forall k :: 0 <= k < i ==> all[k] == Uncached(picksOf, render)(requests[k].2, requests[k].1)
        invariant i > 0 ==> slot.Some? && slot.value.0 == requests[i - 1].2
        invariant (forall k :: 0 <= k < |requests| ==> requests[k].2 == requests[0].2) ==>
          selections <= old(selections) + (if i > 0 then 1 else 0)
      {
        var colors := Get(picksOf, Some(requests[i].0), requests[i].1, requests[i].2);
        all := all + [colors.value];
      }
    }
  }
}
