/** The uncached extraction: histogram, selection and rendering in one, for a decoded sample. */
module Extraction {
  import opened Types
  import opened BoxSplit
  import opened Determined
  import opened Pick
  import opened PixelCounts
  import opened Quantize
  import opened Tone
  import opened Palette
  import Vibrancy
  import W = WorkerSpec

  /** What an extraction went through. */
  datatype Passed = Passed(sampled: Sampled, hist: seq<HistEntry>, ranking: seq<nat>, chosen: seq<nat>,
                           picks: seq<Lch>, n: nat, slots: seq<Toned>)

  /** The colours are those of three slots, rendered for the greedy picks from the sample's histogram. */
  ghost predicate ExtractedFrom(pixels: seq<Color>, hash: Color -> nat, t: Transforms, g: Gamut,
                                hex: (real, real, real) -> string, mode: Mode, colors: W.Colors, x: Passed) {
    && HistogramFrom(x.hist, pixels, hash, x.sampled)
    && Selected(x.hist, t, x.picks, x.n, x.ranking, x.chosen)
    && |x.slots| == 3 && (forall i :: 0 <= i < 3 ==> Shows(g, Anchor(x.picks), mode, x.slots[i], x.picks[i]))
    && colors == (Hex(g, hex, x.slots[0]), Hex(g, hex, x.slots[1]), Hex(g, hex, x.slots[2]))
  }

  /** A real pick is the colour of an entry that pixels have: the mean of a box. */
  ghost predicate IsUsedMean(pick: Lch, t: Transforms, q: Quantized, b: nat) {
    b < |q.palette| && Occurrences(q.indices, b) > 0 && pick == t.toLch(Unit(q.palette[b]))
  }

  ghost predicate ComesFromEntry(pick: Lch, t: Transforms, q: Quantized) {
    exists b: nat :: IsUsedMean(pick, t, q, b)
  }

  /** A real pick is the colour of a pixel. */
  ghost predicate ComesFromPixel(pick: Lch, t: Transforms, pixels: seq<Color>) {
    exists i :: 0 <= i < |pixels| && pick == t.toLch(Unit(pixels[i]))
  }

  lemma PickIsMean(pixels: seq<Color>, hash: Color -> nat, t: Transforms, x: Passed, a: nat) returns (b: nat)
    requires HistogramFrom(x.hist, pixels, hash, x.sampled)
    requires Selected(x.hist, t, x.picks, x.n, x.ranking, x.chosen) && a < x.n
    ensures IsUsedMean(x.picks[a], t, x.sampled.q, b)
  {
    var k := x.ranking[x.chosen[a]];
    b := x.sampled.used[k].1;
    assert x.picks[a] == Candidate(x.hist, x.ranking, t, x.chosen[a]);
  }

  lemma {:induction false} OccurringAt(indices: seq<Byte>, b: nat) returns (i: nat)
    requires Occurrences(indices, b) > 0
    ensures i < |indices| && indices[i] == b
  {
    var n := |indices| - 1;
    if indices[n] == b { i := n; } else { i := OccurringAt(indices[..n], b); }
  }

  /** With few colours an entry that pixels have is the colour of each of them. */
  lemma MeanIsPixel(pixels: seq<Color>, hash: Color -> nat, s: Sampled, b: nat) returns (i: nat)
    requires QuantizedFrom(s.q, pixels, QUANTIZE_COLORS, hash, s.entries, s.boxes, s.boxOf)
    requires |ColorSet(pixels)| <= QUANTIZE_COLORS && NoCollision(pixels, hash)
    requires b < |s.q.palette| && Occurrences(s.q.indices, b) > 0
    ensures i < |pixels| && s.q.palette[b] == pixels[i]
  {
    Lossless(s.q, pixels, QUANTIZE_COLORS, hash, s.entries, s.boxes, s.boxOf);
    i := OccurringAt(s.q.indices, b);
    assert IsShownAs(s.q, i, pixels[i]);
  }

  lemma {:induction false} NoMoreColorsThanPixels(pixels: seq<Color>)
    ensures |ColorSet(pixels)| <= |pixels|
  {
    if |pixels| > 0 {
      var rest := pixels[..|pixels| - 1];
      NoMoreColorsThanPixels(rest);
      assert ColorSet(pixels) == ColorSet(rest) + {pixels[|pixels| - 1]};
    }
  }

  /**
   * The three colours for a sample. No sample of up to 65536 pixels is refused, and one without
   * pixels gives the default accent. Otherwise the real picks are means of the sample's median
   * cut, or with at most sixteen colours actual pixels, and every rendered slot keeps its pick's
   * hue and source chroma inside the mode's envelope.
   */
  method ExtractColors(pixels: seq<Color>, hash: Color -> nat, t: Transforms, g: Gamut,
                       hex: (real, real, real) -> string, mode: Mode)
    returns (colors: Option<W.Colors>, ghost x: Passed)
    ensures |pixels| <= MAX_HASH_ENTRIES ==> colors.Some?
    ensures colors.Some? && pixels == [] ==> colors.value == (DEFAULT_ACCENT, DEFAULT_ACCENT, DEFAULT_ACCENT)
    ensures colors.Some? && pixels != [] ==>
      && ExtractedFrom(pixels, hash, t, g, hex, mode, colors.value, x)
      && (forall a :: 0 <= a < x.n ==> ComesFromEntry(x.picks[a], t, x.sampled.q))
      && (|ColorSet(pixels)| <= QUANTIZE_COLORS && NoCollision(pixels, hash) ==>
            forall a :: 0 <= a < x.n ==> ComesFromPixel(x.picks[a], t, pixels))
  {
    NoMoreColorsThanPixels(pixels);
    var hist, s := HistogramOfSample(pixels, hash);
    x := Passed(s, [], [], [], [], 0, []);
    if hist.None? {
      return None, x;
    }
    var picks, n, ranking, chosen := Pick.Select(hist.value, t);
    var rendered, slots := RenderPalette(g, hex, picks, n, mode);
    colors, x := Some(rendered), Passed(s, hist.value, ranking, chosen, picks, n, slots);
    if pixels != [] {
      PicksComeFrom(pixels, hash, t, x);
    }
  }

  lemma PicksComeFrom(pixels: seq<Color>, hash: Color -> nat, t: Transforms, x: Passed)
    requires HistogramFrom(x.hist, pixels, hash, x.sampled)
    requires Selected(x.hist, t, x.picks, x.n, x.ranking, x.chosen)
    ensures forall a :: 0 <= a < x.n ==> ComesFromEntry(x.picks[a], t, x.sampled.q)
    ensures |ColorSet(pixels)| <= QUANTIZE_COLORS && NoCollision(pixels, hash) ==>
      forall a :: 0 <= a < x.n ==> ComesFromPixel(x.picks[a], t, pixels)
  {
    forall a | 0 <= a < x.n
      ensures ComesFromEntry(x.picks[a], t, x.sampled.q)
      ensures |ColorSet(pixels)| <= QUANTIZE_COLORS && NoCollision(pixels, hash) ==>
        ComesFromPixel(x.picks[a], t, pixels)
    {
      var b := PickIsMean(pixels, hash, t, x, a);
      if |ColorSet(pixels)| <= QUANTIZE_COLORS && NoCollision(pixels, hash) {
        var i := MeanIsPixel(pixels, hash, x.sampled, b);
      }
    }
  }

  // ----- selection is a function of the pixels -----

  /** Every histogram of a sample is one that the laws of the ranking are about. */
  lemma SampleIsUnit(hist: seq<HistEntry>, pixels: seq<Color>, hash: Color -> nat, s: Sampled)
    requires HistogramFrom(hist, pixels, hash, s)
    ensures Vibrancy.UnitHist(hist)
  {
    forall k | 0 <= k < |hist| ensures Vibrancy.UnitHsv(hist[k]) {
      Vibrancy.EncodedIsUnit(Unit(s.q.palette[s.used[k].1]));
    }
  }

  lemma ListsIsUnique(a: seq<HistEntry>, b: seq<HistEntry>, used: seq<(nat, nat)>, palette: seq<Color>)
    requires Lists(a, used, palette) && Lists(b, used, palette)
    ensures a == b
  {
    assert forall k :: 0 <= k < |a| ==> a[k] == b[k];
  }

  lemma HistogramIsDetermined(pixels: seq<Color>, hash: Color -> nat, a: seq<HistEntry>, s: Sampled,
                              b: seq<HistEntry>, t: Sampled)
    requires HistogramFrom(a, pixels, hash, s) && HistogramFrom(b, pixels, hash, t)
    ensures a == b
  {
    ResultIsDetermined(pixels, QUANTIZE_COLORS, hash, s.q, s.entries, s.boxes, s.boxOf,
                       t.q, t.entries, t.boxes, t.boxOf);
    UsageIsUnique(s.used, t.used, s.q.indices, |s.q.palette|);
    ListsIsUnique(a, b, s.used, s.q.palette);
  }

  lemma PaddedAlike(x: seq<Lch>, y: seq<Lch>, n: nat)
    requires |x| == |y| == 3 && 1 <= n <= 3 && forall a :: 0 <= a < n ==> x[a] == y[a]
    requires forall a :: n <= a < 3 ==> x[a] == x[n - 1] && y[a] == y[n - 1]
    ensures x == y
  {
    assert x[0] == y[0] && x[1] == y[1] && x[2] == y[2];
  }

  lemma SelectionOfHistogram(hist: seq<HistEntry>, t: Transforms, x: seq<Lch>, n: nat, r: seq<nat>, c: seq<nat>,
                             y: seq<Lch>, m: nat, r': seq<nat>, c': seq<nat>)
    requires Selected(hist, t, x, n, r, c) && Selected(hist, t, y, m, r', c')
    ensures x == y && n == m
  {
    assert r == r' by {
      RankingIsUnique(hist, r, r', |r|);
      assert r[..|r|] == r && r'[..|r'|] == r';
    }
    assert c == c' by {
      PicksAreUnique(Candidates(hist, r, t), t, c, c', |c|);
      PicksAreUnique(Candidates(hist, r, t), t, c', c, |c'|);
      assert c[..|c|] == c && c'[..|c'|] == c';
    }
    PaddedAlike(x, y, n);
  }

  /**
   * Two selections from the same pixels pick the same colours, as many of them real: what the memo
   * keeps for a content depends on the pixels of that content alone.
   */
  lemma SelectionIsDetermined(pixels: seq<Color>, hash: Color -> nat, t: Transforms, x: Passed, y: Passed)
    requires HistogramFrom(x.hist, pixels, hash, x.sampled) && HistogramFrom(y.hist, pixels, hash, y.sampled)
    requires Selected(x.hist, t, x.picks, x.n, x.ranking, x.chosen)
    requires Selected(y.hist, t, y.picks, y.n, y.ranking, y.chosen)
    ensures x.picks == y.picks && x.n == y.n
  {
    HistogramIsDetermined(pixels, hash, x.hist, x.sampled, y.hist, y.sampled);
    SelectionOfHistogram(x.hist, t, x.picks, x.n, x.ranking, x.chosen, y.picks, y.n, y.ranking, y.chosen);
  }
}
