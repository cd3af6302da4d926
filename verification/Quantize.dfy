/** Colour quantization: histogram, median cut, numbering, means and the nearest entry for each pixel. */
module Quantize {
  import opened Types
  import opened BoxSplit
  import opened BoxTree
  import opened Histogram
  import opened MedianCut
  import opened Means
  import opened Nearest
  import opened Numbering

  const MAX_HASH_ENTRIES: nat := 65536

  /** The palette, and for each pixel its place in the palette. */
  datatype Quantized = Quantized(palette: seq<Color>, indices: seq<Byte>)

  // ----- the boxes behind a palette -----

  /** `boxOf` numbers the boxes of a cut of the histogram of `pixels`. */
  ghost predicate BoxedBy(pixels: seq<Color>, colors: nat, hash: Color -> nat,
                            entries: seq<Entry>, boxes: seq<BoxNode>, boxOf: map<nat, nat>) {
    && IsHistogram(entries, pixels, hash) && Cutting(entries, boxes, colors)
    && Numbered(boxes, hash, boxOf, Leaves(boxes, 0))
  }

  /** The histogram entry and the leaf of a pixel. */
  lemma PixelLeaf(pixels: seq<Color>, colors: nat, hash: Color -> nat, entries: seq<Entry>, boxes: seq<BoxNode>,
                  boxOf: map<nat, nat>, i: nat) returns (k: nat, m: nat)
    requires BoxedBy(pixels, colors, hash, entries, boxes, boxOf) && i < |pixels|
    ensures var leaves := Leaves(boxes, 0);
      && k < |leaves| && leaves[k] < |boxes| && m < |boxes[leaves[k]].entries|
      && hash(boxes[leaves[k]].entries[m].color) == hash(pixels[i])
      && boxes[leaves[k]].entries[m] in entries
      && Has(pixels[i], hash, boxOf, k)
  {
    assert Tallied(entries, hash, hash(pixels[i]));
    var a :| 0 <= a < |entries| && hash(entries[a].color) == hash(pixels[i]);
    assert entries[a] in multiset(entries);
    k, m := SomeListedHolds(boxes, Leaves(boxes, 0), entries[a]);
    assert MapsTo(boxes[Leaves(boxes, 0)[k]].entries, hash, boxOf, k);
  }

  lemma {:induction false} AllBoxed(pixels: seq<Color>, colors: nat, hash: Color -> nat, entries: seq<Entry>,
                                    boxes: seq<BoxNode>, boxOf: map<nat, nat>)
    requires BoxedBy(pixels, colors, hash, entries, boxes, boxOf)
    ensures Boxed(pixels, hash, boxOf, |Leaves(boxes, 0)|)
  {
    forall i | 0 <= i < |pixels| ensures InBox(pixels[i], hash, boxOf, |Leaves(boxes, 0)|) {
      var k, m := PixelLeaf(pixels, colors, hash, entries, boxes, boxOf, i);
    }
  }

  lemma {:induction false} SomeMember(pixels: seq<Color>, hash: Color -> nat, boxOf: map<nat, nat>, b: nat, i: nat)
    requires i < |pixels| && Has(pixels[i], hash, boxOf, b)
    ensures Members(pixels, hash, boxOf, b) > 0
  {
    if i < |pixels| - 1 {
      SomeMember(pixels[..|pixels| - 1], hash, boxOf, b, i);
    }
  }

  /** No box is without pixels, so no mean divides by zero. */
  lemma {:induction false} NoEmptyBox(pixels: seq<Color>, colors: nat, hash: Color -> nat, entries: seq<Entry>,
                                      boxes: seq<BoxNode>, boxOf: map<nat, nat>, b: nat)
    requires BoxedBy(pixels, colors, hash, entries, boxes, boxOf) && b < |Leaves(boxes, 0)|
    ensures Members(pixels, hash, boxOf, b) > 0
  {
    var leaves := Leaves(boxes, 0);
    var leaf := leaves[b];
    assert leaf in multiset(leaves) && SoundBox(boxes[leaf]);
    assert MapsTo(boxes[leaf].entries, hash, boxOf, b);
    var e := boxes[leaf].entries[0];
    var a := LeafEntry(boxes, entries, leaf, 0);
    assert IsTally(entries[a], pixels, hash);
    var i :| FirstAt(pixels, hash, hash(e.color), e.color, i);
    SomeMember(pixels, hash, boxOf, b, i);
  }

  // ----- the whole computation -----

  /** What quantizing `pixels` to `colors` colours gives. */
  ghost predicate QuantizedFrom(q: Quantized, pixels: seq<Color>, colors: nat, hash: Color -> nat,
                                entries: seq<Entry>, boxes: seq<BoxNode>, boxOf: map<nat, nat>) {
    && BoxedBy(pixels, colors, hash, entries, boxes, boxOf)
    && |q.palette| == |Leaves(boxes, 0)|
    && (forall b :: 0 <= b < |q.palette| ==> IsMean(q.palette[b], pixels, hash, boxOf, b))
    && |q.indices| == |pixels|
    && (forall i :: 0 <= i < |pixels| ==> NearestOwn(q.palette, pixels[i], hash, boxOf, q.indices[i]))
  }

  /** `idx` is the nearest entry, ties settled from the pixel's own entry. */
  ghost predicate NearestOwn(palette: seq<Color>, p: Color, hash: Color -> nat, boxOf: map<nat, nat>, idx: nat) {
    hash(p) in boxOf && IsNearest(palette, p, boxOf[hash(p)], idx)
  }

  /** The search rows for every palette entry. */
  method Tables(palette: seq<Color>) returns (avg: seq<seq<nat>>, rows: seq<seq<nat>>)
    ensures |avg| == |rows| == |palette|
    ensures forall o :: 0 <= o < |palette| ==> RowFor(palette, o, avg[o], rows[o])
  {
    avg, rows := [], [];
    for own := 0 to |palette|
      invariant |avg| == |rows| == own
      invariant forall o :: 0 <= o < own ==> RowFor(palette, o, avg[o], rows[o])
    {
      var dist := Distances(palette, own);
      var row := SortRow(palette, own, dist);
      avg, rows := avg + [dist], rows + [row];
    }
  }

  ghost predicate RowFor(palette: seq<Color>, own: nat, avg: seq<nat>, row: seq<nat>) {
    && SearchOrder(palette, own, row)
    && |avg| == |palette| && forall e :: 0 <= e < |palette| ==> avg[e] == DistSq(palette[own], palette[e])
  }

  /** Each pixel's nearest entry, each distinct colour searched once. */
  method MapPixels(pixels: seq<Color>, hash: Color -> nat, boxOf: map<nat, nat>, palette: seq<Color>)
    returns (indices: seq<Byte>)
    requires |palette| <= 256 && Boxed(pixels, hash, boxOf, |palette|)
    ensures |indices| == |pixels|
    ensures forall i :: 0 <= i < |pixels| ==> NearestOwn(palette, pixels[i], hash, boxOf, indices[i])
  {
    var avg, rows := Tables(palette);
    var cache: map<Color, Byte> := map[];
    indices := [];
    for i := 0 to |pixels|
      invariant |indices| == i
      invariant forall p :: p in cache ==> NearestOwn(palette, p, hash, boxOf, cache[p])
      invariant forall j :: 0 <= j < i ==> NearestOwn(palette, pixels[j], hash, boxOf, indices[j])
    {
      var p := pixels[i];
      if p !in cache {
        assert InBox(p, hash, boxOf, |palette|);
        var own := boxOf[hash(p)];
        assert RowFor(palette, own, avg[own], rows[own]);
        var best := Search(palette, rows[own], avg[own], p, own);
        cache := cache[p := best];
      }
      indices := indices + [cache[p]];
    }
  }

  /**
   * Quantizes `pixels` to at most `colors` colours. More distinct hash values than the table
   * handles are refused.
   */
  method Quantize(pixels: seq<Color>, colors: nat, hash: Color -> nat)
    returns (q: Option<Quantized>, ghost entries: seq<Entry>, ghost boxes: seq<BoxNode>, ghost boxOf: map<nat, nat>)
    requires 1 <= colors <= 256
    ensures pixels == [] ==> q == Some(Quantized([], []))
    ensures pixels != [] ==> IsHistogram(entries, pixels, hash) && (q.None? <==> |entries| > MAX_HASH_ENTRIES)
    ensures pixels != [] && q.Some? ==> QuantizedFrom(q.value, pixels, colors, hash, entries, boxes, boxOf)
  {
    if pixels == [] {
      return Some(Quantized([], [])), [], [], map[];
    }
    var tally := Build(pixels, hash);
    entries := tally;
    if |tally| > MAX_HASH_ENTRIES {
      return None, entries, [], map[];
    }
    HistogramIsCounted(pixels, hash, tally);
    var cut := Cut(tally, |pixels|, colors);
    var numbers, n := Number(cut, hash, tally);
    boxes, boxOf := cut, numbers;
    AllBoxed(pixels, colors, hash, entries, boxes, boxOf);
    forall b | 0 <= b < n ensures Members(pixels, hash, boxOf, b) > 0 {
      NoEmptyBox(pixels, colors, hash, entries, boxes, boxOf, b);
    }
    var palette := Palette(pixels, hash, numbers, n);
    var indices := MapPixels(pixels, hash, numbers, palette);
    q := Some(Quantized(palette, indices));
  }

  lemma {:induction false} HistogramIsCounted(pixels: seq<Color>, hash: Color -> nat, entries: seq<Entry>)
    requires pixels != [] && IsHistogram(entries, pixels, hash)
    ensures |entries| > 0 && Counted(entries) && Total(entries) == |pixels|
  {
    assert Tallied(entries, hash, hash(pixels[0]));
    forall k | 0 <= k < |entries| ensures entries[k].count > 0 {
      assert IsTally(entries[k], pixels, hash);
    }
  }

  // ----- few colours are kept exactly -----

  /** No two different colours of the image share a hash value. */
  ghost predicate NoCollision(pixels: seq<Color>, hash: Color -> nat) {
    forall i, j :: 0 <= i < |pixels| && 0 <= j < |pixels| && hash(pixels[i]) == hash(pixels[j]) ==>
      pixels[i] == pixels[j]
  }

  ghost function ColorSet(pixels: seq<Color>): set<Color> {
    set p | p in pixels
  }

  /** Without collisions there are as many histogram entries as colours. */
  lemma EntriesAreColors(pixels: seq<Color>, hash: Color -> nat, entries: seq<Entry>)
    requires IsHistogram(entries, pixels, hash)
    ensures |entries| <= |ColorSet(pixels)|
  {
    var colors := EntryColors(entries, hash, |entries|);
    forall c | c in colors ensures c in ColorSet(pixels) {
      var k :| 0 <= k < |entries| && entries[k].color == c;
      assert IsTally(entries[k], pixels, hash);
      var m :| FirstAt(pixels, hash, hash(c), c, m);
    }
    SubsetSize(colors, ColorSet(pixels));
  }

  /** The colours of the first `n` entries, all different. */
  lemma {:induction false} EntryColors(entries: seq<Entry>, hash: Color -> nat, n: nat) returns (colors: set<Color>)
    requires DistinctHashes(entries, hash) && n <= |entries|
    ensures |colors| == n && forall c :: c in colors ==> exists k :: 0 <= k < n && entries[k].color == c
  {
    colors := {};
    if n > 0 {
      var rest := EntryColors(entries, hash, n - 1);
      assert entries[n - 1].color !in rest;
      colors := rest + {entries[n - 1].color};
    }
  }

  lemma SubsetSize<T>(a: set<T>, b: set<T>)
    requires a <= b
    ensures |a| <= |b|
  {
    assert |b - a| + |a| == |b| by {
      assert a + (b - a) == b;
    }
  }

  /** Pigeonhole: as many non-empty boxes as entries hold one entry each. */
  lemma {:induction false} Pigeonhole(boxes: seq<BoxNode>, s: seq<nat>)
    requires Refers(s, |boxes|) && forall k :: 0 <= k < |s| ==> |boxes[s[k]].entries| > 0
    ensures |Gather(boxes, s)| >= |s|
    ensures |Gather(boxes, s)| == |s| ==> forall k :: 0 <= k < |s| ==> |boxes[s[k]].entries| == 1
  {
    if |s| > 0 {
      Pigeonhole(boxes, s[..|s| - 1]);
    }
  }

  lemma {:induction false} OneEntryEach(entries: seq<Entry>, boxes: seq<BoxNode>)
    requires Partition(boxes, entries) && |entries| <= |Leaves(boxes, 0)|
    ensures var leaves := Leaves(boxes, 0);
      Refers(leaves, |boxes|) && forall k :: 0 <= k < |leaves| ==> |boxes[leaves[k]].entries| == 1
  {
    var leaves := Leaves(boxes, 0);
    forall k | 0 <= k < |leaves| ensures |boxes[leaves[k]].entries| > 0 {
      assert SoundBox(boxes[leaves[k]]);
    }
    Pigeonhole(boxes, leaves);
    assert |Gather(boxes, leaves)| == |entries|;
  }

  /** With no more histogram entries than colours, every box ends up one colour. */
  lemma FewEntriesExhaust(entries: seq<Entry>, boxes: seq<BoxNode>, colors: nat)
    requires Finished(entries, boxes, colors) && |entries| <= colors
    ensures Exhausted(boxes)
  {
    var leaves := Leaves(boxes, 0);
    if |leaves| == colors {
      OneEntryEach(entries, boxes);
      forall i: nat | IsLeaf(boxes, i) ensures Uniform(boxes[i].entries) {
        var k := LeafPosition(boxes, leaves, i);
      }
    }
  }

  /** A pixel's colour is the colour of its histogram entry. */
  lemma OwnColor(pixels: seq<Color>, hash: Color -> nat, entries: seq<Entry>, e: Entry, i: nat)
    requires IsHistogram(entries, pixels, hash) && NoCollision(pixels, hash)
    requires e in entries && i < |pixels| && hash(e.color) == hash(pixels[i])
    ensures e.color == pixels[i]
  {
    var k :| 0 <= k < |entries| && entries[k] == e;
    assert IsTally(entries[k], pixels, hash);
    var m :| FirstAt(pixels, hash, hash(e.color), e.color, m);
  }

  /** In an exhausted cut, all pixels of a box have one colour. */
  lemma BoxIsOneColor(pixels: seq<Color>, colors: nat, hash: Color -> nat, entries: seq<Entry>, boxes: seq<BoxNode>,
                      boxOf: map<nat, nat>, i: nat, j: nat)
    requires BoxedBy(pixels, colors, hash, entries, boxes, boxOf) && NoCollision(pixels, hash)
    requires Exhausted(boxes) && i < |pixels| && j < |pixels|
    requires hash(pixels[i]) in boxOf && Has(pixels[j], hash, boxOf, boxOf[hash(pixels[i])])
    ensures pixels[i] == pixels[j]
  {
    var leaves := Leaves(boxes, 0);
    var k, m := PixelLeaf(pixels, colors, hash, entries, boxes, boxOf, i);
    var l, n := PixelLeaf(pixels, colors, hash, entries, boxes, boxOf, j);
    var leaf := boxes[leaves[k]].entries;
    OwnColor(pixels, hash, entries, leaf[m], i);
    OwnColor(pixels, hash, entries, leaf[n], j);
    assert leaves[k] in multiset(leaves);
    assert IsLeaf(boxes, leaves[k]);
  }

  /** Every pixel's palette entry is its own colour. */
  ghost predicate Reproduces(q: Quantized, pixels: seq<Color>) {
    |q.indices| == |pixels| && forall i :: 0 <= i < |pixels| ==> IsShownAs(q, i, pixels[i])
  }

  predicate IsShownAs(q: Quantized, i: nat, p: Color) {
    i < |q.indices| && q.indices[i] < |q.palette| && q.palette[q.indices[i]] == p
  }

  /** An image with at most `colors` colours, none sharing a hash value, is reproduced exactly. */
  lemma Lossless(q: Quantized, pixels: seq<Color>, colors: nat, hash: Color -> nat,
                 entries: seq<Entry>, boxes: seq<BoxNode>, boxOf: map<nat, nat>)
    ensures QuantizedFrom(q, pixels, colors, hash, entries, boxes, boxOf) ==>
      (|ColorSet(pixels)| <= colors && NoCollision(pixels, hash) ==> Reproduces(q, pixels))
  {
    if QuantizedFrom(q, pixels, colors, hash, entries, boxes, boxOf) {
      if |ColorSet(pixels)| <= colors && NoCollision(pixels, hash) {
        EntriesAreColors(pixels, hash, entries);
        FewEntriesExhaust(entries, boxes, colors);
        forall i | 0 <= i < |pixels| ensures IsShownAs(q, i, pixels[i]) {
          assert NearestOwn(q.palette, pixels[i], hash, boxOf, q.indices[i]);
          var own := boxOf[hash(pixels[i])];
          OwnEntryIsExact(q.palette, pixels, colors, hash, entries, boxes, boxOf, i, own);
          ExactOwnWins(q.palette, pixels[i], own, q.indices[i]);
        }
      }
    }
  }

  lemma ExactOwnWins(palette: seq<Color>, p: Color, own: nat, idx: nat)
    requires IsNearest(palette, p, own, idx) && palette[own] == p
    ensures idx == own
  {
    assert DistSq(p, p) == 0;
    assert DistSq(palette[idx], p) <= DistSq(palette[own], p);
  }

  lemma OwnEntryIsExact(palette: seq<Color>, pixels: seq<Color>, colors: nat, hash: Color -> nat,
                        entries: seq<Entry>, boxes: seq<BoxNode>, boxOf: map<nat, nat>, i: nat, own: nat)
    requires BoxedBy(pixels, colors, hash, entries, boxes, boxOf) && NoCollision(pixels, hash) && Exhausted(boxes)
    requires i < |pixels| && Has(pixels[i], hash, boxOf, own) && own < |palette|
    requires IsMean(palette[own], pixels, hash, boxOf, own)
    ensures palette[own] == pixels[i]
  {
    for ch := 0 to 3
      invariant forall c :: 0 <= c < ch ==> palette[own].At(c) == pixels[i].At(c)
    {
      forall j | 0 <= j < |pixels| && Has(pixels[j], hash, boxOf, own) ensures pixels[j] == pixels[i] {
        BoxIsOneColor(pixels, colors, hash, entries, boxes, boxOf, i, j);
      }
      MeanWithin(palette[own], pixels, hash, boxOf, own, ch, pixels[i].At(ch), pixels[i].At(ch));
    }
    assert palette[own].At(0) == pixels[i].At(0);
    assert palette[own].At(1) == pixels[i].At(1);
    assert palette[own].At(2) == pixels[i].At(2);
  }
}
