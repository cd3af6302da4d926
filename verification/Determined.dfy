/** The quantized image is a function of the pixels: nothing the computation leaves open shows in it. */
module Determined {
  import opened Sorting
  import opened BoxSplit
  import opened BoxTree
  import opened CutOrder
  import opened Histogram
  import opened Means
  import opened MedianCut
  import opened Nearest
  import opened Numbering
  import opened Quantize

  // ----- the histogram -----

  lemma FirstIsUnique(pixels: seq<Color>, hash: Color -> nat, h: nat, c: Color, c': Color)
    requires First(pixels, hash, h, c) && First(pixels, hash, h, c')
    ensures c == c'
  {
    var m: nat :| FirstAt(pixels, hash, h, c, m);
    var n: nat :| FirstAt(pixels, hash, h, c', n);
    assert hash(pixels[m]) == h && hash(pixels[n]) == h;
  }

  /** An entry of one histogram of the pixels is in any other. */
  lemma InBoth(pixels: seq<Color>, hash: Color -> nat, a: seq<Entry>, b: seq<Entry>, x: Entry)
    requires IsHistogram(a, pixels, hash) && IsHistogram(b, pixels, hash) && x in a
    ensures x in b
  {
    assert IsTally(x, pixels, hash);
    var h := hash(x.color);
    var m: nat :| FirstAt(pixels, hash, h, x.color, m);
    assert Tallied(b, hash, hash(pixels[m]));
    var k :| 0 <= k < |b| && hash(b[k].color) == h;
    assert IsTally(b[k], pixels, hash);
    FirstIsUnique(pixels, hash, h, x.color, b[k].color);
  }

  lemma HistogramIsUnique(pixels: seq<Color>, hash: Color -> nat, a: seq<Entry>, b: seq<Entry>)
    requires IsHistogram(a, pixels, hash) && IsHistogram(b, pixels, hash)
    ensures multiset(a) == multiset(b)
  {
    forall x ensures multiset(a)[x] == multiset(b)[x] {
      ListedOnce(a, x);
      ListedOnce(b, x);
      if x in a { InBoth(pixels, hash, a, b, x); }
      if x in b { InBoth(pixels, hash, b, a, x); }
      assert x in multiset(a) <==> x in a;
      assert x in multiset(b) <==> x in b;
    }
  }

  // ----- leaves and numbers -----

  lemma {:induction false} LeavesAlike(a: seq<BoxNode>, b: seq<BoxNode>, n: nat)
    requires Alike(a, b) && Tree(a) && Tree(b) && n < |a|
    ensures Leaves(a, n) == Leaves(b, n)
    decreases |a| - n
  {
    assert AlikeBox(a[n], b[n]) && ChildrenLater(a, n);
    if a[n].children.Some? {
      var (l, r) := a[n].children.value;
      LeavesAlike(a, b, l);
      LeavesAlike(a, b, r);
    }
  }

  /** Both numberings agree on every pixel. */
  ghost predicate Agree(pixels: seq<Color>, hash: Color -> nat, x: map<nat, nat>, y: map<nat, nat>) {
    forall i :: 0 <= i < |pixels| ==> SameBox(pixels[i], hash, x, y)
  }

  predicate SameBox(p: Color, hash: Color -> nat, x: map<nat, nat>, y: map<nat, nat>) {
    hash(p) in x && hash(p) in y && x[hash(p)] == y[hash(p)]
  }

  /** What one leaf maps to under one numbering it maps to under the other. */
  lemma SameNumber(a: BoxNode, b: BoxNode, hash: Color -> nat, y: map<nat, nat>, k: nat, m: nat)
    requires AlikeBox(a, b) && MapsTo(b.entries, hash, y, k) && m < |a.entries|
    ensures hash(a.entries[m].color) in y && y[hash(a.entries[m].color)] == k
  {
    assert a.entries[m] in multiset(b.entries);
    var j :| 0 <= j < |b.entries| && b.entries[j] == a.entries[m];
  }

  lemma NumberingsAgree(pixels: seq<Color>, colors: nat, hash: Color -> nat,
                        e: seq<Entry>, a: seq<BoxNode>, x: map<nat, nat>,
                        e': seq<Entry>, b: seq<BoxNode>, y: map<nat, nat>)
    requires BoxedBy(pixels, colors, hash, e, a, x) && BoxedBy(pixels, colors, hash, e', b, y) && Alike(a, b)
    ensures Agree(pixels, hash, x, y)
  {
    LeavesAlike(a, b, 0);
    forall i | 0 <= i < |pixels| ensures SameBox(pixels[i], hash, x, y) {
      var k, m := PixelLeaf(pixels, colors, hash, e, a, x, i);
      var leaf := Leaves(a, 0)[k];
      assert AlikeBox(a[leaf], b[leaf]) && MapsTo(b[leaf].entries, hash, y, k);
      SameNumber(a[leaf], b[leaf], hash, y, k, m);
    }
  }

  lemma {:induction false} SumsAgree(pixels: seq<Color>, hash: Color -> nat, x: map<nat, nat>, y: map<nat, nat>, b: nat)
    requires Agree(pixels, hash, x, y)
    ensures Members(pixels, hash, x, b) == Members(pixels, hash, y, b)
    ensures forall ch :: 0 <= ch < 3 ==> ChannelSum(pixels, hash, x, b, ch) == ChannelSum(pixels, hash, y, b, ch)
  {
    if |pixels| > 0 {
      var rest := pixels[..|pixels| - 1];
      assert forall i :: 0 <= i < |rest| ==> SameBox(pixels[i], hash, x, y);
      SumsAgree(rest, hash, x, y, b);
      assert SameBox(pixels[|rest|], hash, x, y);
    }
  }

  lemma MeansAgree(pixels: seq<Color>, hash: Color -> nat, x: map<nat, nat>, y: map<nat, nat>, b: nat, c: Color,
                   c': Color)
    requires Agree(pixels, hash, x, y) && IsMean(c, pixels, hash, x, b) && IsMean(c', pixels, hash, y, b)
    ensures c == c'
  {
    SumsAgree(pixels, hash, x, y, b);
    assert forall ch :: 0 <= ch < 3 ==> c.At(ch) == c'.At(ch);
    assert c.At(0) == c'.At(0) && c.At(1) == c'.At(1) && c.At(2) == c'.At(2);
  }

  // ----- the result -----

  lemma SameBoxes(pixels: seq<Color>, colors: nat, hash: Color -> nat,
                  e: seq<Entry>, a: seq<BoxNode>, e': seq<Entry>, b: seq<BoxNode>)
    requires IsHistogram(e, pixels, hash) && IsHistogram(e', pixels, hash)
    requires Cutting(e, a, colors) && Cutting(e', b, colors)
    ensures Alike(a, b)
  {
    HistogramIsUnique(pixels, hash, e, e');
    var s :| HeapCuts(s, e, colors, a);
    var t :| HeapCuts(t, e', colors, b);
    CuttingIsDetermined(s, t, e, e', colors, a, b);
  }

  lemma PalettesAgree(pixels: seq<Color>, hash: Color -> nat, x: map<nat, nat>, y: map<nat, nat>,
                      p: seq<Color>, p': seq<Color>)
    requires Agree(pixels, hash, x, y) && |p| == |p'|
    requires forall k :: 0 <= k < |p| ==> IsMean(p[k], pixels, hash, x, k)
    requires forall k :: 0 <= k < |p| ==> IsMean(p'[k], pixels, hash, y, k)
    ensures p == p'
  {
    forall k | 0 <= k < |p| ensures p[k] == p'[k] {
      MeansAgree(pixels, hash, x, y, k, p[k], p'[k]);
    }
  }

  lemma IndicesAgree(pixels: seq<Color>, hash: Color -> nat, x: map<nat, nat>, y: map<nat, nat>,
                     palette: seq<Color>, s: seq<Byte>, t: seq<Byte>)
    requires Agree(pixels, hash, x, y) && |s| == |t| == |pixels|
    requires forall i :: 0 <= i < |pixels| ==> NearestOwn(palette, pixels[i], hash, x, s[i])
    requires forall i :: 0 <= i < |pixels| ==> NearestOwn(palette, pixels[i], hash, y, t[i])
    ensures s == t
  {
    forall i | 0 <= i < |pixels| ensures s[i] == t[i] {
      assert SameBox(pixels[i], hash, x, y);
      NearestIsUnique(palette, pixels[i], x[hash(pixels[i])], s[i], t[i]);
    }
  }

  /**
   * Whatever the order of the histogram and of equal entries after the sorts: two results for the
   * same pixels are the same palette and the same indices.
   */
  lemma ResultIsDetermined(pixels: seq<Color>, colors: nat, hash: Color -> nat,
                           q: Quantized, e: seq<Entry>, a: seq<BoxNode>, x: map<nat, nat>,
                           q': Quantized, e': seq<Entry>, b: seq<BoxNode>, y: map<nat, nat>)
    requires QuantizedFrom(q, pixels, colors, hash, e, a, x) && QuantizedFrom(q', pixels, colors, hash, e', b, y)
    ensures q == q'
  {
    SameBoxes(pixels, colors, hash, e, a, e', b);
    NumberingsAgree(pixels, colors, hash, e, a, x, e', b, y);
    LeavesAlike(a, b, 0);
    PalettesAgree(pixels, hash, x, y, q.palette, q'.palette);
    IndicesAgree(pixels, hash, x, y, q.palette, q.indices, q'.indices);
  }
}
