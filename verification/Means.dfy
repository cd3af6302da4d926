/** Palette entries: the rounded mean of the pixels of each box. */
module Means {
  import opened BoxSplit

  /** Every pixel has a box below `n`. */
  ghost predicate Boxed(pixels: seq<Color>, hash: Color -> nat, boxOf: map<nat, nat>, n: nat) {
    forall i :: 0 <= i < |pixels| ==> InBox(pixels[i], hash, boxOf, n)
  }

  predicate InBox(p: Color, hash: Color -> nat, boxOf: map<nat, nat>, n: nat) {
    hash(p) in boxOf && boxOf[hash(p)] < n
  }

  predicate Has(p: Color, hash: Color -> nat, boxOf: map<nat, nat>, b: nat) {
    hash(p) in boxOf && boxOf[hash(p)] == b
  }

  /** How many pixels box `b` has. */
  function Members(pixels: seq<Color>, hash: Color -> nat, boxOf: map<nat, nat>, b: nat): nat {
    if |pixels| == 0 then 0
    else
      var n := |pixels| - 1;
      Members(pixels[..n], hash, boxOf, b) + if Has(pixels[n], hash, boxOf, b) then 1 else 0
  }

  /** The sum of one channel over the pixels of box `b`. */
  function ChannelSum(pixels: seq<Color>, hash: Color -> nat, boxOf: map<nat, nat>, b: nat, ch: nat): nat
    requires ch < 3
  {
    if |pixels| == 0 then 0
    else
      var n := |pixels| - 1;
      ChannelSum(pixels[..n], hash, boxOf, b, ch) + if Has(pixels[n], hash, boxOf, b) then pixels[n].At(ch) else 0
  }

  /** A channel of the pixels of box `b` stays between `lo` and `hi`. */
  ghost predicate Between(pixels: seq<Color>, hash: Color -> nat, boxOf: map<nat, nat>, b: nat,
                          ch: nat, lo: nat, hi: nat)
    requires ch < 3
  {
    forall i :: 0 <= i < |pixels| && Has(pixels[i], hash, boxOf, b) ==> lo <= pixels[i].At(ch) <= hi
  }

  lemma {:induction false} SumBetween(pixels: seq<Color>, hash: Color -> nat, boxOf: map<nat, nat>, b: nat, ch: nat,
                                      lo: nat, hi: nat)
    requires ch < 3 && Between(pixels, hash, boxOf, b, ch, lo, hi)
    ensures lo * Members(pixels, hash, boxOf, b) <= ChannelSum(pixels, hash, boxOf, b, ch)
         <= hi * Members(pixels, hash, boxOf, b)
  {
    if |pixels| > 0 {
      var rest := pixels[..|pixels| - 1];
      assert forall i :: 0 <= i < |rest| ==> rest[i] == pixels[i];
      SumBetween(rest, hash, boxOf, b, ch, lo, hi);
      Distribute(lo, Members(rest, hash, boxOf, b));
      Distribute(hi, Members(rest, hash, boxOf, b));
    }
  }

  lemma Distribute(a: nat, b: nat)
    ensures a * (b + 1) == a * b + a
  {
  }

  /** The mean `s / c`, rounded to nearest with halves up. */
  function Mean(s: nat, c: nat): (m: nat)
    requires c > 0
    ensures 2 * s - c < 2 * c * m <= 2 * s + c
  {
    Division(2 * s + c, 2 * c);
    (2 * s + c) / (2 * c)
  }

  lemma Division(a: nat, b: nat)
    requires b > 0
    ensures b * (a / b) <= a < b * (a / b) + b
  {
  }

  /** A mean lies between bounds of what it averages; in particular a constant is its own mean. */
  lemma MeanBetween(s: nat, c: nat, lo: nat, hi: nat)
    requires c > 0 && lo * c <= s <= hi * c
    ensures lo <= Mean(s, c) <= hi
  {
    var m := Mean(s, c);
    if m < lo {
      Monotone(m + 1, lo, c);
    }
    if m > hi {
      Monotone(hi + 1, m, c);
    }
  }

  lemma Monotone(a: nat, b: nat, c: nat)
    requires a <= b
    ensures a * c <= b * c && 2 * c * a == 2 * (a * c) && 2 * c * b == 2 * (b * c)
    ensures a > 0 ==> (a - 1) * c == a * c - c && 2 * c * (a - 1) == 2 * (a * c) - 2 * c
  {
  }

  /** `color` is the mean of box `b`. */
  ghost predicate IsMean(color: Color, pixels: seq<Color>, hash: Color -> nat, boxOf: map<nat, nat>, b: nat) {
    var c := Members(pixels, hash, boxOf, b);
    c > 0 && forall ch :: 0 <= ch < 3 ==> color.At(ch) == Mean(ChannelSum(pixels, hash, boxOf, b, ch), c)
  }

  /** Each channel of a mean lies between the bounds of its pixels. */
  lemma MeanWithin(color: Color, pixels: seq<Color>, hash: Color -> nat, boxOf: map<nat, nat>, b: nat,
                   ch: nat, lo: nat, hi: nat)
    requires IsMean(color, pixels, hash, boxOf, b) && ch < 3 && Between(pixels, hash, boxOf, b, ch, lo, hi)
    ensures lo <= color.At(ch) <= hi
  {
    SumBetween(pixels, hash, boxOf, b, ch, lo, hi);
    MeanBetween(ChannelSum(pixels, hash, boxOf, b, ch), Members(pixels, hash, boxOf, b), lo, hi);
  }

  method ChannelMean(s: nat, c: nat, ghost pixels: seq<Color>, ghost hash: Color -> nat, ghost boxOf: map<nat, nat>,
                     ghost b: nat, ghost ch: nat) returns (m: Byte)
    requires ch < 3 && c == Members(pixels, hash, boxOf, b) > 0 && s == ChannelSum(pixels, hash, boxOf, b, ch)
    ensures m == Mean(s, c)
  {
    SumBetween(pixels, hash, boxOf, b, ch, 0, 255);
    MeanBetween(s, c, 0, 255);
    m := Mean(s, c);
  }

  /** The loop over the pixels that fills the sums and the counts. */
  method Accumulate(pixels: seq<Color>, hash: Color -> nat, boxOf: map<nat, nat>, n: nat)
    returns (sums: array2<nat>, counts: array<nat>)
    requires Boxed(pixels, hash, boxOf, n)
    ensures fresh(sums) && fresh(counts) && sums.Length0 == n && sums.Length1 == 3 && counts.Length == n
    ensures forall b :: 0 <= b < n ==> counts[b] == Members(pixels, hash, boxOf, b)
    ensures forall b, ch :: 0 <= b < n && 0 <= ch < 3 ==> sums[b, ch] == ChannelSum(pixels, hash, boxOf, b, ch)
  {
    sums := new nat[n, 3]((b, ch) => 0);
    counts := new nat[n](b => 0);
    for i := 0 to |pixels|
      invariant forall b :: 0 <= b < n ==> counts[b] == Members(pixels[..i], hash, boxOf, b)
      invariant forall b, ch :: 0 <= b < n && 0 <= ch < 3 ==>
        sums[b, ch] == ChannelSum(pixels[..i], hash, boxOf, b, ch)
    {
      assert pixels[..i + 1][..i] == pixels[..i];
      assert InBox(pixels[i], hash, boxOf, n);
      var own := boxOf[hash(pixels[i])];
      sums[own, 0] := sums[own, 0] + pixels[i].At(0);
      sums[own, 1] := sums[own, 1] + pixels[i].At(1);
      sums[own, 2] := sums[own, 2] + pixels[i].At(2);
      counts[own] := counts[own] + 1;
    }
    assert pixels[..|pixels|] == pixels;
  }

  method Palette(pixels: seq<Color>, hash: Color -> nat, boxOf: map<nat, nat>, n: nat) returns (palette: seq<Color>)
    requires Boxed(pixels, hash, boxOf, n)
    requires forall b :: 0 <= b < n ==> Members(pixels, hash, boxOf, b) > 0
    ensures |palette| == n && forall b :: 0 <= b < n ==> IsMean(palette[b], pixels, hash, boxOf, b)
  {
    var sums, counts := Accumulate(pixels, hash, boxOf, n);
    palette := [];
    for b := 0 to n
      modifies {}
      invariant |palette| == b && forall a :: 0 <= a < b ==> IsMean(palette[a], pixels, hash, boxOf, a)
    {
      var red := ChannelMean(sums[b, 0], counts[b], pixels, hash, boxOf, b, 0);
      var green := ChannelMean(sums[b, 1], counts[b], pixels, hash, boxOf, b, 1);
      var blue := ChannelMean(sums[b, 2], counts[b], pixels, hash, boxOf, b, 2);
      palette := palette + [Color(red, green, blue)];
    }
  }
}
