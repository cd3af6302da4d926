/** What the ranking prefers, in pixel counts and vividness. */
module Vibrancy {
  import opened Hsv
  import opened Pick
  import opened Reals

  /** Saturation and value from 0 to 1, as every encoded colour has them. */
  predicate UnitHsv(e: HistEntry) { 0.0 <= e.hsv.s <= 1.0 && 0.0 <= e.hsv.v <= 1.0 }

  ghost predicate UnitHist(hist: seq<HistEntry>) { forall i :: 0 <= i < |hist| ==> UnitHsv(hist[i]) }

  /** The entry has at least one pixel in a hundred. */
  predicate Prominent(hist: seq<HistEntry>, i: nat)
    requires i < |hist|
  {
    Total(hist) > 0 && 100 * hist[i].count >= Total(hist)
  }

  function Vividness(e: HistEntry): real { e.hsv.s * e.hsv.v }

  /** Entry `i` stands before entry `j` in the ranking. */
  ghost predicate Before(ranking: seq<nat>, i: nat, j: nat) {
    exists a, b :: 0 <= a < b < |ranking| && ranking[a] == i && ranking[b] == j
  }

  lemma BeforeIsOutranking(hist: seq<HistEntry>, ranking: seq<nat>, i: nat, j: nat)
    requires IsRanking(hist, ranking) && i < |hist| && j < |hist| && i != j
    ensures Before(ranking, i, j) <==> Outranks(hist, i, j)
  {
    assert i in ranking && j in ranking;
    var a :| 0 <= a < |ranking| && ranking[a] == i;
    var b :| 0 <= b < |ranking| && ranking[b] == j;
    if a < b {
      assert Outranks(hist, ranking[a], ranking[b]);
    } else {
      assert Outranks(hist, ranking[b], ranking[a]);
      assert !Outranks(hist, i, j);
    }
  }

  lemma Share(count: nat, total: nat)
    requires total > 0
    ensures IsShare(count as real / total as real, count, total)
    ensures count as real / total as real < VIBRANCY_MIN_POP <==> 100 * count < total
  {
    var q := count as real / total as real;
    assert q * total as real == count as real;
    Shift(q, VIBRANCY_MIN_POP, total as real);
    Shift(q, 0.0, total as real);
  }

  /** Comparing with a positive factor. */
  lemma Shift(x: real, y: real, d: real)
    requires d > 0.0
    ensures x < y <==> x * d < y * d
    ensures x == y <==> x * d == y * d
  {
    if x < y { assert (y - x) * d > 0.0; }
    if y < x { assert (x - y) * d > 0.0; }
  }

  lemma VividnessBounds(e: HistEntry)
    requires UnitHsv(e)
    ensures 0.0 <= Vividness(e) <= 1.0
  {
    var (s, v) := (e.hsv.s, e.hsv.v);
    ProductSign(s, v);
    ProductSign(s, 1.0 - v);
    assert s * (1.0 - v) == s - s * v;
  }

  /** What vividness adds to a doubled count: up to all pixels. */
  function Bonus(hist: seq<HistEntry>, i: nat): real
    requires i < |hist|
  {
    Total(hist) as real * Vividness(hist[i])
  }

  function Doubled(n: nat, bonus: real, prominent: bool): real { 2.0 * n as real + if prominent then bonus else 0.0 }

  /** The score in pixels, doubled. */
  function DoubledScore(hist: seq<HistEntry>, i: nat): real
    requires i < |hist|
  {
    Doubled(hist[i].count, Bonus(hist, i), Prominent(hist, i))
  }

  /** `doubled` is the score in pixels, doubled. */
  predicate InPixels(score: real, t: real, doubled: real) { score * (2.0 * t) == doubled }

  /** A score is the share of the pixels, and half of the vividness if the colour is prominent. */
  lemma ScoreParts(hist: seq<HistEntry>, i: nat) returns (q: real)
    requires i < |hist| && Total(hist) > 0
    ensures IsShare(q, hist[i].count, Total(hist))
    ensures Score(hist, i) == Parts(q, Vividness(hist[i]), Prominent(hist, i))
  {
    q := hist[i].count as real / Total(hist) as real;
    Share(hist[i].count, Total(hist));
    Halved(hist[i].hsv.s, hist[i].hsv.v, Vividness(hist[i]));
  }

  function Parts(q: real, w: real, prominent: bool): real { if prominent then q + 0.5 * w else q }

  predicate IsShare(q: real, count: nat, total: nat) { q * total as real == count as real }

  lemma Halved(s: real, v: real, w: real)
    requires w == s * v
    ensures VIBRANCY_WEIGHT * s * v == 0.5 * w
  {
  }

  lemma Doubling(q: real, w: real, total: nat, n: nat, b: real, prominent: bool)
    requires IsShare(q, n, total) && b == total as real * w
    ensures InPixels(Parts(q, w, prominent), total as real, Doubled(n, b, prominent))
  {
    var t := total as real;
    assert (q + 0.5 * w) * (2.0 * t) == 2.0 * (q * t) + t * w;
    assert q * (2.0 * t) == 2.0 * (q * t);
  }

  lemma {:induction false} NoPixels(hist: seq<HistEntry>, i: nat)
    requires i < |hist| && Total(hist) == 0
    ensures hist[i].count == 0 && Score(hist, i) == 0.0
  {
    if i < |hist| - 1 { NoPixels(hist[..|hist| - 1], i); }
  }

  /** Entry `i` comes first by `more` against `less`, and by its place if these are equal. */
  predicate Leads(more: real, less: real, i: nat, j: nat) { more > less || (more == less && i < j) }

  lemma Comparison(hist: seq<HistEntry>, i: nat, j: nat)
    requires i < |hist| && j < |hist|
    ensures Outranks(hist, i, j) <==> Leads(DoubledScore(hist, i), DoubledScore(hist, j), i, j)
  {
    if Total(hist) == 0 {
      NoPixels(hist, i);
      NoPixels(hist, j);
    } else {
      var q := ScoreParts(hist, i);
      var r := ScoreParts(hist, j);
      Rescaled(q, Vividness(hist[i]), Prominent(hist, i), Total(hist), hist[i].count, Bonus(hist, i),
               r, Vividness(hist[j]), Prominent(hist, j), hist[j].count, Bonus(hist, j), i, j);
    }
  }

  lemma Rescaled(q: real, w: real, p: bool, total: nat, n: nat, b: real,
                 q': real, w': real, p': bool, n': nat, b': real, i: nat, j: nat)
    requires total > 0 && IsShare(q, n, total) && IsShare(q', n', total)
    requires b == total as real * w && b' == total as real * w'
    ensures Leads(Parts(q, w, p), Parts(q', w', p'), i, j) <==> Leads(Doubled(n, b, p), Doubled(n', b', p'), i, j)
  {
    Doubling(q, w, total, n, b, p);
    Doubling(q', w', total, n', b', p');
    OrderKept(Parts(q, w, p), Parts(q', w', p'), total as real, Doubled(n, b, p), Doubled(n', b', p'), i, j);
  }

  lemma OrderKept(x: real, y: real, t: real, x2: real, y2: real, i: nat, j: nat)
    requires t > 0.0 && InPixels(x, t, x2) && InPixels(y, t, y2)
    ensures Leads(x, y, i, j) <==> Leads(x2, y2, i, j)
  {
    Shift(x, y, 2.0 * t);
    Shift(y, x, 2.0 * t);
  }

  /** A colour of at least one pixel in a hundred comes before every rarer one. */
  lemma ProminentFirst(hist: seq<HistEntry>, ranking: seq<nat>, i: nat, j: nat)
    requires IsRanking(hist, ranking) && UnitHist(hist) && i < |hist| && j < |hist|
    requires Prominent(hist, i) && !Prominent(hist, j)
    ensures Before(ranking, i, j)
  {
    BeforeIsOutranking(hist, ranking, i, j);
    Comparison(hist, i, j);
    var b := Bonus(hist, i);
    assert b >= 0.0 by {
      VividnessBounds(hist[i]);
      ProductSign(Total(hist) as real, Vividness(hist[i]));
    }
    assert DoubledScore(hist, i) == 2.0 * hist[i].count as real + b;
  }

  /** Rarer colours are ordered by count alone, whatever they look like. */
  lemma RareByCount(hist: seq<HistEntry>, ranking: seq<nat>, i: nat, j: nat)
    requires IsRanking(hist, ranking) && i < |hist| && j < |hist| && i != j
    requires !Prominent(hist, i) && !Prominent(hist, j)
    ensures Before(ranking, i, j) <==> Leads(hist[i].count as real, hist[j].count as real, i, j)
  {
    BeforeIsOutranking(hist, ranking, i, j);
    Comparison(hist, i, j);
  }

  /** Of two others, what one lacks in count it can make up in vividness, up to half of all pixels. */
  lemma VividnessTradesOff(hist: seq<HistEntry>, ranking: seq<nat>, i: nat, j: nat)
    requires IsRanking(hist, ranking) && i < |hist| && j < |hist| && i != j
    requires Prominent(hist, i) && Prominent(hist, j)
    ensures Before(ranking, i, j) <==>
      Leads(Bonus(hist, i) - Bonus(hist, j), 2.0 * (hist[j].count as real - hist[i].count as real), i, j)
  {
    BeforeIsOutranking(hist, ranking, i, j);
    Comparison(hist, i, j);
    var (b, c, n, m) := (Bonus(hist, i), Bonus(hist, j), hist[i].count as real, hist[j].count as real);
    assert DoubledScore(hist, i) == 2.0 * n + b;
    assert DoubledScore(hist, j) == 2.0 * m + c;
  }

  /** Of two equally frequent ones the more vivid one comes first. */
  lemma VividFirst(hist: seq<HistEntry>, ranking: seq<nat>, i: nat, j: nat)
    requires IsRanking(hist, ranking) && i < |hist| && j < |hist| && i != j
    requires Prominent(hist, i) && hist[i].count == hist[j].count && Vividness(hist[i]) > Vividness(hist[j])
    ensures Before(ranking, i, j)
  {
    VividnessTradesOff(hist, ranking, i, j);
    Scales(Total(hist) as real, Vividness(hist[i]), Vividness(hist[j]));
  }

  lemma Scales(t: real, x: real, y: real)
    requires t > 0.0 && x > y
    ensures t * x > t * y
  {
    ProductPositive(t, x - y);
  }

  /** A colour overtakes a grey one exactly if it lacks less than its vividness times half of all pixels. */
  lemma VividOvertakesGrey(hist: seq<HistEntry>, ranking: seq<nat>, i: nat, grey: nat)
    requires IsRanking(hist, ranking) && i < |hist| && grey < |hist| && i != grey
    requires Prominent(hist, i) && Prominent(hist, grey) && hist[grey].hsv.s == 0.0
    ensures Before(ranking, i, grey) <==>
      Leads(Bonus(hist, i), 2.0 * (hist[grey].count as real - hist[i].count as real), i, grey)
  {
    VividnessTradesOff(hist, ranking, i, grey);
    NoBonus(hist, grey);
  }

  lemma NoBonus(hist: seq<HistEntry>, grey: nat)
    requires grey < |hist| && hist[grey].hsv.s == 0.0
    ensures Bonus(hist, grey) == 0.0
  {
    assert Vividness(hist[grey]) == 0.0;
  }

  /** The top candidate is not passed over. */
  lemma NothingAbove(all: seq<Lch>, t: Transforms, chosen: seq<nat>)
    requires Picked(all, t, chosen) && |all| > 0 && |chosen| > 0
    ensures chosen[0] == 0
  {
    assert !TooClose(all, t, chosen, 0);
    assert chosen[0] > 0 ==> 0 !in chosen;
  }

  /** The first pick is the colour that stands before all others. */
  lemma FirstPickLeads(hist: seq<HistEntry>, t: Transforms, picks: seq<Lch>, n: nat, ranking: seq<nat>,
                       chosen: seq<nat>)
    requires Selected(hist, t, picks, n, ranking, chosen) && hist != []
    ensures ranking[0] < |hist| && picks[0] == t.toLch(HsvToRgb(hist[ranking[0]].hsv))
    ensures forall j: nat :: j < |hist| && j != ranking[0] ==> Before(ranking, ranking[0], j)
  {
    assert chosen[0] == 0 by {
      NothingAbove(Candidates(hist, ranking, t), t, chosen);
    }
    forall j: nat | j < |hist| && j != ranking[0] ensures Before(ranking, ranking[0], j) {
      assert j in ranking;
      var b :| 0 <= b < |ranking| && ranking[b] == j;
      assert 0 < b && ranking[0] == ranking[0];
    }
  }

  /** Encoding gives saturation and value from 0 to 1, so the histogram of a sample meets the premise. */
  lemma EncodedIsUnit(c: Rgb)
    requires 0.0 <= c.r <= 1.0 && 0.0 <= c.g <= 1.0 && 0.0 <= c.b <= 1.0
    ensures var x := RgbToHsv(c); 0.0 <= x.s <= 1.0 && 0.0 <= x.v <= 1.0
  {
    var (max, min) := (Max(Max(c.r, c.g), c.b), Min(Min(c.r, c.g), c.b));
    if min < max { Quotient(max - min, max); }
  }
}
