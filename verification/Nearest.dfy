/** The nearest palette entry for a pixel, found by a pruned search from the pixel's own entry. */
module Nearest {
  import opened BoxSplit
  import opened Sorting

  function Square(x: int): nat {
    assert x * x >= 0;
    x * x
  }

  function DistSq(a: Color, b: Color): nat {
    Square(a.r - b.r) + Square(a.g - b.g) + Square(a.b - b.b)
  }

  /** Colours that differ in one channel only are as far apart as the square of that difference. */
  lemma DistanceInOneChannel(a: Color, b: Color, ch: nat)
    requires ch < 3 && forall k: nat :: k < 3 && k != ch ==> a.At(k) == b.At(k)
    ensures DistSq(a, b) == (a.At(ch) - b.At(ch)) * (a.At(ch) - b.At(ch))
  {
    assert a.At(0) == a.r && a.At(1) == a.g && a.At(2) == a.b && b.At(0) == b.r && b.At(1) == b.g && b.At(2) == b.b;
  }

  /** Differences in different channels add up as in a right-angled triangle. */
  lemma DistancesAdd(a: Color, corner: Color, b: Color)
    requires forall ch: nat :: ch < 3 ==> corner.At(ch) == a.At(ch) || corner.At(ch) == b.At(ch)
    ensures DistSq(a, b) == DistSq(a, corner) + DistSq(corner, b)
  {
    ChannelsAdd(a.At(0), corner.At(0), b.At(0));
    ChannelsAdd(a.At(1), corner.At(1), b.At(1));
    ChannelsAdd(a.At(2), corner.At(2), b.At(2));
  }

  lemma ChannelsAdd(x: int, corner: int, y: int)
    requires corner == x || corner == y
    ensures Square(x - y) == Square(x - corner) + Square(corner - y)
  {
  }

  lemma Spread(x: int, y: int, p: int)
    ensures Square(x - y) <= 2 * Square(x - p) + 2 * Square(y - p)
  {
    var (u, v) := (x - p, y - p);
    assert Square(u - v) == u * u - 2 * u * v + v * v;
    assert Square(u + v) == u * u + 2 * u * v + v * v;
  }

  /** An entry more than four times the own distance away from the own entry is farther from the pixel. */
  lemma FarCannotWin(own: Color, other: Color, p: Color)
    ensures DistSq(own, other) > 4 * DistSq(own, p) ==> DistSq(other, p) > DistSq(own, p)
  {
    Spread(own.r, other.r, p.r);
    Spread(own.g, other.g, p.g);
    Spread(own.b, other.b, p.b);
  }

  ghost predicate Entries(palette: seq<Color>, order: seq<nat>) {
    forall k :: 0 <= k < |order| ==> order[k] < |palette|
  }

  function Better(palette: seq<Color>, p: Color, best: nat, idx: nat): nat
    requires best < |palette| && idx < |palette|
  {
    if DistSq(palette[idx], p) < DistSq(palette[best], p) then idx else best
  }

  /** The exhaustive search: every entry in order, keeping strict improvements on `own`. */
  function Scan(palette: seq<Color>, order: seq<nat>, p: Color, own: nat): (best: nat)
    requires own < |palette| && Entries(palette, order)
    ensures best < |palette|
  {
    if |order| == 0 then own
    else Better(palette, p, Scan(palette, order[..|order| - 1], p, own), order[|order| - 1])
  }

  /** Entry `i` comes no later than `j` when searching from `own`. */
  predicate Before(palette: seq<Color>, own: nat, i: nat, j: nat)
    requires own < |palette| && i < |palette| && j < |palette|
  {
    var (di, dj) := (DistSq(palette[own], palette[i]), DistSq(palette[own], palette[j]));
    di < dj || (di == dj && i <= j)
  }

  /** All entries, nearest to `own` first, smaller index first among equals. */
  ghost predicate SearchOrder(palette: seq<Color>, own: nat, order: seq<nat>) {
    && own < |palette| && Entries(palette, order)
    && (forall i, j :: 0 <= i < j < |order| ==> Before(palette, own, order[i], order[j]))
    && (forall e: nat :: e < |palette| ==> e in order)
  }

  /** The nearest entry: the own one if it is among the nearest, else the first of them in search order. */
  ghost predicate IsNearest(palette: seq<Color>, p: Color, own: nat, best: nat) {
    && own < |palette| && best < |palette|
    && (forall e :: 0 <= e < |palette| ==> DistSq(palette[best], p) <= DistSq(palette[e], p))
    && (DistSq(palette[best], p) == DistSq(palette[own], p) ==> best == own)
    && (best != own ==> forall e :: 0 <= e < |palette| && DistSq(palette[e], p) == DistSq(palette[best], p) ==>
         Before(palette, own, best, e))
  }

  /** At most one entry is the nearest. */
  lemma NearestIsUnique(palette: seq<Color>, p: Color, own: nat, a: nat, b: nat)
    ensures IsNearest(palette, p, own, a) && IsNearest(palette, p, own, b) ==> a == b
  {
    if IsNearest(palette, p, own, a) && IsNearest(palette, p, own, b) {
      assert DistSq(palette[a], p) == DistSq(palette[b], p);
    }
  }

  /** The exhaustive search keeps the first of the smallest distances. */
  lemma {:induction false} ScanKeepsFirst(palette: seq<Color>, order: seq<nat>, p: Color, own: nat)
    requires own < |palette| && Entries(palette, order)
    ensures var best := Scan(palette, order, p, own);
      && DistSq(palette[best], p) <= DistSq(palette[own], p)
      && (forall k :: 0 <= k < |order| ==> DistSq(palette[best], p) <= DistSq(palette[order[k]], p))
      && (best == own || FirstBelow(palette, order, p, own, best))
  {
    if |order| > 0 {
      var n := |order| - 1;
      var (rest, last) := (order[..n], order[n]);
      ScanKeepsFirst(palette, rest, p, own);
      var before := Scan(palette, rest, p, own);
      assert forall k :: 0 <= k < n ==> order[k] == rest[k];
      if DistSq(palette[last], p) < DistSq(palette[before], p) {
        assert FirstHit(palette, order, p, own, last, n);
      } else if before != own {
        var m :| FirstHit(palette, rest, p, own, before, m);
        assert FirstHit(palette, order, p, own, before, m);
      }
    }
  }

  ghost predicate FirstHit(palette: seq<Color>, order: seq<nat>, p: Color, own: nat, best: nat, m: nat)
    requires own < |palette| && best < |palette| && Entries(palette, order)
  {
    && m < |order| && order[m] == best && DistSq(palette[best], p) < DistSq(palette[own], p)
    && forall k :: 0 <= k < m ==> DistSq(palette[order[k]], p) > DistSq(palette[best], p)
  }

  ghost predicate FirstBelow(palette: seq<Color>, order: seq<nat>, p: Color, own: nat, best: nat)
    requires own < |palette| && best < |palette| && Entries(palette, order)
  {
    exists m: nat :: FirstHit(palette, order, p, own, best, m)
  }

  /** In search order the exhaustive search finds the nearest entry. */
  lemma {:induction false} ScanFindsNearest(palette: seq<Color>, order: seq<nat>, p: Color, own: nat)
    requires SearchOrder(palette, own, order)
    ensures IsNearest(palette, p, own, Scan(palette, order, p, own))
  {
    var best := Scan(palette, order, p, own);
    ScanKeepsFirst(palette, order, p, own);
    forall e: nat | e < |palette| ensures DistSq(palette[best], p) <= DistSq(palette[e], p) {
      assert e in order;
    }
    if best != own {
      var m: nat :| FirstHit(palette, order, p, own, best, m);
      forall e: nat | e < |palette| && DistSq(palette[e], p) == DistSq(palette[best], p)
        ensures Before(palette, own, best, e)
      {
        assert e in order;
        var k :| 0 <= k < |order| && order[k] == e;
        assert m <= k;
      }
    }
  }

  /** Entries that cannot win do not change what the search finds. */
  lemma {:induction false} UselessTail(palette: seq<Color>, order: seq<nat>, p: Color, own: nat, i: nat, k: nat)
    requires own < |palette| && Entries(palette, order) && i <= k <= |order|
    requires forall j :: i <= j < k ==> DistSq(palette[order[j]], p) > DistSq(palette[own], p)
    ensures Scan(palette, order[..k], p, own) == Scan(palette, order[..i], p, own)
    decreases k - i
  {
    if i < k {
      UselessTail(palette, order, p, own, i, k - 1);
      assert order[..k][..k - 1] == order[..k - 1];
      ScanKeepsFirst(palette, order[..k - 1], p, own);
    }
  }

  /** The search with pruning finds what the exhaustive search finds. */
  method Search(palette: seq<Color>, order: seq<nat>, avg: seq<nat>, p: Color, own: nat) returns (best: nat)
    requires SearchOrder(palette, own, order)
    requires |avg| == |palette| && forall e :: 0 <= e < |palette| ==> avg[e] == DistSq(palette[own], palette[e])
    ensures best == Scan(palette, order, p, own) && IsNearest(palette, p, own, best)
  {
    best := own;
    var bestDist := DistSq(palette[own], p);
    var limit := 4 * bestDist;
    var k := 0;
    while k < |order|
      invariant 0 <= k <= |order|
      invariant best == Scan(palette, order[..k], p, own) && bestDist == DistSq(palette[best], p)
    {
      var idx := order[k];
      if avg[idx] > limit {
        FarEntries(palette, order, p, own, k);
        UselessTail(palette, order, p, own, k, |order|);
        break;
      }
      assert order[..k + 1][..k] == order[..k];
      var d := DistSq(palette[idx], p);
      if d < bestDist {
        bestDist, best := d, idx;
      }
      k := k + 1;
    }
    assert order[..|order|] == order;
    ScanFindsNearest(palette, order, p, own);
  }

  lemma FarEntries(palette: seq<Color>, order: seq<nat>, p: Color, own: nat, k: nat)
    requires SearchOrder(palette, own, order) && k < |order|
    ensures DistSq(palette[own], palette[order[k]]) > 4 * DistSq(palette[own], p) ==>
      forall j :: k <= j < |order| ==> DistSq(palette[order[j]], p) > DistSq(palette[own], p)
  {
    if DistSq(palette[own], palette[order[k]]) > 4 * DistSq(palette[own], p) {
      forall j | k <= j < |order| ensures DistSq(palette[order[j]], p) > DistSq(palette[own], p) {
        assert k == j || Before(palette, own, order[k], order[j]);
        FarCannotWin(palette[own], palette[order[j]], p);
      }
    }
  }

  // ----- the tables -----

  method Distances(palette: seq<Color>, own: nat) returns (avg: seq<nat>)
    requires own < |palette|
    ensures |avg| == |palette| && forall e :: 0 <= e < |palette| ==> avg[e] == DistSq(palette[own], palette[e])
  {
    avg := [];
    for e := 0 to |palette|
      invariant |avg| == e && forall d :: 0 <= d < e ==> avg[d] == DistSq(palette[own], palette[d])
    {
      avg := avg + [DistSq(palette[own], palette[e])];
    }
  }

  method SortRow(palette: seq<Color>, own: nat, avg: seq<nat>) returns (order: seq<nat>)
    requires own < |palette| && |avg| == |palette|
    requires forall e :: 0 <= e < |palette| ==> avg[e] == DistSq(palette[own], palette[e])
    ensures SearchOrder(palette, own, order)
  {
    var row: seq<nat> := seq(|palette|, j => j);
    var le := (a: nat, b: nat) => Key(avg, a) < Key(avg, b) || (Key(avg, a) == Key(avg, b) && a <= b);
    order := Sort<nat>(row, le);
    SameMembers(order, row);
    forall k | 0 <= k < |order| ensures order[k] < |palette| {
      assert order[k] in row;
    }
    forall e: nat | e < |palette| ensures e in order {
      assert row[e] == e;
    }
    forall i, j | 0 <= i < j < |order| ensures Before(palette, own, order[i], order[j]) {
      assert le(order[i], order[j]);
    }
  }

  function Key(avg: seq<nat>, j: nat): nat {
    if j < |avg| then avg[j] else 0
  }
}
