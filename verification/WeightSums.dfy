/** The bicubic weights of a window never cancel out: their sum is positive, whatever the scale and the crop. */
module WeightSums {
  import opened Reals
  import opened Windows

  // ----- the filter -----

  lemma Square(x: real)
    requires 0.0 <= x <= 1.0
    ensures 0.0 <= x * x <= x
  {
    ProductSign(x, x);
    ProductSign(x, 1.0 - x);
  }

  /** The main lobe falls from its centre outward. */
  lemma MainFalls(x: real, y: real)
    requires 0.0 <= x <= y < 1.0
    ensures Bicubic(x) >= Bicubic(y)
  {
    var f := FallFactor(x, y);
    ProductSign(y - x, f);
    assert (y - x) * f == Bicubic(x) - Bicubic(y);
  }

  lemma FallFactor(x: real, y: real) returns (f: real)
    requires 0.0 <= x <= y < 1.0
    ensures f >= 0.0 && f == 2.5 * (x + y) - 1.5 * (x * x + x * y + y * y)
  {
    Square(x);
    Square(y);
    ProductSign(x, 1.0 - y);
    f := 2.5 * (x + y) - 1.5 * (x * x + x * y + y * y);
    AtMost(x, y, x * x, x * y, y * y, x * (1.0 - y));
  }

  lemma AtMost(x: real, y: real, xx: real, xy: real, yy: real, rest: real)
    requires 0.0 <= x <= y && xx <= x && yy <= y && 0.0 <= rest == x - xy
    ensures 2.5 * (x + y) - 1.5 * (xx + xy + yy) >= 0.0
  {
  }

  lemma TierBounds(x: real)
    requires 0.0 <= x
    ensures x <= 0.25 ==> 27.0 * Bicubic(x) >= 23.0
    ensures x <= 0.5 ==> 27.0 * Bicubic(x) >= 15.0
    ensures x <= 0.75 ==> 27.0 * Bicubic(x) >= 6.0
  {
    if x <= 0.75 { MainFalls(x, 0.75); }
    if x <= 0.5 { MainFalls(x, 0.5); }
    if x <= 0.25 { MainFalls(x, 0.25); }
  }

  lemma MainBound(x: real)
    requires 0.0 <= x <= 1.0
    ensures Bicubic(x) >= 0.0
  {
    if x < 1.0 {
      Square(x);
      var f := 1.0 + x - 1.5 * (x * x);
      ProductSign(1.0 - x, f);
      assert (1.0 - x) * f == Bicubic(x);
    }
  }

  /** The negative lobes go no lower than -2/27. */
  lemma LobeBound(x: real)
    requires 1.0 <= x
    ensures 27.0 * Bicubic(x) >= -2.0
  {
    if x < 2.0 {
      var y := x - 1.0;
      var d := 3.0 * y - 1.0;
      SquareSign(d);
      ProductSign(d * d, 4.0 - 3.0 * y);
      assert 27.0 * Bicubic(x) + 2.0 == 0.5 * (d * d * (4.0 - 3.0 * y));
    }
  }

  lemma SquareSign(d: real)
    ensures d * d >= 0.0
  {
    if d >= 0.0 {
      ProductSign(d, d);
    } else {
      ProductSign(-d, -d);
    }
  }

  /** What is left of 19 tenths of a weight, in tenths, when its absolute value is taken away. */
  function Surplus(w: real): real { 19.0 * w - 10.0 * Abs(w) }

  lemma Ratio(a: real, d: real)
    requires a >= 0.0 && d > 0.0
    ensures a <= d / 4.0 ==> a / d <= 0.25
    ensures a <= d / 2.0 ==> a / d <= 0.5
    ensures a <= 0.75 * d ==> a / d <= 0.75
    ensures a <= d ==> a / d <= 1.0
  {
    RatioWithin(a, d, 0.25);
    RatioWithin(a, d, 0.5);
    RatioWithin(a, d, 0.75);
    RatioWithin(a, d, 1.0);
  }

  lemma RatioWithin(a: real, d: real, c: real)
    requires a >= 0.0 && d > 0.0
    ensures a <= c * d ==> a / d <= c
  {
    var q := a / d;
    assert q * d == a;
    if q > c {
      ProductPositive(q - c, d);
      assert (q - c) * d == a - c * d;
    }
  }

  // ----- sums over parts of a window -----

  function Prefix(s: seq<real>, n: nat): real
    requires n <= |s|
  {
    if n == 0 then 0.0 else Prefix(s, n - 1) + s[n - 1]
  }

  lemma {:induction false} PrefixIsSum(s: seq<real>, n: nat)
    requires n <= |s|
    ensures Prefix(s, n) == TapSum(s[..n])
  {
    if n > 0 {
      PrefixIsSum(s, n - 1);
      assert s[..n][..n - 1] == s[..n - 1];
    }
  }

  /** A part whose values are at least `m` 27ths adds at least that many times its length. */
  lemma {:induction false} PartAtLeast(s: seq<real>, lo: nat, hi: nat, m: int)
    requires lo <= hi <= |s| && forall i :: lo <= i < hi ==> 27.0 * s[i] >= m as real
    ensures 27.0 * (Prefix(s, hi) - Prefix(s, lo)) >= (m * (hi - lo)) as real
    decreases hi - lo
  {
    if lo < hi {
      PartAtLeast(s, lo, hi - 1, m);
      assert m * (hi - lo) == m * (hi - 1 - lo) + m;
    }
  }

  // ----- the parts of a window -----

  /** The first sample no more than `r` before the centre, and the first one more than `r` after it. */
  ghost predicate Reach(center: real, r: real, lo: int, hi: int) {
    && center - 0.5 - r <= lo as real < center + 0.5 - r
    && center - 0.5 + r < hi as real <= center + 0.5 + r
  }

  /** The boundaries of the samples within a quarter, a half, three quarters and all of the scale. */
  datatype Tiers = Tiers(lo0: int, hi0: int, lo1: int, hi1: int, lo2: int, hi2: int, lo3: int, hi3: int)
  {
    ghost predicate Of(center: real, scale: real) {
      && Reach(center, scale / 4.0, lo0, hi0) && Reach(center, scale / 2.0, lo1, hi1)
      && Reach(center, 0.75 * scale, lo2, hi2) && Reach(center, scale, lo3, hi3)
    }
  }

  lemma Reaches(center: real, r: real) returns (lo: int, hi: int)
    ensures Reach(center, r, lo, hi)
  {
    lo, hi := Ceil(center - 0.5 - r), (center - 0.5 + r).Floor + 1;
  }

  lemma TiersExist(center: real, scale: real) returns (t: Tiers)
    ensures t.Of(center, scale)
  {
    var lo0, hi0 := Reaches(center, scale / 4.0);
    var lo1, hi1 := Reaches(center, scale / 2.0);
    var lo2, hi2 := Reaches(center, 0.75 * scale);
    var lo3, hi3 := Reaches(center, scale);
    t := Tiers(lo0, hi0, lo1, hi1, lo2, hi2, lo3, hi3);
  }

  /** What the weights need to know about a window. */
  ghost predicate Covers(center: real, scale: real, first: int, end: int) {
    && scale >= 1.0 && first <= center.Floor < end
    && center - 2.0 * scale - 0.5 < first as real && end as real <= center + 2.0 * scale + 0.5
  }

  /** A boundary moved into the window and counted from its start. */
  function Cut(first: int, end: int, e: int): nat
    requires first <= end
  {
    MaxInt(MinInt(e, end), first) - first
  }

  /** How many samples of the window lie between two boundaries. */
  function Between(first: int, end: int, lo: int, hi: int): int
    requires first <= end
  {
    Cut(first, end, hi) - Cut(first, end, lo)
  }

  ghost predicate IsFloor(i: int, x: real) { i as real <= x < (i + 1) as real }

  /** How many samples on one side of the central one lie within each tier, and in the window. */
  datatype Side = Side(n0: int, n1: int, n2: int, n3: int, all: nat)
  {
    /** `d` is how far the central sample lies to this side. */
    ghost predicate Of(s: real, d: real) {
      && IsFloor(n0, s / 4.0 - d) && IsFloor(n1, s / 2.0 - d) && IsFloor(n2, 0.75 * s - d) && IsFloor(n3, s - d)
      && all as real <= 2.0 * s - d
    }
  }

  /** Both sides of the window and the central sample. */
  function Inside(l: int, left: nat, r: int, right: nat): int { MinInt(l, left) + MinInt(r, right) + 1 }

  /** There are enough samples within the tiers to outweigh those of the negative lobes. */
  predicate Enough(within0: int, within1: int, within2: int, outside: int) {
    72 * within0 + 81 * within1 + 54 * within2 > 58 * outside
  }

  ghost predicate SidesOutweigh(l: Side, r: Side) {
    Enough(Inside(l.n0, l.all, r.n0, r.all), Inside(l.n1, l.all, r.n1, r.all), Inside(l.n2, l.all, r.n2, r.all),
           l.all + r.all + 1 - Inside(l.n3, l.all, r.n3, r.all))
  }

  /** Both sides reach beyond the main lobe. */
  ghost predicate Full(l: Side, r: Side) { l.n3 < l.all && r.n3 < r.all }

  ghost predicate LongSides(s: real, d: real, l: Side, r: Side) {
    s >= 1.0 && -0.5 <= d <= 0.5 && l.Of(s, -d) && r.Of(s, d)
  }

  lemma FullNear(s: real, d: real, l: Side, r: Side)
    requires LongSides(s, d, l, r) && s <= 2.0 && d >= 0.0
    ensures Enough(l.n0 + r.n0 + 1, l.n1 + r.n1 + 1, l.n2 + r.n2 + 1, l.all + r.all - l.n3 - r.n3)
  {
    if s < 1.5 { NearOne(s, d, l, r); }
  }

  lemma NearOne(s: real, d: real, l: Side, r: Side)
    requires LongSides(s, d, l, r) && s < 1.5 && d >= 0.0
    ensures Enough(l.n0 + r.n0 + 1, l.n1 + r.n1 + 1, l.n2 + r.n2 + 1, l.all + r.all - l.n3 - r.n3)
  {
  }

  lemma FullMiddle(s: real, d: real, l: Side, r: Side)
    requires LongSides(s, d, l, r) && 2.0 <= s <= 5.0 && d >= 0.0
    ensures Enough(l.n0 + r.n0 + 1, l.n1 + r.n1 + 1, l.n2 + r.n2 + 1, l.all + r.all - l.n3 - r.n3)
  {
  }

  lemma FullFar(s: real, d: real, l: Side, r: Side)
    requires LongSides(s, d, l, r) && s >= 5.0
    ensures Enough(l.n0 + r.n0 + 1, l.n1 + r.n1 + 1, l.n2 + r.n2 + 1, l.all + r.all - l.n3 - r.n3)
  {
  }

  lemma FullOutweigh(s: real, d: real, l: Side, r: Side)
    requires LongSides(s, d, l, r)
    ensures Enough(l.n0 + r.n0 + 1, l.n1 + r.n1 + 1, l.n2 + r.n2 + 1, l.all + r.all - l.n3 - r.n3)
  {
    if s >= 5.0 {
      FullFar(s, d, l, r);
    } else if d < 0.0 {
      if s <= 2.0 { FullNear(s, -d, r, l); } else { FullMiddle(s, -d, r, l); }
    } else {
      if s <= 2.0 { FullNear(s, d, l, r); } else { FullMiddle(s, d, l, r); }
    }
  }

  /** Of the side that ends within the main lobe nothing is counted, and of the central sample what is sure. */
  lemma OneSideOutweighs(s: real, d: real, r: Side, m0: int)
    requires s >= 1.0 && -0.5 <= d <= 0.5 && r.Of(s, d) && m0 == (if d < -s / 4.0 then r.n0 else r.n0 + 1)
    ensures Enough(m0, r.n1 + 1, r.n2 + 1, r.all - r.n3)
  {
  }

  lemma TiersAscend(s: real, d: real, r: Side)
    requires s >= 1.0 && -0.5 <= d <= 0.5 && r.Of(s, d)
    ensures Ascend(r) && (d <= s / 4.0 ==> r.n0 >= 0)
  {
  }

  ghost predicate Ascend(r: Side) { -1 <= r.n0 <= r.n1 <= r.n2 <= r.n3 && r.n1 >= 0 }

  lemma FullCounted(l: Side, r: Side)
    requires Ascend(l) && Ascend(r) && Full(l, r)
    requires Enough(l.n0 + r.n0 + 1, l.n1 + r.n1 + 1, l.n2 + r.n2 + 1, l.all + r.all - l.n3 - r.n3)
    ensures SidesOutweigh(l, r)
  {
  }

  lemma OneSideCounted(l: Side, r: Side, m0: int)
    requires Ascend(l) && Ascend(r) && l.n3 >= l.all && r.n3 < r.all
    requires m0 <= r.n0 + 1 && (m0 <= r.n0 || l.n0 >= 0) && Enough(m0, r.n1 + 1, r.n2 + 1, r.all - r.n3)
    ensures SidesOutweigh(l, r) && SidesOutweigh(r, l)
  {
  }

  lemma NoSideCounted(l: Side, r: Side)
    requires Ascend(l) && Ascend(r) && l.n3 >= l.all && r.n3 >= r.all && (l.n0 >= 0 || r.n0 >= 0)
    ensures SidesOutweigh(l, r)
  {
  }

  lemma AnySidesOutweigh(s: real, d: real, l: Side, r: Side)
    requires LongSides(s, d, l, r)
    ensures SidesOutweigh(l, r)
  {
    TiersAscend(s, d, r);
    TiersAscend(s, -d, l);
    if Full(l, r) {
      FullOutweigh(s, d, l, r);
      FullCounted(l, r);
    } else if r.n3 < r.all {
      var m0 := if d < -s / 4.0 then r.n0 else r.n0 + 1;
      OneSideOutweighs(s, d, r, m0);
      OneSideCounted(l, r, m0);
    } else if l.n3 < l.all {
      var m0 := if -d < -s / 4.0 then l.n0 else l.n0 + 1;
      OneSideOutweighs(s, -d, l, m0);
      OneSideCounted(r, l, m0);
    } else {
      NoSideCounted(l, r);
    }
  }

  ghost predicate Outweighs(first: int, end: int, t: Tiers)
    requires first <= end
  {
    Enough(Between(first, end, t.lo0, t.hi0), Between(first, end, t.lo1, t.hi1), Between(first, end, t.lo2, t.hi2),
           end - first - Between(first, end, t.lo3, t.hi3))
  }

  /** The sides of a window, counted from the sample the centre lies in. */
  lemma WindowSides(center: real, scale: real, first: int, end: int, t: Tiers) returns (d: real, l: Side, r: Side)
    requires Covers(center, scale, first, end) && t.Of(center, scale)
    ensures LongSides(scale, d, l, r)
    ensures var f := center.Floor;
      && l == Side(f - t.lo0, f - t.lo1, f - t.lo2, f - t.lo3, f - first)
      && r == Side(t.hi0 - 1 - f, t.hi1 - 1 - f, t.hi2 - 1 - f, t.hi3 - 1 - f, end - 1 - f)
  {
    var f := center.Floor;
    d := f as real - center + 0.5;
    l := Side(f - t.lo0, f - t.lo1, f - t.lo2, f - t.lo3, f - first);
    r := Side(t.hi0 - 1 - f, t.hi1 - 1 - f, t.hi2 - 1 - f, t.hi3 - 1 - f, end - 1 - f);
  }

  lemma SidesCounted(first: int, end: int, f: int, t: Tiers, l: Side, r: Side)
    requires first <= f < end && Ascend(l) && Ascend(r) && SidesOutweigh(l, r)
    requires l == Side(f - t.lo0, f - t.lo1, f - t.lo2, f - t.lo3, f - first)
    requires r == Side(t.hi0 - 1 - f, t.hi1 - 1 - f, t.hi2 - 1 - f, t.hi3 - 1 - f, end - 1 - f)
    ensures Outweighs(first, end, t)
  {
    SideOf(first, end, f, t.lo0, t.hi0, l.n0, r.n0, l.all, r.all);
    SideOf(first, end, f, t.lo1, t.hi1, l.n1, r.n1, l.all, r.all);
    SideOf(first, end, f, t.lo2, t.hi2, l.n2, r.n2, l.all, r.all);
    SideOf(first, end, f, t.lo3, t.hi3, l.n3, r.n3, l.all, r.all);
  }

  lemma SideOf(first: int, end: int, f: int, lo: int, hi: int, l: int, r: int, left: nat, right: nat)
    requires first <= f < end && lo == f - l && hi == f + 1 + r && l >= -1 && r >= -1
    requires left == f - first && right == end - 1 - f
    ensures Between(first, end, lo, hi) == Inside(l, left, r, right)
  {
  }

  lemma TiersOutweigh(center: real, scale: real, first: int, end: int, t: Tiers)
    requires Covers(center, scale, first, end) && t.Of(center, scale)
    ensures Outweighs(first, end, t)
  {
    var d, l, r := WindowSides(center, scale, first, end, t);
    TiersAscend(scale, d, r);
    TiersAscend(scale, -d, l);
    AnySidesOutweigh(scale, d, l, r);
    SidesCounted(first, end, center.Floor, t, l, r);
  }

  lemma CutMonotone(first: int, end: int, x: int, y: int)
    requires first <= end && x <= y
    ensures 0 <= Cut(first, end, x) <= Cut(first, end, y) <= end - first
  {
  }

  lemma TiersNested(center: real, scale: real, first: int, end: int, t: Tiers)
    requires Covers(center, scale, first, end) && t.Of(center, scale)
    ensures 0 <= Cut(first, end, t.lo3) <= Cut(first, end, t.lo2) <= Cut(first, end, t.lo1) <= Cut(first, end, t.lo0)
              <= Cut(first, end, t.hi0) <= Cut(first, end, t.hi1) <= Cut(first, end, t.hi2) <= Cut(first, end, t.hi3)
              <= end - first
  {
    CutMonotone(first, end, t.lo3, t.lo2);
    CutMonotone(first, end, t.lo2, t.lo1);
    CutMonotone(first, end, t.lo1, t.lo0);
    CutMonotone(first, end, t.lo0, t.hi0);
    CutMonotone(first, end, t.hi0, t.hi1);
    CutMonotone(first, end, t.hi1, t.hi2);
    CutMonotone(first, end, t.hi2, t.hi3);
  }

  // ----- the surplus of a window -----

  /** `v` is the surplus of the weight of sample `j`. */
  ghost predicate IsSurplus(v: real, j: int, center: real, scale: real) {
    IsSurplusOf(v, j as real - center + 0.5, scale)
  }

  ghost predicate IsSurplusOf(v: real, u: real, scale: real) {
    scale >= 1.0 && v == Surplus(Bicubic(u * (1.0 / scale)))
  }

  /** The surpluses of the weights of a window. */
  ghost predicate AreSurpluses(s: seq<real>, center: real, scale: real, first: int, end: int) {
    |s| == end - first && forall i :: 0 <= i < |s| ==> IsSurplus(s[i], i + first, center, scale)
  }

  /** The surplus of a weight `u` source samples from the centre, by how far that is. */
  lemma SurplusBounds(v: real, u: real, scale: real)
    requires IsSurplusOf(v, u, scale)
    ensures SurplusAt(v, Abs(u), scale)
  {
    var x := u * (1.0 / scale);
    assert x == u / scale;
    Ratio(Abs(u), scale);
    assert Abs(x) == Abs(u) / scale;
    assert Bicubic(x) == Bicubic(Abs(x));
    TierBounds(Abs(x));
    if Abs(x) <= 1.0 {
      MainBound(Abs(x));
    } else {
      LobeBound(Abs(x));
    }
  }

  predicate SurplusAt(v: real, d: real, scale: real) {
    && (d <= scale / 4.0 ==> 27.0 * v >= 207.0) && (d <= scale / 2.0 ==> 27.0 * v >= 135.0)
    && (d <= 0.75 * scale ==> 27.0 * v >= 54.0) && (d <= scale ==> 27.0 * v >= 0.0)
    && 27.0 * v >= -58.0
  }

  lemma InReach(center: real, r: real, lo: int, hi: int, first: int, end: int, i: nat)
    requires Reach(center, r, lo, hi) && first <= end && i < end - first
    requires Cut(first, end, lo) <= i < Cut(first, end, hi)
    ensures Abs((i + first) as real - center + 0.5) <= r
  {
  }

  /** What a sample within `r` of the centre has at least as its surplus. */
  predicate IsTier(scale: real, r: real, m: int) {
    || (r == scale / 4.0 && m == 207) || (r == scale / 2.0 && m == 135)
    || (r == 0.75 * scale && m == 54) || (r == scale && m == 0)
  }

  lemma TierSurplus(s: seq<real>, center: real, scale: real, first: int, end: int, r: real, lo: int, hi: int, m: int)
    requires first <= end && AreSurpluses(s, center, scale, first, end)
    requires Reach(center, r, lo, hi) && IsTier(scale, r, m)
    ensures forall i :: Cut(first, end, lo) <= i < Cut(first, end, hi) ==> 27.0 * s[i] >= m as real
  {
    forall i | Cut(first, end, lo) <= i < Cut(first, end, hi) ensures 27.0 * s[i] >= m as real {
      InReach(center, r, lo, hi, first, end, i);
      SurplusBounds(s[i], (i + first) as real - center + 0.5, scale);
    }
  }

  lemma LobeSurplus(s: seq<real>, center: real, scale: real, first: int, end: int)
    requires first <= end && AreSurpluses(s, center, scale, first, end)
    ensures forall i :: 0 <= i < |s| ==> 27.0 * s[i] >= -58.0
  {
    forall i | 0 <= i < |s| ensures 27.0 * s[i] >= -58.0 {
      SurplusBounds(s[i], (i + first) as real - center + 0.5, scale);
    }
  }

  /** The surpluses are at least what their tiers say. */
  ghost predicate Bounded(s: seq<real>, first: int, end: int, t: Tiers) {
    && first <= end && |s| == end - first
    && (forall i :: 0 <= i < |s| ==> 27.0 * s[i] >= -58.0)
    && (forall i :: Cut(first, end, t.lo3) <= i < Cut(first, end, t.hi3) ==> 27.0 * s[i] >= 0.0)
    && (forall i :: Cut(first, end, t.lo2) <= i < Cut(first, end, t.hi2) ==> 27.0 * s[i] >= 54.0)
    && (forall i :: Cut(first, end, t.lo1) <= i < Cut(first, end, t.hi1) ==> 27.0 * s[i] >= 135.0)
    && (forall i :: Cut(first, end, t.lo0) <= i < Cut(first, end, t.hi0) ==> 27.0 * s[i] >= 207.0)
  }

  lemma WindowBounded(s: seq<real>, center: real, scale: real, first: int, end: int, t: Tiers)
    requires Covers(center, scale, first, end) && AreSurpluses(s, center, scale, first, end) && t.Of(center, scale)
    ensures Bounded(s, first, end, t)
  {
    LobeSurplus(s, center, scale, first, end);
    TierSurplus(s, center, scale, first, end, scale, t.lo3, t.hi3, 0);
    TierSurplus(s, center, scale, first, end, 0.75 * scale, t.lo2, t.hi2, 54);
    TierSurplus(s, center, scale, first, end, scale / 2.0, t.lo1, t.hi1, 135);
    TierSurplus(s, center, scale, first, end, scale / 4.0, t.lo0, t.hi0, 207);
  }

  /** The parts of a window, from the outside in, at the given positions. */
  lemma {:induction false} PartsSum(s: seq<real>, p3: nat, p2: nat, p1: nat, p0: nat, q0: nat, q1: nat, q2: nat,
                                    q3: nat)
    requires p3 <= p2 <= p1 <= p0 <= q0 <= q1 <= q2 <= q3 <= |s|
    requires forall i :: 0 <= i < |s| ==> 27.0 * s[i] >= -58.0
    requires forall i :: p3 <= i < q3 ==> 27.0 * s[i] >= 0.0
    requires forall i :: p2 <= i < q2 ==> 27.0 * s[i] >= 54.0
    requires forall i :: p1 <= i < q1 ==> 27.0 * s[i] >= 135.0
    requires forall i :: p0 <= i < q0 ==> 27.0 * s[i] >= 207.0
    ensures 27.0 * TapSum(s) >= (72 * (q0 - p0) + 81 * (q1 - p1) + 54 * (q2 - p2) - 58 * (|s| - (q3 - p3))) as real
  {
    PartAtLeast(s, 0, p3, -58);
    PartAtLeast(s, p3, p2, 0);
    PartAtLeast(s, p2, p1, 54);
    PartAtLeast(s, p1, p0, 135);
    PartAtLeast(s, p0, q0, 207);
    PartAtLeast(s, q0, q1, 135);
    PartAtLeast(s, q1, q2, 54);
    PartAtLeast(s, q2, q3, 0);
    PartAtLeast(s, q3, |s|, -58);
    PrefixIsSum(s, |s|);
    assert s[..|s|] == s;
  }

  /** The weights of a window have a positive total surplus. */
  lemma {:induction false} SurplusPositive(s: seq<real>, center: real, scale: real, first: int, end: int)
    requires Covers(center, scale, first, end) && AreSurpluses(s, center, scale, first, end)
    ensures TapSum(s) > 0.0
  {
    var t := TiersExist(center, scale);
    TiersNested(center, scale, first, end, t);
    WindowBounded(s, center, scale, first, end, t);
    TiersOutweigh(center, scale, first, end, t);
    BoundedPositive(s, first, end, t);
  }

  lemma {:induction false} BoundedPositive(s: seq<real>, first: int, end: int, t: Tiers)
    requires Bounded(s, first, end, t) && Outweighs(first, end, t)
    requires Cut(first, end, t.lo3) <= Cut(first, end, t.lo2) <= Cut(first, end, t.lo1) <= Cut(first, end, t.lo0)
               <= Cut(first, end, t.hi0) <= Cut(first, end, t.hi1) <= Cut(first, end, t.hi2) <= Cut(first, end, t.hi3)
               <= |s|
    ensures TapSum(s) > 0.0
  {
    PartsSum(s, Cut(first, end, t.lo3), Cut(first, end, t.lo2), Cut(first, end, t.lo1), Cut(first, end, t.lo0),
             Cut(first, end, t.hi0), Cut(first, end, t.hi1), Cut(first, end, t.hi2), Cut(first, end, t.hi3));
  }

  function AbsSum(s: seq<real>): (r: real)
    ensures Abs(TapSum(s)) <= r
  {
    if |s| == 0 then 0.0 else AbsSum(s[..|s| - 1]) + Abs(s[|s| - 1])
  }

  function Surpluses(s: seq<real>): (v: seq<real>)
    ensures |v| == |s| && forall i :: 0 <= i < |s| ==> v[i] == Surplus(s[i])
  {
    seq(|s|, i requires 0 <= i < |s| => Surplus(s[i]))
  }

  lemma {:induction false} SurplusSum(s: seq<real>, v: seq<real>)
    requires |v| == |s| && forall i :: 0 <= i < |s| ==> v[i] == Surplus(s[i])
    ensures TapSum(v) == 19.0 * TapSum(s) - 10.0 * AbsSum(s)
  {
    if |s| > 0 {
      SurplusSum(s[..|s| - 1], v[..|s| - 1]);
    }
  }

  ghost predicate IsWeight(w: real, j: int, center: real, scale: real) {
    scale >= 1.0 && w == WeightOf(j, center, scale)
  }

  lemma WeightSurplus(w: real, j: int, center: real, scale: real)
    requires IsWeight(w, j, center, scale)
    ensures IsSurplus(Surplus(w), j, center, scale)
  {
    var u := j as real - center + 0.5;
    assert w == Bicubic(u * (1.0 / scale));
  }

  /** The absolute values of a window's weights sum to less than 19 tenths of what the weights sum to. */
  lemma LittleCancels(g: Axis, xx: nat)
    requires g.Valid() && xx < g.outSize
    ensures 10.0 * AbsSum(RawTaps(g, xx)) < 19.0 * TapSum(RawTaps(g, xx))
  {
    WindowReach(g, xx);
    var s := RawTaps(g, xx);
    var v := Surpluses(s);
    WindowSurpluses(g, xx, v);
    SurplusPositive(v, g.Center(xx), g.FilterScale(), g.First(xx), g.End(xx));
    SurplusSum(s, v);
  }

  lemma WindowSurpluses(g: Axis, xx: nat, v: seq<real>)
    requires g.Valid() && xx < g.outSize && v == Surpluses(RawTaps(g, xx))
    ensures AreSurpluses(v, g.Center(xx), g.FilterScale(), g.First(xx), g.End(xx))
  {
    WindowFits(g, xx);
    var s := RawTaps(g, xx);
    forall i | 0 <= i < |s| ensures IsWeight(s[i], i + g.First(xx), g.Center(xx), g.FilterScale()) {
      assert s[i] == RawTap(g, xx, i);
    }
    SurplusesOfWeights(s, v, g.Center(xx), g.FilterScale(), g.First(xx), g.End(xx));
  }

  lemma SurplusesOfWeights(s: seq<real>, v: seq<real>, center: real, scale: real, first: int, end: int)
    requires v == Surpluses(s) && |s| == end - first
    requires forall i :: 0 <= i < |s| ==> IsWeight(s[i], i + first, center, scale)
    ensures AreSurpluses(v, center, scale, first, end)
  {
    forall i | 0 <= i < |v| ensures IsSurplus(v[i], i + first, center, scale) {
      WeightSurplus(s[i], i + first, center, scale);
    }
  }

  /** The sum the weights are divided by is never zero, so normalised weights always sum to one. */
  lemma WeightsSumPositive(g: Axis, xx: nat)
    requires g.Valid() && xx < g.outSize
    ensures TapSum(RawTaps(g, xx)) > 0.0 && TapSum(Normalized(RawTaps(g, xx))) == 1.0
  {
    LittleCancels(g, xx);
    NormalizedSum(RawTaps(g, xx));
  }
}
