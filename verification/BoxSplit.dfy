/** One cut of the median cut: a box of histogram entries is divided along its widest weighted axis. */
module BoxSplit {
  import opened Types
  import opened Sorting

  type Byte = x: nat | x < 256

  datatype Color = Color(r: Byte, g: Byte, b: Byte)
  {
    function At(axis: nat): Byte
      requires axis < 3
    {
      if axis == 0 then r else if axis == 1 then g else b
    }
  }

  /** One distinct colour and how many pixels have it. */
  datatype Entry = Entry(color: Color, count: nat)

  datatype BoxNode = BoxNode(entries: seq<Entry>, pixelCount: nat, children: Option<(nat, nat)>)

  function Total(entries: seq<Entry>): nat {
    if |entries| == 0 then 0 else Total(entries[..|entries| - 1]) + entries[|entries| - 1].count
  }

  /** The pixels of entries whose value on `axis` is at least `v`. */
  function Weight(entries: seq<Entry>, axis: nat, v: nat): nat
    requires axis < 3
  {
    if |entries| == 0 then 0
    else
      var last := entries[|entries| - 1];
      Weight(entries[..|entries| - 1], axis, v) + if last.color.At(axis) >= v then last.count else 0
  }

  // ----- extents -----

  /** The smallest value on `axis`; 0 without entries. */
  function Lo(entries: seq<Entry>, axis: nat): Byte
    requires axis < 3
  {
    if |entries| == 0 then 0
    else
      var n := |entries| - 1;
      var (rest, v) := (Lo(entries[..n], axis), entries[n].color.At(axis));
      if n == 0 || v < rest then v else rest
  }

  /** The largest value on `axis`; 0 without entries. */
  function Hi(entries: seq<Entry>, axis: nat): Byte
    requires axis < 3
  {
    if |entries| == 0 then 0
    else
      var n := |entries| - 1;
      var (rest, v) := (Hi(entries[..n], axis), entries[n].color.At(axis));
      if n == 0 || v > rest then v else rest
  }

  /** `lo` and `hi` are the smallest and the largest value on `axis`. */
  ghost predicate Spans(entries: seq<Entry>, axis: nat, lo: nat, hi: nat)
    requires axis < 3
  {
    && (forall k :: 0 <= k < |entries| ==> lo <= entries[k].color.At(axis) <= hi)
    && (exists k :: 0 <= k < |entries| && entries[k].color.At(axis) == lo)
    && (exists k :: 0 <= k < |entries| && entries[k].color.At(axis) == hi)
  }

  lemma {:induction false} ExtremesSpan(entries: seq<Entry>, axis: nat)
    requires axis < 3 && |entries| > 0
    ensures Spans(entries, axis, Lo(entries, axis), Hi(entries, axis))
  {
    var n := |entries| - 1;
    if n > 0 {
      var rest := entries[..n];
      ExtremesSpan(rest, axis);
      var i :| 0 <= i < n && rest[i].color.At(axis) == Lo(rest, axis);
      var j :| 0 <= j < n && rest[j].color.At(axis) == Hi(rest, axis);
      assert entries[i] == rest[i] && entries[j] == rest[j];
      assert forall k :: 0 <= k < n ==> entries[k] == rest[k];
    }
    assert entries[n].color.At(axis) <= Hi(entries, axis);
  }

  lemma {:induction false} LoAtMostHi(entries: seq<Entry>, axis: nat)
    requires axis < 3
    ensures Lo(entries, axis) <= Hi(entries, axis)
  {
    if |entries| > 0 {
      ExtremesSpan(entries, axis);
    }
  }

  lemma {:induction false} RangeStep(entries: seq<Entry>, e: Entry, axis: nat)
    requires axis < 3 && |entries| > 0
    ensures var v := e.color.At(axis);
      && Lo(entries + [e], axis) == (if v < Lo(entries, axis) then v else Lo(entries, axis))
      && Hi(entries + [e], axis) == (if v > Hi(entries, axis) then v else Hi(entries, axis))
  {
    assert (entries + [e])[..|entries|] == entries;
  }

  method Range(entries: seq<Entry>, axis: nat) returns (lo: nat, hi: nat)
    requires axis < 3
    ensures lo == Lo(entries, axis) && hi == Hi(entries, axis) && lo <= hi
  {
    LoAtMostHi(entries, axis);
    if |entries| == 0 {
      return 0, 0;
    }
    lo, hi := entries[0].color.At(axis), entries[0].color.At(axis);
    for i := 1 to |entries|
      invariant lo == Lo(entries[..i], axis) && hi == Hi(entries[..i], axis)
    {
      var v := entries[i].color.At(axis);
      RangeStep(entries[..i], entries[i], axis);
      assert entries[..i] + [entries[i]] == entries[..i + 1];
      lo, hi := if v < lo then v else lo, if v > hi then v else hi;
    }
    assert entries[..|entries|] == entries;
  }

  /** All entries have the same colour. */
  ghost predicate Uniform(entries: seq<Entry>) {
    forall i, j :: 0 <= i < |entries| && 0 <= j < |entries| ==> entries[i].color == entries[j].color
  }

  ghost predicate Flat(entries: seq<Entry>, axis: nat)
    requires axis < 3
  {
    Lo(entries, axis) == Hi(entries, axis)
  }

  lemma FlatIsUniform(entries: seq<Entry>)
    ensures Uniform(entries) <==> Flat(entries, 0) && Flat(entries, 1) && Flat(entries, 2)
  {
    if |entries| == 0 {
      return;
    }
    ExtremesSpan(entries, 0);
    ExtremesSpan(entries, 1);
    ExtremesSpan(entries, 2);
    if Flat(entries, 0) && Flat(entries, 1) && Flat(entries, 2) {
      forall i, j | 0 <= i < |entries| && 0 <= j < |entries| ensures entries[i].color == entries[j].color {
        assert forall a :: 0 <= a < 3 ==> entries[i].color.At(a) == entries[j].color.At(a);
        assert entries[i].color.At(0) == entries[j].color.At(0);
        assert entries[i].color.At(1) == entries[j].color.At(1);
        assert entries[i].color.At(2) == entries[j].color.At(2);
      }
    }
  }

  /** The number of grid points in the bounding box: 1 exactly for one colour, 0 exactly for none. */
  method Volume(entries: seq<Entry>) returns (v: nat)
    ensures v == 0 <==> |entries| == 0
    ensures v == 1 <==> |entries| > 0 && Uniform(entries)
  {
    if |entries| == 0 {
      return 0;
    }
    var rl, rh := Range(entries, 0);
    var gl, gh := Range(entries, 1);
    var bl, bh := Range(entries, 2);
    FlatIsUniform(entries);
    v := Product(rh - rl + 1, gh - gl + 1, bh - bl + 1);
  }

  function Product(a: nat, b: nat, c: nat): (v: nat)
    requires a >= 1 && b >= 1 && c >= 1
    ensures v >= 1 && (v == 1 <==> a == 1 && b == 1 && c == 1)
  {
    Times(a, b);
    Times(a * b, c);
    a * b * c
  }

  lemma Times(a: nat, b: nat)
    requires a >= 1 && b >= 1
    ensures a * b >= 1 && (a * b == 1 <==> a == 1 && b == 1)
  {
    assert a * b >= a && a * b >= b;
  }

  // ----- the axis -----

  const AXIS_WEIGHTS: seq<nat> := [77, 150, 29]

  function Extent(entries: seq<Entry>, axis: nat): int
    requires axis < 3
  {
    (Hi(entries, axis) - Lo(entries, axis)) * AXIS_WEIGHTS[axis]
  }

  /** `axis` has the largest weighted extent, and earlier axes have strictly less. */
  ghost predicate Widest(entries: seq<Entry>, axis: nat) {
    && axis < 3
    && (forall a :: 0 <= a < axis ==> Extent(entries, a) < Extent(entries, axis))
    && (forall a :: axis <= a < 3 ==> Extent(entries, a) <= Extent(entries, axis))
  }

  /**
   * Which axis is widest, in terms of the spans of the channels: green counts nearly twice as much
   * as red and five times as much as blue, and red and green go before what is no more than equal.
   */
  lemma {:induction false} WidestBySpans(entries: seq<Entry>, r0: nat, r1: nat, g0: nat, g1: nat, b0: nat, b1: nat)
    requires |entries| > 0 && Spans(entries, 0, r0, r1) && Spans(entries, 1, g0, g1) && Spans(entries, 2, b0, b1)
    ensures var (r, g, b) := (77 * (r1 - r0), 150 * (g1 - g0), 29 * (b1 - b0));
      && (Widest(entries, 0) <==> r >= g && r >= b)
      && (Widest(entries, 1) <==> g > r && g >= b)
      && (Widest(entries, 2) <==> b > r && b > g)
  {
    SpanIsUnique(entries, 0, r0, r1);
    SpanIsUnique(entries, 1, g0, g1);
    SpanIsUnique(entries, 2, b0, b1);
    assert Extent(entries, 0) == 77 * (r1 - r0);
    assert Extent(entries, 1) == 150 * (g1 - g0);
    assert Extent(entries, 2) == 29 * (b1 - b0);
  }

  lemma {:induction false} SpanIsUnique(entries: seq<Entry>, axis: nat, lo: nat, hi: nat)
    requires axis < 3 && |entries| > 0 && Spans(entries, axis, lo, hi)
    ensures Lo(entries, axis) == lo && Hi(entries, axis) == hi
  {
    ExtremesSpan(entries, axis);
  }

  method WidestAxis(entries: seq<Entry>) returns (axis: nat)
    ensures Widest(entries, axis)
  {
    var best: int := -1;
    axis := 0;
    for i := 0 to 3
      invariant i == 0 ==> best == -1 && axis == 0
      invariant i > 0 ==> axis < i && best == Extent(entries, axis)
      invariant forall a :: 0 <= a < i ==> Extent(entries, a) <= best
      invariant i > 0 ==> forall a :: 0 <= a < axis ==> Extent(entries, a) < best
    {
      var lo, hi := Range(entries, i);
      var f := (hi - lo) * AXIS_WEIGHTS[i];
      assert f == Extent(entries, i) && f >= 0;
      if best < f {
        best, axis := f, i;
      }
    }
  }

  lemma ExtentIsPositive(entries: seq<Entry>, axis: nat)
    requires axis < 3
    ensures Extent(entries, axis) > 0 <==> !Flat(entries, axis)
  {
    LoAtMostHi(entries, axis);
    assert AXIS_WEIGHTS[axis] > 0;
  }

  /** Boxes of more than one colour are cut along an axis on which they extend. */
  lemma WidestExtends(entries: seq<Entry>, axis: nat)
    requires !Uniform(entries) && Widest(entries, axis)
    ensures !Flat(entries, axis)
  {
    FlatIsUniform(entries);
    ExtentIsPositive(entries, axis);
    for a := 0 to 3
      invariant Flat(entries, axis) ==> forall b :: 0 <= b < a ==> Flat(entries, b)
    {
      ExtentIsPositive(entries, a);
    }
  }

  // ----- the cut -----

  predicate AtLeast(entries: seq<Entry>, axis: nat, v: nat)
    requires axis < 3
  {
    forall k :: 0 <= k < |entries| ==> entries[k].color.At(axis) >= v
  }

  predicate Below(entries: seq<Entry>, axis: nat, v: nat)
    requires axis < 3
  {
    forall k :: 0 <= k < |entries| ==> entries[k].color.At(axis) < v
  }

  predicate OneValue(entries: seq<Entry>, axis: nat)
    requires axis < 3
  {
    forall i, j :: 0 <= i < |entries| && 0 <= j < |entries| ==>
      entries[i].color.At(axis) == entries[j].color.At(axis)
  }

  /**
   * `left` and `right` are the entries from value `cut` up and those below it, and `cut` is the
   * pixel-count median: the last value needed for more than half of the pixels. When the median
   * is the smallest value, the right side is exactly the entries with that value.
   */
  ghost predicate MedianCut(left: seq<Entry>, right: seq<Entry>, axis: nat, cut: nat)
    requires axis < 3
  {
    && |left| > 0 && |right| > 0
    && AtLeast(left, axis, cut) && Below(right, axis, cut)
    && var all := Total(left) + Total(right);
      if 2 * Total(left) > all then 2 * Weight(left, axis, cut + 1) <= all
      else OneValue(right, axis)
  }

  predicate Descends(entries: seq<Entry>, axis: nat)
    requires axis < 3
  {
    forall i, j :: 0 <= i <= j < |entries| ==> entries[i].color.At(axis) >= entries[j].color.At(axis)
  }

  lemma {:induction false} TotalPrefix(entries: seq<Entry>, i: nat, j: nat)
    requires i <= j <= |entries|
    ensures Total(entries[..i]) <= Total(entries[..j])
    decreases j - i
  {
    if i < j {
      assert entries[..j][..j - 1] == entries[..j - 1];
      TotalPrefix(entries, i, j - 1);
    }
  }

  lemma {:induction false} TotalAppend(a: seq<Entry>, b: seq<Entry>)
    ensures Total(a + b) == Total(a) + Total(b)
  {
    if |b| == 0 {
      assert a + b == a;
    } else {
      assert (a + b)[..|a + b| - 1] == a + b[..|b| - 1];
      TotalAppend(a, b[..|b| - 1]);
    }
  }

  lemma {:induction false} TotalWithout(s: seq<Entry>, k: nat)
    requires k < |s|
    ensures Total(s) == Total(s[..k] + s[k + 1..]) + s[k].count
  {
    TotalCut(s, k);
    TotalCut(s[k..], 1);
    assert s[k..][..1] == [s[k]] && s[k..][1..] == s[k + 1..];
    assert Total([s[k]]) == Total([]) + s[k].count by {
      assert [s[k]][..0] == [];
    }
    TotalAppend(s[..k], s[k + 1..]);
  }

  lemma Without<T>(s: seq<T>, k: nat)
    requires k < |s|
    ensures multiset(s[..k] + s[k + 1..]) == multiset(s) - multiset{s[k]}
  {
    assert s == s[..k] + [s[k]] + s[k + 1..];
  }

  /** The total does not depend on the order. */
  lemma {:induction false} TotalPermuted(a: seq<Entry>, b: seq<Entry>)
    requires multiset(a) == multiset(b)
    ensures Total(a) == Total(b)
    decreases |a|
  {
    SameMembers(a, b);
    if |a| > 0 {
      assert a[0] in b;
      var k :| 0 <= k < |b| && b[k] == a[0];
      TotalWithout(a, 0);
      TotalWithout(b, k);
      Without(a, 0);
      Without(b, k);
      TotalPermuted(a[..0] + a[1..], b[..k] + b[k + 1..]);
    }
  }

  /** Entries past `p` that are below `v` weigh nothing from `v` up. */
  lemma {:induction false} WeightWithin(entries: seq<Entry>, axis: nat, v: nat, p: nat)
    requires axis < 3 && p <= |entries| && Below(entries[p..], axis, v)
    ensures Weight(entries, axis, v) <= Total(entries[..p])
    decreases |entries|
  {
    if |entries| > 0 {
      var n := |entries| - 1;
      var rest := entries[..n];
      if p == |entries| {
        assert rest[n..] == [];
        WeightWithin(rest, axis, v, n);
        assert entries[..p][..n] == rest[..n] == rest && entries[..p][n] == entries[n];
      } else {
        assert rest[..p] == entries[..p] && rest[p..] == entries[p..][..n - p] && entries[p..][n - p] == entries[n];
        WeightWithin(rest, axis, v, p);
      }
    }
  }

  ghost predicate Counted(entries: seq<Entry>) {
    forall k :: 0 <= k < |entries| ==> entries[k].count > 0
  }

  /** The shortest prefix with more than half of the pixels. */
  method HalfWay(sorted: seq<Entry>, total: nat) returns (n: nat)
    requires |sorted| > 0 && total == Total(sorted) > 0
    ensures 1 <= n <= |sorted|
    ensures 2 * Total(sorted[..n]) > total && 2 * Total(sorted[..n - 1]) <= total
  {
    n := 0;
    var left := 0;
    while n < |sorted|
      invariant 0 <= n <= |sorted| && left == Total(sorted[..n])
      invariant 2 * left <= total
      invariant n == |sorted| ==> left == total
    {
      assert sorted[..n + 1][..n] == sorted[..n];
      left := left + sorted[n].count;
      n := n + 1;
      assert n == |sorted| ==> sorted[..n] == sorted;
      if 2 * left > total {
        break;
      }
    }
  }

  /** Where to cut descending entries: after the median value, or before it if it is the last one. */
  method CutPoint(sorted: seq<Entry>, axis: nat, total: nat) returns (n: nat, ghost cut: nat)
    requires axis < 3 && Descends(sorted, axis) && total == Total(sorted) > 0
    requires |sorted| > 0 && sorted[0].color.At(axis) > sorted[|sorted| - 1].color.At(axis)
    ensures n <= |sorted| && MedianCut(sorted[..n], sorted[n..], axis, cut)
  {
    n := HalfWay(sorted, total);
    ghost var half := n;
    var median := sorted[n - 1].color.At(axis);
    if n < |sorted| {
      while n < |sorted| && sorted[n].color.At(axis) == median
        invariant half <= n <= |sorted|
        invariant forall k :: half - 1 <= k < n ==> sorted[k].color.At(axis) == median
      {
        n := n + 1;
      }
    }
    if n == |sorted| {
      var tail := sorted[|sorted| - 1].color.At(axis);
      while n > 0 && sorted[n - 1].color.At(axis) == tail
        invariant 0 <= n <= |sorted|
        invariant forall k :: n <= k < |sorted| ==> sorted[k].color.At(axis) == tail
      {
        n := n - 1;
      }
      cut := tail + 1;
      CutBeforeTail(sorted, axis, n, half);
    } else {
      cut := median;
      CutAfterMedian(sorted, axis, n, half);
    }
  }

  lemma HighSide(sorted: seq<Entry>, axis: nat, n: nat, v: nat)
    requires axis < 3 && Descends(sorted, axis) && 0 < n <= |sorted| && sorted[n - 1].color.At(axis) >= v
    ensures AtLeast(sorted[..n], axis, v)
  {
    var last := sorted[n - 1].color.At(axis);
    forall k | 0 <= k < |sorted[..n]| ensures sorted[..n][k].color.At(axis) >= v {
      assert sorted[..n][k] == sorted[k];
      assert sorted[k].color.At(axis) >= last;
    }
  }

  lemma LowSide(sorted: seq<Entry>, axis: nat, n: nat, v: nat)
    requires axis < 3 && Descends(sorted, axis) && n < |sorted| && sorted[n].color.At(axis) < v
    ensures Below(sorted[n..], axis, v)
  {
    var first := sorted[n].color.At(axis);
    forall k | 0 <= k < |sorted[n..]| ensures sorted[n..][k].color.At(axis) < v {
      assert sorted[n..][k] == sorted[n + k];
      assert first >= sorted[n + k].color.At(axis);
    }
  }

  lemma {:induction false} TotalCut(entries: seq<Entry>, n: nat)
    requires n <= |entries|
    ensures Total(entries[..n]) + Total(entries[n..]) == Total(entries)
  {
    assert entries == entries[..n] + entries[n..];
    TotalAppend(entries[..n], entries[n..]);
  }

  lemma {:induction false} CutAfterMedian(sorted: seq<Entry>, axis: nat, n: nat, half: nat)
    requires axis < 3 && Descends(sorted, axis) && 1 <= half <= n < |sorted|
    requires 2 * Total(sorted[..half]) > Total(sorted) && 2 * Total(sorted[..half - 1]) <= Total(sorted)
    requires sorted[half - 1].color.At(axis) == sorted[n - 1].color.At(axis) > sorted[n].color.At(axis)
    ensures MedianCut(sorted[..n], sorted[n..], axis, sorted[half - 1].color.At(axis))
  {
    var (left, v: nat) := (sorted[..n], sorted[half - 1].color.At(axis));
    HighSide(sorted, axis, n, v);
    LowSide(sorted, axis, n, v);
    TotalCut(sorted, n);
    TotalPrefix(sorted, half, n);
    MedianWeight(sorted, axis, n, half);
  }

  lemma {:induction false} MedianWeight(sorted: seq<Entry>, axis: nat, n: nat, half: nat)
    requires axis < 3 && Descends(sorted, axis) && 1 <= half <= n < |sorted|
    ensures Weight(sorted[..n], axis, sorted[half - 1].color.At(axis) + 1) <= Total(sorted[..half - 1])
  {
    var (left, v: nat) := (sorted[..n], sorted[half - 1].color.At(axis));
    var past := left[half - 1..];
    forall k | 0 <= k < |past| ensures past[k].color.At(axis) < v + 1 {
      assert past[k] == sorted[half - 1 + k];
      assert v >= sorted[half - 1 + k].color.At(axis);
    }
    WeightWithin(left, axis, v + 1, half - 1);
    assert left[..half - 1] == sorted[..half - 1];
  }

  lemma {:induction false} CutBeforeTail(sorted: seq<Entry>, axis: nat, n: nat, half: nat)
    requires axis < 3 && Descends(sorted, axis) && 1 <= half <= |sorted| && 0 < n < |sorted|
    requires 2 * Total(sorted[..half - 1]) <= Total(sorted)
    requires forall k :: half - 1 <= k < |sorted| ==> sorted[k].color.At(axis) == sorted[|sorted| - 1].color.At(axis)
    requires forall k :: n <= k < |sorted| ==> sorted[k].color.At(axis) == sorted[|sorted| - 1].color.At(axis)
    requires sorted[n - 1].color.At(axis) > sorted[|sorted| - 1].color.At(axis)
    ensures MedianCut(sorted[..n], sorted[n..], axis, sorted[|sorted| - 1].color.At(axis) + 1)
  {
    var tail: nat := sorted[|sorted| - 1].color.At(axis);
    HighSide(sorted, axis, n, tail + 1);
    LowSide(sorted, axis, n, tail + 1);
    TotalCut(sorted, n);
    assert n < half;
    TotalPrefix(sorted, n, half - 1);
    AllEqual(sorted[n..], axis, sorted[|sorted| - 1].color.At(axis));
  }

  lemma AllEqual(entries: seq<Entry>, axis: nat, v: nat)
    requires axis < 3 && forall k :: 0 <= k < |entries| ==> entries[k].color.At(axis) == v
    ensures OneValue(entries, axis)
  {
  }

  method SortAlong(entries: seq<Entry>, axis: nat) returns (sorted: seq<Entry>)
    requires axis < 3
    ensures Descends(sorted, axis) && multiset(sorted) == multiset(entries)
  {
    var le := (a: Entry, b: Entry) => a.color.At(axis) >= b.color.At(axis);
    sorted := Sort(entries, le);
    forall i, j | 0 <= i <= j < |sorted| ensures sorted[i].color.At(axis) >= sorted[j].color.At(axis) {
      assert i == j || le(sorted[i], sorted[j]);
    }
  }

  /** Cuts a box of more than one colour in two along its widest weighted axis, at the pixel-count median. */
  method Split(node: BoxNode) returns (l: BoxNode, r: BoxNode, ghost axis: nat, ghost cut: nat)
    requires !Uniform(node.entries) && Counted(node.entries) && node.pixelCount == Total(node.entries)
    ensures Widest(node.entries, axis) && MedianCut(l.entries, r.entries, axis, cut)
    ensures multiset(l.entries) + multiset(r.entries) == multiset(node.entries)
    ensures l.pixelCount == Total(l.entries) && r.pixelCount == Total(r.entries)
    ensures l.pixelCount + r.pixelCount == node.pixelCount
    ensures l.children.None? && r.children.None?
  {
    var along := WidestAxis(node.entries);
    axis := along;
    var sorted := SortAlong(node.entries, along);
    TotalPermuted(node.entries, sorted);
    EndsDiffer(node.entries, sorted, axis);
    var n;
    n, cut := CutPoint(sorted, along, node.pixelCount);
    assert sorted == sorted[..n] + sorted[n..];
    TotalAppend(sorted[..n], sorted[n..]);
    var lt := Sum(sorted[..n]);
    var rt := Sum(sorted[n..]);
    l, r := BoxNode(sorted[..n], lt, None), BoxNode(sorted[n..], rt, None);
  }

  method Sum(entries: seq<Entry>) returns (total: nat)
    ensures total == Total(entries)
  {
    total := 0;
    for i := 0 to |entries|
      invariant total == Total(entries[..i])
    {
      assert entries[..i + 1][..i] == entries[..i];
      total := total + entries[i].count;
    }
    assert entries[..|entries|] == entries;
  }

  lemma {:induction false} EndsDiffer(entries: seq<Entry>, sorted: seq<Entry>, axis: nat)
    requires !Uniform(entries) && Counted(entries) && Widest(entries, axis)
    requires multiset(sorted) == multiset(entries) && Descends(sorted, axis)
    ensures |sorted| > 0 && Total(sorted) > 0
    ensures sorted[0].color.At(axis) > sorted[|sorted| - 1].color.At(axis)
  {
    SameMembers(sorted, entries);
    WidestExtends(entries, axis);
    ExtremesSpan(entries, axis);
    var i :| 0 <= i < |entries| && entries[i].color.At(axis) == Lo(entries, axis);
    var j :| 0 <= j < |entries| && entries[j].color.At(axis) == Hi(entries, axis);
    assert entries[i] in sorted && entries[j] in sorted;
    var p :| 0 <= p < |sorted| && sorted[p] == entries[i];
    var q :| 0 <= q < |sorted| && sorted[q] == entries[j];
    var last := sorted[|sorted| - 1];
    assert last in entries;
  }

  // ----- the cut is determined -----

  lemma {:induction false} WeightAppend(a: seq<Entry>, b: seq<Entry>, axis: nat, v: nat)
    requires axis < 3
    ensures Weight(a + b, axis, v) == Weight(a, axis, v) + Weight(b, axis, v)
  {
    if |b| == 0 {
      assert a + b == a;
    } else {
      assert (a + b)[..|a + b| - 1] == a + b[..|b| - 1];
      WeightAppend(a, b[..|b| - 1], axis, v);
    }
  }

  lemma {:induction false} WeightWithout(s: seq<Entry>, k: nat, axis: nat, v: nat)
    requires axis < 3 && k < |s| && s[k].color.At(axis) >= v
    ensures Weight(s, axis, v) == Weight(s[..k] + s[k + 1..], axis, v) + s[k].count
  {
    assert s == s[..k] + s[k..] && s[k..] == [s[k]] + s[k + 1..];
    WeightAppend(s[..k], s[k..], axis, v);
    WeightAppend([s[k]], s[k + 1..], axis, v);
    WeightAppend(s[..k], s[k + 1..], axis, v);
    assert Weight([s[k]], axis, v) == s[k].count by {
      assert [s[k]][..0] == [];
    }
  }

  /** Entries from `v` up that are all among `big` weigh no more than `big` does from `v` up. */
  lemma {:induction false} Dominated(small: seq<Entry>, big: seq<Entry>, axis: nat, v: nat)
    requires axis < 3 && multiset(small) <= multiset(big) && AtLeast(small, axis, v)
    ensures Total(small) <= Weight(big, axis, v)
    decreases |small|
  {
    if |small| > 0 {
      var (rest, e) := (small[..|small| - 1], small[|small| - 1]);
      assert small == rest + [e];
      var left := Remove(big, e, axis, v, multiset(rest));
      assert forall i :: 0 <= i < |rest| ==> rest[i] == small[i];
      Dominated(rest, left, axis, v);
    }
  }

  /** Taking one entry out of `big` takes out its weight, and leaves room for the others. */
  lemma Remove(big: seq<Entry>, e: Entry, axis: nat, v: nat, others: multiset<Entry>) returns (left: seq<Entry>)
    requires axis < 3 && e.color.At(axis) >= v && others + multiset{e} <= multiset(big)
    ensures others <= multiset(left) && Weight(big, axis, v) == Weight(left, axis, v) + e.count
  {
    assert (others + multiset{e})[e] > 0;
    assert e in multiset(big);
    var k :| 0 <= k < |big| && big[k] == e;
    left := big[..k] + big[k + 1..];
    Without(big, k);
    WeightWithout(big, k, axis, v);
  }

  /** No entry lies between two median cuts of the same entries. */
  lemma NothingBetween(l: seq<Entry>, r: seq<Entry>, c: nat,
                       l': seq<Entry>, r': seq<Entry>, c': nat, axis: nat, e: Entry)
    requires axis < 3 && MedianCut(l, r, axis, c) && MedianCut(l', r', axis, c')
    requires multiset(l) + multiset(r) == multiset(l') + multiset(r')
    requires c < c' && e in multiset(l) + multiset(r)
    ensures !(c <= e.color.At(axis) < c')
  {
    var v: nat := e.color.At(axis);
    if c <= v < c' {
      OneSide(l, r, c, axis, e);
      OneSide(l', r', c', axis, e);
      SidesAgree(l, r, l', r', axis);
      if 2 * Total(l') > Total(l') + Total(r') {
        SmallerLeft(l, r, c, l', r', c', axis);
        Dominated(l', l, axis, c + 1);
        WeightIsAtMostTotal(l, axis, c + 1);
      } else {
        var f := r[0];
        assert f in multiset(r) && f in multiset(l') + multiset(r');
        OneSide(l', r', c', axis, f);
        SameValue(r', axis, e, f);
      }
    }
  }

  lemma SameValue(s: seq<Entry>, axis: nat, e: Entry, f: Entry)
    requires axis < 3 && OneValue(s, axis) && e in multiset(s) && f in multiset(s)
    ensures e.color.At(axis) == f.color.At(axis)
  {
    var i :| 0 <= i < |s| && s[i] == e;
    var j :| 0 <= j < |s| && s[j] == f;
  }

  lemma {:induction false} SidesAgree(l: seq<Entry>, r: seq<Entry>, l': seq<Entry>, r': seq<Entry>, axis: nat)
    requires multiset(l) + multiset(r) == multiset(l') + multiset(r')
    ensures Total(l) + Total(r) == Total(l') + Total(r')
  {
    TotalAppend(l, r);
    TotalAppend(l', r');
    assert multiset(l + r) == multiset(l' + r');
    TotalPermuted(l + r, l' + r');
  }

  lemma {:induction false} WeightIsAtMostTotal(s: seq<Entry>, axis: nat, v: nat)
    requires axis < 3
    ensures Weight(s, axis, v) <= Total(s)
  {
    if |s| > 0 {
      WeightIsAtMostTotal(s[..|s| - 1], axis, v);
    }
  }

  lemma SmallerLeft(l: seq<Entry>, r: seq<Entry>, c: nat, l': seq<Entry>, r': seq<Entry>, c': nat, axis: nat)
    requires axis < 3 && Below(r, axis, c) && AtLeast(l', axis, c') && c < c'
    requires multiset(l) + multiset(r) == multiset(l') + multiset(r')
    ensures multiset(l') <= multiset(l)
  {
    forall x ensures multiset(l')[x] <= multiset(l)[x] {
      if x in multiset(l') {
        assert x in l';
        assert x !in r;
        assert multiset(r)[x] == 0;
        assert (multiset(l) + multiset(r))[x] == multiset(l)[x] + multiset(r)[x];
      }
    }
  }

  /** Along an axis there is only one median cut: both sides are determined. */
  lemma CutIsDetermined(l: seq<Entry>, r: seq<Entry>, c: nat, l': seq<Entry>, r': seq<Entry>, c': nat, axis: nat)
    requires axis < 3 && MedianCut(l, r, axis, c) && MedianCut(l', r', axis, c')
    requires multiset(l) + multiset(r) == multiset(l') + multiset(r')
    ensures multiset(l) == multiset(l') && multiset(r) == multiset(r')
  {
    forall x ensures multiset(l)[x] == multiset(l')[x] && multiset(r)[x] == multiset(r')[x] {
      if x in multiset(l) + multiset(r) {
        if c < c' {
          NothingBetween(l, r, c, l', r', c', axis, x);
        } else if c' < c {
          NothingBetween(l', r', c', l, r, c, axis, x);
        }
        OneSide(l, r, c, axis, x);
        OneSide(l', r', c', axis, x);
        assert (multiset(l) + multiset(r))[x] == (multiset(l') + multiset(r'))[x];
      } else {
        assert x !in multiset(l) && x !in multiset(r) && x !in multiset(l') + multiset(r');
      }
    }
  }

  lemma OneSide(l: seq<Entry>, r: seq<Entry>, c: nat, axis: nat, x: Entry)
    requires axis < 3 && AtLeast(l, axis, c) && Below(r, axis, c)
    ensures if x.color.At(axis) >= c then multiset(r)[x] == 0 else multiset(l)[x] == 0
  {
    assert x in multiset(l) ==> x in l;
    assert x in multiset(r) ==> x in r;
  }
}
