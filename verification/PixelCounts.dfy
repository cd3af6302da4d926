/** Where the pixels went: box counts are conserved, and the palette's usage counts add up to the image. */
module PixelCounts {
  import opened BoxSplit
  import opened BoxTree
  import opened Histogram
  import opened MedianCut
  import opened Means
  import opened Numbering
  import opened Quantize
  import opened Sorting

  // ----- a box has as many pixels as it counts -----

  /** How many pixels hash like one of `entries`. */
  ghost function Covered(pixels: seq<Color>, hash: Color -> nat, entries: seq<Entry>): nat {
    if |pixels| == 0 then 0
    else
      var n := |pixels| - 1;
      Covered(pixels[..n], hash, entries) + if Tallied(entries, hash, hash(pixels[n])) then 1 else 0
  }

  lemma {:induction false} CoveredMore(pixels: seq<Color>, hash: Color -> nat, entries: seq<Entry>, e: Entry)
    requires !Tallied(entries, hash, hash(e.color))
    ensures Covered(pixels, hash, entries + [e])
         == Covered(pixels, hash, entries) + CountHash(pixels, hash, hash(e.color))
  {
    if |pixels| > 0 {
      var n := |pixels| - 1;
      CoveredMore(pixels[..n], hash, entries, e);
      TalliedMore(entries, hash, e, hash(pixels[n]));
    }
  }

  lemma TalliedMore(entries: seq<Entry>, hash: Color -> nat, e: Entry, h: nat)
    ensures Tallied(entries + [e], hash, h) <==> Tallied(entries, hash, h) || hash(e.color) == h
  {
    var more := entries + [e];
    if Tallied(entries, hash, h) {
      var k :| 0 <= k < |entries| && hash(entries[k].color) == h;
      assert more[k] == entries[k];
    }
    assert more[|entries|] == e;
  }

  lemma {:induction false} CoveredNone(pixels: seq<Color>, hash: Color -> nat)
    ensures Covered(pixels, hash, []) == 0
  {
    if |pixels| > 0 {
      CoveredNone(pixels[..|pixels| - 1], hash);
    }
  }

  /** Entries with different hash values count the pixels they cover. */
  lemma {:induction false} TotalIsCovered(pixels: seq<Color>, hash: Color -> nat, entries: seq<Entry>)
    requires DistinctHashes(entries, hash)
    requires forall k :: 0 <= k < |entries| ==> IsTally(entries[k], pixels, hash)
    ensures Total(entries) == Covered(pixels, hash, entries)
  {
    if |entries| == 0 {
      CoveredNone(pixels, hash);
    } else {
      var n := |entries| - 1;
      var (rest, e) := (entries[..n], entries[n]);
      TotalIsCovered(pixels, hash, rest);
      assert !Tallied(rest, hash, hash(e.color));
      CoveredMore(pixels, hash, rest, e);
      assert entries == rest + [e];
    }
  }

  lemma {:induction false} CoveredAreMembers(pixels: seq<Color>, hash: Color -> nat, entries: seq<Entry>,
                                             boxOf: map<nat, nat>, b: nat)
    requires forall i :: 0 <= i < |pixels| ==>
      (Tallied(entries, hash, hash(pixels[i])) <==> Has(pixels[i], hash, boxOf, b))
    ensures Covered(pixels, hash, entries) == Members(pixels, hash, boxOf, b)
  {
    if |pixels| > 0 {
      var n := |pixels| - 1;
      assert forall i :: 0 <= i < n ==> pixels[..n][i] == pixels[i];
      CoveredAreMembers(pixels[..n], hash, entries, boxOf, b);
    }
  }

  lemma LeafDistinct(boxes: seq<BoxNode>, entries: seq<Entry>, hash: Color -> nat, i: nat)
    requires Partition(boxes, entries) && DistinctHashes(entries, hash) && IsLeaf(boxes, i)
    ensures DistinctHashes(boxes[i].entries, hash)
  {
    var leaf := boxes[i].entries;
    var k := LeafPosition(boxes, Leaves(boxes, 0), i);
    ListedHolds(boxes, Leaves(boxes, 0), k);
    forall m, n | 0 <= m < n < |leaf| ensures hash(leaf[m].color) != hash(leaf[n].color) {
      var a := LeafEntry(boxes, entries, i, m);
      var b := LeafEntry(boxes, entries, i, n);
      DifferentEntries(boxes, entries, hash, i, m, n);
    }
  }

  lemma DifferentEntries(boxes: seq<BoxNode>, entries: seq<Entry>, hash: Color -> nat, i: nat, m: nat, n: nat)
    requires DistinctHashes(entries, hash) && i < |boxes| && m < n < |boxes[i].entries|
    requires multiset(boxes[i].entries) <= multiset(entries)
    ensures boxes[i].entries[m] != boxes[i].entries[n]
  {
    var leaf := boxes[i].entries;
    ListedOnce(entries, leaf[m]);
    if leaf[m] == leaf[n] {
      TwiceListed(leaf, m, n);
    }
  }

  /** Each box of the final cut counts exactly the pixels that are mapped to it. */
  lemma {:induction false} BoxCountsItsPixels(pixels: seq<Color>, colors: nat, hash: Color -> nat, entries: seq<Entry>,
                           boxes: seq<BoxNode>, boxOf: map<nat, nat>, b: nat)
    requires BoxedBy(pixels, colors, hash, entries, boxes, boxOf) && b < |Leaves(boxes, 0)|
    ensures boxes[Leaves(boxes, 0)[b]].pixelCount == Members(pixels, hash, boxOf, b)
  {
    var leaves := Leaves(boxes, 0);
    assert leaves[b] in multiset(leaves) && IsLeaf(boxes, leaves[b]) && SoundBox(boxes[leaves[b]]);
    var leaf := boxes[leaves[b]].entries;
    assert MapsTo(leaf, hash, boxOf, b);
    LeafDistinct(boxes, entries, hash, leaves[b]);
    forall k | 0 <= k < |leaf| ensures IsTally(leaf[k], pixels, hash) {
      var a := LeafEntry(boxes, entries, leaves[b], k);
      assert IsTally(entries[a], pixels, hash);
    }
    TotalIsCovered(pixels, hash, leaf);
    forall i | 0 <= i < |pixels| ensures Tallied(leaf, hash, hash(pixels[i])) <==> Has(pixels[i], hash, boxOf, b) {
      var k, m := PixelLeaf(pixels, colors, hash, entries, boxes, boxOf, i);
    }
    CoveredAreMembers(pixels, hash, leaf, boxOf, b);
  }

  // ----- usage counts -----

  function Occurrences(indices: seq<Byte>, i: nat): nat {
    if |indices| == 0 then 0
    else
      var n := |indices| - 1;
      Occurrences(indices[..n], i) + if indices[n] == i then 1 else 0
  }

  function SumCounts(used: seq<(nat, nat)>): nat {
    if |used| == 0 then 0 else SumCounts(used[..|used| - 1]) + used[|used| - 1].0
  }

  /** How often indices below `n` occur. */
  function OccurringBelow(indices: seq<Byte>, n: nat): nat {
    if n == 0 then 0 else OccurringBelow(indices, n - 1) + Occurrences(indices, n - 1)
  }

  lemma {:induction false} BelowNext(indices: seq<Byte>, i: Byte, n: nat)
    ensures OccurringBelow(indices + [i], n) == OccurringBelow(indices, n) + if i < n then 1 else 0
  {
    if n > 0 {
      BelowNext(indices, i, n - 1);
      assert (indices + [i])[..|indices|] == indices;
    }
  }

  lemma {:induction false} BelowAll(indices: seq<Byte>, n: nat)
    requires forall k :: 0 <= k < |indices| ==> indices[k] < n
    ensures OccurringBelow(indices, n) == |indices|
  {
    if |indices| == 0 {
      NoneBelow(n);
    } else {
      var rest := indices[..|indices| - 1];
      assert forall k :: 0 <= k < |rest| ==> rest[k] == indices[k];
      BelowAll(rest, n);
      BelowNext(rest, indices[|indices| - 1], n);
      assert indices == rest + [indices[|indices| - 1]];
    }
  }

  lemma {:induction false} NoneBelow(n: nat)
    ensures OccurringBelow([], n) == 0
  {
    if n > 0 {
      NoneBelow(n - 1);
    }
  }

  ghost predicate Ascending(s: seq<(nat, nat)>) {
    forall a, b :: 0 <= a < b < |s| ==> s[a].1 < s[b].1
  }

  /** Each pair is an index below `n` with how often it occurs. */
  ghost predicate CountsOf(used: seq<(nat, nat)>, indices: seq<Byte>, n: nat) {
    forall a :: 0 <= a < |used| ==> used[a].1 < n && used[a].0 == Occurrences(indices, used[a].1) > 0
  }

  ghost predicate MentionsAll(used: seq<(nat, nat)>, indices: seq<Byte>, n: nat) {
    forall i: nat {:trigger Mentions(used, i)} :: i < n && Occurrences(indices, i) > 0 ==> Mentions(used, i)
  }

  /** Exactly the indices that occur, ascending, each with how often. */
  ghost predicate Usage(used: seq<(nat, nat)>, indices: seq<Byte>, n: nat) {
    Ascending(used) && CountsOf(used, indices, n) && MentionsAll(used, indices, n)
  }

  ghost predicate Mentions(used: seq<(nat, nat)>, i: nat) {
    exists a :: 0 <= a < |used| && used[a].1 == i
  }

  method CountIndices(indices: seq<Byte>, n: nat) returns (counts: array<nat>)
    requires forall k :: 0 <= k < |indices| ==> indices[k] < n
    ensures fresh(counts) && counts.Length == n
    ensures forall i :: 0 <= i < n ==> counts[i] == Occurrences(indices, i)
  {
    counts := new nat[n](i => 0);
    for k := 0 to |indices|
      invariant forall i :: 0 <= i < n ==> counts[i] == Occurrences(indices[..k], i)
    {
      assert indices[..k + 1][..k] == indices[..k];
      counts[indices[k]] := counts[indices[k]] + 1;
    }
    assert indices[..|indices|] == indices;
  }

  /** The used entries below `n`, whose counts add up to the pixels that have them. */
  ghost predicate Tallies(used: seq<(nat, nat)>, indices: seq<Byte>, n: nat) {
    Usage(used, indices, n) && SumCounts(used) == OccurringBelow(indices, n)
  }

  lemma {:induction false} TalliesMore(used: seq<(nat, nat)>, indices: seq<Byte>, i: nat)
    requires Tallies(used, indices, i)
    ensures var c := Occurrences(indices, i); Tallies(if c > 0 then used + [(c, i)] else used, indices, i + 1)
  {
    if Occurrences(indices, i) > 0 { UsageMore(used, indices, i); } else { UsageSame(used, indices, i); }
  }

  /** The used palette entries with their pixel counts; the counts add up to the image. */
  method Colors(q: Quantized) returns (used: seq<(nat, nat)>)
    requires forall k :: 0 <= k < |q.indices| ==> q.indices[k] < |q.palette|
    ensures Usage(used, q.indices, |q.palette|)
    ensures SumCounts(used) == |q.indices|
  {
    var counts := CountIndices(q.indices, |q.palette|);
    used := [];
    for i := 0 to |q.palette|
      modifies {}
      invariant Tallies(used, q.indices, i)
    {
      TalliesMore(used, q.indices, i);
      if counts[i] > 0 {
        used := used + [(counts[i], i)];
      }
    }
    BelowAll(q.indices, |q.palette|);
  }

  lemma UsageMore(used: seq<(nat, nat)>, indices: seq<Byte>, i: nat)
    requires Usage(used, indices, i) && Occurrences(indices, i) > 0 && SumCounts(used) == OccurringBelow(indices, i)
    ensures var more := used + [(Occurrences(indices, i), i)];
      Usage(more, indices, i + 1) && SumCounts(more) == OccurringBelow(indices, i + 1)
  {
    var last := (Occurrences(indices, i), i);
    assert (used + [last])[..|used|] == used;
    CountsMore(used, last, indices, i);
    AllMentioned(used, last, indices, i);
  }

  lemma {:induction false} CountsMore(used: seq<(nat, nat)>, last: (nat, nat), indices: seq<Byte>, i: nat)
    requires Ascending(used) && CountsOf(used, indices, i) && last.1 == i && last.0 == Occurrences(indices, i) > 0
    ensures Ascending(used + [last]) && CountsOf(used + [last], indices, i + 1)
  {
  }

  lemma AllMentioned(used: seq<(nat, nat)>, last: (nat, nat), indices: seq<Byte>, i: nat)
    requires last.1 == i && MentionsAll(used, indices, i)
    ensures MentionsAll(used + [last], indices, i + 1)
  {
    forall j: nat | j < i + 1 && Occurrences(indices, j) > 0 ensures Mentions(used + [last], j) {
      if j < i { assert Mentions(used, j); }
      MentionsMore(used, last, j);
    }
  }

  lemma MentionsMore(used: seq<(nat, nat)>, last: (nat, nat), j: nat)
    requires last.1 == j || Mentions(used, j)
    ensures Mentions(used + [last], j)
  {
    var more := used + [last];
    if last.1 == j {
      assert more[|used|].1 == j;
    } else {
      var a :| 0 <= a < |used| && used[a].1 == j;
      assert more[a].1 == j;
    }
  }

  lemma UsageSame(used: seq<(nat, nat)>, indices: seq<Byte>, i: nat)
    requires Usage(used, indices, i) && Occurrences(indices, i) == 0
    ensures Usage(used, indices, i + 1) && OccurringBelow(indices, i + 1) == OccurringBelow(indices, i)
  {
  }

  /** Two ascending lists of the same pairs are the same. */
  lemma {:induction false} AscendingIsUnique(s: seq<(nat, nat)>, t: seq<(nat, nat)>)
    requires Ascending(s) && Ascending(t) && forall x :: x in s <==> x in t
    ensures s == t
  {
    if |t| > 0 { assert t[|t| - 1] in s; }
    if |s| > 0 {
      assert s[|s| - 1] in t;
      var (x, y, s', t') := (s[|s| - 1], t[|t| - 1], s[..|s| - 1], t[..|t| - 1]);
      WithoutLast(s);
      WithoutLast(t);
      assert x == y;
      forall z ensures z in s' <==> z in t' {
        assert z in s' <==> z in s && z != x;
        assert z in t' <==> z in t && z != y;
      }
      AscendingIsUnique(s', t');
      assert s == s' + [x] && t == t' + [y];
    }
  }

  lemma WithoutLast(s: seq<(nat, nat)>)
    requires Ascending(s) && |s| > 0
    ensures Ascending(s[..|s| - 1]) && forall x :: x in s[..|s| - 1] <==> x in s && x != s[|s| - 1]
    ensures forall x :: x in s && x != s[|s| - 1] ==> x.1 < s[|s| - 1].1
  {
    assert s == s[..|s| - 1] + [s[|s| - 1]];
  }

  lemma UsedInBoth(s: seq<(nat, nat)>, t: seq<(nat, nat)>, indices: seq<Byte>, n: nat, x: (nat, nat))
    requires Usage(s, indices, n) && Usage(t, indices, n) && x in s
    ensures x in t
  {
    assert Mentions(t, x.1);
    var b :| 0 <= b < |t| && t[b].1 == x.1;
    assert t[b] == x;
  }

  /** The used entries are determined by the indices. */
  lemma UsageIsUnique(s: seq<(nat, nat)>, t: seq<(nat, nat)>, indices: seq<Byte>, n: nat)
    requires Usage(s, indices, n) && Usage(t, indices, n)
    ensures s == t
  {
    forall x ensures x in s <==> x in t {
      if x in s { UsedInBoth(s, t, indices, n, x); }
      if x in t { UsedInBoth(t, s, indices, n, x); }
    }
    AscendingIsUnique(s, t);
  }
}
