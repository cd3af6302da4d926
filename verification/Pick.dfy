/** Ranking the histogram and picking up to three distinct colours. */
module Pick {
  import opened Hsv
  import opened Sorting

  const VIBRANCY_WEIGHT: real := 0.5
  const VIBRANCY_MIN_POP: real := 0.01
  const SELECT_MIN_DE: real := 0.08

  /** A colour in OkLCh. */
  datatype Lch = Lch(l: real, c: real, h: real)

  /** A colour in Oklab. */
  datatype Lab = Lab(l: real, a: real, b: real)

  /** One used palette entry: how many pixels have it, and its colour. */
  datatype HistEntry = HistEntry(count: nat, hsv: Hsv)

  /** The colour transforms, which are not modelled further. */
  datatype Transforms = Transforms(toLch: Rgb -> Lch, toLab: Lch -> Lab, deltaE: (Lab, Lab) -> real)

  // ----- ranking -----

  /** Coverage plus a vibrancy bonus; without any pixels every coverage counts as zero. */
  function VibrancyScore(count: nat, total: nat, hsv: Hsv): real {
    var frac := if total == 0 then 0.0 else count as real / total as real;
    if frac < VIBRANCY_MIN_POP then frac else frac + VIBRANCY_WEIGHT * hsv.s * hsv.v
  }

  /** A histogram entry's score and place. */
  datatype Ranked = Ranked(score: real, index: nat)

  function Total(hist: seq<HistEntry>): nat {
    if |hist| == 0 then 0 else Total(hist[..|hist| - 1]) + hist[|hist| - 1].count
  }

  function Score(hist: seq<HistEntry>, i: nat): real
    requires i < |hist|
  {
    VibrancyScore(hist[i].count, Total(hist), hist[i].hsv)
  }

  /** Best score first, and equal scores in histogram order. */
  ghost predicate IsRanking(hist: seq<HistEntry>, ranking: seq<nat>) {
    && |ranking| == |hist|
    && (forall k :: 0 <= k < |ranking| ==> ranking[k] < |hist|)
    && (forall i: nat :: i < |hist| ==> i in ranking)
    && (forall a, b :: 0 <= a < b < |ranking| ==> Outranks(hist, ranking[a], ranking[b]))
  }

  ghost predicate Outranks(hist: seq<HistEntry>, i: nat, j: nat)
    requires i < |hist| && j < |hist|
  {
    Score(hist, i) > Score(hist, j) || (Score(hist, i) == Score(hist, j) && i < j)
  }

  /** There is only one ranking. */
  lemma {:induction false} RankingIsUnique(hist: seq<HistEntry>, x: seq<nat>, y: seq<nat>, n: nat)
    requires IsRanking(hist, x) && IsRanking(hist, y) && n <= |x|
    ensures x[..n] == y[..n]
  {
    if n > 0 {
      RankingIsUnique(hist, x, y, n - 1);
      var k := n - 1;
      var i := PlaceOf(hist, y, x, k);
      var j := PlaceOf(hist, x, y, k);
      assert forall m :: 0 <= m < k ==> x[m] == x[..k][m] == y[..k][m] == y[m];
      assert forall m :: k < m < |y| ==> Outranks(hist, y[k], y[m]);
      assert forall m :: k < m < |x| ==> Outranks(hist, x[k], x[m]);
      assert x[..n] == x[..k] + [x[k]] && y[..n] == y[..k] + [y[k]];
    }
  }

  /** Where `x[k]` stands in the ranking `y`; not before place `k` if the first `k` places agree. */
  lemma PlaceOf(hist: seq<HistEntry>, y: seq<nat>, x: seq<nat>, k: nat) returns (i: nat)
    requires IsRanking(hist, x) && IsRanking(hist, y) && k < |x| && x[..k] == y[..k]
    ensures k <= i < |y| && y[i] == x[k]
  {
    forall m | 0 <= m < k ensures y[m] != x[k] {
      assert x[m] == x[..k][m] == y[..k][m] == y[m];
      assert Outranks(hist, x[m], x[k]);
    }
    assert x[k] in y;
    i :| 0 <= i < |y| && y[i] == x[k];
  }

  method Rank(hist: seq<HistEntry>) returns (ranking: seq<nat>)
    ensures IsRanking(hist, ranking)
  {
    var total := 0;
    for i := 0 to |hist|
      invariant total == Total(hist[..i])
    {
      assert hist[..i + 1][..i] == hist[..i];
      total := total + hist[i].count;
    }
    assert hist[..|hist|] == hist;
    var scored: seq<Ranked> := seq(|hist|, i requires 0 <= i < |hist| =>
      Ranked(VibrancyScore(hist[i].count, total, hist[i].hsv), i));
    var le := (a: Ranked, b: Ranked) => a.score > b.score || (a.score == b.score && a.index <= b.index);
    var sorted := Sort<Ranked>(scored, le);
    ranking := Indices(sorted);
    SortedIsRanking(hist, scored, sorted, le);
  }

  function Indices(s: seq<Ranked>): (r: seq<nat>)
    ensures |r| == |s| && forall k :: 0 <= k < |s| ==> r[k] == s[k].index
  {
    seq(|s|, k requires 0 <= k < |s| => s[k].index)
  }

  lemma SortedIsRanking(hist: seq<HistEntry>, scored: seq<Ranked>, sorted: seq<Ranked>, le: (Ranked, Ranked) -> bool)
    requires |scored| == |hist| && forall i :: 0 <= i < |hist| ==> scored[i] == Ranked(Score(hist, i), i)
    requires forall a, b :: le(a, b) <==> a.score > b.score || (a.score == b.score && a.index <= b.index)
    requires SortedBy(sorted, le) && multiset(sorted) == multiset(scored)
    ensures IsRanking(hist, Indices(sorted))
  {
    SameMembers(sorted, scored);
    forall k | 0 <= k < |sorted| ensures sorted[k].index < |hist| && sorted[k] == scored[sorted[k].index] {
      assert sorted[k] in scored;
    }
    forall i: nat | i < |hist| ensures i in Indices(sorted) {
      assert scored[i] in sorted;
      var k :| 0 <= k < |sorted| && sorted[k] == scored[i];
      assert Indices(sorted)[k] == i;
    }
    forall a, b | 0 <= a < b < |sorted| ensures Outranks(hist, sorted[a].index, sorted[b].index) {
      assert le(sorted[a], sorted[b]);
      OnlyOnce(scored, sorted, a, b);
    }
  }

  lemma OnlyOnce(scored: seq<Ranked>, sorted: seq<Ranked>, a: nat, b: nat)
    requires forall i :: 0 <= i < |scored| ==> scored[i].index == i
    requires multiset(sorted) == multiset(scored) && a < b < |sorted|
    ensures sorted[a] != sorted[b]
  {
    ListedOnce(scored, sorted[a]);
    if sorted[a] == sorted[b] {
      TwiceListed(sorted, a, b);
    }
  }

  // ----- picking -----

  /** The candidate at place `k` of the ranking. */
  function Candidate(hist: seq<HistEntry>, ranking: seq<nat>, t: Transforms, k: nat): Lch
    requires k < |ranking| && ranking[k] < |hist|
  {
    t.toLch(HsvToRgb(hist[ranking[k]].hsv))
  }

  /** All candidates in ranking order. */
  function Candidates(hist: seq<HistEntry>, ranking: seq<nat>, t: Transforms): (all: seq<Lch>)
    requires forall k :: 0 <= k < |ranking| ==> ranking[k] < |hist|
    ensures |all| == |ranking| && forall k :: 0 <= k < |ranking| ==> all[k] == Candidate(hist, ranking, t, k)
  {
    seq(|ranking|, k requires 0 <= k < |ranking| => Candidate(hist, ranking, t, k))
  }

  function Distance(t: Transforms, x: Lch, y: Lch): real {
    t.deltaE(t.toLab(x), t.toLab(y))
  }

  /** The last candidate that was looked at, plus one. */
  function Looked(all: seq<Lch>, chosen: seq<nat>): nat {
    if |chosen| == 3 then chosen[2] else |all|
  }

  /**
   * The places of the picks: in ranking order, pairwise far enough apart, and every candidate
   * passed over is too close to a pick ranked above it.
   */
  ghost predicate Picked(all: seq<Lch>, t: Transforms, chosen: seq<nat>) {
    && |chosen| <= 3
    && (forall a :: 0 <= a < |chosen| ==> chosen[a] < |all|)
    && (forall a, b :: 0 <= a < b < |chosen| ==>
          chosen[a] < chosen[b] && Distance(t, all[chosen[b]], all[chosen[a]]) >= SELECT_MIN_DE)
    && (forall k: nat :: k < Looked(all, chosen) && k < |all| && k !in chosen ==> TooClose(all, t, chosen, k))
  }

  ghost predicate TooClose(all: seq<Lch>, t: Transforms, chosen: seq<nat>, k: nat)
    requires k < |all| && forall a :: 0 <= a < |chosen| ==> chosen[a] < |all|
  {
    exists a :: 0 <= a < |chosen| && chosen[a] < k && Distance(t, all[k], all[chosen[a]]) < SELECT_MIN_DE
  }

  /** The picks are determined by the ranking: no other choice is greedy. */
  lemma {:induction false} PicksAreUnique(all: seq<Lch>, t: Transforms, x: seq<nat>, y: seq<nat>, n: nat)
    requires Picked(all, t, x) && Picked(all, t, y) && n <= |x|
    ensures n <= |y| && x[..n] == y[..n]
  {
    if n > 0 {
      PicksAreUnique(all, t, x, y, n - 1);
      var k := n - 1;
      assert forall a :: 0 <= a < k ==> x[a] == x[..k][a] == y[..k][a] == y[a];
      NotLater(all, t, x, y, k);
      NotLater(all, t, y, x, k);
      assert x[..n] == x[..k] + [x[k]] && y[..n] == y[..k] + [y[k]];
    }
  }

  /** After a common beginning, `y` picks again and no later than `x`. */
  lemma NotLater(all: seq<Lch>, t: Transforms, x: seq<nat>, y: seq<nat>, k: nat)
    requires Picked(all, t, x) && Picked(all, t, y) && k < |x| && k <= |y|
    requires forall a :: 0 <= a < k ==> x[a] == y[a]
    ensures k < |y| && y[k] <= x[k]
  {
    var p := x[k];
    assert forall m :: 0 <= m < k ==> x[m] < p && Distance(t, all[p], all[x[m]]) >= SELECT_MIN_DE;
    assert forall m :: k < m < |y| ==> y[k] < y[m];
    if p in y {
      var i :| 0 <= i < |y| && y[i] == p;
    } else if p < Looked(all, y) {
      assert TooClose(all, t, y, p);
    } else {
      assert |y| == 3;
    }
  }

  /** The picks after looking at the first `k` candidates. */
  ghost predicate PickedSoFar(all: seq<Lch>, t: Transforms, chosen: seq<nat>, k: nat) {
    && k <= |all| && |chosen| <= 3
    && (forall a :: 0 <= a < |chosen| ==> chosen[a] < k)
    && (forall a, b :: 0 <= a < b < |chosen| ==>
          chosen[a] < chosen[b] && Distance(t, all[chosen[b]], all[chosen[a]]) >= SELECT_MIN_DE)
    && (forall j: nat :: j < k && j !in chosen ==> TooClose(all, t, chosen, j))
  }

  method FarFromAll(labs: seq<Lab>, lab: Lab, t: Transforms) returns (far: bool)
    ensures far <==> forall a :: 0 <= a < |labs| ==> t.deltaE(lab, labs[a]) >= SELECT_MIN_DE
  {
    for i := 0 to |labs|
      invariant forall a :: 0 <= a < i ==> t.deltaE(lab, labs[a]) >= SELECT_MIN_DE
    {
      if t.deltaE(lab, labs[i]) < SELECT_MIN_DE {
        return false;
      }
    }
    return true;
  }

  /** The loop's state after `k` candidates. */
  ghost predicate Picking(all: seq<Lch>, t: Transforms, chosen: seq<nat>, k: nat, picks: seq<Lch>, labs: seq<Lab>) {
    && PickedSoFar(all, t, chosen, k)
    && |picks| == |labs| == |chosen| && (k > 0 ==> |chosen| > 0)
    && (|chosen| == 3 ==> k == chosen[2] + 1)
    && (forall a :: 0 <= a < |picks| ==> picks[a] == all[chosen[a]] && labs[a] == t.toLab(picks[a]))
  }

  lemma PickMore(all: seq<Lch>, t: Transforms, chosen: seq<nat>, k: nat, picks: seq<Lch>, labs: seq<Lab>)
    requires Picking(all, t, chosen, k, picks, labs) && k < |all| && |chosen| < 3
    requires forall a :: 0 <= a < |labs| ==> t.deltaE(t.toLab(all[k]), labs[a]) >= SELECT_MIN_DE
    ensures Picking(all, t, chosen + [k], k + 1, picks + [all[k]], labs + [t.toLab(all[k])])
  {
    var more := chosen + [k];
    forall j: nat | j < k + 1 && j !in more ensures TooClose(all, t, more, j) {
      assert j != k by { assert more[|chosen|] == k; }
      assert j !in chosen;
      assert TooClose(all, t, chosen, j);
      var a :| 0 <= a < |chosen| && chosen[a] < j && Distance(t, all[j], all[chosen[a]]) < SELECT_MIN_DE;
      assert more[a] == chosen[a];
    }
  }

  lemma PassOver(all: seq<Lch>, t: Transforms, chosen: seq<nat>, k: nat, picks: seq<Lch>, labs: seq<Lab>)
    requires Picking(all, t, chosen, k, picks, labs) && k < |all| && |chosen| < 3
    requires !forall a :: 0 <= a < |labs| ==> t.deltaE(t.toLab(all[k]), labs[a]) >= SELECT_MIN_DE
    ensures Picking(all, t, chosen, k + 1, picks, labs)
  {
    var a :| 0 <= a < |labs| && t.deltaE(t.toLab(all[k]), labs[a]) < SELECT_MIN_DE;
    assert Distance(t, all[k], all[chosen[a]]) < SELECT_MIN_DE;
    assert TooClose(all, t, chosen, k);
  }

  lemma PickingDone(all: seq<Lch>, t: Transforms, chosen: seq<nat>, k: nat, picks: seq<Lch>, labs: seq<Lab>)
    requires Picking(all, t, chosen, k, picks, labs) && k > 0 && (k == |all| || |chosen| == 3)
    ensures Picked(all, t, chosen) && |chosen| > 0
  {
    assert |chosen| == 3 ==> chosen[2] == k - 1;
  }

  /** What a palette selection returns for a histogram that is not empty. */
  ghost predicate Selected(hist: seq<HistEntry>, t: Transforms, picks: seq<Lch>, n: nat,
                           ranking: seq<nat>, chosen: seq<nat>) {
    && IsRanking(hist, ranking) && Picked(Candidates(hist, ranking, t), t, chosen)
    && |picks| == 3 && n == |chosen| && 1 <= n
    && (forall a :: 0 <= a < n ==> picks[a] == Candidate(hist, ranking, t, chosen[a]))
    && (forall a :: n <= a < 3 ==> picks[a] == picks[n - 1])
  }

  /** Up to three distinct colours, best ranked first, padded by repeating the last. */
  method Select(hist: seq<HistEntry>, t: Transforms)
    returns (picks: seq<Lch>, n: nat, ghost ranking: seq<nat>, ghost chosen: seq<nat>)
    ensures hist == [] ==> picks == [] && n == 0
    ensures hist != [] ==> Selected(hist, t, picks, n, ranking, chosen)
  {
    ranking, chosen := [], [];
    if hist == [] {
      return [], 0, [], [];
    }
    var ranked := Rank(hist);
    ranking := ranked;
    ghost var all := Candidates(hist, ranked, t);
    picks := [];
    var labs: seq<Lab> := [];
    var k := 0;
    while k < |ranked| && |picks| < 3
      invariant Picking(all, t, chosen, k, picks, labs)
    {
      var lch := Candidate(hist, ranked, t, k);
      var lab := t.toLab(lch);
      var far := FarFromAll(labs, lab, t);
      if far {
        PickMore(all, t, chosen, k, picks, labs);
        picks, labs, chosen := picks + [lch], labs + [lab], chosen + [k];
      } else {
        PassOver(all, t, chosen, k, picks, labs);
      }
      k := k + 1;
    }
    PickingDone(all, t, chosen, k, picks, labs);
    n := |picks|;
    var padded := Pad(picks);
    assert forall a :: 0 <= a < n ==> padded[a] == padded[..n][a];
    picks := padded;
  }

  /** Repeats the last colour up to three. */
  method Pad(picks: seq<Lch>) returns (padded: seq<Lch>)
    requires 1 <= |picks| <= 3
    ensures |padded| == 3 && padded[..|picks|] == picks
    ensures forall a :: |picks| <= a < 3 ==> padded[a] == picks[|picks| - 1]
  {
    padded := picks;
    while |padded| < 3
      invariant |picks| <= |padded| <= 3 && padded[..|picks|] == picks
      invariant forall a :: |picks| <= a < |padded| ==> padded[a] == picks[|picks| - 1]
    {
      padded := padded + [picks[|picks| - 1]];
    }
  }
}
