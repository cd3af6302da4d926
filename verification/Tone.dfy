/** Toning the picks into a mode's envelope, and pushing colliding slots apart in lightness. */
module Tone {
  import opened Types
  import opened Pick
  import opened Reals
  import opened Sorting

  const SPREAD_GAIN: real := 1.0
  const CHROMA_FRAC: real := 0.85
  const NEUTRAL_C: real := 0.02
  const MIN_DE: real := 0.10
  const SEPARATION_STEP: real := 0.01
  const MAX_SEPARATION_SHIFT: real := 0.04
  const MAX_SEPARATION_PASSES: nat := 8
  const BUDGET_EPS: real := 0.000000001

  /** The lightness envelope of a mode. */
  function EnvelopeLo(mode: Mode): real { if mode.Dark? then 0.15 else 0.55 }

  function EnvelopeHi(mode: Mode): real { if mode.Dark? then 0.55 else 0.92 }

  function Gamma(mode: Mode): real { if mode.Dark? then 0.85 else 1.18 }

  /** One toned slot; chroma is derived. */
  datatype Toned = Toned(l: real, h: real, cSrc: real)

  /** The colour mathematics that is not modelled further. */
  datatype Gamut = Gamut(maxChroma: (real, real) -> real, toLab: (real, real, real) -> Lab,
                         deltaE: (Lab, Lab) -> real, power: (real, real) -> real)

  // ----- chroma -----

  /** Within the ceiling; grey stays at most as colourful as its source, other colours are lifted. */
  function ChromaFor(g: Gamut, l: real, h: real, cSrc: real): (c: real)
    ensures c <= g.maxChroma(l, h)
    ensures cSrc >= g.maxChroma(l, h) ==> c == g.maxChroma(l, h) || cSrc < NEUTRAL_C
    ensures cSrc < NEUTRAL_C && cSrc <= g.maxChroma(l, h) ==> c == cSrc
    ensures cSrc >= NEUTRAL_C && 0.85 * g.maxChroma(l, h) <= cSrc <= g.maxChroma(l, h) ==> c == cSrc
    ensures cSrc >= NEUTRAL_C && cSrc < 0.85 * g.maxChroma(l, h) ==> c == 0.85 * g.maxChroma(l, h)
  {
    var ceiling := g.maxChroma(l, h);
    if cSrc < NEUTRAL_C then Min(cSrc, ceiling) else Min(Max(cSrc, CHROMA_FRAC * ceiling), ceiling)
  }

  function LabOf(g: Gamut, t: Toned): Lab {
    g.toLab(t.l, ChromaFor(g, t.l, t.h, t.cSrc), t.h)
  }

  function De(g: Gamut, x: Toned, y: Toned): real {
    g.deltaE(LabOf(g, x), LabOf(g, y))
  }

  // ----- toning -----

  function SumL(source: seq<Lch>): real {
    if |source| == 0 then 0.0 else SumL(source[..|source| - 1]) + source[|source| - 1].l
  }

  function Anchor(source: seq<Lch>): real
    requires |source| > 0
  {
    SumL(source) / |source| as real
  }

  function TonedAnchor(g: Gamut, anchor: real, mode: Mode): real {
    EnvelopeLo(mode) + (EnvelopeHi(mode) - EnvelopeLo(mode)) * g.power(Max(anchor, 0.0), Gamma(mode))
  }

  function ToneSlot(g: Gamut, anchor: real, mode: Mode, pick: Lch): Toned {
    var moved := TonedAnchor(g, anchor, mode) + SPREAD_GAIN * (pick.l - anchor);
    Toned(Clamp(moved, EnvelopeLo(mode), EnvelopeHi(mode)), pick.h, pick.c)
  }

  method ToneAll(g: Gamut, source: seq<Lch>, mode: Mode) returns (slots: seq<Toned>)
    requires |source| > 0
    ensures |slots| == |source|
    ensures forall i :: 0 <= i < |source| ==> slots[i] == ToneSlot(g, Anchor(source), mode, source[i])
  {
    var sum := 0.0;
    for i := 0 to |source|
      invariant sum == SumL(source[..i])
    {
      assert source[..i + 1][..i] == source[..i];
      sum := sum + source[i].l;
    }
    assert source[..|source|] == source;
    var anchor := sum / |source| as real;
    slots := seq(|source|, i requires 0 <= i < |source| => ToneSlot(g, anchor, mode, source[i]));
  }

  /** Toning clamps into the envelope, keeps lightness order, hue and source chroma, and never widens a gap. */
  lemma ToningKeeps(g: Gamut, anchor: real, mode: Mode, x: Lch, y: Lch)
    ensures var (a, b) := (ToneSlot(g, anchor, mode, x), ToneSlot(g, anchor, mode, y));
      && EnvelopeLo(mode) <= a.l <= EnvelopeHi(mode)
      && a.h == x.h && a.cSrc == x.c
      && (x.l <= y.l ==> a.l <= b.l && b.l - a.l <= y.l - x.l)
      && (EnvelopeLo(mode) < a.l < EnvelopeHi(mode) && EnvelopeLo(mode) < b.l < EnvelopeHi(mode) ==>
            b.l - a.l == y.l - x.l)
  {
  }

  /** A brighter cover is toned no darker: equal offsets from a brighter anchor end at least as bright. */
  lemma BrighterCoverStaysBrighter(g: Gamut, mode: Mode, dark: real, bright: real, offset: real)
    requires forall x, y :: 0.0 <= x <= y ==> g.power(x, Gamma(mode)) <= g.power(y, Gamma(mode))
    requires dark <= bright
    ensures ToneSlot(g, dark, mode, Lch(dark + offset, 0.0, 0.0)).l
         <= ToneSlot(g, bright, mode, Lch(bright + offset, 0.0, 0.0)).l
  {
    var (p, q) := (g.power(Max(dark, 0.0), Gamma(mode)), g.power(Max(bright, 0.0), Gamma(mode)));
    assert p <= q;
    if mode.Dark? {
      assert TonedAnchor(g, dark, mode) == 0.15 + 0.4 * p && TonedAnchor(g, bright, mode) == 0.15 + 0.4 * q;
    } else {
      assert TonedAnchor(g, dark, mode) == 0.55 + 0.37 * p && TonedAnchor(g, bright, mode) == 0.55 + 0.37 * q;
    }
  }

  // ----- the closest pair -----

  /** `i`, `j` is the first pair with the smallest distance. */
  ghost predicate Closest(g: Gamut, slots: seq<Toned>, i: nat, j: nat) {
    && i < j < |slots|
    && (forall a, b :: 0 <= a < b < |slots| ==> De(g, slots[i], slots[j]) <= De(g, slots[a], slots[b]))
    && (forall a, b :: 0 <= a < b < |slots| && Earlier(a, b, i, j) ==>
          De(g, slots[i], slots[j]) < De(g, slots[a], slots[b]))
  }

  /** Pair `x`, `y` comes before pair `a`, `b` in the nested loops. */
  predicate Earlier(x: nat, y: nat, a: nat, b: nat) { x < a || (x == a && y < b) }

  /** The best of the pairs before `a`, `b`, if there are any. */
  ghost predicate ClosestSoFar(g: Gamut, slots: seq<Toned>, i: nat, j: nat, d: Option<real>, a: nat, b: nat) {
    match d
    case None => forall x: nat, y: nat :: x < y < |slots| ==> !Earlier(x, y, a, b)
    case Some(dist) =>
      && i < j < |slots| && dist == De(g, slots[i], slots[j])
      && (forall x: nat, y: nat :: x < y < |slots| && Earlier(x, y, a, b) ==> dist <= De(g, slots[x], slots[y]))
      && (forall x: nat, y: nat :: x < y < |slots| && Earlier(x, y, i, j) ==> dist < De(g, slots[x], slots[y]))
  }

  lemma NextPair(g: Gamut, slots: seq<Toned>, i: nat, j: nat, d: Option<real>, a: nat, b: nat)
    requires ClosestSoFar(g, slots, i, j, d, a, b) && a < b < |slots|
    ensures var dist := De(g, slots[a], slots[b]);
      if d.None? || dist < d.value then ClosestSoFar(g, slots, a, b, Some(dist), a, b + 1)
      else ClosestSoFar(g, slots, i, j, d, a, b + 1)
  {
    var dist := De(g, slots[a], slots[b]);
    forall x: nat, y: nat | x < y < |slots| && Earlier(x, y, a, b + 1)
      ensures (d.Some? && d.value <= De(g, slots[x], slots[y])) || (x == a && y == b)
    {
      assert Earlier(x, y, a, b) || (x == a && y == b);
    }
    if d.None? || dist < d.value {
      forall x: nat, y: nat | x < y < |slots| && Earlier(x, y, a, b) ensures dist < De(g, slots[x], slots[y]) {
        assert Earlier(x, y, a, b + 1);
      }
    }
  }

  lemma NextRow(g: Gamut, slots: seq<Toned>, i: nat, j: nat, d: Option<real>, a: nat)
    requires ClosestSoFar(g, slots, i, j, d, a, |slots|)
    ensures ClosestSoFar(g, slots, i, j, d, a + 1, a + 2)
  {
    var (p, q) := (a + 1, a + 2);
    if d.None? {
      forall x: nat, y: nat | x < y < |slots| ensures !Earlier(x, y, p, q) {
        assert !Earlier(x, y, a, |slots|);
      }
    } else {
      forall x: nat, y: nat | x < y < |slots| && Earlier(x, y, p, q) ensures d.value <= De(g, slots[x], slots[y]) {
        assert Earlier(x, y, a, |slots|);
      }
    }
  }

  lemma SoFarIsAll(g: Gamut, slots: seq<Toned>, i: nat, j: nat, d: real)
    requires ClosestSoFar(g, slots, i, j, Some(d), |slots|, |slots| + 1)
    ensures Closest(g, slots, i, j) && d == De(g, slots[i], slots[j])
  {
    forall x: nat, y: nat | x < y < |slots| ensures d <= De(g, slots[x], slots[y]) {
      assert Earlier(x, y, |slots|, |slots| + 1);
    }
  }

  method ClosestPair(g: Gamut, slots: seq<Toned>) returns (i: nat, j: nat, d: real)
    requires |slots| >= 2
    ensures Closest(g, slots, i, j) && d == De(g, slots[i], slots[j])
  {
    i, j := 0, 1;
    var best: Option<real> := None;
    for a := 0 to |slots|
      invariant ClosestSoFar(g, slots, i, j, best, a, a + 1)
      invariant a > 0 ==> best.Some?
    {
      for b := a + 1 to |slots|
        invariant ClosestSoFar(g, slots, i, j, best, a, b)
        invariant a > 0 || b > 1 ==> best.Some?
      {
        NextPair(g, slots, i, j, best, a, b);
        var dist := De(g, slots[a], slots[b]);
        if best.None? || dist < best.value {
          i, j, best := a, b, Some(dist);
        }
      }
      NextRow(g, slots, i, j, best, a);
    }
    d := best.value;
    SoFarIsAll(g, slots, i, j, d);
  }

  // ----- separation -----

  datatype Reason = Clear | Duplicates | Budget | Blocked | Passes

  datatype SeparationResult = SeparationResult(resolved: bool, reason: Reason, residual: real)

  /** The slots by lightness, smaller index first among equals, and each slot's place in that order. */
  ghost predicate RankOrder(slots: seq<Toned>, order: seq<nat>, rank: seq<nat>) {
    && |order| == |rank| == |slots|
    && (forall p :: 0 <= p < |order| ==> order[p] < |slots| && rank[order[p]] == p)
    && (forall i :: 0 <= i < |rank| ==> rank[i] < |order| && order[rank[i]] == i)
    && (forall p, q :: 0 <= p < q < |order| ==> RankedBelow(slots, order[p], order[q]))
  }

  ghost predicate RankedBelow(slots: seq<Toned>, i: nat, j: nat)
    requires i < |slots| && j < |slots|
  {
    slots[i].l < slots[j].l || (slots[i].l == slots[j].l && i < j)
  }

  /** Lightness never decreases along the original rank order. */
  ghost predicate Ascends(slots: seq<Toned>, order: seq<nat>)
    requires forall p :: 0 <= p < |order| ==> order[p] < |slots|
  {
    forall p, q :: 0 <= p < q < |order| ==> slots[order[p]].l <= slots[order[q]].l
  }

  /** `x` times a direction of plus or minus one. */
  function Signed(x: real, up: bool): real { if up then x else -x }

  ghost predicate InEnvelope(t: Toned, mode: Mode) {
    EnvelopeLo(mode) <= t.l <= EnvelopeHi(mode)
  }

  /** Slot `was` moved by lightness only, on a path of length `path`, within its allowance and the envelope. */
  ghost predicate Moved(was: Toned, now: Toned, path: real, mode: Mode) {
    && now.h == was.h && now.cSrc == was.cSrc
    && Abs(now.l - was.l) <= path <= MAX_SEPARATION_SHIFT
    && (InEnvelope(was, mode) ==> InEnvelope(now, mode))
  }

  /** What every move of a separation keeps; `path` is how far each slot has travelled in all. */
  ghost predicate Kept(slots: seq<Toned>, work: seq<Toned>, order: seq<nat>, rank: seq<nat>,
                       budget: seq<real>, path: seq<real>, mode: Mode) {
    && RankOrder(slots, order, rank)
    && |work| == |budget| == |path| == |slots|
    && Ascends(work, order)
    && (forall i :: 0 <= i < |slots| ==>
          budget[i] + path[i] == MAX_SEPARATION_SHIFT && Moved(slots[i], work[i], path[i], mode))
  }

  /** The farthest a slot may go in a direction: a step, clamped by the envelope and by its neighbour. */
  function Target(work: seq<Toned>, order: seq<nat>, rank: seq<nat>, budget: seq<real>,
                  idx: nat, up: bool, mode: Mode): real
    requires |order| == |rank| == |work| == |budget| && idx < |work| && rank[idx] < |order|
    requires forall p :: 0 <= p < |order| ==> order[p] < |work|
  {
    var step := Min(SEPARATION_STEP, budget[idx]);
    var (current, pos) := (work[idx].l, rank[idx]);
    var goal := Clamp(current + Signed(step, up), EnvelopeLo(mode), EnvelopeHi(mode));
    if up && pos + 1 < |order| then Min(goal, work[order[pos + 1]].l)
    else if !up && pos >= 1 then Max(goal, work[order[pos - 1]].l)
    else goal
  }

  /** No move of slot `idx` in this direction is possible. */
  ghost predicate Stuck(work: seq<Toned>, order: seq<nat>, rank: seq<nat>, budget: seq<real>,
                        idx: nat, up: bool, mode: Mode)
    requires |order| == |rank| == |work| == |budget| && idx < |work| && rank[idx] < |order|
    requires forall p :: 0 <= p < |order| ==> order[p] < |work|
  {
    || budget[idx] <= 0.0
    || Signed(Target(work, order, rank, budget, idx, up, mode) - work[idx].l, up) <= 0.0
  }

  /** How far slot `idx` moves: to its target, as far as the budget goes, and not at all if it is stuck. */
  ghost function MoveOf(work: seq<Toned>, order: seq<nat>, rank: seq<nat>, budget: seq<real>,
                        idx: nat, up: bool, mode: Mode): real
    requires |order| == |rank| == |work| == |budget| && idx < |work| && rank[idx] < |order|
    requires forall p :: 0 <= p < |order| ==> order[p] < |work|
  {
    var d := Target(work, order, rank, budget, idx, up, mode) - work[idx].l;
    if Stuck(work, order, rank, budget, idx, up, mode) then 0.0
    else if Abs(d) > budget[idx] then Signed(budget[idx], up)
    else d
  }

  /** How far it is from slot `idx` to the bound of the envelope or to its neighbour. */
  function Room(work: seq<Toned>, order: seq<nat>, rank: seq<nat>, idx: nat, up: bool, mode: Mode): real
    requires |order| == |rank| == |work| && idx < |work| && rank[idx] < |order|
    requires forall p :: 0 <= p < |order| ==> order[p] < |work|
  {
    var (l, pos) := (work[idx].l, rank[idx]);
    if up then
      var bound := EnvelopeHi(mode) - l;
      if pos + 1 < |order| then Min(bound, work[order[pos + 1]].l - l) else bound
    else
      var bound := l - EnvelopeLo(mode);
      if pos >= 1 then Min(bound, l - work[order[pos - 1]].l) else bound
  }

  /** A move is as long as it may be: a hundredth, what is left of the budget, or all the room there is. */
  lemma MoveIsLongest(work: seq<Toned>, order: seq<nat>, rank: seq<nat>, budget: seq<real>,
                      idx: nat, up: bool, mode: Mode)
    requires |order| == |rank| == |work| == |budget| && idx < |work| && rank[idx] < |order|
    requires forall p :: 0 <= p < |order| ==> order[p] < |work|
    requires InEnvelope(work[idx], mode) && budget[idx] >= 0.0
    requires Room(work, order, rank, idx, up, mode) >= 0.0
    ensures Signed(MoveOf(work, order, rank, budget, idx, up, mode), up)
         == Min(Min(0.01, budget[idx]), Room(work, order, rank, idx, up, mode))
  {
  }

  /** How far a slot moves: not at all exactly when it is stuck. */
  method Allowed(work: seq<Toned>, order: seq<nat>, rank: seq<nat>, budget: seq<real>, idx: nat, up: bool, mode: Mode)
    returns (delta: real)
    requires |order| == |rank| == |work| == |budget| && idx < |work| && rank[idx] < |order|
    requires forall p :: 0 <= p < |order| ==> order[p] < |work|
    ensures delta == MoveOf(work, order, rank, budget, idx, up, mode)
    ensures delta == 0.0 <==> Stuck(work, order, rank, budget, idx, up, mode)
    ensures Signed(delta, up) >= 0.0 && (budget[idx] >= 0.0 ==> Abs(delta) <= budget[idx])
    ensures delta != 0.0 ==>
      var target := Target(work, order, rank, budget, idx, up, mode);
      if up then work[idx].l + delta <= target else work[idx].l + delta >= target
  {
    var step := Min(SEPARATION_STEP, budget[idx]);
    if step <= 0.0 {
      return 0.0;
    }
    var current := work[idx].l;
    var target := Clamp(current + Signed(step, up), EnvelopeLo(mode), EnvelopeHi(mode));
    if Signed(target - current, up) <= 0.0 {
      return 0.0;
    }
    var pos := rank[idx];
    if up && pos + 1 < |order| {
      target := Min(target, work[order[pos + 1]].l);
    }
    if !up && pos >= 1 {
      target := Max(target, work[order[pos - 1]].l);
    }
    delta := target - current;
    if Signed(delta, up) <= 0.0 {
      return 0.0;
    }
    if Abs(delta) > budget[idx] {
      delta := Signed(budget[idx], delta > 0.0);
    }
  }

  /** The slots, and what is left of their budgets. */
  datatype State = State(work: seq<Toned>, budget: seq<real>)

  /** The state after one attempt to move a slot. */
  ghost function Nudged(s: State, order: seq<nat>, rank: seq<nat>, idx: nat, up: bool, mode: Mode): (t: State)
    requires |order| == |rank| == |s.work| == |s.budget| && idx < |s.work| && rank[idx] < |order|
    requires forall p :: 0 <= p < |order| ==> order[p] < |s.work|
    ensures |t.work| == |s.work| && |t.budget| == |s.budget|
  {
    var d := MoveOf(s.work, order, rank, s.budget, idx, up, mode);
    State(s.work[idx := s.work[idx].(l := s.work[idx].l + d)], s.budget[idx := s.budget[idx] - Abs(d)])
  }

  lemma StuckStays(s: State, order: seq<nat>, rank: seq<nat>, idx: nat, up: bool, mode: Mode)
    requires |order| == |rank| == |s.work| == |s.budget| && idx < |s.work| && rank[idx] < |order|
    requires forall p :: 0 <= p < |order| ==> order[p] < |s.work|
    requires Stuck(s.work, order, rank, s.budget, idx, up, mode)
    ensures Nudged(s, order, rank, idx, up, mode) == s
  {
    var t := Nudged(s, order, rank, idx, up, mode);
    assert t.work == s.work && t.budget == s.budget;
  }

  /** One attempt to move a slot; it moves unless it is stuck. */
  method Nudge(ghost slots: seq<Toned>, work: seq<Toned>, order: seq<nat>, rank: seq<nat>, budget: seq<real>,
               ghost path: seq<real>, idx: nat, up: bool, mode: Mode)
    returns (after: seq<Toned>, left: seq<real>, ghost walked: seq<real>, moved: bool)
    requires Kept(slots, work, order, rank, budget, path, mode) && idx < |work|
    ensures Kept(slots, after, order, rank, left, walked, mode)
    ensures State(after, left) == Nudged(State(work, budget), order, rank, idx, up, mode)
    ensures moved <==> !Stuck(work, order, rank, budget, idx, up, mode)
    ensures !moved ==> after == work && left == budget && walked == path
    ensures moved ==> after == work[idx := after[idx]] && Signed(after[idx].l - work[idx].l, up) > 0.0
    ensures walked == path[idx := path[idx] + Abs(after[idx].l - work[idx].l)]
  {
    assert Moved(slots[idx], work[idx], path[idx], mode);
    var delta := Allowed(work, order, rank, budget, idx, up, mode);
    moved := delta != 0.0;
    if !moved {
      after, left, walked := work, budget, path;
      StuckStays(State(work, budget), order, rank, idx, up, mode);
      return;
    }
    after := work[idx := work[idx].(l := work[idx].l + delta)];
    left := budget[idx := budget[idx] - Abs(delta)];
    walked := path[idx := path[idx] + Abs(delta)];
    NudgeKeeps(slots, work, order, rank, budget, path, idx, delta, mode);
  }

  /** Moving the slot in place `pos` no farther than its neighbours keeps the order. */
  lemma StillAscends(work: seq<Toned>, after: seq<Toned>, order: seq<nat>, idx: nat, pos: nat)
    requires forall p :: 0 <= p < |order| ==> order[p] < |work|
    requires Ascends(work, order) && pos < |order| && order[pos] == idx
    requires |after| == |work| && after == work[idx := after[idx]]
    requires forall p :: 0 <= p < |order| && p != pos ==> order[p] != idx
    requires pos + 1 < |order| ==> after[idx].l <= work[order[pos + 1]].l
    requires pos >= 1 ==> after[idx].l >= work[order[pos - 1]].l
    ensures Ascends(after, order)
  {
    forall p, q | 0 <= p < q < |order| ensures after[order[p]].l <= after[order[q]].l {
      assert work[order[p]].l <= work[order[q]].l;
      if p == pos && pos + 1 < q {
        assert work[order[pos + 1]].l <= work[order[q]].l;
      }
      if q == pos && p < pos - 1 {
        assert work[order[p]].l <= work[order[pos - 1]].l;
      }
    }
  }

  /** A move no longer than the budget, between the slot and its neighbour, and toward the envelope keeps everything. */
  lemma NudgeKeeps(slots: seq<Toned>, work: seq<Toned>, order: seq<nat>, rank: seq<nat>, budget: seq<real>,
                   path: seq<real>, idx: nat, delta: real, mode: Mode)
    requires Kept(slots, work, order, rank, budget, path, mode) && idx < |work|
    requires Abs(delta) <= budget[idx]
    requires delta > 0.0 && rank[idx] + 1 < |order| ==> work[idx].l + delta <= work[order[rank[idx] + 1]].l
    requires delta < 0.0 && rank[idx] >= 1 ==> work[idx].l + delta >= work[order[rank[idx] - 1]].l
    requires delta > 0.0 ==> work[idx].l + delta <= EnvelopeHi(mode)
    requires delta < 0.0 ==> work[idx].l + delta >= EnvelopeLo(mode)
    ensures Kept(slots, work[idx := work[idx].(l := work[idx].l + delta)], order, rank,
                 budget[idx := budget[idx] - Abs(delta)], path[idx := path[idx] + Abs(delta)], mode)
  {
    var after := work[idx := work[idx].(l := work[idx].l + delta)];
    assert Moved(slots[idx], work[idx], path[idx], mode);
    assert Moved(slots[idx], after[idx], path[idx] + Abs(delta), mode);
    assert RankOrder(slots, order, rank);
    StillAscends(work, after, order, idx, rank[idx]);
  }

  // ----- the rank order -----

  method RankSlots(work: seq<Toned>) returns (order: seq<nat>, rank: seq<nat>)
    ensures RankOrder(work, order, rank)
  {
    var indices: seq<nat> := seq(|work|, i => i);
    var le := (a: nat, b: nat) => Lightness(work, a) < Lightness(work, b)
      || (Lightness(work, a) == Lightness(work, b) && a <= b);
    order := Sort<nat>(indices, le);
    SortedSlots(work, indices, order, le);
    var places := new nat[|work|](i => 0);
    for p := 0 to |order|
      invariant forall q :: 0 <= q < p ==> places[order[q]] == q
    {
      places[order[p]] := p;
    }
    rank := places[..];
    forall i: nat | i < |rank| ensures rank[i] < |order| && order[rank[i]] == i {
      assert i in order;
    }
  }

  function Lightness(work: seq<Toned>, i: nat): real {
    if i < |work| then work[i].l else 0.0
  }

  lemma SortedSlots(work: seq<Toned>, indices: seq<nat>, order: seq<nat>, le: (nat, nat) -> bool)
    requires |indices| == |work| && forall i :: 0 <= i < |work| ==> indices[i] == i
    requires forall a: nat, b: nat :: le(a, b) <==>
      Lightness(work, a) < Lightness(work, b) || (Lightness(work, a) == Lightness(work, b) && a <= b)
    requires SortedBy(order, le) && multiset(order) == multiset(indices)
    ensures |order| == |work| && forall p :: 0 <= p < |order| ==> order[p] < |work|
    ensures forall p, q :: 0 <= p < q < |order| ==> RankedBelow(work, order[p], order[q])
    ensures forall i: nat :: i < |work| ==> i in order
  {
    SameMembers(order, indices);
    forall p | 0 <= p < |order| ensures order[p] < |work| {
      assert order[p] in indices;
    }
    forall i: nat | i < |work| ensures i in order {
      assert indices[i] == i;
    }
    forall p, q | 0 <= p < q < |order| ensures RankedBelow(work, order[p], order[q]) {
      assert le(order[p], order[q]);
      ListedOnce(indices, order[p]);
      if order[p] == order[q] {
        TwiceListed(order, p, q);
      }
    }
  }

  // ----- the passes -----

  /** What separating the first `n` slots gives. */
  ghost predicate Separated(g: Gamut, slots: seq<Toned>, n: nat, mode: Mode, out: seq<Toned>, result: SeparationResult,
                            order: seq<nat>, rank: seq<nat>, budget: seq<real>, path: seq<real>,
                            passes: seq<State>) {
    && 2 <= n <= |slots| == |out|
    && PassesLead(g, order, rank, mode, passes, slots[..n], State(out[..n], budget))
    && (result.reason == Passes ==> CapHit(budget, passes))
    && Kept(slots[..n], out[..n], order, rank, budget, path, mode)
    && (forall a :: n <= a < |out| ==> out[a] == out[n - 1])
    && Outcome(g, out[..n], order, rank, budget, mode, result)
    && (AllClear(g, slots[..n]) ==> out[..n] == slots[..n])
  }

  ghost predicate AllClear(g: Gamut, work: seq<Toned>) {
    forall a, b :: 0 <= a < b < |work| ==> De(g, work[a], work[b]) >= MIN_DE
  }

  /** Orders and ranks fit the slots of a state. */
  ghost predicate Fits(order: seq<nat>, rank: seq<nat>, s: State) {
    && |order| == |rank| == |s.work| == |s.budget|
    && (forall p :: 0 <= p < |order| ==> order[p] < |s.work| && rank[p] < |order|)
  }

  /**
   * One pass: the closest pair is too close, so its higher slot moves up and then its lower one
   * down, each as far as it may, and no other slot moves.
   */
  ghost predicate PairMoves(g: Gamut, order: seq<nat>, rank: seq<nat>, mode: Mode, a: State, b: State,
                            up: nat, down: nat) {
    && Fits(order, rank, a) && up < |rank| && down < |rank|
    && !AllClear(g, a.work) && (Closest(g, a.work, up, down) || Closest(g, a.work, down, up))
    && rank[up] > rank[down]
    && b == Nudged(Nudged(a, order, rank, up, true, mode), order, rank, down, false, mode) && b.work != a.work
  }

  ghost predicate Pass(g: Gamut, order: seq<nat>, rank: seq<nat>, mode: Mode, a: State, b: State) {
    exists up, down :: PairMoves(g, order, rank, mode, a, b, up, down)
  }

  /** The states before and after each pass that moved something, at most eight passes in all. */
  ghost predicate PassesLead(g: Gamut, order: seq<nat>, rank: seq<nat>, mode: Mode, passes: seq<State>,
                             first: seq<Toned>, last: State) {
    && 1 <= |passes| <= MAX_SEPARATION_PASSES + 1
    && passes[0].work == first && (forall i :: 0 <= i < |passes[0].budget| ==> passes[0].budget[i] == 0.04)
    && passes[|passes| - 1] == last
    && forall k {:trigger passes[k]} :: 0 < k < |passes| ==> Pass(g, order, rank, mode, passes[k - 1], passes[k])
  }

  ghost predicate Spent(budget: seq<real>) {
    forall i :: 0 <= i < |budget| ==> budget[i] <= BUDGET_EPS
  }

  /** All eight passes moved something, and some budget is left even so. */
  ghost predicate CapHit(budget: seq<real>, passes: seq<State>) {
    |passes| == MAX_SEPARATION_PASSES + 1 && !Spent(budget)
  }

  lemma OneMorePass(g: Gamut, order: seq<nat>, rank: seq<nat>, mode: Mode, passes: seq<State>, first: seq<Toned>,
                    last: State, next: State, up: nat, down: nat)
    requires PassesLead(g, order, rank, mode, passes, first, last) && |passes| <= MAX_SEPARATION_PASSES
    requires PairMoves(g, order, rank, mode, last, next, up, down)
    ensures PassesLead(g, order, rank, mode, passes + [next], first, next)
  {
    var more := passes + [next];
    assert more[0] == passes[0];
    forall k {:trigger more[k]} | 0 < k < |more| ensures Pass(g, order, rank, mode, more[k - 1], more[k]) {
      if k < |passes| {
        assert Pass(g, order, rank, mode, passes[k - 1], passes[k]);
      }
    }
  }

  /** The result tells the truth about the final slots. */
  ghost predicate Outcome(g: Gamut, work: seq<Toned>, order: seq<nat>, rank: seq<nat>, budget: seq<real>,
                          mode: Mode, result: SeparationResult) {
    && (result.resolved <==> result.reason == Clear)
    && (result.resolved <==> AllClear(g, work))
    && (exists i: nat, j: nat :: Closest(g, work, i, j) && result.residual == De(g, work[i], work[j]))
    && result.reason != Duplicates
    && (result.reason == Budget ==> Spent(budget))
    && (result.reason == Blocked ==> Jammed(g, work, order, rank, budget, mode))
  }

  /** Some budget is left, but the higher slot of the closest pair cannot rise and the lower one cannot sink. */
  ghost predicate Jammed(g: Gamut, work: seq<Toned>, order: seq<nat>, rank: seq<nat>, budget: seq<real>, mode: Mode) {
    && |order| == |rank| == |work| == |budget|
    && (forall p :: 0 <= p < |order| ==> order[p] < |work| && rank[p] < |order|)
    && !Spent(budget) && exists up: nat, down: nat :: JammedPair(g, work, order, rank, budget, mode, up, down)
  }

  ghost predicate JammedPair(g: Gamut, work: seq<Toned>, order: seq<nat>, rank: seq<nat>, budget: seq<real>,
                             mode: Mode, up: nat, down: nat)
    requires |order| == |rank| == |work| == |budget|
    requires forall p :: 0 <= p < |order| ==> order[p] < |work| && rank[p] < |order|
  {
    && (Closest(g, work, up, down) || Closest(g, work, down, up))
    && up < |work| && down < |work| && rank[up] > rank[down]
    && Stuck(work, order, rank, budget, up, true, mode) && Stuck(work, order, rank, budget, down, false, mode)
  }

  method AllSpent(budget: seq<real>) returns (spent: bool)
    ensures spent <==> Spent(budget)
  {
    for i := 0 to |budget|
      invariant forall k :: 0 <= k < i ==> budget[k] <= BUDGET_EPS
    {
      if budget[i] > BUDGET_EPS {
        return false;
      }
    }
    return true;
  }

  /** Both moves of one pass. */
  method MoveApart(ghost slots: seq<Toned>, work: seq<Toned>, order: seq<nat>, rank: seq<nat>, budget: seq<real>,
                   ghost path: seq<real>, up: nat, down: nat, mode: Mode)
    returns (after: seq<Toned>, left: seq<real>, ghost walked: seq<real>, moved: bool)
    requires Kept(slots, work, order, rank, budget, path, mode) && up < |work| && down < |work| && up != down
    ensures Kept(slots, after, order, rank, left, walked, mode)
    ensures State(after, left) ==
      Nudged(Nudged(State(work, budget), order, rank, up, true, mode), order, rank, down, false, mode)
    ensures !moved ==> after == work && left == budget && walked == path
    ensures moved ==> after != work
    ensures !moved ==>
      Stuck(work, order, rank, budget, up, true, mode) && Stuck(work, order, rank, budget, down, false, mode)
  {
    var rose, sank;
    after, left, walked, rose := Nudge(slots, work, order, rank, budget, path, up, true, mode);
    after, left, walked, sank := Nudge(slots, after, order, rank, left, walked, down, false, mode);
    moved := rose || sank;
  }

  /** One pass over the closest pair, if it is too close: the slot that ranks higher goes up, the other down. */
  method PassOver(ghost g: Gamut, ghost slots: seq<Toned>, work: seq<Toned>, order: seq<nat>, rank: seq<nat>,
                  budget: seq<real>, ghost path: seq<real>, i: nat, j: nat, mode: Mode)
    returns (after: seq<Toned>, left: seq<real>, ghost walked: seq<real>, moved: bool, ghost up: nat, ghost down: nat)
    requires Kept(slots, work, order, rank, budget, path, mode) && Closest(g, work, i, j) && !AllClear(g, work)
    ensures Kept(slots, after, order, rank, left, walked, mode)
    ensures moved ==> PairMoves(g, order, rank, mode, State(work, budget), State(after, left), up, down)
    ensures !moved ==> after == work && left == budget && walked == path
    ensures !moved ==>
      Fits(order, rank, State(work, budget)) && JammedPair(g, work, order, rank, budget, mode, up, down)
  {
    RanksDiffer(slots, order, rank, i, j);
    var high, low := j, i;
    if rank[i] > rank[j] {
      high, low := i, j;
    }
    after, left, walked, moved := MoveApart(slots, work, order, rank, budget, path, high, low, mode);
    up, down := high, low;
  }

  /** A closest pair decides whether all pairs are clear. */
  lemma ClosestDecides(g: Gamut, work: seq<Toned>, i: nat, j: nat)
    requires Closest(g, work, i, j)
    ensures AllClear(g, work) <==> De(g, work[i], work[j]) >= MIN_DE
  {
  }

  /** What holds when the passes are over: the reason is right unless the slots turn out clear. */
  ghost predicate Ended(g: Gamut, work: seq<Toned>, order: seq<nat>, rank: seq<nat>, budget: seq<real>, mode: Mode,
                        reason: Reason, passes: seq<State>) {
    && (reason == Passes ==> CapHit(budget, passes))
    && (reason == Clear ==> AllClear(g, work))
    && (reason == Budget ==> Spent(budget))
    && (reason == Blocked ==> Jammed(g, work, order, rank, budget, mode))
    && reason != Duplicates
  }

  /** At most eight passes, each moving the closest pair apart, until one of the four reasons holds. */
  method RunPasses(g: Gamut, slots: seq<Toned>, order: seq<nat>, rank: seq<nat>, mode: Mode)
    returns (work: seq<Toned>, ghost budget: seq<real>, ghost path: seq<real>, reason: Reason,
             ghost passes: seq<State>)
    requires |slots| >= 2 && RankOrder(slots, order, rank)
    ensures Kept(slots, work, order, rank, budget, path, mode)
    ensures PassesLead(g, order, rank, mode, passes, slots, State(work, budget))
    ensures Ended(g, work, order, rank, budget, mode, reason, passes)
    ensures AllClear(g, slots) ==> work == slots
  {
    work, reason := slots, Passes;
    var allowance: seq<real> := seq(|slots|, i => MAX_SEPARATION_SHIFT);
    path := seq(|slots|, i => 0.0);
    budget, passes := allowance, [State(slots, allowance)];
    FreshKept(slots, order, rank, allowance, path, mode);
    assert allowance[0] > BUDGET_EPS;
    for pass := 0 to MAX_SEPARATION_PASSES
      invariant Kept(slots, work, order, rank, allowance, path, mode)
      invariant PassesLead(g, order, rank, mode, passes, slots, State(work, allowance))
      invariant |passes| == pass + 1 && !Spent(allowance)
      invariant pass > 0 ==> !AllClear(g, slots)
      invariant pass == 0 ==> work == slots
      invariant budget == allowance && reason == Passes
    {
      var i, j, dist := ClosestPair(g, work);
      ClosestDecides(g, work, i, j);
      if dist >= MIN_DE {
        reason := Clear;
        break;
      }
      ghost var before, up, down := State(work, allowance), 0, 0;
      var moved;
      work, allowance, path, moved, up, down := PassOver(g, slots, work, order, rank, allowance, path, i, j, mode);
      budget := allowance;
      if moved {
        OneMorePass(g, order, rank, mode, passes, slots, before, State(work, allowance), up, down);
        passes := passes + [State(work, allowance)];
      }
      var spent := AllSpent(allowance);
      if spent {
        reason := Budget;
        break;
      }
      if !moved {
        reason := Blocked;
        break;
      }
    }
  }

  lemma RanksDiffer(slots: seq<Toned>, order: seq<nat>, rank: seq<nat>, i: nat, j: nat)
    requires RankOrder(slots, order, rank) && i < |slots| && j < |slots| && i != j
    ensures rank[i] != rank[j]
  {
    assert order[rank[i]] == i && order[rank[j]] == j;
  }

  lemma FreshKept(slots: seq<Toned>, order: seq<nat>, rank: seq<nat>, budget: seq<real>, path: seq<real>, mode: Mode)
    requires RankOrder(slots, order, rank) && |budget| == |path| == |slots|
    requires forall i :: 0 <= i < |slots| ==> budget[i] == MAX_SEPARATION_SHIFT && path[i] == 0.0
    ensures Kept(slots, slots, order, rank, budget, path, mode)
  {
    forall p, q | 0 <= p < q < |order| ensures slots[order[p]].l <= slots[order[q]].l {
      assert RankedBelow(slots, order[p], order[q]);
    }
  }

  /**
   * Pushes colliding slots apart in lightness only. The first `n` slots take part; the others
   * repeat the last of them.
   */
  method Separate(g: Gamut, slots: seq<Toned>, mode: Mode, n: nat)
    returns (out: seq<Toned>, result: SeparationResult,
             ghost order: seq<nat>, ghost rank: seq<nat>, ghost budget: seq<real>, ghost path: seq<real>,
             ghost passes: seq<State>)
    requires n <= |slots|
    ensures n < 2 ==> out == slots && result == SeparationResult(false, Duplicates, 0.0)
    ensures n >= 2 ==> Separated(g, slots, n, mode, out, result, order, rank, budget, path, passes)
  {
    order, rank, budget, path, passes := [], [], [], [], [];
    if n < 2 {
      return slots, SeparationResult(false, Duplicates, 0.0), [], [], [], [], [];
    }
    var byLightness, places := RankSlots(slots[..n]);
    order, rank := byLightness, places;
    var work, reason;
    work, budget, path, reason, passes := RunPasses(g, slots[..n], byLightness, places, mode);
    var i, j, residual := ClosestPair(g, work);
    ClosestDecides(g, work, i, j);
    var resolved := residual >= MIN_DE;
    result := SeparationResult(resolved, if resolved then Clear else reason, residual);
    out := RepeatLast(work, |slots|);
  }

  method RepeatLast(work: seq<Toned>, size: nat) returns (out: seq<Toned>)
    requires 1 <= |work| <= size
    ensures |out| == size && out[..|work|] == work
    ensures forall a :: |work| <= a < size ==> out[a] == work[|work| - 1]
    ensures out[|work| - 1] == work[|work| - 1]
  {
    out := work;
    while |out| < size
      invariant |work| <= |out| <= size && out[..|work|] == work
      invariant forall a :: |work| <= a < |out| ==> out[a] == work[|work| - 1]
    {
      out := out + [work[|work| - 1]];
    }
    assert out[|work| - 1] == out[..|work|][|work| - 1];
  }
}
