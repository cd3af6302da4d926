/**
 * Which box is cut next, with the heap's own tie-breaking: the cutting depends on nothing but what
 * the boxes hold, not on the order of entries in the histogram or after a sort.
 */
module CutOrder {
  import opened Types
  import opened Sorting
  import opened BoxSplit
  import opened BoxTree
  import opened BoxHeap

  function Counts(boxes: seq<BoxNode>): (counts: seq<nat>)
    ensures |counts| == |boxes| && forall i :: 0 <= i < |boxes| ==> counts[i] == boxes[i].pixelCount
  {
    seq(|boxes|, i requires 0 <= i < |boxes| => boxes[i].pixelCount)
  }

  /** `l` and `r` are what cutting `box` gives. */
  ghost predicate CutOf(box: BoxNode, l: BoxNode, r: BoxNode, axis: nat, cut: nat) {
    && Widest(box.entries, axis) && MedianCut(l.entries, r.entries, axis, cut)
    && multiset(l.entries) + multiset(r.entries) == multiset(box.entries)
    && l.pixelCount == Total(l.entries) && r.pixelCount == Total(r.entries)
    && l.children.None? && r.children.None?
  }

  // ----- the cutting as a run of states -----

  /** The boxes, and the slots of the heap. */
  datatype CutState = CutState(boxes: seq<BoxNode>, slots: seq<nat>)
  {
    ghost predicate Valid() { Indexed(Counts(boxes), slots) && Heaped(Counts(boxes), slots) }
  }

  /** The first box of more than one colour that comes out of the heap, and the slots left then. */
  ghost function Skim(boxes: seq<BoxNode>, s: seq<nat>): (r: (Option<nat>, seq<nat>))
    requires Indexed(Counts(boxes), s) && Heaped(Counts(boxes), s)
    ensures r.0.Some? ==> r.0.value < |boxes|
    decreases |s|
  {
    if |s| == 1 then (None, s)
    else
      RemovedHeaps(Counts(boxes), s);
      var rest := Removed(Counts(boxes), s);
      if Uniform(boxes[s[1]].entries) then Skim(boxes, rest) else (Some(s[1]), rest)
  }

  /** `t` is `s` after adding boxes `n` and `n + 1`. */
  ghost predicate AddedBoth(counts: seq<nat>, s: seq<nat>, n: nat, t: seq<nat>) {
    && Indexed(counts, s) && |s| >= 1 && n + 1 < |counts|
    && var once := Added(counts, s, n);
      Indexed(counts, once) && |once| >= 1 && t == Added(counts, once, n + 1)
  }

  ghost predicate CutBy(a: CutState, b: CutState, l: BoxNode, r: BoxNode, axis: nat, cut: nat)
    requires a.Valid()
  {
    var (node, rest) := Skim(a.boxes, a.slots);
    && node.Some? && CutOf(a.boxes[node.value], l, r, axis, cut)
    && b.boxes == Grown(a.boxes, node.value, l, r)
    && AddedBoth(Counts(b.boxes), rest, |a.boxes|, b.slots)
  }

  /** One turn of the loop: the box the heap gives is cut, and its halves are queued. */
  ghost predicate Turn(a: CutState, b: CutState) {
    a.Valid() && exists l, r, axis, cut :: CutBy(a, b, l, r, axis, cut)
  }

  /** One box, and it is queued. */
  ghost predicate Begins(a: CutState, entries: seq<Entry>) {
    && a.boxes == [BoxNode(entries, Total(entries), None)]
    && Indexed(Counts(a.boxes), [0]) && a.slots == Added(Counts(a.boxes), [0], 0)
  }

  /** The loop's states so far. */
  ghost predicate Turns(states: seq<CutState>, entries: seq<Entry>) {
    && |states| >= 1 && Begins(states[0], entries)
    && forall k {:trigger states[k]} :: 0 < k < |states| ==> Turn(states[k - 1], states[k])
  }

  /** The heap has nothing left to cut. */
  ghost predicate NothingLeft(a: CutState) { a.Valid() && Skim(a.boxes, a.slots).0.None? }

  /** The cutting loop leads to these boxes. */
  ghost predicate HeapOrdered(entries: seq<Entry>, boxes: seq<BoxNode>, colors: nat) {
    exists states :: HeapCuts(states, entries, colors, boxes)
  }

  /** All of the loop's states: as many boxes as asked for, or nothing is left to cut. */
  ghost predicate HeapCuts(states: seq<CutState>, entries: seq<Entry>, colors: nat, boxes: seq<BoxNode>) {
    && Turns(states, entries) && |states| <= colors && states[|states| - 1].boxes == boxes
    && (|states| < colors ==> NothingLeft(states[|states| - 1]))
  }

  // ----- what does not depend on the order of entries -----

  lemma {:induction false} ExtremesPermuted(a: seq<Entry>, b: seq<Entry>, axis: nat)
    requires multiset(a) == multiset(b) && axis < 3
    ensures Lo(a, axis) == Lo(b, axis) && Hi(a, axis) == Hi(b, axis)
  {
    SameMembers(a, b);
    if |a| > 0 {
      ExtremesSpan(a, axis);
      ExtremesSpan(b, axis);
      SpanWithin(a, b, axis);
      SpanWithin(b, a, axis);
    }
  }

  lemma {:induction false} SpanWithin(a: seq<Entry>, b: seq<Entry>, axis: nat)
    requires axis < 3 && |a| > 0 && |b| > 0 && forall e :: e in a ==> e in b
    requires Spans(a, axis, Lo(a, axis), Hi(a, axis)) && Spans(b, axis, Lo(b, axis), Hi(b, axis))
    ensures Lo(b, axis) <= Lo(a, axis) && Hi(a, axis) <= Hi(b, axis)
  {
    var i :| 0 <= i < |a| && a[i].color.At(axis) == Lo(a, axis);
    var j :| 0 <= j < |a| && a[j].color.At(axis) == Hi(a, axis);
    assert a[i] in b && a[j] in b;
  }

  lemma UniformPermuted(a: seq<Entry>, b: seq<Entry>)
    requires multiset(a) == multiset(b)
    ensures Uniform(a) == Uniform(b)
  {
    FlatIsUniform(a);
    FlatIsUniform(b);
    ExtremesPermuted(a, b, 0);
    ExtremesPermuted(a, b, 1);
    ExtremesPermuted(a, b, 2);
  }

  lemma WidestPermuted(a: seq<Entry>, b: seq<Entry>, x: nat, y: nat)
    requires multiset(a) == multiset(b) && Widest(a, x) && Widest(b, y)
    ensures x == y
  {
    ExtremesPermuted(a, b, x);
    ExtremesPermuted(a, b, y);
    assert Extent(a, x) == Extent(b, x) && Extent(a, y) == Extent(b, y);
  }

  /** Two boxes hold the same, in whatever order. */
  predicate AlikeBox(a: BoxNode, b: BoxNode) {
    multiset(a.entries) == multiset(b.entries) && a.pixelCount == b.pixelCount && a.children == b.children
  }

  ghost predicate Alike(a: seq<BoxNode>, b: seq<BoxNode>) {
    |a| == |b| && forall i :: 0 <= i < |a| ==> AlikeBox(a[i], b[i])
  }

  lemma CutPermuted(a: BoxNode, l: BoxNode, r: BoxNode, axis: nat, cut: nat,
                    b: BoxNode, l': BoxNode, r': BoxNode, axis': nat, cut': nat)
    requires AlikeBox(a, b) && CutOf(a, l, r, axis, cut) && CutOf(b, l', r', axis', cut')
    ensures AlikeBox(l, l') && AlikeBox(r, r')
  {
    WidestPermuted(a.entries, b.entries, axis, axis');
    CutIsDetermined(l.entries, r.entries, cut, l'.entries, r'.entries, cut', axis);
    TotalPermuted(l.entries, l'.entries);
    TotalPermuted(r.entries, r'.entries);
  }

  lemma AlikeCounts(a: seq<BoxNode>, b: seq<BoxNode>)
    requires Alike(a, b)
    ensures Counts(a) == Counts(b)
  {
    forall i | 0 <= i < |a| ensures Counts(a)[i] == Counts(b)[i] {
      assert AlikeBox(a[i], b[i]);
    }
  }

  lemma {:induction false} SkimAlike(a: seq<BoxNode>, b: seq<BoxNode>, s: seq<nat>)
    requires Alike(a, b) && Counts(a) == Counts(b) && Indexed(Counts(a), s) && Heaped(Counts(a), s)
    ensures Skim(a, s) == Skim(b, s)
    decreases |s|
  {
    if |s| > 1 {
      RemovedHeaps(Counts(a), s);
      assert AlikeBox(a[s[1]], b[s[1]]);
      UniformPermuted(a[s[1]].entries, b[s[1]].entries);
      SkimAlike(a, b, Removed(Counts(a), s));
    }
  }

  lemma GrownAlike(a: seq<BoxNode>, l: BoxNode, r: BoxNode, b: seq<BoxNode>, l': BoxNode, r': BoxNode, node: nat)
    requires Alike(a, b) && AlikeBox(l, l') && AlikeBox(r, r') && node < |a|
    ensures Alike(Grown(a, node, l, r), Grown(b, node, l', r'))
  {
    var (x, y) := (Grown(a, node, l, r), Grown(b, node, l', r'));
    forall i | 0 <= i < |x| ensures AlikeBox(x[i], y[i]) {
      if i < |a| { assert AlikeBox(a[i], b[i]); }
    }
  }

  ghost predicate SameState(a: CutState, b: CutState) { Alike(a.boxes, b.boxes) && a.slots == b.slots }

  lemma TurnAlike(a: CutState, a': CutState, b: CutState, b': CutState)
    requires SameState(a, b) && Turn(a, a') && Turn(b, b')
    ensures SameState(a', b')
  {
    AlikeCounts(a.boxes, b.boxes);
    SkimAlike(a.boxes, b.boxes, a.slots);
    var node := Skim(a.boxes, a.slots).0.value;
    var l, r, axis, cut :| CutBy(a, a', l, r, axis, cut);
    var l', r', axis', cut' :| CutBy(b, b', l', r', axis', cut');
    assert AlikeBox(a.boxes[node], b.boxes[node]);
    CutPermuted(a.boxes[node], l, r, axis, cut, b.boxes[node], l', r', axis', cut');
    GrownAlike(a.boxes, l, r, b.boxes, l', r', node);
    AlikeCounts(a'.boxes, b'.boxes);
  }

  lemma BeginsAlike(a: CutState, b: CutState, e: seq<Entry>, e': seq<Entry>)
    requires Begins(a, e) && Begins(b, e') && multiset(e) == multiset(e')
    ensures SameState(a, b)
  {
    TotalPermuted(e, e');
    assert AlikeBox(a.boxes[0], b.boxes[0]);
    AlikeCounts(a.boxes, b.boxes);
  }

  lemma {:induction false} RunsAlike(x: seq<CutState>, y: seq<CutState>, e: seq<Entry>, e': seq<Entry>, k: nat)
    requires Turns(x, e) && Turns(y, e') && multiset(e) == multiset(e') && k < |x| && k < |y|
    ensures SameState(x[k], y[k])
  {
    if k == 0 {
      BeginsAlike(x[0], y[0], e, e');
    } else {
      RunsAlike(x, y, e, e', k - 1);
      TurnAlike(x[k - 1], x[k], y[k - 1], y[k]);
    }
  }

  lemma DrainedEnds(a: CutState, b: CutState, b': CutState)
    requires SameState(a, b) && NothingLeft(a)
    ensures !Turn(b, b')
  {
    AlikeCounts(a.boxes, b.boxes);
    SkimAlike(a.boxes, b.boxes, a.slots);
  }

  lemma NoShorter(x: seq<CutState>, y: seq<CutState>, e: seq<Entry>, e': seq<Entry>,
                  colors: nat, boxes: seq<BoxNode>, boxes': seq<BoxNode>)
    requires HeapCuts(x, e, colors, boxes) && HeapCuts(y, e', colors, boxes') && multiset(e) == multiset(e')
    ensures |x| >= |y|
  {
    var k := |x| - 1;
    assert |x| < |y| ==> Turn(y[k], y[k + 1]);
    if |x| < |y| {
      RunsAlike(x, y, e, e', k);
      DrainedEnds(x[k], y[k], y[k + 1]);
    }
  }

  /** Two runs of the loop over the same entries, in any order, end with boxes that hold the same. */
  lemma CuttingIsDetermined(x: seq<CutState>, y: seq<CutState>, e: seq<Entry>, e': seq<Entry>,
                            colors: nat, boxes: seq<BoxNode>, boxes': seq<BoxNode>)
    requires HeapCuts(x, e, colors, boxes) && HeapCuts(y, e', colors, boxes') && multiset(e) == multiset(e')
    ensures |x| == |y| && Alike(boxes, boxes')
  {
    NoShorter(x, y, e, e', colors, boxes, boxes');
    NoShorter(y, x, e', e, colors, boxes', boxes);
    RunsAlike(x, y, e, e', |x| - 1);
  }
}
