/** Median cut: boxes are cut, most pixels first, until there are enough or every box is one colour. */
module MedianCut {
  import opened Types
  import opened BoxSplit
  import opened BoxTree
  import opened BoxHeap
  import opened CutOrder

  // ----- what every cut keeps -----

  /** A box has entries, each with pixels, and knows how many pixels they have. */
  ghost predicate SoundBox(box: BoxNode) {
    |box.entries| > 0 && Counted(box.entries) && box.pixelCount == Total(box.entries)
  }

  /**
   * The leaves are disjoint boxes that together hold exactly `entries`, and each is listed
   * exactly once by a depth-first walk from the root.
   */
  ghost predicate Partition(boxes: seq<BoxNode>, entries: seq<Entry>) {
    && Tree(boxes)
    && (forall i :: 0 <= i < |boxes| ==> SoundBox(boxes[i]))
    && Disjoint(boxes)
    && var leaves := Leaves(boxes, 0);
      && Refers(leaves, |boxes|) && LeafBag(boxes, multiset(leaves))
      && Gather(boxes, leaves) == multiset(entries)
  }

  lemma {:induction false} OneBoxPartition(entries: seq<Entry>)
    requires |entries| > 0 && Counted(entries)
    ensures var boxes := [BoxNode(entries, Total(entries), None)];
      Partition(boxes, entries) && Leaves(boxes, 0) == [0]
  {
    var boxes := [BoxNode(entries, Total(entries), None)];
    assert ChildrenLater(boxes, 0);
    assert Leaves(boxes, 0) == [0];
    assert Gather(boxes, []) == multiset{};
    GatherOne(boxes, [], 0);
    assert [] + [0] == [0];
  }

  lemma CutIsSound(box: BoxNode, l: BoxNode, r: BoxNode, axis: nat, cut: nat)
    requires SoundBox(box) && CutOf(box, l, r, axis, cut)
    ensures SoundBox(l) && SoundBox(r)
  {
    forall k | 0 <= k < |l.entries| ensures l.entries[k].count > 0 {
      assert l.entries[k] in multiset(box.entries);
    }
    forall k | 0 <= k < |r.entries| ensures r.entries[k].count > 0 {
      assert r.entries[k] in multiset(box.entries);
    }
  }

  lemma AllSound(boxes: seq<BoxNode>, node: nat, l: BoxNode, r: BoxNode, axis: nat, cut: nat)
    requires node < |boxes| && forall i :: 0 <= i < |boxes| ==> SoundBox(boxes[i])
    requires CutOf(boxes[node], l, r, axis, cut)
    ensures var grown := Grown(boxes, node, l, r); forall i :: 0 <= i < |grown| ==> SoundBox(grown[i])
  {
    CutIsSound(boxes[node], l, r, axis, cut);
    var grown := Grown(boxes, node, l, r);
    forall i | 0 <= i < |grown| ensures SoundBox(grown[i]) {
      if i < |boxes| { assert SoundBox(boxes[i]); }
    }
  }

  /** A cut keeps the partition and adds one leaf. */
  lemma {:induction false} CutKeepsPartition(boxes: seq<BoxNode>, entries: seq<Entry>, node: nat,
                          l: BoxNode, r: BoxNode, axis: nat, cut: nat)
    requires Partition(boxes, entries) && IsLeaf(boxes, node) && CutOf(boxes[node], l, r, axis, cut)
    ensures Partition(Grown(boxes, node, l, r), entries)
    ensures |Leaves(Grown(boxes, node, l, r), 0)| == |Leaves(boxes, 0)| + 1
  {
    var (grown, leaves) := (Grown(boxes, node, l, r), Leaves(boxes, 0));
    GrownLeaves(boxes, node, l, r, 0);
    GrownBag(boxes, node, l, r, leaves);
    DivisionGathers(boxes, grown, node, leaves);
    assert Separates(l.entries, r.entries, axis, cut);
    GrownDisjoint(boxes, node, l, r, axis, cut);
    AllSound(boxes, node, l, r, axis, cut);
  }

  // ----- the queue of boxes to cut -----

  /** The queue holds leaves, each once, and every leaf of more than one colour. */
  ghost predicate Queued(boxes: seq<BoxNode>, queue: multiset<nat>) {
    && (forall i :: i in queue ==> queue[i] == 1 && IsLeaf(boxes, i))
    && (forall i: nat :: IsLeaf(boxes, i) && i !in queue ==> Uniform(boxes[i].entries))
  }

  /** A heap stays a heap when boxes are added behind it. */
  lemma HeapOutlivesGrowth(counts: seq<nat>, grown: seq<nat>, s: seq<nat>)
    requires |counts| <= |grown| && grown[..|counts|] == counts
    requires Indexed(counts, s) && Heaped(counts, s)
    ensures Indexed(grown, s) && Heaped(grown, s)
  {
    assert forall i :: 0 <= i < |counts| ==> grown[i] == grown[..|counts|][i];
    forall j | 2 <= j < |s| ensures Child(grown, s, j) {
      assert Child(counts, s, j);
    }
  }

  /** Box `i` left the queue, with as many pixels as any: dropped if it is one colour, to be cut otherwise. */
  lemma TookOut(boxes: seq<BoxNode>, before: multiset<nat>, i: nat, after: multiset<nat>)
    requires Queued(boxes, before) && i in before && after == before - multiset{i}
    requires Largest(Counts(boxes), before, i)
    ensures IsLeaf(boxes, i) && i !in after && after + multiset{i} == before
    ensures forall j :: j in after ==> j < |boxes| && boxes[j].pixelCount <= boxes[i].pixelCount
    ensures Uniform(boxes[i].entries) ==> Queued(boxes, after)
  {
  }

  /** Takes boxes out until one has more than one colour. */
  method NextBox(heap: Heap, boxes: seq<BoxNode>) returns (node: Option<nat>)
    requires heap.Valid(Counts(boxes)) && Queued(boxes, heap.Contents())
    requires forall i :: 0 <= i < |boxes| ==> SoundBox(boxes[i])
    modifies heap
    ensures heap.Valid(Counts(boxes)) && (node, heap.slots) == Skim(boxes, old(heap.slots))
    ensures node.None? ==> heap.Contents() == multiset{} && Queued(boxes, heap.Contents())
    ensures node.Some? ==>
      && IsLeaf(boxes, node.value) && !Uniform(boxes[node.value].entries)
      && Queued(boxes, heap.Contents() + multiset{node.value}) && node.value !in heap.Contents()
      && (forall i :: i in heap.Contents() ==> boxes[i].pixelCount <= boxes[node.value].pixelCount)
  {
    while true
      invariant heap.Valid(Counts(boxes)) && Queued(boxes, heap.Contents())
      invariant Skim(boxes, heap.slots) == Skim(boxes, old(heap.slots))
      decreases |heap.slots|
    {
      ghost var before := heap.Contents();
      var top := heap.Remove(Counts(boxes));
      if top.None? {
        assert heap.slots[1..] == [];
        return None;
      }
      var i := top.value;
      TookOut(boxes, before, i, heap.Contents());
      assert SoundBox(boxes[i]);
      var v := Volume(boxes[i].entries);
      if v != 1 {
        return Some(i);
      }
    }
  }

  /** Every leaf is one colour. */
  ghost predicate Exhausted(boxes: seq<BoxNode>) {
    forall i: nat :: IsLeaf(boxes, i) ==> Uniform(boxes[i].entries)
  }

  /** Cutting a queued box and queueing its halves keeps the queue right. */
  lemma CutKeepsQueue(boxes: seq<BoxNode>, queue: multiset<nat>, node: nat, l: BoxNode, r: BoxNode)
    requires Queued(boxes, queue + multiset{node}) && node !in queue && Cuttable(boxes, node, l, r)
    ensures Queued(Grown(boxes, node, l, r), queue + multiset{|boxes|} + multiset{|boxes| + 1})
  {
    var grown := Grown(boxes, node, l, r);
    var after := queue + multiset{|boxes|} + multiset{|boxes| + 1};
    forall i | i in after ensures after[i] == 1 && IsLeaf(grown, i) {
      if i in queue {
        assert i in queue + multiset{node};
      }
    }
    forall i: nat | IsLeaf(grown, i) && i !in after ensures Uniform(grown[i].entries) {
      assert IsLeaf(boxes, i) && i !in queue + multiset{node};
    }
  }

  /** `grown` is `boxes` after cutting a box with most pixels among those of more than one colour. */
  ghost predicate GreedyCut(boxes: seq<BoxNode>, grown: seq<BoxNode>) {
    exists node: nat, l, r, axis, cut :: CutAt(boxes, grown, node, l, r, axis, cut)
  }

  ghost predicate CutAt(boxes: seq<BoxNode>, grown: seq<BoxNode>, node: nat,
                        l: BoxNode, r: BoxNode, axis: nat, cut: nat) {
    && MostPixels(boxes, node) && CutOf(boxes[node], l, r, axis, cut)
    && grown == Grown(boxes, node, l, r)
  }

  ghost predicate MostPixels(boxes: seq<BoxNode>, node: nat) {
    && IsLeaf(boxes, node) && !Uniform(boxes[node].entries)
    && forall i: nat :: IsLeaf(boxes, i) && !Uniform(boxes[i].entries) ==> boxes[i].pixelCount <= boxes[node].pixelCount
  }

  /** `trace` leads from the single box `root` to `boxes`, one greedy cut at a time. */
  ghost predicate GreedyCuts(trace: seq<seq<BoxNode>>, root: BoxNode, boxes: seq<BoxNode>) {
    && |trace| > 0 && trace[0] == [root] && trace[|trace| - 1] == boxes
    && forall i {:trigger trace[i]} :: 0 < i < |trace| ==> GreedyCut(trace[i - 1], trace[i])
  }

  lemma LongerTrace(trace: seq<seq<BoxNode>>, root: BoxNode, boxes: seq<BoxNode>, grown: seq<BoxNode>)
    requires GreedyCuts(trace, root, boxes) && GreedyCut(boxes, grown)
    ensures GreedyCuts(trace + [grown], root, grown)
  {
  }

  lemma TopHasMostPixels(boxes: seq<BoxNode>, queue: multiset<nat>, node: nat)
    requires IsLeaf(boxes, node) && !Uniform(boxes[node].entries) && Queued(boxes, queue + multiset{node})
    requires forall i :: i in queue ==> i < |boxes| && boxes[i].pixelCount <= boxes[node].pixelCount
    ensures MostPixels(boxes, node)
  {
    forall i: nat | IsLeaf(boxes, i) && !Uniform(boxes[i].entries)
      ensures boxes[i].pixelCount <= boxes[node].pixelCount
    {
      assert i in queue + multiset{node};
    }
  }

  /** There is something to cut, each entry has pixels, and these are all of them. */
  ghost predicate Countable(entries: seq<Entry>, pixels: nat) {
    |entries| > 0 && Counted(entries) && pixels == Total(entries)
  }

  /** The boxes come from the box of all entries by cutting, at its median, the fullest box that can be cut. */
  ghost predicate MedianCuts(entries: seq<Entry>, boxes: seq<BoxNode>) {
    exists trace :: GreedyCuts(trace, BoxNode(entries, Total(entries), None), boxes)
  }

  /** The boxes are as many as asked for, or all of one colour. */
  ghost predicate Finished(entries: seq<Entry>, boxes: seq<BoxNode>, colors: nat) {
    && Partition(boxes, entries) && |Leaves(boxes, 0)| <= colors
    && (|Leaves(boxes, 0)| == colors || Exhausted(boxes))
  }

  /** The boxes of a finished cut, each the fullest that could be cut, in the heap's order. */
  ghost predicate Cutting(entries: seq<Entry>, boxes: seq<BoxNode>, colors: nat) {
    Finished(entries, boxes, colors) && MedianCuts(entries, boxes) && HeapOrdered(entries, boxes, colors)
  }

  /** `node` was just taken from the queue to be cut. */
  ghost predicate Taken(boxes: seq<BoxNode>, entries: seq<Entry>, queue: multiset<nat>, node: nat) {
    && Partition(boxes, entries) && IsLeaf(boxes, node) && !Uniform(boxes[node].entries)
    && Queued(boxes, queue + multiset{node}) && node !in queue
    && forall i :: i in queue ==> i < |boxes| && boxes[i].pixelCount <= boxes[node].pixelCount
  }

  /** A greedy cut that keeps the partition and adds one leaf. */
  ghost predicate CutFrom(boxes: seq<BoxNode>, grown: seq<BoxNode>, entries: seq<Entry>) {
    && Partition(boxes, entries) && Partition(grown, entries)
    && |Leaves(grown, 0)| == |Leaves(boxes, 0)| + 1 && GreedyCut(boxes, grown)
  }

  /** Greedy cuts have led to a partition with `n` leaves. */
  ghost predicate CutInto(entries: seq<Entry>, boxes: seq<BoxNode>, n: nat) {
    Partition(boxes, entries) && MedianCuts(entries, boxes) && |Leaves(boxes, 0)| == n
  }

  lemma CutsBegin(entries: seq<Entry>, pixels: nat)
    requires Countable(entries, pixels)
    ensures CutInto(entries, [BoxNode(entries, pixels, None)], 1)
  {
    var boxes := [BoxNode(entries, pixels, None)];
    OneBoxPartition(entries);
    assert GreedyCuts([boxes], BoxNode(entries, pixels, None), boxes);
  }

  lemma CutsGoOn(entries: seq<Entry>, boxes: seq<BoxNode>, n: nat, grown: seq<BoxNode>)
    requires CutInto(entries, boxes, n) && CutFrom(boxes, grown, entries)
    ensures CutInto(entries, grown, n + 1)
  {
    var root := BoxNode(entries, Total(entries), None);
    var trace :| GreedyCuts(trace, root, boxes);
    LongerTrace(trace, root, boxes, grown);
  }

  /** Cuts one box and queues its halves. */
  method CutOne(heap: Heap, boxes: seq<BoxNode>, node: nat, ghost entries: seq<Entry>)
    returns (grown: seq<BoxNode>, ghost l: BoxNode, ghost r: BoxNode, ghost axis: nat, ghost cut: nat)
    requires heap.Valid(Counts(boxes)) && Taken(boxes, entries, heap.Contents(), node)
    modifies heap
    ensures CutFrom(boxes, grown, entries)
    ensures heap.Valid(Counts(grown)) && Queued(grown, heap.Contents())
    ensures CutOf(boxes[node], l, r, axis, cut) && grown == Grown(boxes, node, l, r)
    ensures AddedBoth(Counts(grown), old(heap.slots), |boxes|, heap.slots)
  {
    grown, l, r, axis, cut := CutBox(boxes, node, entries, heap.Contents());
    QueueHalves(heap, boxes, grown);
  }

  method CutBox(boxes: seq<BoxNode>, node: nat, ghost entries: seq<Entry>, ghost queue: multiset<nat>)
    returns (grown: seq<BoxNode>, ghost l: BoxNode, ghost r: BoxNode, ghost axis: nat, ghost cut: nat)
    requires Taken(boxes, entries, queue, node)
    ensures CutFrom(boxes, grown, entries)
    ensures Queued(grown, queue + multiset{|boxes|} + multiset{|boxes| + 1})
    ensures TwoMore(boxes, grown)
    ensures CutOf(boxes[node], l, r, axis, cut) && grown == Grown(boxes, node, l, r)
  {
    assert SoundBox(boxes[node]);
    var left, right, along, at := Split(boxes[node]);
    CutKeepsAll(boxes, entries, queue, node, left, right, along, at);
    grown := Grown(boxes, node, left, right);
    l, r, axis, cut := left, right, along, at;
  }

  lemma CutKeepsAll(boxes: seq<BoxNode>, entries: seq<Entry>, queue: multiset<nat>, node: nat,
                    l: BoxNode, r: BoxNode, axis: nat, cut: nat)
    requires Taken(boxes, entries, queue, node) && CutOf(boxes[node], l, r, axis, cut)
    ensures var grown := Grown(boxes, node, l, r);
      && CutFrom(boxes, grown, entries)
      && Queued(grown, queue + multiset{|boxes|} + multiset{|boxes| + 1})
      && TwoMore(boxes, grown)
  {
    CutKeepsPartition(boxes, entries, node, l, r, axis, cut);
    CutKeepsQueue(boxes, queue, node, l, r);
    GrownCounts(boxes, node, l, r);
    TopHasMostPixels(boxes, queue, node);
    assert CutAt(boxes, Grown(boxes, node, l, r), node, l, r, axis, cut);
  }

  /** Two boxes were added; the others have as many pixels as before. */
  ghost predicate TwoMore(boxes: seq<BoxNode>, grown: seq<BoxNode>) {
    |grown| == |boxes| + 2 && Counts(grown)[..|boxes|] == Counts(boxes)
  }

  lemma GrownCounts(boxes: seq<BoxNode>, node: nat, l: BoxNode, r: BoxNode)
    requires node < |boxes|
    ensures TwoMore(boxes, Grown(boxes, node, l, r))
  {
    var (grown, counts, after) := (Grown(boxes, node, l, r), Counts(boxes), Counts(Grown(boxes, node, l, r)));
    forall i | 0 <= i < |boxes| ensures after[..|boxes|][i] == counts[i] {
      assert grown[i].pixelCount == boxes[i].pixelCount;
    }
  }

  method QueueHalves(heap: Heap, ghost boxes: seq<BoxNode>, grown: seq<BoxNode>)
    requires heap.Valid(Counts(boxes)) && TwoMore(boxes, grown)
    modifies heap
    ensures heap.Valid(Counts(grown))
    ensures heap.Contents() == old(heap.Contents()) + multiset{|boxes|} + multiset{|boxes| + 1}
    ensures AddedBoth(Counts(grown), old(heap.slots), |boxes|, heap.slots)
  {
    HeapOutlivesGrowth(Counts(boxes), Counts(grown), heap.slots);
    heap.Add(Counts(grown), |grown| - 2);
    heap.Add(Counts(grown), |grown| - 1);
  }

  // ----- the cutting loop -----

  /** The heap holds what can still be cut. */
  ghost predicate HeapFor(heap: Heap, boxes: seq<BoxNode>)
    reads heap
  {
    heap.Valid(Counts(boxes)) && Queued(boxes, heap.Contents())
  }

  method Start(entries: seq<Entry>, pixels: nat) returns (boxes: seq<BoxNode>, heap: Heap)
    requires Countable(entries, pixels)
    ensures CutInto(entries, boxes, 1)
    ensures fresh(heap) && HeapFor(heap, boxes) && Turns([CutState(boxes, heap.slots)], entries)
  {
    boxes := [BoxNode(entries, pixels, None)];
    CutsBegin(entries, pixels);
    heap := new Heap();
    assert heap.Contents() == multiset{};
    heap.Add(Counts(boxes), 0);
  }

  /** The next cut, if there is anything left to cut: one turn of the loop. */
  method CutNext(heap: Heap, boxes: seq<BoxNode>, ghost entries: seq<Entry>, ghost n: nat)
    returns (next: Option<seq<BoxNode>>)
    requires CutInto(entries, boxes, n) && HeapFor(heap, boxes)
    modifies heap
    ensures next.None? ==> Exhausted(boxes) && NothingLeft(CutState(boxes, old(heap.slots)))
    ensures next.Some? ==> CutInto(entries, next.value, n + 1) && HeapFor(heap, next.value)
    ensures next.Some? ==> Turn(CutState(boxes, old(heap.slots)), CutState(next.value, heap.slots))
  {
    ghost var before := CutState(boxes, heap.slots);
    var node := NextBox(heap, boxes);
    if node.None? {
      return None;
    }
    var grown;
    ghost var l, r, axis, cut;
    grown, l, r, axis, cut := CutOne(heap, boxes, node.value, entries);
    CutsGoOn(entries, boxes, n, grown);
    next := Some(grown);
    assert CutBy(before, CutState(grown, heap.slots), l, r, axis, cut);
  }

  /** The loop has come to these boxes and slots after `states`. */
  ghost predicate CameTo(states: seq<CutState>, entries: seq<Entry>, boxes: seq<BoxNode>, slots: seq<nat>) {
    Turns(states, entries) && states[|states| - 1] == CutState(boxes, slots)
  }

  lemma TurnsGoOn(states: seq<CutState>, entries: seq<Entry>, boxes: seq<BoxNode>, slots: seq<nat>,
                  boxes': seq<BoxNode>, slots': seq<nat>)
    requires CameTo(states, entries, boxes, slots) && Turn(CutState(boxes, slots), CutState(boxes', slots'))
    ensures CameTo(states + [CutState(boxes', slots')], entries, boxes', slots')
  {
    var more := states + [CutState(boxes', slots')];
    assert more[0] == states[0];
    forall k {:trigger more[k]} | 0 < k < |more| ensures Turn(more[k - 1], more[k]) {
      if k < |states| {
        assert Turn(states[k - 1], states[k]);
      }
    }
  }

  lemma LoopEnds(states: seq<CutState>, entries: seq<Entry>, boxes: seq<BoxNode>, slots: seq<nat>, colors: nat)
    requires CameTo(states, entries, boxes, slots) && CutInto(entries, boxes, |states|) && |states| <= colors
    requires |states| < colors ==> Exhausted(boxes) && NothingLeft(CutState(boxes, slots))
    ensures Cutting(entries, boxes, colors)
  {
    assert HeapCuts(states, entries, colors, boxes);
  }

  /**
   * The cutting loop. The leaves partition the entries; there are at most `colors`, and fewer
   * only when no box with more than one colour is left.
   */
  method Cut(entries: seq<Entry>, pixels: nat, colors: nat) returns (boxes: seq<BoxNode>)
    requires Countable(entries, pixels) && colors >= 1
    ensures Cutting(entries, boxes, colors)
  {
    var heap;
    boxes, heap := Start(entries, pixels);
    ghost var states := [CutState(boxes, heap.slots)];
    for n := 1 to colors
      invariant CutInto(entries, boxes, n) && HeapFor(heap, boxes)
      invariant CameTo(states, entries, boxes, heap.slots) && |states| == n
    {
      ghost var slots := heap.slots;
      var next := CutNext(heap, boxes, entries, n);
      if next.None? {
        LoopEnds(states, entries, boxes, slots, colors);
        return;
      }
      TurnsGoOn(states, entries, boxes, slots, next.value, heap.slots);
      boxes := next.value;
      states := states + [CutState(boxes, heap.slots)];
    }
    LoopEnds(states, entries, boxes, heap.slots, colors);
  }
}
