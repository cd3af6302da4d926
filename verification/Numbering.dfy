/** Numbering the leaves: depth first, left first, so that every colour knows its palette entry. */
module Numbering {
  import opened Types
  import opened BoxSplit
  import opened BoxTree
  import opened Histogram
  import opened MedianCut

  /** All entries hash to keys that `boxOf` maps to `k`. */
  ghost predicate MapsTo(entries: seq<Entry>, hash: Color -> nat, boxOf: map<nat, nat>, k: nat) {
    forall i :: 0 <= i < |entries| ==> hash(entries[i].color) in boxOf && boxOf[hash(entries[i].color)] == k
  }

  /** The entries of the `k`-th listed box map to `k`. */
  ghost predicate Numbered(boxes: seq<BoxNode>, hash: Color -> nat, boxOf: map<nat, nat>, listed: seq<nat>) {
    && Refers(listed, |boxes|)
    && forall k :: 0 <= k < |listed| ==> MapsTo(boxes[listed[k]].entries, hash, boxOf, k)
  }

  /** Different leaves have no hash value in common. */
  ghost predicate HashesApart(boxes: seq<BoxNode>, hash: Color -> nat) {
    forall i: nat, j: nat, h :: IsLeaf(boxes, i) && IsLeaf(boxes, j) && i != j ==>
      !(Tallied(boxes[i].entries, hash, h) && Tallied(boxes[j].entries, hash, h))
  }

  // ----- leaves against the histogram -----

  lemma {:induction false} ListedHolds(boxes: seq<BoxNode>, s: seq<nat>, k: nat)
    requires Refers(s, |boxes|) && k < |s|
    ensures multiset(boxes[s[k]].entries) <= Gather(boxes, s)
  {
    var n := |s| - 1;
    if k < n {
      ListedHolds(boxes, s[..n], k);
    }
  }

  lemma {:induction false} SomeListedHolds(boxes: seq<BoxNode>, s: seq<nat>, e: Entry) returns (k: nat, i: nat)
    requires Refers(s, |boxes|) && e in Gather(boxes, s)
    ensures k < |s| && i < |boxes[s[k]].entries| && boxes[s[k]].entries[i] == e
  {
    var n := |s| - 1;
    if e in multiset(boxes[s[n]].entries) {
      k := n;
      i :| 0 <= i < |boxes[s[k]].entries| && boxes[s[k]].entries[i] == e;
    } else {
      k, i := SomeListedHolds(boxes, s[..n], e);
    }
  }

  /** Where a leaf stands in the numbering. */
  lemma LeafPosition(boxes: seq<BoxNode>, s: seq<nat>, i: nat) returns (k: nat)
    requires LeafBag(boxes, multiset(s)) && IsLeaf(boxes, i)
    ensures k < |s| && s[k] == i
  {
    assert i in multiset(s);
    k :| 0 <= k < |s| && s[k] == i;
  }

  /** What a leaf holds comes from the histogram. */
  lemma LeafEntry(boxes: seq<BoxNode>, entries: seq<Entry>, i: nat, m: nat) returns (a: nat)
    requires Partition(boxes, entries) && IsLeaf(boxes, i) && m < |boxes[i].entries|
    ensures a < |entries| && entries[a] == boxes[i].entries[m]
  {
    var leaves := Leaves(boxes, 0);
    var k := LeafPosition(boxes, leaves, i);
    ListedHolds(boxes, leaves, k);
    assert boxes[i].entries[m] in multiset(boxes[i].entries);
    assert boxes[i].entries[m] in multiset(entries);
    a :| 0 <= a < |entries| && entries[a] == boxes[i].entries[m];
  }

  lemma ApartColors(a: seq<Entry>, b: seq<Entry>, m: nat, n: nat)
    requires Apart(a, b) && m < |a| && n < |b|
    ensures a[m].color != b[n].color
  {
    var axis, cut: nat :| Separates(a, b, axis, cut) || Separates(b, a, axis, cut);
    assert a[m].color.At(axis) != b[n].color.At(axis);
  }

  lemma LeavesHashApart(boxes: seq<BoxNode>, entries: seq<Entry>, hash: Color -> nat)
    requires Partition(boxes, entries) && DistinctHashes(entries, hash)
    ensures HashesApart(boxes, hash)
  {
    forall i: nat, j: nat, h | IsLeaf(boxes, i) && IsLeaf(boxes, j) && i != j
      ensures !(Tallied(boxes[i].entries, hash, h) && Tallied(boxes[j].entries, hash, h))
    {
      if Tallied(boxes[i].entries, hash, h) && Tallied(boxes[j].entries, hash, h) {
        var m :| 0 <= m < |boxes[i].entries| && hash(boxes[i].entries[m].color) == h;
        var n :| 0 <= n < |boxes[j].entries| && hash(boxes[j].entries[n].color) == h;
        var a := LeafEntry(boxes, entries, i, m);
        var b := LeafEntry(boxes, entries, j, n);
        ApartColors(boxes[i].entries, boxes[j].entries, m, n);
      }
    }
  }

  // ----- the stack -----

  /** The leaves still to come, top of the stack first. */
  ghost function Pending(boxes: seq<BoxNode>, stack: seq<nat>): seq<nat>
    requires Tree(boxes) && Refers(stack, |boxes|)
  {
    if |stack| == 0 then []
    else Leaves(boxes, stack[|stack| - 1]) + Pending(boxes, stack[..|stack| - 1])
  }

  ghost function Size(boxes: seq<BoxNode>, n: nat): nat
    requires Tree(boxes) && n < |boxes|
    decreases |boxes| - n
  {
    assert ChildrenLater(boxes, n);
    match boxes[n].children
    case None => 1
    case Some((l, r)) => 1 + Size(boxes, l) + Size(boxes, r)
  }

  ghost function StackSize(boxes: seq<BoxNode>, stack: seq<nat>): nat
    requires Tree(boxes) && Refers(stack, |boxes|)
  {
    if |stack| == 0 then 0
    else Size(boxes, stack[|stack| - 1]) + StackSize(boxes, stack[..|stack| - 1])
  }

  /** Putting the two children where their parent was changes no leaf and leaves less to do. */
  lemma {:induction false} PushChildren(boxes: seq<BoxNode>, rest: seq<nat>, n: nat)
    requires Tree(boxes) && Refers(rest, |boxes|) && n < |boxes| && boxes[n].children.Some?
    ensures var (l, r) := boxes[n].children.value;
      && Refers(rest + [r] + [l], |boxes|) && Refers(rest + [n], |boxes|)
      && Pending(boxes, rest + [r] + [l]) == Pending(boxes, rest + [n])
      && StackSize(boxes, rest + [r] + [l]) < StackSize(boxes, rest + [n])
  {
    assert ChildrenLater(boxes, n);
    var (l, r) := boxes[n].children.value;
    assert (rest + [r] + [l])[..|rest| + 1] == rest + [r] && (rest + [r])[..|rest|] == rest;
    assert (rest + [n])[..|rest|] == rest;
    assert Leaves(boxes, l) + (Leaves(boxes, r) + Pending(boxes, rest))
        == Leaves(boxes, l) + Leaves(boxes, r) + Pending(boxes, rest);
  }

  method Assign(entries: seq<Entry>, hash: Color -> nat, boxOf: map<nat, nat>, k: nat) returns (after: map<nat, nat>)
    ensures MapsTo(entries, hash, after, k)
    ensures forall h :: h in boxOf && !Tallied(entries, hash, h) ==> h in after && after[h] == boxOf[h]
  {
    after := boxOf;
    for i := 0 to |entries|
      invariant MapsTo(entries[..i], hash, after, k)
      invariant forall h :: h in boxOf && !Tallied(entries, hash, h) ==> h in after && after[h] == boxOf[h]
    {
      assert Tallied(entries, hash, hash(entries[i].color));
      after := after[hash(entries[i].color) := k];
      assert forall j :: 0 <= j < i ==> entries[..i + 1][j] == entries[..i][j];
    }
    assert entries[..|entries|] == entries;
  }

  /** Numbering one more leaf does not renumber the others. */
  lemma NumberOne(boxes: seq<BoxNode>, hash: Color -> nat, boxOf: map<nat, nat>, after: map<nat, nat>,
                  listed: seq<nat>, n: nat)
    requires Numbered(boxes, hash, boxOf, listed) && HashesApart(boxes, hash) && IsLeaf(boxes, n)
    requires forall k :: 0 <= k < |listed| ==> IsLeaf(boxes, listed[k]) && listed[k] != n
    requires MapsTo(boxes[n].entries, hash, after, |listed|)
    requires forall h :: h in boxOf && !Tallied(boxes[n].entries, hash, h) ==> h in after && after[h] == boxOf[h]
    ensures Numbered(boxes, hash, after, listed + [n])
  {
    forall k | 0 <= k < |listed| ensures MapsTo(boxes[listed[k]].entries, hash, after, k) {
      var entries := boxes[listed[k]].entries;
      assert MapsTo(entries, hash, boxOf, k);
      forall i | 0 <= i < |entries| ensures hash(entries[i].color) in after && after[hash(entries[i].color)] == k {
        assert Tallied(entries, hash, hash(entries[i].color));
      }
    }
  }

  /** A prefix of the leaves does not contain the leaf that comes next. */
  lemma NextIsNew(boxes: seq<BoxNode>, listed: seq<nat>, n: nat, rest: seq<nat>)
    requires LeafBag(boxes, multiset(listed + [n] + rest))
    ensures forall k :: 0 <= k < |listed| ==> IsLeaf(boxes, listed[k]) && listed[k] != n
  {
    var all: seq<nat> := listed + [n] + rest;
    var bag: multiset<nat> := multiset(all);
    assert bag == multiset(listed) + multiset{n} + multiset(rest);
    forall k | 0 <= k < |listed| ensures IsLeaf(boxes, listed[k]) && listed[k] != n {
      assert listed[k] in multiset(listed);
      assert bag[listed[k]] >= 1 && bag[n] <= 1;
    }
  }

  /** The walk so far: `listed` are numbered, and the stack holds the rest in order. */
  ghost predicate Walk(boxes: seq<BoxNode>, hash: Color -> nat, boxOf: map<nat, nat>, listed: seq<nat>, stack: seq<nat>)
    requires Tree(boxes)
  {
    && Refers(stack, |boxes|) && Numbered(boxes, hash, boxOf, listed)
    && listed + Pending(boxes, stack) == Leaves(boxes, 0)
  }

  lemma StartWalk(boxes: seq<BoxNode>, hash: Color -> nat)
    requires Tree(boxes)
    ensures Walk(boxes, hash, map[], [], [0])
  {
    assert [0][..0] == [] && Pending(boxes, []) == [];
  }

  lemma WalkDown(boxes: seq<BoxNode>, hash: Color -> nat, boxOf: map<nat, nat>, listed: seq<nat>,
                 stack: seq<nat>, l: nat, r: nat)
    requires Tree(boxes) && Walk(boxes, hash, boxOf, listed, stack) && |stack| > 0
    requires boxes[stack[|stack| - 1]].children == Some((l, r))
    ensures var down := stack[..|stack| - 1] + [r] + [l];
      Walk(boxes, hash, boxOf, listed, down) && StackSize(boxes, down) < StackSize(boxes, stack)
  {
    var (top, rest) := (stack[|stack| - 1], stack[..|stack| - 1]);
    assert stack == rest + [top];
    PushChildren(boxes, rest, top);
  }

  lemma {:induction false} PopLeaf(boxes: seq<BoxNode>, listed: seq<nat>, stack: seq<nat>)
    requires Tree(boxes) && Refers(stack, |boxes|) && |stack| > 0 && IsLeaf(boxes, stack[|stack| - 1])
    ensures var (top, rest) := (stack[|stack| - 1], stack[..|stack| - 1]);
      && Refers(rest, |boxes|) && listed + Pending(boxes, stack) == listed + [top] + Pending(boxes, rest)
      && StackSize(boxes, rest) < StackSize(boxes, stack)
  {
  }

  lemma {:induction false} WalkLeaf(boxes: seq<BoxNode>, hash: Color -> nat, boxOf: map<nat, nat>,
                 after: map<nat, nat>, listed: seq<nat>, stack: seq<nat>)
    requires Tree(boxes) && LeafBag(boxes, multiset(Leaves(boxes, 0))) && HashesApart(boxes, hash)
    requires Walk(boxes, hash, boxOf, listed, stack) && |stack| > 0 && IsLeaf(boxes, stack[|stack| - 1])
    requires var leaf := boxes[stack[|stack| - 1]].entries;
      && MapsTo(leaf, hash, after, |listed|)
      && forall h :: h in boxOf && !Tallied(leaf, hash, h) ==> h in after && after[h] == boxOf[h]
    ensures var (top, rest) := (stack[|stack| - 1], stack[..|stack| - 1]);
      Walk(boxes, hash, after, listed + [top], rest) && StackSize(boxes, rest) < StackSize(boxes, stack)
  {
    var (top, rest) := (stack[|stack| - 1], stack[..|stack| - 1]);
    PopLeaf(boxes, listed, stack);
    NextIsNew(boxes, listed, top, Pending(boxes, rest));
    NumberOne(boxes, hash, boxOf, after, listed, top);
  }

  /** What one turn of the walk needs and keeps. */
  ghost predicate Walking(boxes: seq<BoxNode>, entries: seq<Entry>, hash: Color -> nat, boxOf: map<nat, nat>,
                          listed: seq<nat>, stack: seq<nat>)
  {
    && Partition(boxes, entries) && HashesApart(boxes, hash)
    && Walk(boxes, hash, boxOf, listed, stack)
  }

  /** Numbers the leaf on top of the stack. */
  method VisitLeaf(boxes: seq<BoxNode>, hash: Color -> nat, boxOf: map<nat, nat>, n: nat, stack: seq<nat>,
                   ghost entries: seq<Entry>, ghost listed: seq<nat>) returns (after: map<nat, nat>, next: nat)
    requires Walking(boxes, entries, hash, boxOf, listed, stack) && n == |listed|
    requires |stack| > 0 && IsLeaf(boxes, stack[|stack| - 1])
    ensures next == n + 1
    ensures var (top, rest) := (stack[|stack| - 1], stack[..|stack| - 1]);
      && Walking(boxes, entries, hash, after, listed + [top], rest)
      && StackSize(boxes, rest) < StackSize(boxes, stack)
  {
    var leaf := boxes[stack[|stack| - 1]].entries;
    after := Assign(leaf, hash, boxOf, n);
    WalkLeaf(boxes, hash, boxOf, after, listed, stack);
    assert SoundBox(boxes[stack[|stack| - 1]]);
    next := n;
    if |leaf| > 0 {
      next := n + 1;
    }
  }

  /** Puts the children of the box on top of the stack in its place, the left one on top. */
  method VisitInner(boxes: seq<BoxNode>, hash: Color -> nat, ghost boxOf: map<nat, nat>, stack: seq<nat>,
                    ghost entries: seq<Entry>, ghost listed: seq<nat>) returns (down: seq<nat>)
    requires Walking(boxes, entries, hash, boxOf, listed, stack)
    requires |stack| > 0 && boxes[stack[|stack| - 1]].children.Some?
    ensures Walking(boxes, entries, hash, boxOf, listed, down)
    ensures StackSize(boxes, down) < StackSize(boxes, stack)
  {
    var (l, r) := boxes[stack[|stack| - 1]].children.value;
    WalkDown(boxes, hash, boxOf, listed, stack, l, r);
    down := stack[..|stack| - 1] + [r] + [l];
  }

  /** Walks the tree with an explicit stack and numbers each leaf as it is reached. */
  method Number(boxes: seq<BoxNode>, hash: Color -> nat, ghost entries: seq<Entry>)
    returns (boxOf: map<nat, nat>, n: nat)
    requires Partition(boxes, entries) && DistinctHashes(entries, hash)
    ensures Numbered(boxes, hash, boxOf, Leaves(boxes, 0)) && n == |Leaves(boxes, 0)|
  {
    LeavesHashApart(boxes, entries, hash);
    StartWalk(boxes, hash);
    boxOf, n := map[], 0;
    var stack: seq<nat> := [0];
    ghost var listed: seq<nat> := [];
    while |stack| > 0
      invariant Walking(boxes, entries, hash, boxOf, listed, stack) && n == |listed|
      decreases StackSize(boxes, stack)
    {
      var top := stack[|stack| - 1];
      if boxes[top].children.Some? {
        stack := VisitInner(boxes, hash, boxOf, stack, entries, listed);
      } else {
        boxOf, n := VisitLeaf(boxes, hash, boxOf, n, stack, entries, listed);
        listed, stack := listed + [top], stack[..|stack| - 1];
      }
    }
    assert listed + [] == listed;
  }
}
