/** The tree of boxes that repeated cuts build: its leaves in order, and what a cut does to them. */
module BoxTree {
  import opened Types
  import opened BoxSplit

  predicate ChildrenLater(boxes: seq<BoxNode>, i: nat)
    requires i < |boxes|
  {
    boxes[i].children.Some? ==>
      i < boxes[i].children.value.0 < |boxes| && i < boxes[i].children.value.1 < |boxes|
  }

  ghost predicate Tree(boxes: seq<BoxNode>) {
    |boxes| > 0 && forall i :: 0 <= i < |boxes| ==> ChildrenLater(boxes, i)
  }

  predicate IsLeaf(boxes: seq<BoxNode>, i: nat) {
    i < |boxes| && boxes[i].children.None?
  }

  /** The leaves under box `n`, left first. */
  ghost function Leaves(boxes: seq<BoxNode>, n: nat): seq<nat>
    requires Tree(boxes) && n < |boxes|
    decreases |boxes| - n
  {
    assert ChildrenLater(boxes, n);
    match boxes[n].children
    case None => [n]
    case Some((l, r)) => Leaves(boxes, l) + Leaves(boxes, r)
  }

  /** The boxes after box `node` was cut into `l` and `r`. */
  function Grown(boxes: seq<BoxNode>, node: nat, l: BoxNode, r: BoxNode): seq<BoxNode>
    requires node < |boxes|
  {
    boxes[node := boxes[node].(children := Some((|boxes|, |boxes| + 1)))] + [l, r]
  }

  /** A cut can be made: a leaf is replaced by two. */
  predicate Cuttable(boxes: seq<BoxNode>, node: nat, l: BoxNode, r: BoxNode) {
    IsLeaf(boxes, node) && l.children.None? && r.children.None?
  }

  lemma GrownTree(boxes: seq<BoxNode>, node: nat, l: BoxNode, r: BoxNode)
    requires Tree(boxes) && Cuttable(boxes, node, l, r)
    ensures Tree(Grown(boxes, node, l, r))
  {
    var grown := Grown(boxes, node, l, r);
    forall i | 0 <= i < |grown| ensures ChildrenLater(grown, i) {
      if i < |boxes| {
        assert ChildrenLater(boxes, i);
      }
    }
  }

  /** `x` replaced by `a, b` wherever it occurs. */
  ghost function Replace(s: seq<nat>, x: nat, a: nat, b: nat): seq<nat> {
    if |s| == 0 then []
    else Replace(s[..|s| - 1], x, a, b) + if s[|s| - 1] == x then [a, b] else [s[|s| - 1]]
  }

  lemma {:induction false} ReplaceAppend(s: seq<nat>, t: seq<nat>, x: nat, a: nat, b: nat)
    ensures Replace(s + t, x, a, b) == Replace(s, x, a, b) + Replace(t, x, a, b)
  {
    if |t| == 0 {
      assert s + t == s;
    } else {
      assert (s + t)[..|s + t| - 1] == s + t[..|t| - 1];
      ReplaceAppend(s, t[..|t| - 1], x, a, b);
    }
  }

  lemma {:induction false} Unit(x: nat, a: nat, b: nat, n: nat)
    ensures Replace([n], x, a, b) == if n == x then [a, b] else [n]
  {
    assert [n][..0] == [];
  }

  /** A cut puts the two new leaves where the old one was. */
  lemma {:induction false} GrownLeaves(boxes: seq<BoxNode>, node: nat, l: BoxNode, r: BoxNode, n: nat)
    requires Tree(boxes) && Cuttable(boxes, node, l, r) && n < |boxes|
    ensures Tree(Grown(boxes, node, l, r))
    ensures Leaves(Grown(boxes, node, l, r), n) == Replace(Leaves(boxes, n), node, |boxes|, |boxes| + 1)
    decreases |boxes| - n
  {
    GrownTree(boxes, node, l, r);
    var (grown, i, j) := (Grown(boxes, node, l, r), |boxes|, |boxes| + 1);
    assert ChildrenLater(boxes, n);
    if n == node {
      assert Leaves(grown, i) == [i] && Leaves(grown, j) == [j] && [i] + [j] == [i, j];
      Unit(node, i, j, n);
    } else if boxes[n].children.None? {
      assert grown[n] == boxes[n];
      Unit(node, i, j, n);
    } else {
      var (a, b) := boxes[n].children.value;
      assert grown[n] == boxes[n];
      GrownLeaves(boxes, node, l, r, a);
      GrownLeaves(boxes, node, l, r, b);
      ReplaceAppend(Leaves(boxes, a), Leaves(boxes, b), node, i, j);
    }
  }

  // ----- every leaf once -----

  /** Each leaf once, and nothing else. */
  ghost predicate LeafBag(boxes: seq<BoxNode>, bag: multiset<nat>) {
    forall i: nat :: bag[i] == if IsLeaf(boxes, i) then 1 else 0
  }

  lemma {:induction false} ReplaceCount(s: seq<nat>, x: nat, a: nat, b: nat, i: nat)
    requires a != x && b != x && a != b && multiset(s)[a] == 0 && multiset(s)[b] == 0
    ensures multiset(Replace(s, x, a, b))[i]
         == if i == x then 0 else if i == a || i == b then multiset(s)[x] else multiset(s)[i]
  {
    if |s| > 0 {
      var (rest, last) := (s[..|s| - 1], s[|s| - 1]);
      assert s == rest + [last];
      assert multiset(s) == multiset(rest) + multiset{last};
      ReplaceCount(rest, x, a, b, i);
    }
  }

  lemma {:induction false} ReplaceLength(s: seq<nat>, x: nat, a: nat, b: nat)
    ensures |Replace(s, x, a, b)| == |s| + multiset(s)[x]
  {
    if |s| > 0 {
      assert s == s[..|s| - 1] + [s[|s| - 1]];
      ReplaceLength(s[..|s| - 1], x, a, b);
    }
  }

  lemma GrownBag(boxes: seq<BoxNode>, node: nat, l: BoxNode, r: BoxNode, s: seq<nat>)
    requires Cuttable(boxes, node, l, r) && LeafBag(boxes, multiset(s))
    ensures var after := Replace(s, node, |boxes|, |boxes| + 1);
      LeafBag(Grown(boxes, node, l, r), multiset(after)) && |after| == |s| + 1
  {
    var (grown, i, j) := (Grown(boxes, node, l, r), |boxes|, |boxes| + 1);
    ReplaceLength(s, node, i, j);
    forall k: nat ensures multiset(Replace(s, node, i, j))[k] == if IsLeaf(grown, k) then 1 else 0 {
      ReplaceCount(s, node, i, j, k);
      if k < |boxes| && k != node { assert grown[k] == boxes[k]; }
    }
  }

  // ----- what the leaves hold -----

  ghost predicate Refers(s: seq<nat>, n: nat) {
    forall k :: 0 <= k < |s| ==> s[k] < n
  }

  /** All entries of the listed boxes. */
  ghost function Gather(boxes: seq<BoxNode>, s: seq<nat>): multiset<Entry>
    requires Refers(s, |boxes|)
  {
    if |s| == 0 then multiset{}
    else Gather(boxes, s[..|s| - 1]) + multiset(boxes[s[|s| - 1]].entries)
  }

  lemma {:induction false} GatherOne(boxes: seq<BoxNode>, s: seq<nat>, x: nat)
    requires x < |boxes| && Refers(s, |boxes|)
    ensures Gather(boxes, s + [x]) == Gather(boxes, s) + multiset(boxes[x].entries)
  {
    assert (s + [x])[..|s|] == s;
  }

  /** The last two boxes of `grown` divide what `boxes[node]` holds; the others hold what they held. */
  ghost predicate Divides(boxes: seq<BoxNode>, grown: seq<BoxNode>, node: nat) {
    && node < |boxes| && |grown| == |boxes| + 2
    && (forall i :: 0 <= i < |boxes| ==> grown[i].entries == boxes[i].entries)
    && multiset(grown[|boxes|].entries) + multiset(grown[|boxes| + 1].entries) == multiset(boxes[node].entries)
  }

  /** A cut that divides the entries of its box keeps what all leaves hold. */
  lemma {:induction false} DivisionGathers(boxes: seq<BoxNode>, grown: seq<BoxNode>, node: nat, s: seq<nat>)
    requires Divides(boxes, grown, node) && Refers(s, |boxes|)
    ensures var after := Replace(s, node, |boxes|, |boxes| + 1);
      Refers(after, |grown|) && Gather(grown, after) == Gather(boxes, s)
  {
    if |s| > 0 {
      var (rest, last) := (s[..|s| - 1], s[|s| - 1]);
      DivisionGathers(boxes, grown, node, rest);
      GatherReplaced(boxes, grown, node, Replace(rest, node, |boxes|, |boxes| + 1), last);
    }
  }

  lemma GatherReplaced(boxes: seq<BoxNode>, grown: seq<BoxNode>, node: nat, before: seq<nat>, last: nat)
    requires Divides(boxes, grown, node) && Refers(before, |grown|) && last < |boxes|
    ensures var after := before + if last == node then [|boxes|, |boxes| + 1] else [last];
      Refers(after, |grown|) && Gather(grown, after) == Gather(grown, before) + multiset(boxes[last].entries)
  {
    if last == node {
      var (i, j) := (|boxes|, |boxes| + 1);
      assert before + [i, j] == before + [i] + [j];
      GatherOne(grown, before, i);
      GatherOne(grown, before + [i], j);
    } else {
      GatherOne(grown, before, last);
    }
  }

  /** Some axis separates the two bounding boxes. */
  ghost predicate Apart(a: seq<Entry>, b: seq<Entry>) {
    exists axis, cut: nat :: Separates(a, b, axis, cut) || Separates(b, a, axis, cut)
  }

  ghost predicate Separates(a: seq<Entry>, b: seq<Entry>, axis: nat, cut: nat) {
    axis < 3 && AtLeast(a, axis, cut) && Below(b, axis, cut)
  }

  /** Leaves are pairwise disjoint in space. */
  ghost predicate Disjoint(boxes: seq<BoxNode>) {
    forall i: nat, j: nat :: IsLeaf(boxes, i) && IsLeaf(boxes, j) && i != j ==>
      Apart(boxes[i].entries, boxes[j].entries)
  }

  ghost predicate Within(part: seq<Entry>, all: seq<Entry>) {
    forall k :: 0 <= k < |part| ==> part[k] in all
  }

  lemma PartsWithin(l: seq<Entry>, r: seq<Entry>, all: seq<Entry>)
    requires multiset(l) + multiset(r) == multiset(all)
    ensures Within(l, all) && Within(r, all)
  {
    forall k | 0 <= k < |l| ensures l[k] in all {
      assert l[k] in multiset(l);
      assert l[k] in multiset(all);
    }
    forall k | 0 <= k < |r| ensures r[k] in all {
      assert r[k] in multiset(r);
      assert r[k] in multiset(all);
    }
  }

  lemma StillApart(part: seq<Entry>, all: seq<Entry>, other: seq<Entry>)
    requires Within(part, all) && Apart(all, other)
    ensures Apart(part, other) && Apart(other, part)
  {
    var axis, cut: nat :| Separates(all, other, axis, cut) || Separates(other, all, axis, cut);
    if Separates(all, other, axis, cut) {
      assert Separates(part, other, axis, cut);
    } else {
      assert Separates(other, part, axis, cut);
    }
  }

  lemma GrownDisjoint(boxes: seq<BoxNode>, node: nat, l: BoxNode, r: BoxNode, axis: nat, cut: nat)
    requires Disjoint(boxes) && Cuttable(boxes, node, l, r)
    requires multiset(l.entries) + multiset(r.entries) == multiset(boxes[node].entries)
    requires Separates(l.entries, r.entries, axis, cut)
    ensures Disjoint(Grown(boxes, node, l, r))
  {
    var (grown, n) := (Grown(boxes, node, l, r), |boxes|);
    PartsWithin(l.entries, r.entries, boxes[node].entries);
    forall i: nat, j: nat | IsLeaf(grown, i) && IsLeaf(grown, j) && i != j
      ensures Apart(grown[i].entries, grown[j].entries)
    {
      assert Apart(l.entries, r.entries) && Apart(r.entries, l.entries);
      if i < n && j < n {
        assert IsLeaf(boxes, i) && IsLeaf(boxes, j);
      } else if i < n {
        assert IsLeaf(boxes, i) && i != node;
        StillApart(grown[j].entries, boxes[node].entries, boxes[i].entries);
      } else if j < n {
        assert IsLeaf(boxes, j) && j != node;
        StillApart(grown[i].entries, boxes[node].entries, boxes[j].entries);
      }
    }
  }
}
