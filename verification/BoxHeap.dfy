/** The 1-based binary max-heap on pixel counts that decides which box is split next. */
module BoxHeap {
  import opened Types

  /** Every slot in use (slot 0 is not) names a box. */
  ghost predicate Indexed(counts: seq<nat>, s: seq<nat>) {
    forall k :: 1 <= k < |s| ==> s[k] < |counts|
  }

  /** A list of boxes. */
  ghost predicate Boxes(counts: seq<nat>, vals: seq<nat>) {
    forall k :: 0 <= k < |vals| ==> vals[k] < |counts|
  }

  /** Slot `j` holds no larger count than slot `p`. */
  ghost predicate Under(counts: seq<nat>, s: seq<nat>, j: nat, p: nat)
    requires Indexed(counts, s)
  {
    1 <= j < |s| && 1 <= p < |s| && counts[s[j]] <= counts[s[p]]
  }

  /** Slot `j` is under its parent. */
  ghost predicate Child(counts: seq<nat>, s: seq<nat>, j: nat)
    requires Indexed(counts, s)
  {
    Under(counts, s, j, j / 2)
  }

  /** No slot holds a larger count than its parent; slot 0 is unused. */
  ghost predicate Heaped(counts: seq<nat>, s: seq<nat>)
    requires Indexed(counts, s)
  {
    |s| >= 1 && forall j :: 2 <= j < |s| ==> Child(counts, s, j)
  }

  /** Heaped but for slot `k`, which may be too large for its parent. */
  ghost predicate RisingAt(counts: seq<nat>, s: seq<nat>, k: nat)
    requires Indexed(counts, s)
  {
    && 1 <= k < |s|
    && (forall j :: 2 <= j < |s| && j != k ==> Child(counts, s, j))
    && (forall j :: 4 <= j < |s| && j / 2 == k ==> Under(counts, s, j, k / 2))
  }

  /** Heaped but for slot `k`, which may be too small for its children. */
  ghost predicate SinkingAt(counts: seq<nat>, s: seq<nat>, k: nat)
    requires Indexed(counts, s)
  {
    && 1 <= k < |s|
    && (forall j :: 2 <= j < |s| && j / 2 != k ==> Child(counts, s, j))
    && (forall j :: 4 <= j < |s| && j / 2 == k ==> Under(counts, s, j, k / 2))
  }

  /** What `add` leaves, with `val` to be placed at `k` or above: ties stay below. */
  function SiftUp(counts: seq<nat>, s: seq<nat>, k: nat, val: nat): seq<nat>
    requires 1 <= k < |s| && val < |counts| && Indexed(counts, s)
    decreases k
  {
    if k == 1 || counts[val] <= counts[s[k / 2]] then s[k := val]
    else SiftUp(counts, s[k := s[k / 2]], k / 2, val)
  }

  /** The child a sinking value is compared with: the left one unless the right one is larger. */
  function Larger(counts: seq<nat>, s: seq<nat>, k: nat): nat
    requires 1 <= k && 2 * k < |s| && Indexed(counts, s)
  {
    if 2 * k + 1 < |s| && counts[s[2 * k]] < counts[s[2 * k + 1]] then 2 * k + 1 else 2 * k
  }

  /** What `remove` leaves, with `val` to be placed at `k` or below: it sinks through ties. */
  function SiftDown(counts: seq<nat>, s: seq<nat>, k: nat, val: nat): seq<nat>
    requires 1 <= k < |s| && val < |counts| && Indexed(counts, s)
    decreases |s| - k
  {
    if 2 * k >= |s| || counts[val] > counts[s[Larger(counts, s, k)]] then s[k := val]
    else SiftDown(counts, s[k := s[Larger(counts, s, k)]], Larger(counts, s, k), val)
  }

  /** A rising box stays below a parent with as many pixels. */
  lemma {:induction false} RisesOnlyPastFewer(counts: seq<nat>, s: seq<nat>, k: nat, val: nat)
    requires 1 < k < |s| && val < |counts| && Indexed(counts, s)
    ensures counts[val] <= counts[s[k / 2]] ==> SiftUp(counts, s, k, val) == s[k := val]
    ensures counts[val] > counts[s[k / 2]] ==> SiftUp(counts, s, k, val) == SiftUp(counts, s[k := s[k / 2]], k / 2, val)
  {
  }

  /** With equal counts everywhere a sinking box goes down to the bottom, to the left each time. */
  lemma {:induction false} EqualsSinkLeft(counts: seq<nat>, s: seq<nat>, k: nat, val: nat, j: nat)
    requires 1 <= k < |s| && val < |counts| && Indexed(counts, s) && 1 <= j < |s|
    requires forall a, b :: 0 <= a < |counts| && 0 <= b < |counts| ==> counts[a] == counts[b]
    ensures |SiftDown(counts, s, k, val)| == |s|
    ensures SiftDown(counts, s, k, val)[j] ==
      if OnLeftSpine(k, j) then (if 2 * j < |s| then s[2 * j] else val) else s[j]
    decreases |s| - k
  {
    if 2 * k < |s| {
      assert Larger(counts, s, k) == 2 * k;
      EqualsSinkLeft(counts, s[k := s[2 * k]], 2 * k, val, j);
      SpineGoesOn(k, j);
      SpineGoesOn(k, 2 * j);
    } else {
      SpineEnds(k, j);
    }
  }

  /** `j` is `k`, its left child, that one's left child, and so on. */
  predicate OnLeftSpine(k: nat, j: nat)
    requires k >= 1
  {
    j == k || (j > k && j % 2 == 0 && OnLeftSpine(k, j / 2))
  }

  lemma {:induction false} SpineGoesOn(k: nat, j: nat)
    requires k >= 1
    ensures OnLeftSpine(k, j) <==> j == k || OnLeftSpine(2 * k, j)
  {
    if j > k && j % 2 == 0 { SpineGoesOn(k, j / 2); }
  }

  lemma {:induction false} SpineEnds(k: nat, j: nat)
    requires k >= 1 && j < 2 * k
    ensures OnLeftSpine(k, j) <==> j == k
  {
  }

  lemma SwapKeepsMembers(s: seq<nat>, i: nat, j: nat)
    requires 1 <= i < |s| && 1 <= j < |s|
    ensures multiset(s[i := s[j]][j := s[i]][1..]) == multiset(s[1..])
  {
    var t := s[i := s[j]][j := s[i]];
    var (a, b) := (s[1..], t[1..]);
    assert b == a[i - 1 := a[j - 1]][j - 1 := a[i - 1]];
    assert multiset(a[i - 1 := a[j - 1]]) == multiset(a) - multiset{a[i - 1]} + multiset{a[j - 1]};
  }

  /** Exchanging a rising value with its parent moves the defect up. */
  lemma RiseStep(counts: seq<nat>, t: seq<nat>, k: nat)
    requires Indexed(counts, t) && RisingAt(counts, t, k) && k >= 2 && counts[t[k]] > counts[t[k / 2]]
    ensures var t' := t[k := t[k / 2]][k / 2 := t[k]]; Indexed(counts, t') && RisingAt(counts, t', k / 2)
  {
    var (p, t') := (k / 2, t[k := t[k / 2]][k / 2 := t[k]]);
    forall j | 2 <= j < |t'| && j != p ensures Child(counts, t', j) {
      if j / 2 == k { assert Under(counts, t, j, p); }
      else if j != k { assert Child(counts, t, j); }
    }
    forall j | 4 <= j < |t'| && j / 2 == p ensures Under(counts, t', j, p / 2) {
      assert Child(counts, t, p);
      if j != k { assert Child(counts, t, j); }
    }
  }

  lemma StepKeepsMembers(s: seq<nat>, k: nat, p: nat, val: nat)
    requires 1 <= p < |s| && 1 <= k < |s| && p != k
    ensures multiset(s[k := s[p]][p := val][1..]) == multiset(s[k := val][1..])
  {
    var t := s[k := val];
    assert s[k := s[p]][p := val] == t[k := t[p]][p := t[k]];
    SwapKeepsMembers(t, k, p);
  }

  lemma {:induction false} SiftUpKeeps(counts: seq<nat>, s: seq<nat>, k: nat, val: nat)
    requires 1 <= k < |s| && val < |counts| && Indexed(counts, s)
    ensures var r := SiftUp(counts, s, k, val);
      |r| == |s| && Indexed(counts, r) && multiset(r[1..]) == multiset(s[k := val][1..])
    decreases k
  {
    if k != 1 && counts[val] > counts[s[k / 2]] {
      StepKeepsMembers(s, k, k / 2, val);
      SiftUpKeeps(counts, s[k := s[k / 2]], k / 2, val);
    }
  }

  lemma {:induction false} SiftUpHeaps(counts: seq<nat>, s: seq<nat>, k: nat, val: nat)
    requires 1 <= k < |s| && val < |counts| && Indexed(counts, s)
    requires RisingAt(counts, s[k := val], k)
    ensures Indexed(counts, SiftUp(counts, s, k, val)) && Heaped(counts, SiftUp(counts, s, k, val))
    decreases k
  {
    if k == 1 || counts[val] <= counts[s[k / 2]] {
      RiseDone(counts, s[k := val], k);
    } else {
      var (t, p) := (s[k := val], k / 2);
      RiseStep(counts, t, k);
      assert s[k := s[p]][p := val] == t[k := t[p]][p := t[k]];
      SiftUpHeaps(counts, s[k := s[p]], p, val);
    }
  }

  lemma RiseDone(counts: seq<nat>, t: seq<nat>, k: nat)
    requires Indexed(counts, t) && RisingAt(counts, t, k) && (k == 1 || counts[t[k]] <= counts[t[k / 2]])
    ensures Heaped(counts, t)
  {
    forall j | 2 <= j < |t| ensures Child(counts, t, j) {
      if j == k { assert Under(counts, t, j, j / 2); }
    }
  }

  /** Exchanging a sinking value with its larger child moves the defect down to that child. */
  lemma SinkStep(counts: seq<nat>, t: seq<nat>, k: nat, c: nat)
    requires Indexed(counts, t) && SinkingAt(counts, t, k)
    requires 2 * k < |t| && c == Larger(counts, t, k) && counts[t[k]] <= counts[t[c]]
    ensures var t' := t[k := t[c]][c := t[k]]; Indexed(counts, t') && SinkingAt(counts, t', c)
  {
    var t' := t[k := t[c]][c := t[k]];
    forall j | 2 <= j < |t'| && j / 2 != c ensures Child(counts, t', j) {
      if j / 2 == k {
        assert j == 2 * k || j == 2 * k + 1;
      } else {
        assert Child(counts, t, j);
        if j == k { assert Under(counts, t, c, k / 2); }
      }
    }
    forall j | 4 <= j < |t'| && j / 2 == c ensures Under(counts, t', j, c / 2) {
      assert c / 2 == k && Child(counts, t, j);
    }
  }

  lemma {:induction false} SiftDownKeeps(counts: seq<nat>, s: seq<nat>, k: nat, val: nat)
    requires 1 <= k < |s| && val < |counts| && Indexed(counts, s)
    ensures var r := SiftDown(counts, s, k, val);
      |r| == |s| && Indexed(counts, r) && multiset(r[1..]) == multiset(s[k := val][1..])
    decreases |s| - k
  {
    if 2 * k < |s| && counts[val] <= counts[s[Larger(counts, s, k)]] {
      var c := Larger(counts, s, k);
      StepKeepsMembers(s, k, c, val);
      SiftDownKeeps(counts, s[k := s[c]], c, val);
    }
  }

  lemma {:induction false} SiftDownHeaps(counts: seq<nat>, s: seq<nat>, k: nat, val: nat)
    requires 1 <= k < |s| && val < |counts| && Indexed(counts, s)
    requires SinkingAt(counts, s[k := val], k)
    ensures Indexed(counts, SiftDown(counts, s, k, val)) && Heaped(counts, SiftDown(counts, s, k, val))
    decreases |s| - k
  {
    var t := s[k := val];
    if 2 * k < |s| && counts[val] <= counts[s[Larger(counts, s, k)]] {
      var c := Larger(counts, s, k);
      assert s[k := s[c]][c := val] == t[k := t[c]][c := t[k]];
      SinkStep(counts, t, k, c);
      SiftDownHeaps(counts, s[k := s[c]], c, val);
    } else {
      SinkDone(counts, t, k);
    }
  }

  lemma SinkDone(counts: seq<nat>, t: seq<nat>, k: nat)
    requires Indexed(counts, t) && SinkingAt(counts, t, k)
    requires 2 * k >= |t| || counts[t[k]] > counts[t[Larger(counts, t, k)]]
    ensures Heaped(counts, t)
  {
    forall j | 2 <= j < |t| ensures Child(counts, t, j) {
      if j / 2 == k { assert j == 2 * k || j == 2 * k + 1; }
    }
  }

  /** In a heap the first slot is a maximum. */
  lemma {:induction false} RootIsMax(counts: seq<nat>, s: seq<nat>, k: nat)
    requires Indexed(counts, s) && Heaped(counts, s) && 1 <= k < |s|
    ensures counts[s[k]] <= counts[s[1]]
  {
    if k > 1 {
      assert Child(counts, s, k);
      RootIsMax(counts, s, k / 2);
    }
  }

  lemma Members(counts: seq<nat>, s: seq<nat>, x: nat)
    requires Indexed(counts, s) && Heaped(counts, s) && x in multiset(s[1..])
    ensures x < |counts| && counts[x] <= counts[s[1]]
  {
    assert x in s[1..];
    var k :| 0 <= k < |s[1..]| && s[1..][k] == x;
    RootIsMax(counts, s, k + 1);
  }

  lemma AppendedRises(counts: seq<nat>, s: seq<nat>, val: nat)
    requires Indexed(counts, s) && Heaped(counts, s) && val < |counts|
    ensures Indexed(counts, s + [val]) && RisingAt(counts, s + [val], |s|)
    ensures multiset((s + [val])[1..]) == multiset(s[1..]) + multiset{val}
  {
    var t := s + [val];
    assert t[1..] == s[1..] + [val];
    forall j | 2 <= j < |t| && j != |s| ensures Child(counts, t, j) { assert Child(counts, s, j); }
  }

  /** The slots `remove` starts from: the last value put at the top. */
  lemma PoppedSinks(counts: seq<nat>, s: seq<nat>)
    requires Indexed(counts, s) && Heaped(counts, s) && |s| > 2
    ensures var t := s[..|s| - 1][1 := s[|s| - 1]];
      && Indexed(counts, t) && SinkingAt(counts, t, 1)
      && multiset(t[1..]) == multiset(s[1..]) - multiset{s[1]}
  {
    var (n, t) := (|s| - 1, s[..|s| - 1][1 := s[|s| - 1]]);
    forall j | 2 <= j < |t| && j / 2 != 1 ensures Child(counts, t, j) { assert Child(counts, s, j); }
    assert t[1..] == [s[n]] + s[2..n] && s[1..] == [s[1]] + s[2..n] + [s[n]];
  }

  /** The slots after `add`: the value goes to the end and rises. */
  function Added(counts: seq<nat>, s: seq<nat>, val: nat): seq<nat>
    requires Indexed(counts, s) && |s| >= 1 && val < |counts|
  {
    SiftUp(counts, s + [val], |s|, val)
  }

  lemma AddedHeaps(counts: seq<nat>, s: seq<nat>, val: nat)
    requires Indexed(counts, s) && Heaped(counts, s) && val < |counts|
    ensures var r := Added(counts, s, val);
      && |r| == |s| + 1 && Indexed(counts, r) && Heaped(counts, r)
      && multiset(r[1..]) == multiset(s[1..]) + multiset{val}
  {
    AppendedRises(counts, s, val);
    assert (s + [val])[|s| := val] == s + [val];
    SiftUpHeaps(counts, s + [val], |s|, val);
    SiftUpKeeps(counts, s + [val], |s|, val);
  }

  class Heap {
    var slots: seq<nat>

    constructor ()
      ensures slots == [0]
    {
      slots := [0];
    }

    ghost predicate Valid(counts: seq<nat>)
      reads this
    {
      Indexed(counts, slots) && Heaped(counts, slots)
    }

    ghost function Contents(): multiset<nat>
      reads this
    {
      if |slots| == 0 then multiset{} else multiset(slots[1..])
    }

    method Add(counts: seq<nat>, val: nat)
      requires Valid(counts) && val < |counts|
      modifies this
      ensures slots == Added(counts, old(slots), val)
      ensures Valid(counts) && Contents() == old(Contents()) + multiset{val}
    {
      slots := slots + [val];
      var k := |slots| - 1;
      AddedHeaps(counts, old(slots), val);
      while k != 1
        invariant 1 <= k < |slots| && Indexed(counts, slots)
        invariant SiftUp(counts, slots, k, val) == Added(counts, old(slots), val)
      {
        if counts[val] <= counts[slots[k / 2]] {
          break;
        }
        slots := slots[k := slots[k / 2]];
        k := k / 2;
      }
      slots := slots[k := val];
    }

    /** Takes out a box with the largest count. */
    method Remove(counts: seq<nat>) returns (top: Option<nat>)
      requires Valid(counts)
      modifies this
      ensures Valid(counts)
      ensures top.None? <==> |old(slots)| == 1
      ensures top.None? ==> slots == old(slots)
      ensures top.Some? ==>
        && top.value == old(slots)[1]
        && top.value in old(Contents()) && Contents() == old(Contents()) - multiset{top.value}
        && Largest(counts, old(Contents()), top.value)
        && slots == Removed(counts, old(slots)) && |slots| == |old(slots)| - 1
    {
      var count := |slots| - 1;
      if count == 0 {
        return None;
      }
      ghost var s := slots;
      RemovedHeaps(counts, s);
      TopIsLargest(counts, s);
      top := Some(slots[1]);
      var v := slots[count];
      slots := slots[..count];
      count := count - 1;
      if count == 0 {
        return;
      }
      Sink(counts, v);
    }

    /** Lets `v` sink from the top. */
    method Sink(counts: seq<nat>, v: nat)
      requires |slots| >= 2 && Indexed(counts, slots) && v < |counts|
      modifies this
      ensures slots == SiftDown(counts, old(slots), 1, v)
    {
      var count := |slots| - 1;
      var k := 1;
      while k * 2 <= count
        invariant |slots| == count + 1 && 1 <= k <= count && Indexed(counts, slots)
        invariant SiftDown(counts, slots, k, v) == SiftDown(counts, old(slots), 1, v)
      {
        var l := k * 2;
        if l < count && counts[slots[l]] < counts[slots[l + 1]] {
          l := l + 1;
        }
        if counts[v] > counts[slots[l]] {
          break;
        }
        slots := slots[k := slots[l]];
        k := l;
      }
      slots := slots[k := v];
    }
  }

  ghost predicate Descending(counts: seq<nat>, popped: seq<nat>) {
    && Boxes(counts, popped)
    && forall i, j :: 0 <= i < j < |popped| ==> counts[popped[j]] <= counts[popped[i]]
  }

  /** The slots after `remove`: the last value moves to the top and sinks. */
  function Removed(counts: seq<nat>, s: seq<nat>): seq<nat>
    requires Indexed(counts, s) && |s| >= 2
  {
    var shorter := s[..|s| - 1];
    if |s| == 2 then shorter else SiftDown(counts, shorter, 1, s[|s| - 1])
  }

  lemma RemovedHeaps(counts: seq<nat>, s: seq<nat>)
    requires Indexed(counts, s) && Heaped(counts, s) && |s| >= 2
    ensures var r := Removed(counts, s);
      && |r| == |s| - 1 && Indexed(counts, r) && Heaped(counts, r)
      && multiset(r[1..]) == multiset(s[1..]) - multiset{s[1]}
  {
    if |s| > 2 {
      PoppedSinks(counts, s);
      SiftDownHeaps(counts, s[..|s| - 1], 1, s[|s| - 1]);
      SiftDownKeeps(counts, s[..|s| - 1], 1, s[|s| - 1]);
    } else {
      assert s[1..] == [s[1]] && Removed(counts, s)[1..] == [];
    }
  }

  lemma TopIsLargest(counts: seq<nat>, s: seq<nat>)
    requires Indexed(counts, s) && Heaped(counts, s) && |s| >= 2
    ensures s[1] in multiset(s[1..]) && Largest(counts, multiset(s[1..]), s[1])
  {
    forall x | x in multiset(s[1..]) ensures x < |counts| && counts[x] <= counts[s[1]] {
      Members(counts, s, x);
    }
    assert s[1] == s[1..][0];
  }

  /** The slots after adding `vals` one by one to an empty heap. */
  function Filled(counts: seq<nat>, vals: seq<nat>): (s: seq<nat>)
    requires Boxes(counts, vals)
    ensures Indexed(counts, s) && Heaped(counts, s) && multiset(s[1..]) == multiset(vals)
  {
    if |vals| == 0 then [0]
    else
      var (before, val) := (vals[..|vals| - 1], vals[|vals| - 1]);
      assert vals == before + [val];
      AddedHeaps(counts, Filled(counts, before), val);
      Added(counts, Filled(counts, before), val)
  }

  /** What comes out when the heap is emptied, first popped first. */
  function Drained(counts: seq<nat>, s: seq<nat>): seq<nat>
    requires Indexed(counts, s) && Heaped(counts, s)
    decreases |s|
  {
    if |s| == 1 then []
    else
      RemovedHeaps(counts, s);
      [s[1]] + Drained(counts, Removed(counts, s))
  }

  /** `x` has the largest count in `m`. */
  ghost predicate Largest(counts: seq<nat>, m: multiset<nat>, x: nat) {
    x < |counts| && forall y :: y in m ==> y < |counts| && counts[y] <= counts[x]
  }

  lemma LargestFirst(counts: seq<nat>, m: multiset<nat>, x: nat, rest: seq<nat>)
    requires Largest(counts, m, x) && x in m
    requires multiset(rest) == m - multiset{x} && Descending(counts, rest)
    ensures multiset([x] + rest) == m && Descending(counts, [x] + rest)
  {
    var all := [x] + rest;
    forall k | 0 < k < |all| ensures all[k] < |counts| && counts[all[k]] <= counts[x] {
      assert all[k] == rest[k - 1] && rest[k - 1] in multiset(rest);
    }
  }

  /** Emptying a heap gives exactly its contents, largest counts first. */
  lemma {:induction false} DrainingSorts(counts: seq<nat>, s: seq<nat>)
    requires Indexed(counts, s) && Heaped(counts, s)
    ensures multiset(Drained(counts, s)) == multiset(s[1..]) && Descending(counts, Drained(counts, s))
    decreases |s|
  {
    if |s| > 1 {
      RemovedHeaps(counts, s);
      TopIsLargest(counts, s);
      DrainingSorts(counts, Removed(counts, s));
      LargestFirst(counts, multiset(s[1..]), s[1], Drained(counts, Removed(counts, s)));
    }
  }
}
