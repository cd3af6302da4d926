/** The colour histogram: one entry for each hash value, in the colour of the first pixel that has it. */
module Histogram {
  import opened BoxSplit

  /** How many pixels have hash `h`. */
  function CountHash(pixels: seq<Color>, hash: Color -> nat, h: nat): nat {
    if |pixels| == 0 then 0
    else
      var n := |pixels| - 1;
      CountHash(pixels[..n], hash, h) + if hash(pixels[n]) == h then 1 else 0
  }

  /** `c` is the first pixel with hash `h`. */
  ghost predicate First(pixels: seq<Color>, hash: Color -> nat, h: nat, c: Color) {
    exists m :: FirstAt(pixels, hash, h, c, m)
  }

  ghost predicate FirstAt(pixels: seq<Color>, hash: Color -> nat, h: nat, c: Color, m: nat) {
    && m < |pixels| && pixels[m] == c && hash(c) == h
    && forall i :: 0 <= i < m ==> hash(pixels[i]) != h
  }

  ghost predicate DistinctHashes(entries: seq<Entry>, hash: Color -> nat) {
    forall i, j :: 0 <= i < j < |entries| ==> hash(entries[i].color) != hash(entries[j].color)
  }

  /** One entry for each hash value that occurs, counting its pixels, in the first pixel's colour. */
  ghost predicate IsHistogram(entries: seq<Entry>, pixels: seq<Color>, hash: Color -> nat) {
    && DistinctHashes(entries, hash)
    && (forall k :: 0 <= k < |entries| ==> IsTally(entries[k], pixels, hash))
    && (forall m :: 0 <= m < |pixels| ==> Tallied(entries, hash, hash(pixels[m])))
    && Total(entries) == |pixels|
  }

  ghost predicate IsTally(e: Entry, pixels: seq<Color>, hash: Color -> nat) {
    && First(pixels, hash, hash(e.color), e.color)
    && e.count == CountHash(pixels, hash, hash(e.color)) > 0
  }

  ghost predicate Tallied(entries: seq<Entry>, hash: Color -> nat, h: nat) {
    exists k :: 0 <= k < |entries| && hash(entries[k].color) == h
  }

  // ----- the table the loop builds -----

  /** `order` lists the keys of `table` once each; every entry's colour hashes to its key. */
  ghost predicate TableOk(order: seq<nat>, table: map<nat, Entry>, hash: Color -> nat) {
    && (forall i, j :: 0 <= i < j < |order| ==> order[i] != order[j])
    && (forall h :: h in table ==> h in order)
    && (forall k :: 0 <= k < |order| ==> order[k] in table && hash(table[order[k]].color) == order[k])
  }

  function Listed(order: seq<nat>, table: map<nat, Entry>): (entries: seq<Entry>)
    requires forall k :: 0 <= k < |order| ==> order[k] in table
    ensures |entries| == |order| && forall k :: 0 <= k < |order| ==> entries[k] == table[order[k]]
  {
    seq(|order|, k requires 0 <= k < |order| => table[order[k]])
  }

  lemma TotalSet(entries: seq<Entry>, k: nat, e: Entry)
    requires k < |entries|
    ensures Total(entries[k := e]) == Total(entries) - entries[k].count + e.count
  {
    var after := entries[k := e];
    TotalWithout(entries, k);
    TotalWithout(after, k);
    assert after[..k] == entries[..k] && after[k + 1..] == entries[k + 1..];
  }

  lemma {:induction false} CountNext(pixels: seq<Color>, i: nat, hash: Color -> nat, h: nat)
    requires i < |pixels|
    ensures CountHash(pixels[..i + 1], hash, h)
         == CountHash(pixels[..i], hash, h) + if hash(pixels[i]) == h then 1 else 0
  {
    assert pixels[..i + 1][..i] == pixels[..i];
  }

  lemma FirstNext(pixels: seq<Color>, i: nat, hash: Color -> nat, h: nat, c: Color)
    requires i < |pixels| && First(pixels[..i], hash, h, c)
    ensures First(pixels[..i + 1], hash, h, c)
  {
    var m :| FirstAt(pixels[..i], hash, h, c, m);
    assert FirstAt(pixels[..i + 1], hash, h, c, m);
  }

  lemma {:induction false} AbsentHash(pixels: seq<Color>, hash: Color -> nat, h: nat)
    ensures CountHash(pixels, hash, h) == 0 <==> forall m :: 0 <= m < |pixels| ==> hash(pixels[m]) != h
  {
    if |pixels| > 0 {
      var n := |pixels| - 1;
      AbsentHash(pixels[..n], hash, h);
      assert forall m :: 0 <= m < n ==> pixels[m] == pixels[..n][m];
    }
  }

  /** The tally `e` after one more pixel. */
  lemma TallyNext(pixels: seq<Color>, i: nat, e: Entry, after: Entry, hash: Color -> nat)
    requires i < |pixels| && IsTally(e, pixels[..i], hash)
    requires after == Entry(e.color, e.count + if hash(pixels[i]) == hash(e.color) then 1 else 0)
    ensures IsTally(after, pixels[..i + 1], hash)
  {
    FirstNext(pixels, i, hash, hash(e.color), e.color);
    CountNext(pixels, i, hash, hash(e.color));
  }

  /** The colours of the first `i` pixels, and the next one's, are all in the grown table. */
  lemma TalliedNext(pixels: seq<Color>, i: nat, entries: seq<Entry>, after: seq<Entry>, hash: Color -> nat)
    requires i < |pixels| && IsHistogram(entries, pixels[..i], hash) && |entries| <= |after|
    requires forall k :: 0 <= k < |entries| ==> hash(after[k].color) == hash(entries[k].color)
    requires Tallied(after, hash, hash(pixels[i]))
    ensures var seen := pixels[..i + 1]; forall m :: 0 <= m < |seen| ==> Tallied(after, hash, hash(seen[m]))
  {
    forall m | 0 <= m < i ensures Tallied(after, hash, hash(pixels[m])) {
      assert Tallied(entries, hash, hash(pixels[..i][m]));
      var k :| 0 <= k < |entries| && hash(entries[k].color) == hash(pixels[m]);
      assert hash(after[k].color) == hash(pixels[m]);
    }
  }

  /** One more pixel of a colour already in the table. */
  lemma SeenAgain(pixels: seq<Color>, i: nat, entries: seq<Entry>, k: nat, hash: Color -> nat)
    requires i < |pixels| && k < |entries| && IsHistogram(entries, pixels[..i], hash)
    requires hash(entries[k].color) == hash(pixels[i])
    ensures IsHistogram(entries[k := Entry(entries[k].color, entries[k].count + 1)], pixels[..i + 1], hash)
  {
    var after := entries[k := Entry(entries[k].color, entries[k].count + 1)];
    TotalSet(entries, k, after[k]);
    forall j | 0 <= j < |after| ensures IsTally(after[j], pixels[..i + 1], hash) {
      TallyNext(pixels, i, entries[j], after[j], hash);
    }
    assert hash(after[k].color) == hash(pixels[i]);
    TalliedNext(pixels, i, entries, after, hash);
  }

  lemma FirstTally(pixels: seq<Color>, i: nat, entries: seq<Entry>, hash: Color -> nat)
    requires i < |pixels| && IsHistogram(entries, pixels[..i], hash) && !Tallied(entries, hash, hash(pixels[i]))
    ensures IsTally(Entry(pixels[i], 1), pixels[..i + 1], hash)
  {
    var h := hash(pixels[i]);
    forall m | 0 <= m < i ensures hash(pixels[m]) != h {
      assert Tallied(entries, hash, hash(pixels[..i][m]));
    }
    AbsentHash(pixels[..i], hash, h);
    CountNext(pixels, i, hash, h);
    assert FirstAt(pixels[..i + 1], hash, h, pixels[i], i);
  }

  /** The first pixel with its hash. */
  lemma SeenFirst(pixels: seq<Color>, i: nat, entries: seq<Entry>, hash: Color -> nat)
    requires i < |pixels| && IsHistogram(entries, pixels[..i], hash) && !Tallied(entries, hash, hash(pixels[i]))
    ensures IsHistogram(entries + [Entry(pixels[i], 1)], pixels[..i + 1], hash)
  {
    var (e, h) := (Entry(pixels[i], 1), hash(pixels[i]));
    var after := entries + [e];
    TotalAppend(entries, [e]);
    assert Total([e]) == Total([e][..0]) + 1;
    FirstTally(pixels, i, entries, hash);
    forall j | 0 <= j < |after| ensures IsTally(after[j], pixels[..i + 1], hash) {
      if j < |entries| {
        assert Tallied(entries, hash, hash(entries[j].color));
        TallyNext(pixels, i, entries[j], after[j], hash);
      }
    }
    assert hash(after[|entries|].color) == h;
    TalliedNext(pixels, i, entries, after, hash);
  }

  lemma TableSet(order: seq<nat>, table: map<nat, Entry>, hash: Color -> nat, k: nat, e: Entry)
    requires TableOk(order, table, hash) && k < |order| && hash(e.color) == order[k]
    ensures TableOk(order, table[order[k] := e], hash)
    ensures Listed(order, table[order[k] := e]) == Listed(order, table)[k := e]
  {
    var after := table[order[k] := e];
    forall j | 0 <= j < |order| ensures order[j] in after && hash(after[order[j]].color) == order[j] {
      assert j < k ==> order[j] != order[k];
      assert k < j ==> order[k] != order[j];
    }
    forall j | 0 <= j < |order| ensures after[order[j]] == Listed(order, table)[k := e][j] {
      assert j < k ==> order[j] != order[k];
      assert k < j ==> order[k] != order[j];
    }
  }

  lemma TableAdd(order: seq<nat>, table: map<nat, Entry>, hash: Color -> nat, e: Entry)
    requires TableOk(order, table, hash) && hash(e.color) !in table
    ensures TableOk(order + [hash(e.color)], table[hash(e.color) := e], hash)
    ensures Listed(order + [hash(e.color)], table[hash(e.color) := e]) == Listed(order, table) + [e]
  {
    var (h, after) := (hash(e.color), table[hash(e.color) := e]);
    var longer := order + [h];
    forall j | 0 <= j < |longer| ensures longer[j] in after && hash(after[longer[j]].color) == longer[j] {
      if j < |order| { assert order[j] in table; }
    }
    forall g | g in after ensures g in longer {
      if g != h { assert g in order; } else { assert longer[|order|] == g; }
    }
  }

  lemma NotTallied(order: seq<nat>, table: map<nat, Entry>, hash: Color -> nat, h: nat)
    requires TableOk(order, table, hash) && h !in table
    ensures !Tallied(Listed(order, table), hash, h)
  {
  }

  /** The table after `i` pixels. */
  ghost predicate Built(pixels: seq<Color>, i: nat, order: seq<nat>, table: map<nat, Entry>, hash: Color -> nat) {
    i <= |pixels| && TableOk(order, table, hash) && IsHistogram(Listed(order, table), pixels[..i], hash)
  }

  lemma BuiltAgain(pixels: seq<Color>, i: nat, order: seq<nat>, table: map<nat, Entry>, hash: Color -> nat)
    requires i < |pixels| && Built(pixels, i, order, table, hash) && hash(pixels[i]) in table
    ensures var h := hash(pixels[i]);
      Built(pixels, i + 1, order, table[h := Entry(table[h].color, table[h].count + 1)], hash)
  {
    var h := hash(pixels[i]);
    assert h in order;
    var k :| 0 <= k < |order| && order[k] == h;
    SeenAgain(pixels, i, Listed(order, table), k, hash);
    TableSet(order, table, hash, k, Entry(table[h].color, table[h].count + 1));
  }

  lemma BuiltFresh(pixels: seq<Color>, i: nat, order: seq<nat>, table: map<nat, Entry>, hash: Color -> nat)
    requires i < |pixels| && Built(pixels, i, order, table, hash) && hash(pixels[i]) !in table
    ensures var h := hash(pixels[i]); Built(pixels, i + 1, order + [h], table[h := Entry(pixels[i], 1)], hash)
  {
    NotTallied(order, table, hash, hash(pixels[i]));
    SeenFirst(pixels, i, Listed(order, table), hash);
    TableAdd(order, table, hash, Entry(pixels[i], 1));
  }

  method Build(pixels: seq<Color>, hash: Color -> nat) returns (entries: seq<Entry>)
    ensures IsHistogram(entries, pixels, hash)
  {
    var order: seq<nat>, table: map<nat, Entry> := [], map[];
    for i := 0 to |pixels|
      invariant Built(pixels, i, order, table, hash)
    {
      var h := hash(pixels[i]);
      if h in table {
        BuiltAgain(pixels, i, order, table, hash);
        table := table[h := Entry(table[h].color, table[h].count + 1)];
      } else {
        BuiltFresh(pixels, i, order, table, hash);
        order := order + [h];
        table := table[h := Entry(pixels[i], 1)];
      }
    }
    assert pixels[..|pixels|] == pixels;
    entries := Listed(order, table);
  }
}
