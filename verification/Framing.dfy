/** Bounded newline framing: what is emitted does not depend on how the bytes were cut up. */
module Framing {

  type Bytes = seq<nat>

  const NEWLINE: nat := 10

  // ----- what a byte stream means -----

  /** What follows the last newline. */
  function Tail(s: Bytes): Bytes {
    if |s| == 0 || s[|s| - 1] == NEWLINE then [] else Tail(s[..|s| - 1]) + [s[|s| - 1]]
  }

  /** The newline-terminated segments, without their newlines. */
  function Segments(s: Bytes): seq<Bytes> {
    if |s| == 0 then []
    else
      var before := s[..|s| - 1];
      if s[|s| - 1] == NEWLINE then Segments(before) + [Tail(before)] else Segments(before)
  }

  function Fitting(segments: seq<Bytes>, max: nat): seq<Bytes> {
    if |segments| == 0 then []
    else
      var last := segments[|segments| - 1];
      Fitting(segments[..|segments| - 1], max) + if |last| <= max then [last] else []
  }

  /** Exactly the segments of at most `max` bytes are kept, in order. */
  lemma {:induction false} FittingExact(a: seq<Bytes>, b: seq<Bytes>, segment: Bytes, max: nat)
    ensures Fitting(a + [segment] + b, max) ==
      Fitting(a, max) + (if |segment| <= max then [segment] else []) + Fitting(b, max)
    ensures |Fitting(a, max)| + Oversized(a, max) == |a|
  {
    FittingAppend(a + [segment], b, max);
    assert (a + [segment])[..|a|] == a;
    EachOnce(a, max);
  }

  lemma {:induction false} FittingAppend(a: seq<Bytes>, b: seq<Bytes>, max: nat)
    ensures Fitting(a + b, max) == Fitting(a, max) + Fitting(b, max)
  {
    if |b| == 0 {
      assert a + b == a;
    } else {
      var (rest, last) := (b[..|b| - 1], b[|b| - 1]);
      FittingAppend(a, rest, max);
      assert (a + b)[..|a + b| - 1] == a + rest && (a + b)[|a + b| - 1] == last;
      assert Fitting(a + b, max) == Fitting(a + rest, max) + if |last| <= max then [last] else [];
    }
  }

  lemma {:induction false} EachOnce(a: seq<Bytes>, max: nat)
    ensures |Fitting(a, max)| + Oversized(a, max) == |a|
  {
    if |a| > 0 { EachOnce(a[..|a| - 1], max); }
  }

  function Oversized(segments: seq<Bytes>, max: nat): nat {
    if |segments| == 0 then 0
    else Oversized(segments[..|segments| - 1], max) + One(|segments[|segments| - 1]| > max)
  }

  function One(b: bool): nat { if b then 1 else 0 }

  /** Segments too long for a line, counting the unfinished one as soon as it is too long. */
  function Refusals(s: Bytes, max: nat): nat {
    Oversized(Segments(s), max) + One(|Tail(s)| > max)
  }

  function Rejoin(segments: seq<Bytes>): Bytes {
    if |segments| == 0 then [] else Rejoin(segments[..|segments| - 1]) + segments[|segments| - 1] + [NEWLINE]
  }

  predicate Plain(s: Bytes) { forall i :: 0 <= i < |s| ==> s[i] != NEWLINE }

  /** The segments of a stream and what is left, rejoined, are the stream, and none has a newline in it. */
  ghost predicate IsCutUp(s: Bytes, segments: seq<Bytes>, tail: Bytes) {
    Rejoin(segments) + tail == s && Plain(tail) && forall i | 0 <= i < |segments| :: Plain(segments[i])
  }

  lemma NewlineCloses(before: Bytes, segments: seq<Bytes>, tail: Bytes)
    requires IsCutUp(before, segments, tail)
    ensures IsCutUp(before + [NEWLINE], segments + [tail], [])
  {
    assert (segments + [tail])[..|segments|] == segments;
  }

  lemma ByteExtends(before: Bytes, segments: seq<Bytes>, tail: Bytes, b: nat)
    requires IsCutUp(before, segments, tail) && b != NEWLINE
    ensures IsCutUp(before + [b], segments, tail + [b])
  {
    assert Rejoin(segments) + (tail + [b]) == Rejoin(segments) + tail + [b];
  }

  /** Segments and tail are the stream, cut at its newlines and nowhere else. */
  lemma {:induction false} StreamIsItsSegments(s: Bytes)
    ensures IsCutUp(s, Segments(s), Tail(s))
  {
    if |s| > 0 {
      var (before, last) := (s[..|s| - 1], s[|s| - 1]);
      StreamIsItsSegments(before);
      assert s == before + [last];
      if last == NEWLINE {
        NewlineCloses(before, Segments(before), Tail(before));
      } else {
        ByteExtends(before, Segments(before), Tail(before), last);
      }
    }
  }

  /** Bytes without a newline only extend the tail. */
  lemma {:induction false} Extend(s: Bytes, w: Bytes)
    requires Plain(w)
    ensures Segments(s + w) == Segments(s) && Tail(s + w) == Tail(s) + w
  {
    if |w| == 0 {
      assert s + w == s;
    } else {
      var (v, b) := (w[..|w| - 1], w[|w| - 1]);
      assert w == v + [b];
      assert (s + w)[..|s + w| - 1] == s + v;
      Extend(s, v);
    }
  }

  /** A newline closes the tail as a segment. */
  lemma {:induction false} Close(s: Bytes, w: Bytes, max: nat)
    requires Plain(w)
    ensures var (s', seg) := (s + w + [NEWLINE], Tail(s) + w);
      && Tail(s') == []
      && Fitting(Segments(s'), max) == Fitting(Segments(s), max) + (if |seg| <= max then [seg] else [])
      && Oversized(Segments(s'), max) == Oversized(Segments(s), max) + One(|seg| > max)
  {
    Extend(s, w);
    var s' := s + w + [NEWLINE];
    assert s'[..|s'| - 1] == s + w;
    assert Segments(s')[..|Segments(s')| - 1] == Segments(s);
  }

  // ----- the framer -----

  class LineFramer {
    const max: nat
    var buf: Bytes
    var discarding: bool
    /** The sizes reported to `on_drop`, one per refused line. */
    var drops: seq<nat>

    /** The framer's state is a function of the bytes it has been fed, not of the feeds. */
    ghost predicate Holds(stream: Bytes)
      reads this
    {
      && discarding == (|Tail(stream)| > max)
      && buf == (if discarding then [] else Tail(stream))
      && |drops| == Refusals(stream, max)
      && forall i :: 0 <= i < |drops| ==> drops[i] > max
    }

    constructor (max: nat)
      ensures this.max == max && Holds([])
    {
      this.max, buf, discarding, drops := max, [], false, [];
    }

    /** `off` is the offset of the first newline of `buf[start..]`, or its length. */
    ghost predicate NextAt(start: nat, off: nat)
      reads this
    {
      start + off <= |buf| && Plain(buf[start..][..off]) && (start + off < |buf| ==> buf[start..][off] == NEWLINE)
    }

    method Position(start: nat) returns (off: nat)
      requires start <= |buf|
      ensures NextAt(start, off)
    {
      off := 0;
      while start + off < |buf| && buf[start + off] != NEWLINE
        invariant start + off <= |buf| && Plain(buf[start..][..off])
      {
        off := off + 1;
      }
    }

    /** Between two lines of one feed: `done` is consumed, `left` is still to be read. */
    ghost predicate Reading(done: Bytes, left: Bytes, start: nat)
      reads this
    {
      && start <= |buf| && buf[start..] == Held(done, max) + left
      && Plain(Tail(done)) && discarding == (|Tail(done)| > max)
      && |drops| == Refusals(done, max)
      && forall i :: 0 <= i < |drops| ==> drops[i] > max
    }

    /** Consumes the line that ends `off` bytes after `start`, if it is to be emitted. */
    method TakeLine(start: nat, off: nat, ghost done: Bytes, ghost left: Bytes)
      returns (lines: seq<Bytes>, ghost done': Bytes, ghost left': Bytes)
      requires Reading(done, left, start) && NextAt(start, off) && start + off < |buf|
      modifies this`discarding, this`drops
      ensures Reading(done', left', start + off + 1) && done' + left' == done + left
      ensures Fitting(Segments(done'), max) == Fitting(Segments(done), max) + lines
    {
      ghost var w := NextChunk(done, left, Held(done, max), off);
      Close(done, w, max);
      var line := buf[start..start + off];
      LineIs(buf, start, off, Held(done, max) + w);
      done', left' := done + w + [NEWLINE], left[|w| + 1..];
      lines := [];
      if discarding {
        discarding := false;
      } else if |line| > max {
        drops := drops + [|line|];
      } else {
        lines := [line];
      }
    }

    /** Drops the consumed bytes, and an over-long rest with them. */
    method KeepTail(start: nat, ghost done: Bytes, ghost left: Bytes)
      requires Reading(done, left, start) && Plain(left)
      modifies this
      ensures Holds(done + left) && Segments(done + left) == Segments(done)
    {
      Extend(done, left);
      buf := buf[start..];
      if |buf| > max {
        if !discarding {
          drops := drops + [|buf|];
        }
        discarding := true;
      }
      if discarding {
        buf := [];
      }
    }

    /** Consumes line after line until no newline is left in the buffer. */
    method TakeLines(ghost done0: Bytes, ghost left0: Bytes)
      returns (lines: seq<Bytes>, start: nat, ghost done: Bytes, ghost left: Bytes)
      requires Reading(done0, left0, 0)
      modifies this`discarding, this`drops
      ensures Reading(done, left, start) && Plain(left) && done + left == done0 + left0
      ensures Fitting(Segments(done), max) == Fitting(Segments(done0), max) + lines
    {
      lines, start, done, left := [], 0, done0, left0;
      var off := Position(start);
      while start + off < |buf|
        invariant Reading(done, left, start) && done + left == done0 + left0
        invariant NextAt(start, off)
        invariant Fitting(Segments(done), max) == Fitting(Segments(done0), max) + lines
        decreases |buf| - start
      {
        var line;
        line, done, left := TakeLine(start, off, done, left);
        Associative(Fitting(Segments(done0), max), lines, line);
        lines := lines + line;
        start := start + off + 1;
        off := Position(start);
      }
      NothingLeft(buf, start, off, Held(done, max), left);
    }

    /** `stream` is what was fed before. */
    method Feed(data: Bytes, ghost stream: Bytes) returns (lines: seq<Bytes>)
      requires Holds(stream)
      modifies this
      ensures Holds(stream + data) && |buf| <= max
      ensures Fitting(Segments(stream + data), max) == Fitting(Segments(stream), max) + lines
    {
      StreamIsItsSegments(stream);
      buf := buf + data;
      var start;
      ghost var done, left;
      lines, start, done, left := TakeLines(stream, data);
      KeepTail(start, done, left);
    }
  }

  /** What the framer still holds of the line in progress. */
  function Held(done: Bytes, max: nat): Bytes {
    if |Tail(done)| > max then [] else Tail(done)
  }

  lemma LineIs(buf: Bytes, start: nat, off: nat, line: Bytes)
    requires start + off < |buf| && buf[start..][..off] == line
    ensures buf[start..start + off] == line && buf[start..][off + 1..] == buf[start + off + 1..]
  {
  }

  /** The next line's share of the bytes still to be read. */
  lemma NextChunk(done: Bytes, left: Bytes, held: Bytes, off: nat) returns (w: Bytes)
    requires Plain(held) && off < |held + left| && (held + left)[off] == NEWLINE && Plain((held + left)[..off])
    ensures |w| < |left| && Plain(w) && (held + left)[..off] == held + w
    ensures (held + left)[off + 1..] == left[|w| + 1..]
    ensures done + left == done + w + [NEWLINE] + left[|w| + 1..]
  {
    assert forall i | 0 <= i < |held| :: (held + left)[i] == held[i];
    w := left[..off - |held|];
    assert forall i | 0 <= i < |w| :: w[i] == (held + left)[..off][|held| + i];
    assert (held + left)[off] == left[|w|];
    LineBreak(held, left, |w|);
    LineBreak(done, left, |w|);
  }

  /** Any stream before `left`, cut at the newline in place `n` of `left`. */
  lemma LineBreak(before: Bytes, left: Bytes, n: nat)
    requires n < |left| && left[n] == NEWLINE
    ensures before + left == before + left[..n] + [NEWLINE] + left[n + 1..]
    ensures (before + left)[..|before| + n] == before + left[..n]
    ensures (before + left)[|before| + n + 1..] == left[n + 1..]
  {
  }

  lemma Associative(a: seq<Bytes>, b: seq<Bytes>, c: seq<Bytes>)
    ensures (a + b) + c == a + (b + c)
  {
  }

  lemma NothingLeft(buf: Bytes, start: nat, off: nat, held: Bytes, left: Bytes)
    requires start + off == |buf| && buf[start..] == held + left && Plain(buf[start..][..off])
    ensures Plain(left)
  {
    assert buf[start..][..off] == held + left;
    assert forall i | 0 <= i < |left| :: left[i] == (held + left)[|held| + i];
  }

  // ----- independence of the cutting -----

  function Concat(chunks: seq<Bytes>): Bytes {
    if |chunks| == 0 then [] else Concat(chunks[..|chunks| - 1]) + chunks[|chunks| - 1]
  }

  /**
   * However a stream is cut into feeds, the lines are its newline-terminated segments of at most
   * `max` bytes, in order; each longer one is refused once, and only the stream decides the state.
   */
  method FeedAll(max: nat, chunks: seq<Bytes>) returns (framer: LineFramer, lines: seq<Bytes>)
    ensures fresh(framer) && framer.max == max && framer.Holds(Concat(chunks))
    ensures lines == Fitting(Segments(Concat(chunks)), max)
  {
    framer := new LineFramer(max);
    lines := [];
    for i := 0 to |chunks|
      invariant framer.Holds(Concat(chunks[..i])) && framer.max == max && fresh(framer)
      invariant lines == Fitting(Segments(Concat(chunks[..i])), max)
    {
      ghost var fed := Concat(chunks[..i]);
      assert Concat(chunks[..i + 1]) == fed + chunks[i] by { assert chunks[..i + 1][..i] == chunks[..i]; }
      var more := framer.Feed(chunks[i], fed);
      lines := lines + more;
    }
    assert chunks[..|chunks|] == chunks;
  }

  /** Two cuttings of one stream give the same lines, the same number of refusals and the same state. */
  method CuttingIsIrrelevant(max: nat, a: seq<Bytes>, b: seq<Bytes>)
    returns (fa: LineFramer, la: seq<Bytes>, fb: LineFramer, lb: seq<Bytes>)
    requires Concat(a) == Concat(b)
    ensures la == lb && fa.buf == fb.buf && fa.discarding == fb.discarding && |fa.drops| == |fb.drops|
  {
    fa, la := FeedAll(max, a);
    fb, lb := FeedAll(max, b);
  }
}
