/**
 * The whole daemon between two external events: coordinator, mailbox, worker and the queue of
 * results, stepping in any order. Two theorems: it always comes to rest, and what it then shows.
 */
module System {
  import opened Types
  import opened Select
  import opened CoordinatorSpec
  import opened CoordinatorLaws
  import opened W = WorkerSpec

  /** `verdict` is a history: the last outcome adopted under the current generation. */
  datatype Sys = Sys(c: Coord, w: W.Worker, queue: seq<JobResult>, verdict: Option<Outcome>)

  /** What can still happen when no line, vanish or theme flip arrives. */
  datatype Inner = Work(stage: Stage) | Deliver(reading: Reading) | Fire

  ghost predicate Enabled(y: Sys, i: Inner) {
    match i
    case Work(_) => CanStep(y.w, y.c.host.slot)
    case Deliver(_) => |y.queue| > 0
    case Fire => y.c.host.timer.Some?
  }

  ghost predicate AtRest(y: Sys) { forall i :: !Enabled(y, i) }

  ghost function Adopted(cfg: Config, y: Sys, r: Reading): Coord
    requires |y.queue| > 0
  {
    Adopt(cfg, y.c, y.queue[0], r)
  }

  ghost function Do(cfg: Config, y: Sys, i: Inner): Sys
    requires Enabled(y, i)
  {
    match i
    case Work(stage) =>
      var e := Step(y.w, y.c.host.slot, stage);
      Sys(if e.takes then y.c.(host := y.c.host.(slot := None)) else y.c, e.worker,
          if e.report.Some? then y.queue + [e.report.value] else y.queue, y.verdict)
    case Deliver(r) =>
      var c := Adopted(cfg, y, r);
      var current := !y.c.cur.stopping && y.queue[0].generation == y.c.cur.generation;
      Sys(c, y.w, y.queue[1..],
          if c.cur.generation != y.c.cur.generation then None
          else if current then Some(y.queue[0].outcome) else y.verdict)
    case Fire =>
      var c := FireDueTimer(y.c, y.c.host.timer.value.due);
      Sys(c, y.w, y.queue, if c.cur.generation != y.c.cur.generation then None else y.verdict)
  }

  ghost predicate Next(cfg: Config, a: Sys, b: Sys) {
    exists i :: Enabled(a, i) && b == Do(cfg, a, i)
  }

  // ----- the measure -----

  /** Jobs and results of the current generation that are still on their way. */
  function Count(queue: seq<JobResult>, g: nat): nat {
    if |queue| == 0 then 0 else (if queue[0].generation == g then 1 else 0) + Count(queue[1..], g)
  }

  function One(b: bool): nat { if b then 1 else 0 }

  function Tokens(y: Sys): nat {
    var g := y.c.cur.generation;
    One(y.c.host.slot.Some? && y.c.host.slot.value.generation == g)
    + One(!y.w.phase.Idle? && y.w.phase.job.generation == g)
    + Count(y.queue, g)
  }

  /** The armed timer would re-submit for a player other than the one submitted last. */
  predicate Misdirected(c: Coord) { c.retry.timer.Some? && c.retry.player != c.cur.player }

  /** The player submitted last is playing and would now be submitted with another desire. */
  predicate Outdated(cfg: Config, c: Coord) {
    && c.cur.player.Some? && IsPlaying(c.book.players, c.cur.player.value)
    && HasSource(c.book.players, cfg.dirs, c.cur.player.value)
    && c.cur.lastSubmitted != Some(Desired(Some(TargetOf(c.book.players, cfg.dirs, c.cur.player.value)), c.mode))
  }

  function Actionables(cfg: Config, c: Coord): set<string> {
    set n | n in c.book.players && Actionable(c.book.players, cfg.dirs, Eligible(c.book), n)
  }

  /** The players selection could still move to. */
  function Rivals(cfg: Config, c: Coord): set<string> {
    Actionables(cfg, c) - (if c.cur.player.Some? then {c.cur.player.value} else {})
  }

  function AttemptsLeft(c: Coord): nat {
    if c.retry.desire != c.cur.lastSubmitted then RETRY_MAX_ATTEMPTS
    else RETRY_MAX_ATTEMPTS - Min(c.retry.attempt, RETRY_MAX_ATTEMPTS)
  }

  function Pending(y: Sys): nat {
    (if y.c.host.slot.Some? then 7 else 0) + (if y.w.phase.Idle? then 0 else Remaining(y.w.phase) + 1) + |y.queue|
  }

  /** The components of the measure, most significant first. */
  datatype Rank = Rank(misdirected: nat, stale: nat, outdated: nat, rivals: nat,
                       inFlight: nat, attemptsLeft: nat, armed: nat, pending: nat)

  ghost function Measure(cfg: Config, y: Sys): Rank {
    var armed := One(y.c.host.timer.Some?);
    Rank(One(Misdirected(y.c)), One(!Converged(cfg, y.c)), One(Outdated(cfg, y.c)), |Rivals(cfg, y.c)|,
         Tokens(y) + armed, AttemptsLeft(y.c), armed, Pending(y))
  }

  predicate Less(a: Rank, b: Rank) {
    || a.misdirected < b.misdirected
    || (a.misdirected == b.misdirected && (a.stale < b.stale || (a.stale == b.stale && LessTarget(a, b))))
  }

  predicate LessTarget(a: Rank, b: Rank) {
    || a.outdated < b.outdated
    || (a.outdated == b.outdated && (a.rivals < b.rivals || (a.rivals == b.rivals && LessWork(a, b))))
  }

  predicate LessWork(a: Rank, b: Rank) {
    || a.inFlight < b.inFlight
    || (a.inFlight == b.inFlight && (a.attemptsLeft < b.attemptsLeft
    || (a.attemptsLeft == b.attemptsLeft && (a.armed < b.armed
    || (a.armed == b.armed && a.pending < b.pending)))))
  }

  // ----- the invariant -----

  /** Nothing on its way is newer than the current generation. */
  ghost predicate NothingNewer(y: Sys) {
    var g := y.c.cur.generation;
    && (y.c.host.slot.Some? ==> y.c.host.slot.value.generation <= g)
    && (!y.w.phase.Idle? ==> y.w.phase.job.generation <= g)
    && (forall k | 0 <= k < |y.queue| :: y.queue[k].generation <= g)
  }

  lemma {:induction false} CountAppend(q: seq<JobResult>, r: JobResult, g: nat)
    ensures Count(q + [r], g) == Count(q, g) + One(r.generation == g)
  {
    if |q| > 0 {
      CountAppend(q[1..], r, g);
      assert (q + [r])[1..] == q[1..] + [r];
    }
  }

  lemma {:induction false} CountNone(q: seq<JobResult>, g: nat)
    requires forall k | 0 <= k < |q| :: q[k].generation < g
    ensures Count(q, g) == 0
  {
    if |q| > 0 { CountNone(q[1..], g); }
  }

  /** The mailbox slot is not read by anything that ranks the coordinator. */
  lemma SlotIrrelevant(cfg: Config, c: Coord, slot: Option<Job>)
    ensures var c' := c.(host := c.host.(slot := slot));
      && Choice(cfg, c') == Choice(cfg, c) && Converged(cfg, c') == Converged(cfg, c)
      && Misdirected(c') == Misdirected(c) && Outdated(cfg, c') == Outdated(cfg, c)
      && Rivals(cfg, c') == Rivals(cfg, c) && AttemptsLeft(c') == AttemptsLeft(c)
      && (Inv(cfg, c) ==> Inv(cfg, c'))
  {
  }

  lemma WorkDecreases(cfg: Config, y: Sys, stage: Stage)
    requires NothingNewer(y) && Enabled(y, Work(stage))
    ensures var y' := Do(cfg, y, Work(stage));
      NothingNewer(y') && Less(Measure(cfg, y'), Measure(cfg, y))
  {
    var y' := Do(cfg, y, Work(stage));
    var e := Step(y.w, y.c.host.slot, stage);
    StepShape(y.w, y.c.host.slot, stage);
    if e.takes { SlotIrrelevant(cfg, y.c, None); }
    if e.report.Some? { CountAppend(y.queue, e.report.value, y.c.cur.generation); }
  }

  lemma FiredFacts(cfg: Config, c: Coord)
    requires Inv(cfg, c) && c.host.timer.Some?
    ensures var c' := FireDueTimer(c, c.host.timer.value.due);
      && c'.host.timer.None? && c'.retry == c.retry.(timer := None) && c'.book == c.book && c'.mode == c.mode
      && Converged(cfg, c') == Converged(cfg, c) && AttemptsLeft(c') == AttemptsLeft(c) && !Misdirected(c')
      && (!Misdirected(c) ==> Rivals(cfg, c') == Rivals(cfg, c) && Outdated(cfg, c') == Outdated(cfg, c))
      && (|| (c'.cur == c.cur && c'.host.slot == c.host.slot)
          || (c'.cur.generation == c.cur.generation + 1
              && (c'.host.slot == c.host.slot || c'.host.slot == Some(Job(c'.cur.generation, c.retry.desire.value)))))
  {
    var c' := FireDueTimer(c, c.host.timer.value.due);
    assert Choice(cfg, c') == Choice(cfg, c);
  }

  lemma FireDecreases(cfg: Config, y: Sys)
    requires Inv(cfg, y.c) && NothingNewer(y) && Enabled(y, Fire)
    ensures var y' := Do(cfg, y, Fire);
      NothingNewer(y') && Less(Measure(cfg, y'), Measure(cfg, y))
  {
    FiredFacts(cfg, y.c);
    CountNone(y.queue, y.c.cur.generation + 1);
  }

  /** A settled result touches the status of the submitted player only. */
  lemma SettleTouchesSubmitted(cfg: Config, c: Coord, result: JobResult, r: Reading)
    ensures var c1 := Settle(c, result, r);
      && c1.book.players == c.book.players && c1.mode == c.mode && c1.cur == c.cur
      && Rivals(cfg, c1) == Rivals(cfg, c)
      && (Misdirected(c1) ==> Misdirected(c))
  {
    var c1 := Settle(c, result, r);
    assert forall n | n in c.book.players && Some(n) != c.cur.player ::
        (n in Eligible(c1.book) <==> n in Eligible(c.book));
  }

  /** A result that re-selects nothing is consumed, or spends an attempt on arming the timer. */
  lemma SettleSpends(c: Coord, result: JobResult, r: Reading)
    requires TimerMatch(c.retry.timer, c.host)
    ensures var c1 := Settle(c, result, r);
      || c1.host.timer.Some? == c.host.timer.Some?
      || (!c.host.timer.Some? && c1.host.timer.Some? && AttemptsLeft(c1) < AttemptsLeft(c))
    ensures var c1 := Settle(c, result, r);
      c.host.timer.Some? ==> c1.host.timer.Some?
  {
  }

  /** Re-selection that finds nothing new leaves everything the measure looks at. */
  lemma SameDesireKeeps(cfg: Config, c1: Coord)
    requires DecideAndSubmit(cfg, c1, false).cur.generation == c1.cur.generation
    ensures var c' := DecideAndSubmit(cfg, c1, false);
      && c'.book == c1.book && c'.retry == c1.retry && c'.host == c1.host && c'.mode == c1.mode
      && c'.cur == c1.cur.(lastDesired := c'.cur.lastDesired)
  {
  }

  /** Re-selection to a new desire submits it for its winner, with nothing left to cancel. */
  lemma NewDesireIsFresh(cfg: Config, c1: Coord)
    requires Inv(cfg, c1) && DecideAndSubmit(cfg, c1, false).cur.generation != c1.cur.generation
    ensures var c' := DecideAndSubmit(cfg, c1, false); var sel := Choice(cfg, c1);
      && !sel.Hold? && c1.cur.lastSubmitted != Some(sel.desired) && !c1.cur.stopping
      && c'.cur.generation == c1.cur.generation + 1
      && c'.cur.player == (if sel.Apply? then Some(sel.winner) else None)
      && c'.cur.lastSubmitted == Some(sel.desired) == c'.cur.lastDesired
      && c'.host.timer.None? && c'.retry == NO_RETRY
      && c'.book.players == c1.book.players && Eligible(c'.book) == Eligible(c1.book) && c'.mode == c1.mode
  {
    CancelRetryKeeps(cfg, c1);
  }

  lemma SameWinner(players: Players, dirs: CoversDirs, e: set<string>, e1: set<string>, v: string, w: string)
    requires IsWinner(players, dirs, e, v) && IsWinner(players, dirs, e1, w)
    requires Actionable(players, dirs, e1, v) && Actionable(players, dirs, e, w)
    ensures v == w
  {
    NameLessTotal(v, w);
  }

  /** If the choice moved although nothing was stale, the submitted player lost its eligibility. */
  lemma MovedOn(cfg: Config, c: Coord, c1: Coord)
    requires c1.book.players == c.book.players && c1.mode == c.mode && c1.cur == c.cur && !c.cur.stopping
    requires Rivals(cfg, c1) == Rivals(cfg, c) && Converged(cfg, c) && !Outdated(cfg, c)
    requires !Choice(cfg, c1).Hold? && c1.cur.lastSubmitted != Some(Choice(cfg, c1).desired)
    ensures var sel := Choice(cfg, c1);
      && sel.Apply? && sel.winner in Rivals(cfg, c)
      && Actionables(cfg, c1) == Rivals(cfg, c)
  {
    var (players, dirs) := (c.book.players, cfg.dirs);
    var (e, e1) := (Eligible(c.book), Eligible(c1.book));
    DecisionMeaning(players, c.mode, dirs, e);
    DecisionMeaning(players, c.mode, dirs, e1);
    var sel := Choice(cfg, c1);
    assert sel.Apply?;
    var w := sel.winner;
    assert w in Actionables(cfg, c1);
    assert Some(w) != c.cur.player;
    assert w in Rivals(cfg, c) && Actionable(players, dirs, e, w);
    assert Choice(cfg, c).Apply? && Choice(cfg, c).winner != w;
    var v := Choice(cfg, c).winner;
    assert v in Actionables(cfg, c);
    if v in Actionables(cfg, c1) { SameWinner(players, dirs, e, e1, v, w); }
    assert v !in Rivals(cfg, c1);
    assert v !in Rivals(cfg, c);
    assert Some(v) == c.cur.player;
  }

  /** A new desire straightens everything out, and at worst uses up one rival. */
  lemma NewDesireUsesRival(cfg: Config, c: Coord, result: JobResult, r: Reading)
    requires Inv(cfg, c) && Adopt(cfg, c, result, r).cur.generation != c.cur.generation
    ensures var c' := Adopt(cfg, c, result, r);
      && !Misdirected(c') && Converged(cfg, c') && !Outdated(cfg, c')
      && c'.cur.generation == c.cur.generation + 1 && c'.host.timer.None?
      && (Converged(cfg, c) && !Outdated(cfg, c) ==> |Rivals(cfg, c')| < |Rivals(cfg, c)|)
  {
    var c1 := Settle(c, result, r);
    var c' := Adopt(cfg, c, result, r);
    SettleKeeps(cfg, c, result, r);
    SettleTouchesSubmitted(cfg, c, result, r);
    NewDesireIsFresh(cfg, c1);
    DecideAndSubmitKeeps(cfg, c1, false);
    DecisionMeaning(c1.book.players, c1.mode, cfg.dirs, Eligible(c1.book));
    if Converged(cfg, c) && !Outdated(cfg, c) {
      MovedOn(cfg, c, c1);
      FewerRivals(cfg, c, c1, c', Choice(cfg, c1).winner);
    }
  }

  lemma FewerRivals(cfg: Config, c: Coord, c1: Coord, c': Coord, w: string)
    requires Actionables(cfg, c1) == Rivals(cfg, c) && w in Rivals(cfg, c)
    requires c'.book.players == c1.book.players && Eligible(c'.book) == Eligible(c1.book) && c'.cur.player == Some(w)
    ensures |Rivals(cfg, c')| < |Rivals(cfg, c)|
  {
    assert Actionables(cfg, c') == Actionables(cfg, c1);
    assert Rivals(cfg, c') == Rivals(cfg, c) - {w};
  }

  /** No new desire: the result is consumed and everything above it in the measure stands still. */
  lemma SameDesireSpends(cfg: Config, c: Coord, result: JobResult, r: Reading)
    requires Inv(cfg, c) && !c.cur.stopping && result.generation == c.cur.generation
    requires Adopt(cfg, c, result, r).cur.generation == c.cur.generation
    ensures var c' := Adopt(cfg, c, result, r);
      && (Misdirected(c') ==> Misdirected(c)) && Converged(cfg, c') && Outdated(cfg, c') == Outdated(cfg, c)
      && Rivals(cfg, c') == Rivals(cfg, c) && c'.host.slot == c.host.slot
      && (|| c'.host.timer.Some? == c.host.timer.Some?
          || (!c.host.timer.Some? && c'.host.timer.Some? && AttemptsLeft(c') < AttemptsLeft(c)))
  {
    var (c1, c') := (Settle(c, result, r), Adopt(cfg, c, result, r));
    assert Converged(cfg, c') by {
      SettleKeeps(cfg, c, result, r);
      DecideAndSubmitKeeps(cfg, c1, false);
    }
    SettleTouchesSubmitted(cfg, c, result, r);
    SettleSpends(c, result, r);
    SameDesireKeeps(cfg, c1);
    SameStanding(cfg, c1, c');
  }

  lemma SameStanding(cfg: Config, a: Coord, b: Coord)
    requires b.book == a.book && b.retry == a.retry && b.host == a.host && b.mode == a.mode
    requires b.cur == a.cur.(lastDesired := b.cur.lastDesired)
    ensures Misdirected(a) == Misdirected(b) && Outdated(cfg, a) == Outdated(cfg, b)
    ensures Rivals(cfg, a) == Rivals(cfg, b) && AttemptsLeft(a) == AttemptsLeft(b)
  {
  }

  lemma SubmittedSlot(cfg: Config, c: Coord, result: JobResult, r: Reading)
    ensures var c' := Adopt(cfg, c, result, r);
      c'.host.slot == c.host.slot || c'.host.slot == Some(Job(c'.cur.generation, c'.cur.lastDesired.value))
  {
    DecidedSlot(cfg, Settle(c, result, r));
  }

  lemma DecidedSlot(cfg: Config, c: Coord)
    ensures var c' := DecideAndSubmit(cfg, c, false);
      c'.host.slot == c.host.slot || c'.host.slot == Some(Job(c'.cur.generation, c'.cur.lastDesired.value))
  {
  }

  lemma DeliverDecreases(cfg: Config, y: Sys, r: Reading)
    requires Inv(cfg, y.c) && NothingNewer(y) && Enabled(y, Deliver(r))
    ensures var y' := Do(cfg, y, Deliver(r));
      NothingNewer(y') && Less(Measure(cfg, y'), Measure(cfg, y))
  {
    if !y.c.cur.stopping && y.queue[0].generation == y.c.cur.generation {
      SubmittedSlot(cfg, y.c, y.queue[0], r);
      if Adopted(cfg, y, r).cur.generation != y.c.cur.generation {
        NewDesireUsesRival(cfg, y.c, y.queue[0], r);
      } else {
        SameDesireSpends(cfg, y.c, y.queue[0], r);
      }
    }
  }

  lemma DoDecreases(cfg: Config, y: Sys, i: Inner)
    requires Inv(cfg, y.c) && NothingNewer(y) && Enabled(y, i)
    ensures var y' := Do(cfg, y, i);
      Inv(cfg, y'.c) && NothingNewer(y') && Less(Measure(cfg, y'), Measure(cfg, y))
  {
    match i
    case Work(stage) => SlotIrrelevant(cfg, y.c, None); WorkDecreases(cfg, y, stage);
    case Deliver(r) => AdoptKeeps(cfg, y.c, y.queue[0], r); DeliverDecreases(cfg, y, r);
    case Fire => ClockKeeps(cfg, y.c, y.c.host.timer.value.due); FireDecreases(cfg, y);
  }

  ghost predicate StepAt(cfg: Config, run: nat -> Sys, j: nat) {
    Next(cfg, run(j), run(j + 1))
  }

  lemma NoEndlessRun(cfg: Config, run: nat -> Sys, k: nat)
    requires Inv(cfg, run(k).c) && NothingNewer(run(k))
    requires forall j: nat | j >= k :: StepAt(cfg, run, j)
    ensures false
    decreases Measure(cfg, run(k)).misdirected, Measure(cfg, run(k)).stale, Measure(cfg, run(k)).outdated,
              Measure(cfg, run(k)).rivals, Measure(cfg, run(k)).inFlight, Measure(cfg, run(k)).attemptsLeft,
              Measure(cfg, run(k)).armed, Measure(cfg, run(k)).pending
  {
    assert StepAt(cfg, run, k);
    var i :| Enabled(run(k), i) && run(k + 1) == Do(cfg, run(k), i);
    DoDecreases(cfg, run(k), i);
    NoEndlessRun(cfg, run, k + 1);
  }

  /**
   * Without further lines, vanishes or theme flips, no run goes on for ever: in whatever order
   * worker steps, results and timer fires come, fallback, retry and re-selection die out.
   */
  lemma EveryRunComesToRest(cfg: Config, run: nat -> Sys)
    requires Inv(cfg, run(0).c) && NothingNewer(run(0))
    ensures exists k: nat :: !StepAt(cfg, run, k)
  {
    if forall k: nat :: StepAt(cfg, run, k) {
      NoEndlessRun(cfg, run, 0);
    }
  }
}
