/** What the daemon shows when it comes to rest, on every run of outer events and inner steps. */
module Convergence {
  import opened Types
  import opened Select
  import opened CoordinatorSpec
  import opened CoordinatorLaws
  import opened WorkerSpec
  import WorkerRefinement
  import opened System
  import Lines

  /** What an outcome of the current generation entails for the screen and for the desire. */
  ghost predicate Says(w: Worker, desire: Option<Desired>, outcome: Outcome) {
    && (outcome.Success() ==> w.shownFor.Some? && desire == Some(w.shownFor.value.0))
    && (outcome.Refused? ==> desire.Some? && desire.value.target.Some?)
  }

  ghost predicate SlotCoherent(y: Sys) {
    var slot := y.c.host.slot;
    slot.Some? ==>
      && slot.value.generation <= y.c.cur.generation
      && (slot.value.generation == y.c.cur.generation ==> Some(slot.value.desired) == y.c.cur.lastDesired)
      && (!y.w.phase.Idle? ==> y.w.phase.job.generation <= slot.value.generation)
  }

  ghost predicate JobCoherent(y: Sys) {
    !y.w.phase.Idle? ==>
      && y.w.phase.job.generation <= y.c.cur.generation
      && (y.w.phase.job.generation == y.c.cur.generation ==> Some(y.w.phase.job.desired) == y.c.cur.lastDesired)
  }

  /** Results lie behind the job in hand and the slot, oldest first, and mean what they say. */
  ghost predicate QueueCoherent(y: Sys) {
    && (forall k, m | 0 <= k < m < |y.queue| :: y.queue[k].generation <= y.queue[m].generation)
    && (forall k | 0 <= k < |y.queue| ::
          && y.queue[k].generation <= y.c.cur.generation
          && (!y.w.phase.Idle? ==> y.queue[k].generation <= y.w.phase.job.generation)
          && (y.c.host.slot.Some? ==> y.queue[k].generation <= y.c.host.slot.value.generation)
          && (y.queue[k].generation == y.c.cur.generation ==> Says(y.w, y.c.cur.lastDesired, y.queue[k].outcome)))
  }

  /** After a current result was adopted, everything still on its way is current. */
  ghost predicate VerdictCoherent(y: Sys) {
    y.verdict.Some? ==>
      && Says(y.w, y.c.cur.lastDesired, y.verdict.value)
      && (y.c.host.slot.Some? ==> y.c.host.slot.value.generation == y.c.cur.generation)
      && (!y.w.phase.Idle? ==> y.w.phase.job.generation == y.c.cur.generation)
      && (forall k | 0 <= k < |y.queue| :: y.queue[k].generation == y.c.cur.generation)
  }

  /** The last submission is on its way or has been adopted, while the worker lives. */
  ghost predicate NotLost(y: Sys) {
    var g := y.c.cur.generation;
    y.c.host.workerAlive && !y.c.cur.stopping && y.c.host.submissions != [] ==>
      || y.verdict.Some?
      || (y.c.host.slot.Some? && y.c.host.slot.value.generation == g)
      || (!y.w.phase.Idle? && y.w.phase.job.generation == g)
      || (exists k :: 0 <= k < |y.queue| && y.queue[k].generation == g)
  }

  /** The screen's history agrees with the dedup key. */
  ghost predicate ShownMatchesKey(w: Worker) {
    w.shownFor.Some? ==>
      var (d, content) := w.shownFor.value;
      if d.target.None? then w.lastCommitted == Some(Preset(d.mode))
      else content.Some? && w.lastCommitted == Some(Cover(content.value, d.mode))
  }

  /** The phase is the one its job's kind can be in. */
  ghost predicate PhaseFits(w: Worker) {
    && (w.phase.Reverting? ==> w.phase.job.desired.target.None?)
    && (!w.phase.Idle? && !w.phase.Fetched? && !w.phase.Reverting? ==> w.phase.job.desired.target.Some?)
  }

  /** The key names what the screen shows, and colours in hand are the content's. */
  ghost predicate TruePalette(palette: WorkerRefinement.Extraction, w: Worker) {
    && WorkerRefinement.Truthful(palette, w)
    && (w.phase.Extracted? || w.phase.Applying? ==>
          w.phase.colors == palette(w.phase.content, w.phase.job.desired.mode))
  }

  ghost predicate Coherent(cfg: Config, y: Sys) {
    && Inv(cfg, y.c) && SlotCoherent(y) && JobCoherent(y) && QueueCoherent(y) && VerdictCoherent(y) && NotLost(y)
    && ShownMatchesKey(y.w) && PhaseFits(y.w)
  }

  // ----- worker steps -----

  lemma WorkerStepSays(w: Worker, slot: Option<Job>, st: Stage)
    requires CanStep(w, slot) && ShownMatchesKey(w) && PhaseFits(w)
    ensures var e := Step(w, slot, st);
      && ShownMatchesKey(e.worker) && PhaseFits(e.worker)
      && (e.worker.shownFor == w.shownFor
          || (!w.phase.Idle? && e.worker.shownFor.Some? && e.worker.shownFor.value.0 == w.phase.job.desired))
      && (e.report.Some? ==> Says(e.worker, Some(w.phase.job.desired), e.report.value.outcome))
  {
  }

  lemma TakeCoherent(cfg: Config, y: Sys, st: Stage)
    requires Coherent(cfg, y) && Enabled(y, Work(st)) && y.w.phase.Idle?
    ensures Coherent(cfg, Do(cfg, y, Work(st)))
  {
    SlotIrrelevant(cfg, y.c, None);
  }

  lemma WorkCoherent(cfg: Config, y: Sys, st: Stage)
    requires Coherent(cfg, y) && Enabled(y, Work(st)) && !y.w.phase.Idle?
    ensures Coherent(cfg, Do(cfg, y, Work(st)))
  {
    var y' := Do(cfg, y, Work(st));
    StepShape(y.w, y.c.host.slot, st);
    WorkerStepSays(y.w, y.c.host.slot, st);
    assert forall k | 0 <= k < |y.queue| :: y'.queue[k] == y.queue[k];
    assert y'.queue != y.queue ==> y'.queue[|y.queue|].generation == y.w.phase.job.generation;
  }

  // ----- coordinator steps -----

  /** How a handler may move the generation, the desire and the slot. */
  ghost predicate Moves(c: Coord, c': Coord) {
    var submitted := if c'.cur.lastDesired.Some? then Some(Job(c'.cur.generation, c'.cur.lastDesired.value)) else None;
    && (c'.host.workerAlive ==> c.host.workerAlive)
    && (!c'.cur.stopping ==> !c.cur.stopping)
    && (c'.host.slot == c.host.slot || (c'.host.slot == submitted && submitted.Some?))
    && (|| (c'.cur.generation == c.cur.generation && c'.cur.lastDesired == c.cur.lastDesired
            && (c'.host.submissions == [] <==> c.host.submissions == []))
        || (c'.cur.generation == c.cur.generation + 1
            && (c'.host.workerAlive && !c'.cur.stopping ==> c'.host.slot == submitted && submitted.Some?)))
  }

  lemma MaybeSubmitMoves(cfg: Config, c: Coord, d: Desired, p: Option<string>, again: bool)
    requires Inv(cfg, c)
    ensures Moves(c, MaybeSubmit(c, d, p, again))
  {
  }

  lemma DecideAndSubmitMoves(cfg: Config, c: Coord, again: bool)
    requires Inv(cfg, c)
    ensures Moves(c, DecideAndSubmit(cfg, c, again))
  {
    match Choice(cfg, c)
    case Hold =>
    case Apply(d, w) => MaybeSubmitMoves(cfg, c, d, Some(w), again);
    case Revert(d) => MaybeSubmitMoves(cfg, c, d, None, again);
  }

  lemma AdoptMoves(cfg: Config, c: Coord, result: JobResult, r: Reading)
    requires Inv(cfg, c)
    ensures Moves(c, Adopt(cfg, c, result, r))
  {
    SettleKeeps(cfg, c, result, r);
    SettleTouchesSubmitted(cfg, c, result, r);
    DecideAndSubmitMoves(cfg, Settle(c, result, r), false);
  }

  lemma OnLineMoves(cfg: Config, c: Coord, text: string)
    requires Inv(cfg, c)
    ensures Moves(c, OnLine(cfg, c, text))
  {
    var l := Lines.Parse(cfg.bases, text);
    if l.Some? {
      TrackKeeps(cfg, c, l.value);
      DecideAndSubmitMoves(cfg, Track(cfg, c, l.value), true);
    }
  }

  lemma OnVanishMoves(cfg: Config, c: Coord, busName: string)
    requires Inv(cfg, c)
    ensures Moves(c, OnVanish(cfg, c, busName))
  {
    var name := PlayerNameFromBus(busName);
    if name.Some? && name.value in c.book.players {
      EvictKeeps(cfg, c, name.value);
      DecideAndSubmitMoves(cfg, c.(book := Evict(c.book, name.value)), false);
    }
  }

  lemma OnSchemeMoves(cfg: Config, c: Coord, value: nat)
    requires Inv(cfg, c)
    ensures Moves(c, OnScheme(cfg, c, value))
  {
    var c1 := c.(mode := ModeFromScheme(value));
    var sel := Choice(cfg, c1);
    if c1.appliedTarget.Some? && (sel.Hold? || sel.desired.target != c1.appliedTarget) {
      MaybeSubmitMoves(cfg, c1, Desired(c1.appliedTarget, c1.mode), None, true);
    } else if sel.Apply? {
      MaybeSubmitMoves(cfg, c1, sel.desired, Some(sel.winner), true);
    }
  }

  lemma ClockMoves(cfg: Config, c: Coord, now: int)
    requires Inv(cfg, c)
    ensures Moves(c, FireDueTimer(c, now))
  {
  }

  lemma ActMoves(cfg: Config, c: Coord, a: Action)
    requires Inv(cfg, c)
    ensures Moves(c, Act(cfg, c, a))
  {
    match a
    case Line(text) => OnLineMoves(cfg, c, text);
    case Vanish(busName) => OnVanishMoves(cfg, c, busName);
    case Scheme(value) => OnSchemeMoves(cfg, c, value);
    case Report(result, r) => AdoptMoves(cfg, c, result, r);
    case Clock(now) => ClockMoves(cfg, c, now);
    case Shutdown =>
    case WorkerDies =>
  }

  /** The verdict belongs to a generation: a new one starts without. */
  function With(y: Sys, c': Coord): Sys {
    y.(c := c', verdict := if c'.cur.generation != y.c.cur.generation then None else y.verdict)
  }

  lemma MovedCoherent(cfg: Config, y: Sys, c': Coord)
    requires Coherent(cfg, y) && Inv(cfg, c') && Moves(y.c, c')
    ensures Coherent(cfg, With(y, c'))
  {
  }

  lemma PopCoherent(cfg: Config, y: Sys)
    requires Coherent(cfg, y) && |y.queue| > 0
    ensures var current := !y.c.cur.stopping && y.queue[0].generation == y.c.cur.generation;
      Coherent(cfg, y.(queue := y.queue[1..], verdict := if current then Some(y.queue[0].outcome) else y.verdict))
  {
    var current := !y.c.cur.stopping && y.queue[0].generation == y.c.cur.generation;
    var y' := y.(queue := y.queue[1..], verdict := if current then Some(y.queue[0].outcome) else y.verdict);
    assert forall k | 0 <= k < |y'.queue| :: y'.queue[k] == y.queue[k + 1];
    if k :| 1 <= k < |y.queue| && y.queue[k].generation == y.c.cur.generation {
      assert y'.queue[k - 1] == y.queue[k];
    }
  }

  lemma DoCoherent(cfg: Config, y: Sys, i: Inner)
    requires Coherent(cfg, y) && Enabled(y, i)
    ensures Coherent(cfg, Do(cfg, y, i))
  {
    match i
    case Work(stage) =>
      if y.w.phase.Idle? { TakeCoherent(cfg, y, stage); } else { WorkCoherent(cfg, y, stage); }
    case Fire =>
      var now := y.c.host.timer.value.due;
      ClockKeeps(cfg, y.c, now);
      ClockMoves(cfg, y.c, now);
      MovedCoherent(cfg, y, FireDueTimer(y.c, now));
    case Deliver(r) =>
      PopCoherent(cfg, y);
      AdoptKeeps(cfg, y.c, y.queue[0], r);
      AdoptMoves(cfg, y.c, y.queue[0], r);
      var current := !y.c.cur.stopping && y.queue[0].generation == y.c.cur.generation;
      var y1 := y.(queue := y.queue[1..], verdict := if current then Some(y.queue[0].outcome) else y.verdict);
      MovedCoherent(cfg, y1, Adopted(cfg, y, r));
  }

  // ----- runs -----

  datatype Move = Outer(action: Action) | In(inner: Inner)

  /** Results only come from the worker, and extraction depends on content and mode only. */
  ghost predicate Possible(palette: WorkerRefinement.Extraction, y: Sys, m: Move) {
    match m
    case Outer(a) => !a.Report?
    case In(i) =>
      && Enabled(y, i)
      && (i.Work? && y.w.phase.Extracting? ==>
            i.stage.colors == palette(y.w.phase.content, y.w.phase.job.desired.mode))
  }

  ghost function Perform(cfg: Config, y: Sys, m: Move): Sys
    requires m.In? ==> Enabled(y, m.inner)
  {
    match m
    case Outer(a) => With(y, Act(cfg, y.c, a))
    case In(i) => Do(cfg, y, i)
  }

  ghost function Play(cfg: Config, palette: WorkerRefinement.Extraction, y: Sys, moves: seq<Move>): Option<Sys> {
    if |moves| == 0 then Some(y)
    else
      var before := Play(cfg, palette, y, moves[..|moves| - 1]);
      if before.Some? && Possible(palette, before.value, moves[|moves| - 1])
      then Some(Perform(cfg, before.value, moves[|moves| - 1])) else None
  }

  /** The daemon as it starts: nothing known, the preset just applied. */
  function Booted(mode: Mode): Sys {
    Sys(Initial(mode, true), Seeded(mode), [], None)
  }

  lemma WorkerStaysTrue(palette: WorkerRefinement.Extraction, w: Worker, slot: Option<Job>, st: Stage)
    requires CanStep(w, slot) && TruePalette(palette, w)
    requires w.phase.Extracting? ==> st.colors == palette(w.phase.content, w.phase.job.desired.mode)
    ensures TruePalette(palette, Step(w, slot, st).worker)
  {
  }

  lemma PerformCoherent(cfg: Config, palette: WorkerRefinement.Extraction, y: Sys, m: Move)
    requires Coherent(cfg, y) && TruePalette(palette, y.w) && Possible(palette, y, m)
    ensures Coherent(cfg, Perform(cfg, y, m)) && TruePalette(palette, Perform(cfg, y, m).w)
  {
    match m
    case In(i) =>
      DoCoherent(cfg, y, i);
      if i.Work? { WorkerStaysTrue(palette, y.w, y.c.host.slot, i.stage); }
    case Outer(a) =>
      ActKeeps(cfg, y.c, a);
      ActMoves(cfg, y.c, a);
      MovedCoherent(cfg, y, Act(cfg, y.c, a));
  }

  lemma {:induction false} PlayCoherent(cfg: Config, palette: WorkerRefinement.Extraction, y: Sys, moves: seq<Move>)
    requires Coherent(cfg, y) && TruePalette(palette, y.w)
    ensures var y' := Play(cfg, palette, y, moves);
      y'.Some? ==> Coherent(cfg, y'.value) && TruePalette(palette, y'.value.w)
  {
    if |moves| > 0 && Play(cfg, palette, y, moves).Some? {
      PlayCoherent(cfg, palette, y, moves[..|moves| - 1]);
      PerformCoherent(cfg, palette, Play(cfg, palette, y, moves[..|moves| - 1]).value, moves[|moves| - 1]);
    }
  }

  // ----- what a verdict has done to the coordinator -----

  /** No outer event since the verdict: statuses, attempts and timer still follow from it. */
  ghost predicate Attributed(cfg: Config, y: Sys) {
    var (c, p) := (y.c, y.c.cur.player);
    y.verdict.Some? && !c.cur.stopping ==>
      && Converged(cfg, c)
      && (y.verdict.value.FailedRetryable? ==>
            || Choice(cfg, c).Hold?
            || (c.retry.attempt > RETRY_MAX_ATTEMPTS
                && (p.Some? && p.value in c.book.covers ==> c.book.covers[p.value].status.Exhausted?))
            || (c.host.timer.Some? && c.retry.desire.Some? && c.retry.desire == c.cur.lastSubmitted))
      && (y.verdict.value.Refused? && p.Some? && p.value in c.book.covers ==>
            c.book.covers[p.value].status.Rejected?)
  }

  lemma SettleVerdict(c: Coord, result: JobResult, r: Reading)
    requires TimerMatch(c.retry.timer, c.host)
    ensures var c' := Settle(c, result, r); var p := c.cur.player;
      && (result.outcome.FailedRetryable? ==>
            || (c'.retry.attempt > RETRY_MAX_ATTEMPTS
                && (p.Some? && p.value in c'.book.covers ==> c'.book.covers[p.value].status.Exhausted?))
            || (c'.host.timer.Some? && c'.retry.desire == c.cur.lastSubmitted))
      && (result.outcome.Refused? && p.Some? && p.value in c'.book.covers ==>
            c'.book.covers[p.value].status.Rejected?)
  {
  }

  lemma SettledDeliver(cfg: Config, c: Coord, result: JobResult, r: Reading)
    requires Inv(cfg, c) && !c.cur.stopping && result.generation == c.cur.generation
    requires Adopt(cfg, c, result, r).cur.generation == c.cur.generation
    ensures var c' := Adopt(cfg, c, result, r); var p := c'.cur.player;
      && Converged(cfg, c')
      && (result.outcome.FailedRetryable? ==>
            || Choice(cfg, c').Hold?
            || (c'.retry.attempt > RETRY_MAX_ATTEMPTS
                && (p.Some? && p.value in c'.book.covers ==> c'.book.covers[p.value].status.Exhausted?))
            || (c'.host.timer.Some? && c'.retry.desire.Some? && c'.retry.desire == c'.cur.lastSubmitted))
      && (result.outcome.Refused? && p.Some? && p.value in c'.book.covers ==>
            c'.book.covers[p.value].status.Rejected?)
  {
    var c1 := Settle(c, result, r);
    SettleKeeps(cfg, c, result, r);
    SettleTouchesSubmitted(cfg, c, result, r);
    SettleVerdict(c, result, r);
    SameDesireKeeps(cfg, c1);
    DecideAndSubmitKeeps(cfg, c1, false);
  }

  lemma InnerAttributed(cfg: Config, y: Sys, i: Inner)
    requires Coherent(cfg, y) && Enabled(y, i) && Attributed(cfg, y)
    ensures Attributed(cfg, Do(cfg, y, i))
  {
    match i
    case Work(stage) => SlotIrrelevant(cfg, y.c, None);
    case Fire => FiredFacts(cfg, y.c);
      assert Choice(cfg, Do(cfg, y, i).c) == Choice(cfg, y.c);
    case Deliver(r) =>
      if !y.c.cur.stopping && y.queue[0].generation == y.c.cur.generation
         && Adopted(cfg, y, r).cur.generation == y.c.cur.generation {
        SettledDeliver(cfg, y.c, y.queue[0], r);
      }
  }

  lemma ReselectKeepsMode(cfg: Config, c: Coord)
    ensures var c' := DecideAndSubmit(cfg, c, false);
      c'.host.workerAlive == c.host.workerAlive && c'.cur.stopping == c.cur.stopping
      && |c'.host.submissions| >= |c.host.submissions|
  {
  }

  lemma SettleKeepsMode(c: Coord, result: JobResult, r: Reading)
    ensures var c' := Settle(c, result, r);
      c'.host.workerAlive == c.host.workerAlive && c'.cur.stopping == c.cur.stopping
      && c'.host.submissions == c.host.submissions
  {
  }

  ghost predicate StillRunning(y: Sys, y': Sys) {
    && y'.c.host.workerAlive == y.c.host.workerAlive && y'.c.cur.stopping == y.c.cur.stopping
    && |y'.c.host.submissions| >= |y.c.host.submissions|
  }

  lemma InnerKeepsMode(cfg: Config, y: Sys, i: Inner)
    requires Enabled(y, i)
    ensures StillRunning(y, Do(cfg, y, i))
  {
    if i.Deliver? {
      SettleKeepsMode(y.c, y.queue[0], i.reading);
      ReselectKeepsMode(cfg, Settle(y.c, y.queue[0], i.reading));
    }
  }

  /** The screen shows this desire: the preset, or the palette of some content resolved for it. */
  ghost predicate ScreenShows(palette: WorkerRefinement.Extraction, w: Worker, d: Desired) {
    if d.target.None? then w.screen == ConfigPreset
    else exists content :: w.shownFor == Some((d, Some(content))) && w.screen == Palette(palette(content, d.mode))
  }

  // ----- what stays owed until the verdict -----

  /** A job in hand of the current generation is never dropped: nothing newer can wait behind it. */
  lemma WorkKeepsTokens(cfg: Config, y: Sys, stage: Stage)
    requires SlotCoherent(y) && Enabled(y, Work(stage))
    ensures Tokens(Do(cfg, y, Work(stage))) == Tokens(y)
  {
    var e := Step(y.w, y.c.host.slot, stage);
    StepShape(y.w, y.c.host.slot, stage);
    if e.report.Some? { CountAppend(y.queue, e.report.value, y.c.cur.generation); }
  }

  /** Something current is on its way, or the last current result explains the coordinator's state. */
  ghost predicate Owed(cfg: Config, y: Sys) {
    Tokens(y) > 0 || Attributed(cfg, y)
  }

  lemma InnerOwed(cfg: Config, y: Sys, i: Inner)
    requires Coherent(cfg, y) && Enabled(y, i) && Owed(cfg, y)
    ensures Owed(cfg, Do(cfg, y, i))
  {
    if Attributed(cfg, y) {
      InnerAttributed(cfg, y, i);
    } else {
      match i
      case Work(stage) => WorkKeepsTokens(cfg, y, stage);
      case Fire => FiredFacts(cfg, y.c);
      case Deliver(r) => DeliverOwed(cfg, y, r);
    }
  }

  lemma DeliverOwed(cfg: Config, y: Sys, r: Reading)
    requires Coherent(cfg, y) && Enabled(y, Deliver(r)) && Tokens(y) > 0
    ensures Owed(cfg, Do(cfg, y, Deliver(r)))
  {
    if y.c.cur.stopping {
    } else if y.queue[0].generation != y.c.cur.generation {
      assert Tokens(Do(cfg, y, Deliver(r))) == Tokens(y);
    } else if Adopted(cfg, y, r).cur.generation == y.c.cur.generation {
      SettledDeliver(cfg, y.c, y.queue[0], r);
    }
  }

  lemma {:induction false} PlayOwed(cfg: Config, palette: WorkerRefinement.Extraction, y: Sys, moves: seq<Move>)
    requires Coherent(cfg, y) && TruePalette(palette, y.w) && Owed(cfg, y)
    requires forall m | m in moves :: m.In?
    ensures var y' := Play(cfg, palette, y, moves); y'.Some? ==> Owed(cfg, y'.value) && StillRunning(y, y'.value)
  {
    if |moves| > 0 && Play(cfg, palette, y, moves).Some? {
      var (before, m) := (moves[..|moves| - 1], moves[|moves| - 1]);
      PlayOwed(cfg, palette, y, before);
      PlayCoherent(cfg, palette, y, before);
      assert m in moves;
      InnerOwed(cfg, Play(cfg, palette, y, before).value, m.inner);
      InnerKeepsMode(cfg, Play(cfg, palette, y, before).value, m.inner);
    }
  }

  /** At rest nothing is on its way and no timer is armed, so a live worker has been heard. */
  lemma RestIsQuiet(cfg: Config, y: Sys)
    requires Coherent(cfg, y) && AtRest(y)
    ensures y.queue == [] && y.c.host.timer.None? && y.w.phase.Idle? && y.c.host.slot.None? && Tokens(y) == 0
    ensures y.c.host.workerAlive && !y.c.cur.stopping && y.c.host.submissions != [] ==> y.verdict.Some?
  {
    var st: Stage :| true;
    assert !Enabled(y, Work(st)) && !Enabled(y, Fire) && !Enabled(y, Deliver(Reading(0, 0.0)));
  }

  /** A successful verdict speaks of the desire decided last, and of the screen. */
  lemma SuccessShows(cfg: Config, palette: WorkerRefinement.Extraction, y: Sys)
    requires Coherent(cfg, y) && TruePalette(palette, y.w) && y.verdict.Some? && y.verdict.value.Success()
    ensures y.c.cur.lastDesired.Some? && ScreenShows(palette, y.w, y.c.cur.lastDesired.value)
  {
    var (d, content) := y.w.shownFor.value;
    assert y.c.cur.lastDesired == Some(d);
  }

  lemma SettledScreen(cfg: Config, palette: WorkerRefinement.Extraction, y: Sys)
    requires Coherent(cfg, y) && TruePalette(palette, y.w) && Attributed(cfg, y) && AtRest(y)
    requires y.c.host.workerAlive && !y.c.cur.stopping && y.c.host.submissions != []
    ensures ShowsChoice(cfg, palette, y)
  {
    var (c, sel) := (y.c, Choice(cfg, y.c));
    RestIsQuiet(cfg, y);
    DecisionMeaning(c.book.players, c.mode, cfg.dirs, Eligible(c.book));
    if !sel.Hold? {
      assert c.cur.lastDesired == Some(sel.desired);
      if y.verdict.value.Success() {
        SuccessShows(cfg, palette, y);
      } else if sel.Apply? && c.cur.player == Some(sel.winner) {
        assert sel.winner in c.book.covers && c.book.covers[sel.winner].status.Eligible();
      }
    }
  }

  /**
   * Take any run from boot up to a point where a submission of the current generation is still
   * in the slot, in hand or among the results: a new desire, a forced retry or a directory
   * re-scan. Then, in whatever order the rest happens, once nothing can happen any more the
   * screen shows what selection chooses, unless the players on show have no usable cover
   * (`Hold`), or the last result was no success and the retries of a revert were used up, or the
   * failing submission did not stand for the winner: it stood for another player with the very
   * same target or, after a theme flip re-toned the shown cover, for no player. `Standing` has the
   * condition that rules the last case out.
   */
  lemma {:induction false} DaemonConverges(cfg: Config, palette: WorkerRefinement.Extraction, mode: Mode,
                        before: seq<Move>, after: seq<Move>)
    ensures var (mid, end) := (Play(cfg, palette, Booted(mode), before), Ending(cfg, palette, mode, before, after));
      mid.Some? && Awaiting(mid.value) && end.Some? && AtRest(end.value) && (forall m | m in after :: m.In?) ==>
        ShowsChoice(cfg, palette, end.value)
  {
    var (mid, end) := (Play(cfg, palette, Booted(mode), before), Ending(cfg, palette, mode, before, after));
    if mid.Some? && Awaiting(mid.value) && end.Some? && AtRest(end.value) && forall m | m in after :: m.In? {
      PlayCoherent(cfg, palette, Booted(mode), before);
      PlayCoherent(cfg, palette, mid.value, after);
      PlayOwed(cfg, palette, mid.value, after);
      RestIsQuiet(cfg, end.value);
      SettledScreen(cfg, palette, end.value);
    }
  }

  /**
   * On every run from boot, whatever the last event was: once nothing can happen any more, a live
   * worker has answered the desire decided last, and if it succeeded the screen shows that desire.
   */
  lemma {:induction false} RestShowsDecided(cfg: Config, palette: WorkerRefinement.Extraction, mode: Mode,
                                            moves: seq<Move>)
    ensures var y := Play(cfg, palette, Booted(mode), moves);
      y.Some? && AtRest(y.value) && Running(y.value) ==>
        y.value.verdict.Some? && y.value.c.cur.lastDesired.Some?
        && (y.value.verdict.value.Success() ==>
              ScreenShows(palette, y.value.w, y.value.c.cur.lastDesired.value))
  {
    PlayCoherent(cfg, palette, Booted(mode), moves);
    var y := Play(cfg, palette, Booted(mode), moves);
    if y.Some? && AtRest(y.value) && Running(y.value) {
      RestIsQuiet(cfg, y.value);
      if y.value.verdict.value.Success() { SuccessShows(cfg, palette, y.value); }
    }
  }

  /** The daemon is up, with a worker, and has submitted something. */
  ghost predicate Running(y: Sys) {
    y.c.host.submissions != [] && y.c.host.workerAlive && !y.c.cur.stopping
  }

  /** A submission of the current generation has not been answered yet. */
  ghost predicate Awaiting(y: Sys) { Running(y) && Tokens(y) > 0 }

  /** A submission to a live worker waits in the slot under the generation it leaves. */
  ghost predicate FillsSlot(c: Coord, c': Coord) {
    c'.host.workerAlive && c'.host.submissions != c.host.submissions ==>
      c'.host.slot.Some? && c'.host.slot.value.generation == c'.cur.generation
  }

  lemma MaybeSubmitFillsSlot(c: Coord, d: Desired, p: Option<string>, again: bool)
    ensures FillsSlot(c, MaybeSubmit(c, d, p, again))
  {
  }

  lemma ReselectionFillsSlot(cfg: Config, c: Coord, again: bool)
    ensures FillsSlot(c, DecideAndSubmit(cfg, c, again))
  {
    match Choice(cfg, c)
    case Hold =>
    case Apply(d, w) => MaybeSubmitFillsSlot(c, d, Some(w), again);
    case Revert(d) => MaybeSubmitFillsSlot(c, d, None, again);
  }

  lemma ActFillsSlot(cfg: Config, c: Coord, a: Action)
    requires !a.Report?
    ensures FillsSlot(c, Act(cfg, c, a))
  {
    match a
    case Line(text) =>
      var l := Lines.Parse(cfg.bases, text);
      if l.Some? { ReselectionFillsSlot(cfg, Track(cfg, c, l.value), true); }
    case Vanish(busName) =>
      var name := PlayerNameFromBus(busName);
      if name.Some? { ReselectionFillsSlot(cfg, c.(book := Evict(c.book, name.value)), false); }
    case Scheme(value) => SchemeFillsSlot(cfg, c, value);
    case _ =>
  }

  lemma SchemeFillsSlot(cfg: Config, c: Coord, value: nat)
    ensures FillsSlot(c, OnScheme(cfg, c, value))
  {
    var c1 := c.(mode := ModeFromScheme(value));
    var sel := Choice(cfg, c1);
    if c1.appliedTarget.Some? && (sel.Hold? || sel.desired.target != c1.appliedTarget) {
      MaybeSubmitFillsSlot(c1, Desired(c1.appliedTarget, c1.mode), None, true);
    } else if sel.Apply? {
      MaybeSubmitFillsSlot(c1, sel.desired, Some(sel.winner), true);
    }
  }

  /** Whatever an outer event submits, be it a new desire, a forced retry or a re-scan, is awaited. */
  lemma SubmissionIsAwaited(cfg: Config, y: Sys, a: Action)
    requires !a.Report?
    ensures var y' := With(y, Act(cfg, y.c, a));
      Running(y') && y'.c.host.submissions != y.c.host.submissions ==> Awaiting(y')
  {
    ActFillsSlot(cfg, y.c, a);
  }

  /** The state after both parts of a run from boot, if each move was possible. */
  ghost function Ending(cfg: Config, palette: WorkerRefinement.Extraction, mode: Mode,
                        before: seq<Move>, after: seq<Move>): Option<Sys> {
    var mid := Play(cfg, palette, Booted(mode), before);
    if mid.Some? then Play(cfg, palette, mid.value, after) else None
  }

  /** The screen shows what selection chooses, or one of the stated reasons why not applies. */
  ghost predicate ShowsChoice(cfg: Config, palette: WorkerRefinement.Extraction, y: Sys) {
    var sel := Choice(cfg, y.c);
    || sel.Hold?
    || ScreenShows(palette, y.w, sel.desired)
    || (y.verdict.Some? && !y.verdict.value.Success()
        && (if sel.Revert? then y.c.retry.episode.giveUps == 1 else y.c.cur.player != Some(sel.winner)))
  }

  /** Every reachable state meets the premises of the termination theorem. */
  lemma {:induction false} RestIsAlwaysReached(cfg: Config, palette: WorkerRefinement.Extraction, mode: Mode,
                            before: seq<Move>, run: nat -> Sys)
    requires Play(cfg, palette, Booted(mode), before) == Some(run(0))
    ensures exists k: nat :: !StepAt(cfg, run, k)
  {
    PlayCoherent(cfg, palette, Booted(mode), before);
    EveryRunComesToRest(cfg, run);
  }
}
