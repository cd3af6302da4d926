/** When the target the coordinator records is the one the screen was last set for, on every run. */
module ShownTarget {
  import opened Types
  import opened CoordinatorSpec
  import opened WorkerSpec
  import WorkerRefinement
  import opened System
  import opened Convergence
  import Lines

  /** What the screen was last set for; the preset of the start has no target. */
  function Shown(w: Worker): Option<CoverTarget> {
    if w.shownFor.Some? then w.shownFor.value.0.target else None
  }

  function JobTarget(w: Worker): Option<CoverTarget> {
    if w.phase.Idle? then None else w.phase.job.desired.target
  }

  ghost predicate Right(y: Sys) { y.c.appliedTarget == Shown(y.w) }

  /** This move lets the worker report a success. */
  ghost predicate Succeeds(y: Sys, m: Move) {
    m.In? && m.inner.Work? && Enabled(y, m.inner) && Ends(y, m.inner.stage)
  }

  ghost predicate Ends(y: Sys, stage: Stage)
    requires CanStep(y.w, y.c.host.slot)
  {
    var e := Step(y.w, y.c.host.slot, stage);
    e.report.Some? && e.report.value.outcome.Success()
  }

  /** This move lets the coordinator adopt a success. */
  ghost predicate AdoptsSuccess(y: Sys, m: Move) {
    m.In? && m.inner.Deliver? && |y.queue| > 0 && Current(y, y.queue[0]) && y.queue[0].outcome.Success()
  }

  ghost predicate Current(y: Sys, result: JobResult) {
    !y.c.cur.stopping && result.generation == y.c.cur.generation
  }

  // ----- runs on which something never happens -----

  ghost predicate Never(cfg: Config, palette: WorkerRefinement.Extraction, y: Sys, moves: seq<Move>,
                        bad: (Sys, Move) -> bool) {
    forall k | 0 <= k < |moves| :: !HappensAt(cfg, palette, y, moves, k, bad)
  }

  ghost predicate HappensAt(cfg: Config, palette: WorkerRefinement.Extraction, y: Sys, moves: seq<Move>, k: nat,
                            bad: (Sys, Move) -> bool)
    requires k < |moves|
  {
    var before := Play(cfg, palette, y, moves[..k]);
    before.Some? && Possible(palette, before.value, moves[k]) && bad(before.value, moves[k])
  }

  lemma {:induction false} NeverBefore(cfg: Config, palette: WorkerRefinement.Extraction, y: Sys, moves: seq<Move>,
                    bad: (Sys, Move) -> bool)
    requires |moves| > 0 && Never(cfg, palette, y, moves, bad) && Play(cfg, palette, y, moves).Some?
    ensures var (before, m) := (moves[..|moves| - 1], moves[|moves| - 1]);
      Never(cfg, palette, y, before, bad) && !bad(Play(cfg, palette, y, before).value, m)
  {
    var before := moves[..|moves| - 1];
    forall k | 0 <= k < |before| ensures !HappensAt(cfg, palette, y, before, k, bad) {
      assert before[..k] == moves[..k] && !HappensAt(cfg, palette, y, moves, k, bad);
    }
    assert !HappensAt(cfg, palette, y, moves, |moves| - 1, bad);
  }

  // ----- who writes the record and who writes the screen -----

  lemma ReselectionKeepsRecord(cfg: Config, c: Coord, again: bool)
    ensures DecideAndSubmit(cfg, c, again).appliedTarget == c.appliedTarget
  {
  }

  lemma OuterKeepsRecord(cfg: Config, c: Coord, a: Action)
    requires !a.Report?
    ensures Act(cfg, c, a).appliedTarget == c.appliedTarget
  {
    match a
    case Line(text) =>
      var l := Lines.Parse(cfg.bases, text);
      if l.Some? { ReselectionKeepsRecord(cfg, Track(cfg, c, l.value), true); }
    case Vanish(busName) =>
      var name := PlayerNameFromBus(busName);
      if name.Some? { ReselectionKeepsRecord(cfg, c.(book := Evict(c.book, name.value)), false); }
    case Scheme(value) => SchemeKeepsRecord(cfg, c, value);
    case _ =>
  }

  lemma SchemeKeepsRecord(cfg: Config, c: Coord, value: nat)
    ensures OnScheme(cfg, c, value).appliedTarget == c.appliedTarget
  {
  }

  /** Adopting a success records the target submitted last, if one is still known; no other result records any. */
  lemma AdoptRecords(cfg: Config, c: Coord, result: JobResult, r: Reading)
    ensures Adopt(cfg, c, result, r).appliedTarget ==
      if !c.cur.stopping && result.generation == c.cur.generation && result.outcome.Success()
      then (if c.cur.lastSubmitted.Some? then c.cur.lastSubmitted.value.target else None)
      else c.appliedTarget
  {
    ReselectionKeepsRecord(cfg, Settle(c, result, r), false);
  }

  lemma StepShows(y: Sys, stage: Stage)
    requires CanStep(y.w, y.c.host.slot) && PhaseFits(y.w)
    ensures var e := Step(y.w, y.c.host.slot, stage);
      if Ends(y, stage)
      then !y.w.phase.Idle? && e.worker.shownFor.Some? && e.worker.shownFor.value.0 == y.w.phase.job.desired
           && e.report.value.generation == y.w.phase.job.generation
      else e.worker.shownFor == y.w.shownFor
  {
  }

  /** Only these two kinds of move touch the record or the screen. */
  lemma OthersKeepBoth(cfg: Config, y: Sys, m: Move)
    requires (m.In? ==> Enabled(y, m.inner)) && (m.Outer? ==> !m.action.Report?) && PhaseFits(y.w)
    ensures var y' := Perform(cfg, y, m);
      && (!AdoptsSuccess(y, m) ==> y'.c.appliedTarget == y.c.appliedTarget)
      && (!Succeeds(y, m) ==> y'.w.shownFor == y.w.shownFor)
  {
    match m
    case Outer(a) => OuterKeepsRecord(cfg, y.c, a);
    case In(i) =>
      match i {
        case Work(stage) => StepShows(y, stage);
        case Deliver(r) => AdoptRecords(cfg, y.c, y.queue[0], r);
        case Fire =>
      }
  }

  // ----- the exact conditions -----

  /** On every run from boot: adopting a success records the shown target, except for a forgotten submission. */
  lemma {:induction false} AdoptedIsRecorded(cfg: Config, palette: WorkerRefinement.Extraction, mode: Mode,
                                             moves: seq<Move>, r: Reading)
    ensures var y := Play(cfg, palette, Booted(mode), moves);
      y.Some? && AdoptsSuccess(y.value, In(Deliver(r))) ==>
        (Right(Do(cfg, y.value, Deliver(r))) <==>
          y.value.c.cur.lastSubmitted.Some? || Shown(y.value.w).None?)
  {
    PlayCoherent(cfg, palette, Booted(mode), moves);
    var y := Play(cfg, palette, Booted(mode), moves);
    if y.Some? && AdoptsSuccess(y.value, In(Deliver(r))) {
      AdoptRecords(cfg, y.value.c, y.value.queue[0], r);
    }
  }

  /** What the move makes wrong in a right record: a success for another target, or one that is forgotten. */
  ghost predicate Misleads(y: Sys, m: Move) {
    || (Succeeds(y, m) && JobTarget(y.w) != y.c.appliedTarget)
    || (AdoptsSuccess(y, m) && y.c.cur.lastSubmitted.None? && Shown(y.w).Some?)
  }

  /** On every run from boot a right record stays right exactly until one of those two things happens. */
  lemma {:induction false} RecordStaysRight(cfg: Config, palette: WorkerRefinement.Extraction, mode: Mode,
                                            moves: seq<Move>, m: Move)
    ensures var y := Play(cfg, palette, Booted(mode), moves);
      y.Some? && Possible(palette, y.value, m) && Right(y.value) ==>
        (Right(Perform(cfg, y.value, m)) <==> !Misleads(y.value, m))
  {
    PlayCoherent(cfg, palette, Booted(mode), moves);
    var y := Play(cfg, palette, Booted(mode), moves);
    if y.Some? && Possible(palette, y.value, m) && Right(y.value) {
      OthersKeepBoth(cfg, y.value, m);
      if Succeeds(y.value, m) { StepShows(y.value, m.inner.stage); }
      if AdoptsSuccess(y.value, m) {
        AdoptRecords(cfg, y.value.c, y.value.queue[0], m.inner.reading);
      }
    }
  }

  // ----- at rest -----

  ghost predicate SuccessPending(y: Sys) {
    exists k :: 0 <= k < |y.queue| && y.queue[k].outcome.Success()
  }

  /** A success is delivered, but dropped as stale or adopted without a target to record. */
  ghost predicate Overlooks(y: Sys, m: Move) {
    && m.In? && m.inner.Deliver? && |y.queue| > 0 && y.queue[0].outcome.Success()
    && (!Current(y, y.queue[0]) || (y.c.cur.lastSubmitted.None? && Shown(y.w).Some?))
  }

  lemma PerformRecords(cfg: Config, palette: WorkerRefinement.Extraction, y: Sys, m: Move)
    requires Coherent(cfg, y) && Possible(palette, y, m) && !Overlooks(y, m)
    requires SuccessPending(y) || Right(y)
    ensures var y' := Perform(cfg, y, m); SuccessPending(y') || Right(y')
  {
    var y' := Perform(cfg, y, m);
    OthersKeepBoth(cfg, y, m);
    if AdoptsSuccess(y, m) {
      AdoptRecords(cfg, y.c, y.queue[0], m.inner.reading);
    } else if Succeeds(y, m) {
      assert y'.queue[|y.queue|].outcome.Success();
    } else if k :| 0 <= k < |y.queue| && y.queue[k].outcome.Success() {
      PendingKept(cfg, y, m, k);
    }
  }

  lemma PendingKept(cfg: Config, y: Sys, m: Move, k: nat)
    requires (m.In? ==> Enabled(y, m.inner)) && k < |y.queue| && y.queue[k].outcome.Success()
    requires m.In? && m.inner.Deliver? ==> k > 0
    ensures SuccessPending(Perform(cfg, y, m))
  {
    var y' := Perform(cfg, y, m);
    if m.In? && m.inner.Deliver? {
      assert y'.queue[k - 1] == y.queue[k];
    } else {
      assert y'.queue[k] == y.queue[k];
    }
  }

  lemma {:induction false} PlayRecords(cfg: Config, palette: WorkerRefinement.Extraction, y: Sys, moves: seq<Move>)
    requires Coherent(cfg, y) && TruePalette(palette, y.w) && Right(y)
    requires Never(cfg, palette, y, moves, Overlooks)
    ensures var end := Play(cfg, palette, y, moves); end.Some? ==> SuccessPending(end.value) || Right(end.value)
  {
    if |moves| > 0 && Play(cfg, palette, y, moves).Some? {
      var before := moves[..|moves| - 1];
      NeverBefore(cfg, palette, y, moves, Overlooks);
      PlayRecords(cfg, palette, y, before);
      PlayCoherent(cfg, palette, y, before);
      PerformRecords(cfg, palette, Play(cfg, palette, y, before).value, moves[|moves| - 1]);
    }
  }

  /**
   * On every run from boot on which no success was dropped as stale or adopted for a forgotten
   * submission, the record is right whenever no success is still to be delivered: at rest, say.
   */
  lemma {:induction false} RecordRightOnceHeard(cfg: Config, palette: WorkerRefinement.Extraction, mode: Mode,
                                                moves: seq<Move>)
    ensures var y := Play(cfg, palette, Booted(mode), moves);
      y.Some? && Never(cfg, palette, Booted(mode), moves, Overlooks) ==>
        && (!SuccessPending(y.value) ==> Right(y.value))
        && (AtRest(y.value) ==> Right(y.value))
  {
    var y := Play(cfg, palette, Booted(mode), moves);
    if y.Some? && Never(cfg, palette, Booted(mode), moves, Overlooks) {
      PlayRecords(cfg, palette, Booted(mode), moves);
      if AtRest(y.value) {
        PlayCoherent(cfg, palette, Booted(mode), moves);
        RestIsQuiet(cfg, y.value);
      }
    }
  }

  // ----- a success that comes too late -----

  /** No result that is out would be adopted as a success. */
  ghost predicate NothingToAdopt(y: Sys) {
    forall k | 0 <= k < |y.queue| :: !(Current(y, y.queue[k]) && y.queue[k].outcome.Success())
  }

  lemma OthersAdoptNothing(cfg: Config, palette: WorkerRefinement.Extraction, y: Sys, m: Move)
    requires Coherent(cfg, y) && NothingToAdopt(y) && Possible(palette, y, m) && !Succeeds(y, m)
    ensures NothingToAdopt(Perform(cfg, y, m)) && !AdoptsSuccess(y, m)
  {
    var y' := Perform(cfg, y, m);
    match m
    case Outer(a) => ActMoves(cfg, y.c, a);
    case In(i) =>
      match i {
        case Work(stage) =>
        case Deliver(r) =>
          AdoptMoves(cfg, y.c, y.queue[0], r);
          assert forall k | 0 <= k < |y'.queue| :: y'.queue[k] == y.queue[k + 1];
        case Fire => ClockMoves(cfg, y.c, y.c.host.timer.value.due);
      }
  }

  lemma {:induction false} NothingAdopted(cfg: Config, palette: WorkerRefinement.Extraction, y: Sys, moves: seq<Move>)
    requires Coherent(cfg, y) && TruePalette(palette, y.w)
    requires NothingToAdopt(y) && Never(cfg, palette, y, moves, Succeeds)
    ensures var end := Play(cfg, palette, y, moves);
      end.Some? ==> NothingToAdopt(end.value) && end.value.c.appliedTarget == y.c.appliedTarget
                    && end.value.w.shownFor == y.w.shownFor
  {
    if |moves| > 0 && Play(cfg, palette, y, moves).Some? {
      var (before, m) := (moves[..|moves| - 1], moves[|moves| - 1]);
      NeverBefore(cfg, palette, y, moves, Succeeds);
      NothingAdopted(cfg, palette, y, before);
      PlayCoherent(cfg, palette, y, before);
      var mid := Play(cfg, palette, y, before).value;
      OthersAdoptNothing(cfg, palette, mid, m);
      OthersKeepBoth(cfg, mid, m);
    }
  }

  /** The worker is about to succeed with a job that has been superseded meanwhile. */
  ghost predicate Late(palette: WorkerRefinement.Extraction, y: Sys, stage: Stage) {
    && Possible(palette, y, In(Work(stage))) && Ends(y, stage)
    && (y.c.cur.stopping || (!y.w.phase.Idle? && y.w.phase.job.generation < y.c.cur.generation))
  }

  lemma LateIsNotAdopted(cfg: Config, palette: WorkerRefinement.Extraction, y: Sys, stage: Stage)
    requires Coherent(cfg, y) && Late(palette, y, stage)
    ensures var y' := Do(cfg, y, Work(stage));
      NothingToAdopt(y') && y'.c.appliedTarget == y.c.appliedTarget && Shown(y'.w) == JobTarget(y.w)
  {
    var y' := Do(cfg, y, Work(stage));
    StepShows(y, stage);
    assert forall k | 0 <= k < |y.queue| :: y'.queue[k] == y.queue[k];
  }

  /**
   * A success for a superseded job changes the screen behind the record's back, and it stays so:
   * on every run from boot, and until the worker succeeds again, the record is what it was and
   * the screen is that job's, so the record is right exactly if it was the job's target already.
   */
  lemma {:induction false} LateSuccessGoesUnrecorded(cfg: Config, palette: WorkerRefinement.Extraction, mode: Mode,
                                  moves: seq<Move>, stage: Stage, later: seq<Move>)
    ensures var y := Play(cfg, palette, Booted(mode), moves);
      y.Some? && Late(palette, y.value, stage)
      && Never(cfg, palette, Do(cfg, y.value, Work(stage)), later, Succeeds) ==>
        var end := Play(cfg, palette, Do(cfg, y.value, Work(stage)), later);
        end.Some? ==>
          && end.value.c.appliedTarget == y.value.c.appliedTarget && Shown(end.value.w) == JobTarget(y.value.w)
          && (Right(end.value) <==> y.value.c.appliedTarget == JobTarget(y.value.w))
  {
    PlayCoherent(cfg, palette, Booted(mode), moves);
    var y := Play(cfg, palette, Booted(mode), moves);
    if y.Some? && Late(palette, y.value, stage) && Never(cfg, palette, Do(cfg, y.value, Work(stage)), later, Succeeds) {
      PerformCoherent(cfg, palette, y.value, In(Work(stage)));
      LateIsNotAdopted(cfg, palette, y.value, stage);
      NothingAdopted(cfg, palette, Do(cfg, y.value, Work(stage)), later);
    }
  }

  // ----- a success that is overtaken on its way -----

  /** This move starts a new generation, or stops the daemon, and adopts no success itself. */
  ghost predicate Overtakes(cfg: Config, palette: WorkerRefinement.Extraction, y: Sys, m: Move) {
    && Possible(palette, y, m) && !AdoptsSuccess(y, m)
    && var y' := Perform(cfg, y, m);
      y'.c.cur.generation > y.c.cur.generation || (y'.c.cur.stopping && !y.c.cur.stopping)
  }

  lemma OvertakenIsNotAdopted(cfg: Config, palette: WorkerRefinement.Extraction, y: Sys, m: Move)
    requires Coherent(cfg, y) && Overtakes(cfg, palette, y, m)
    ensures var y' := Perform(cfg, y, m);
      NothingToAdopt(y') && y'.c.appliedTarget == y.c.appliedTarget && Shown(y'.w) == Shown(y.w)
  {
    var y' := Perform(cfg, y, m);
    OthersKeepBoth(cfg, y, m);
    match m
    case Outer(a) =>
    case In(i) =>
      match i {
        case Work(stage) => WorkKeepsGeneration(cfg, y, stage);
        case Deliver(r) => assert forall k | 0 <= k < |y'.queue| :: y'.queue[k] == y.queue[k + 1];
        case Fire =>
      }
  }

  lemma WorkKeepsGeneration(cfg: Config, y: Sys, stage: Stage)
    requires Enabled(y, Work(stage))
    ensures Do(cfg, y, Work(stage)).c.cur == y.c.cur
  {
  }

  /**
   * A success that is current when it changes the screen and superseded before it is delivered is
   * dropped as well: on every run from boot, once a move overtakes what is on its way, record and
   * screen stay what they were until the worker succeeds again, so a record that did not name the
   * shown target yet never will, and one that did goes on doing so.
   */
  lemma {:induction false} OvertakenSuccessGoesUnrecorded(cfg: Config, palette: WorkerRefinement.Extraction, mode: Mode,
                                       moves: seq<Move>, m: Move, later: seq<Move>)
    ensures var y := Play(cfg, palette, Booted(mode), moves);
      y.Some? && Overtakes(cfg, palette, y.value, m)
      && Never(cfg, palette, Perform(cfg, y.value, m), later, Succeeds) ==>
        var end := Play(cfg, palette, Perform(cfg, y.value, m), later);
        end.Some? ==>
          && end.value.c.appliedTarget == y.value.c.appliedTarget && Shown(end.value.w) == Shown(y.value.w)
          && (Right(end.value) <==> Right(y.value))
  {
    PlayCoherent(cfg, palette, Booted(mode), moves);
    var y := Play(cfg, palette, Booted(mode), moves);
    if y.Some? && Overtakes(cfg, palette, y.value, m)
       && Never(cfg, palette, Perform(cfg, y.value, m), later, Succeeds) {
      PerformCoherent(cfg, palette, y.value, m);
      OvertakenIsNotAdopted(cfg, palette, y.value, m);
      NothingAdopted(cfg, palette, Perform(cfg, y.value, m), later);
    }
  }
}
