/**
 * A submission can stand for another player than the one whose cover is chosen, or for none, and
 * then its failure is not that player's. When it cannot, the chosen cover is always shown at rest.
 */
module Standing {
  import opened Types
  import opened Select
  import opened CoordinatorSpec
  import opened CoordinatorLaws
  import opened CoordinatorTheorems
  import opened Conditions
  import WorkerRefinement
  import opened System
  import opened Convergence

  /** A player selection could move to, or the one submitted last while it plays with a source. */
  predicate Candidate(cfg: Config, c: Coord, n: string) {
    var players := c.book.players;
    n in Rivals(cfg, c) || (c.cur.player == Some(n) && IsPlaying(players, n) && HasSource(players, cfg.dirs, n))
  }

  /** What would be submitted for this player. */
  function DesireOf(cfg: Config, c: Coord, n: string): Desired
    requires n in c.book.players
  {
    Desired(Some(TargetOf(c.book.players, cfg.dirs, n)), c.mode)
  }

  /** No two candidates have the same target. */
  ghost predicate Distinct(cfg: Config, c: Coord) {
    forall n, m | Candidate(cfg, c, n) && Candidate(cfg, c, m) && n != m ::
      TargetOf(c.book.players, cfg.dirs, n) != TargetOf(c.book.players, cfg.dirs, m)
  }

  /** What stands submitted is not the desire of a player it does not stand for. */
  ghost predicate NotForRivals(cfg: Config, c: Coord) {
    forall n | n in Rivals(cfg, c) :: c.cur.lastSubmitted != Some(DesireOf(cfg, c, n))
  }

  /** Whatever stands submitted, or will be retried, stands for the player that has it. */
  ghost predicate OnRecord(cfg: Config, c: Coord) {
    Distinct(cfg, c) && NotForRivals(cfg, c) && !Misdirected(c)
  }

  // ----- inner moves keep it -----

  /** Nothing these conditions look at has changed. */
  lemma SameRecord(cfg: Config, c: Coord, c': Coord)
    requires OnRecord(cfg, c) && (Misdirected(c') ==> Misdirected(c))
    requires c'.book.players == c.book.players && c'.mode == c.mode && Rivals(cfg, c') == Rivals(cfg, c)
    requires c'.cur.player == c.cur.player && c'.cur.lastSubmitted == c.cur.lastSubmitted
    ensures OnRecord(cfg, c')
  {
    assert forall n :: Candidate(cfg, c', n) == Candidate(cfg, c, n);
  }

  lemma FireOnRecord(cfg: Config, c: Coord)
    requires Inv(cfg, c) && OnRecord(cfg, c) && c.host.timer.Some?
    ensures OnRecord(cfg, FireDueTimer(c, c.host.timer.value.due))
  {
    FiredFacts(cfg, c);
    SameRecord(cfg, c, FireDueTimer(c, c.host.timer.value.due));
  }

  /** A new desire stands for its winner, and no other candidate has it. */
  lemma NewDesireOnRecord(cfg: Config, c: Coord, c1: Coord)
    requires OnRecord(cfg, c) && Inv(cfg, c1)
    requires c1.book.players == c.book.players && c1.mode == c.mode && c1.cur == c.cur
    requires Rivals(cfg, c1) == Rivals(cfg, c)
    requires DecideAndSubmit(cfg, c1, false).cur.generation != c1.cur.generation
    ensures OnRecord(cfg, DecideAndSubmit(cfg, c1, false))
  {
    var c' := DecideAndSubmit(cfg, c1, false);
    NewDesireIsFresh(cfg, c1);
    DecisionMeaning(c1.book.players, c1.mode, cfg.dirs, Eligible(c1.book));
    assert forall n :: n in Actionables(cfg, c') <==> n in Actionables(cfg, c1);
    assert forall n | n in Actionables(cfg, c1) :: Candidate(cfg, c, n);
    assert forall n | Candidate(cfg, c', n) :: n in Actionables(cfg, c1);
  }

  lemma AdoptOnRecord(cfg: Config, c: Coord, result: JobResult, r: Reading)
    requires Inv(cfg, c) && OnRecord(cfg, c)
    ensures OnRecord(cfg, Adopt(cfg, c, result, r))
  {
    if !c.cur.stopping && result.generation == c.cur.generation {
      var c1 := Settle(c, result, r);
      SettleKeeps(cfg, c, result, r);
      SettleTouchesSubmitted(cfg, c, result, r);
      if DecideAndSubmit(cfg, c1, false).cur.generation == c1.cur.generation {
        SameDesireKeeps(cfg, c1);
        SameRecord(cfg, c, DecideAndSubmit(cfg, c1, false));
      } else {
        NewDesireOnRecord(cfg, c, c1);
      }
    }
  }

  lemma InnerOnRecord(cfg: Config, y: Sys, i: Inner)
    requires Inv(cfg, y.c) && Enabled(y, i) && OnRecord(cfg, y.c)
    ensures OnRecord(cfg, Do(cfg, y, i).c)
  {
    match i
    case Work(stage) =>
      SlotIrrelevant(cfg, y.c, None);
      SameRecord(cfg, y.c, Do(cfg, y, i).c);
    case Deliver(r) => AdoptOnRecord(cfg, y.c, y.queue[0], r);
    case Fire => FireOnRecord(cfg, y.c);
  }

  lemma {:induction false} PlayOnRecord(cfg: Config, palette: WorkerRefinement.Extraction, y: Sys, moves: seq<Move>)
    requires Coherent(cfg, y) && TruePalette(palette, y.w) && OnRecord(cfg, y.c)
    requires forall m | m in moves :: m.In?
    ensures var y' := Play(cfg, palette, y, moves); y'.Some? ==> OnRecord(cfg, y'.value.c)
  {
    if |moves| > 0 && Play(cfg, palette, y, moves).Some? {
      var (before, m) := (moves[..|moves| - 1], moves[|moves| - 1]);
      PlayOnRecord(cfg, palette, y, before);
      PlayCoherent(cfg, palette, y, before);
      assert m in moves;
      InnerOnRecord(cfg, Play(cfg, palette, y, before).value, m.inner);
    }
  }

  // ----- where it comes from -----

  lemma NewDesireStands(cfg: Config, c1: Coord)
    requires Inv(cfg, c1) && DecideAndSubmit(cfg, c1, false).cur.generation != c1.cur.generation
    ensures var c' := DecideAndSubmit(cfg, c1, false); OnRecord(cfg, c') <==> Distinct(cfg, c')
  {
    var c' := DecideAndSubmit(cfg, c1, false);
    NewDesireIsFresh(cfg, c1);
    DecisionMeaning(c1.book.players, c1.mode, cfg.dirs, Eligible(c1.book));
    if Choice(cfg, c1).Apply? { assert Candidate(cfg, c', Choice(cfg, c1).winner); }
  }

  lemma AgainIsForRepeats(cfg: Config, c1: Coord)
    requires DecideAndSubmit(cfg, c1, true).cur.generation != c1.cur.generation
    ensures DecideAndSubmit(cfg, c1, true) == DecideAndSubmit(cfg, c1, false)
  {
  }

  /**
   * On every run: a line, a vanish or a result that makes selection submit a new desire leaves it
   * on record exactly if no two candidates share a target.
   */
  lemma NewSubmissionStands(cfg: Config, mode: Mode, actions: seq<Action>, a: Action)
    ensures var s := After(cfg, mode, actions); var s' := Act(cfg, s, a);
      (a.Line? || a.Vanish? || a.Report?) && s'.cur.generation != s.cur.generation ==>
        (OnRecord(cfg, s') <==> Distinct(cfg, s'))
  {
    var s := After(cfg, mode, actions);
    RunKeeps(cfg, mode, true, actions);
    if (a.Line? || a.Vanish? || a.Report?) && Act(cfg, s, a).cur.generation != s.cur.generation {
      var s1 := Selecting(cfg, s, a);
      SelectingKeeps(cfg, s, a);
      SelectingActs(cfg, s, a);
      if a.Line? { AgainIsForRepeats(cfg, s1); }
      NewDesireStands(cfg, s1);
    }
  }

  lemma SelectingActs(cfg: Config, s: Coord, a: Action)
    requires (a.Line? || a.Vanish? || a.Report?) && Act(cfg, s, a).cur.generation != s.cur.generation
    ensures var s1 := Selecting(cfg, s, a);
      s1.cur.generation == s.cur.generation && Act(cfg, s, a) == DecideAndSubmit(cfg, s1, a.Line?)
  {
  }

  // ----- at rest -----

  /** The screen shows what selection chooses, if it chooses a cover. */
  ghost predicate ChosenShown(cfg: Config, palette: WorkerRefinement.Extraction, y: Sys) {
    var sel := Choice(cfg, y.c);
    || sel.Hold?
    || ScreenShows(palette, y.w, sel.desired)
    || (sel.Revert? && y.c.retry.episode.giveUps == 1)
  }

  lemma ChoiceIsRivalOrSubmitted(cfg: Config, c: Coord)
    requires Choice(cfg, c).Apply? && c.cur.player != Some(Choice(cfg, c).winner)
    ensures var sel := Choice(cfg, c); sel.winner in Rivals(cfg, c) && sel.desired == DesireOf(cfg, c, sel.winner)
  {
    DecisionMeaning(c.book.players, c.mode, cfg.dirs, Eligible(c.book));
  }

  /**
   * Take any run from boot up to a point where a submission is unanswered and stands on record for
   * its player. Then, in whatever order the rest happens, once nothing can happen any more the
   * screen shows the cover selection chooses, whoever failed on the way; a revert is shown unless
   * its retries were used up.
   */
  lemma {:induction false} ChosenCoverIsShown(cfg: Config, palette: WorkerRefinement.Extraction, mode: Mode,
                                              before: seq<Move>, after: seq<Move>)
    ensures var (mid, end) := (Play(cfg, palette, Booted(mode), before), Ending(cfg, palette, mode, before, after));
      mid.Some? && Awaiting(mid.value) && OnRecord(cfg, mid.value.c)
      && end.Some? && AtRest(end.value) && (forall m | m in after :: m.In?) ==>
        ChosenShown(cfg, palette, end.value)
  {
    var (mid, end) := (Play(cfg, palette, Booted(mode), before), Ending(cfg, palette, mode, before, after));
    if mid.Some? && Awaiting(mid.value) && OnRecord(cfg, mid.value.c)
       && end.Some? && AtRest(end.value) && forall m | m in after :: m.In? {
      PlayCoherent(cfg, palette, Booted(mode), before);
      PlayCoherent(cfg, palette, mid.value, after);
      PlayOwed(cfg, palette, mid.value, after);
      RestIsQuiet(cfg, end.value);
      SettledScreen(cfg, palette, end.value);
      PlayOnRecord(cfg, palette, mid.value, after);
      StandingChoice(cfg, palette, end.value);
    }
  }

  lemma StandingChoice(cfg: Config, palette: WorkerRefinement.Extraction, y: Sys)
    requires Coherent(cfg, y) && OnRecord(cfg, y.c) && ShowsChoice(cfg, palette, y)
    requires y.verdict.Some? && Attributed(cfg, y) && !y.c.cur.stopping
    ensures ChosenShown(cfg, palette, y)
  {
    if Choice(cfg, y.c).Apply? && y.c.cur.player != Some(Choice(cfg, y.c).winner) {
      ChoiceIsRivalOrSubmitted(cfg, y.c);
    }
  }
}
