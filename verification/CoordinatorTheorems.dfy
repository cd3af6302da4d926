/** What a maintainer may rely on, for every run from a fresh coordinator. */
module CoordinatorTheorems {
  import opened Types
  import opened Select
  import opened CoordinatorSpec
  import opened CoordinatorLaws
  import Lines

  ghost function After(cfg: Config, mode: Mode, actions: seq<Action>): Coord {
    Run(cfg, Initial(mode, true), actions)
  }

  /** Playing, with an art source, and not given up on or refused under its current identity. */
  ghost predicate Usable(s: Coord, n: string) {
    && IsPlaying(s.book.players, n) && n in s.book.covers
    && !s.book.covers[n].status.Exhausted? && !s.book.covers[n].status.Rejected?
  }

  /** The submission that stands is the preset's, or the newest usable player's cover. */
  ghost predicate FollowsNewest(cfg: Config, s: Coord) {
    var players := s.book.players;
    && ((forall n :: !IsPlaying(players, n)) ==> s.cur.lastSubmitted == Some(Desired(None, s.mode)))
    && (forall w | Usable(s, w) && (forall m | Usable(s, m) && m != w :: players[m].seqNo < players[w].seqNo) ::
          s.cur.lastSubmitted == Some(Desired(Some(CoverTarget(players[w].artUrl, cfg.dirs(w))), s.mode)))
  }

  lemma ConvergedFollowsNewest(cfg: Config, s: Coord)
    requires Inv(cfg, s) && Converged(cfg, s) && !s.cur.stopping
    ensures FollowsNewest(cfg, s)
  {
    var (players, e) := (s.book.players, Eligible(s.book));
    DecisionMeaning(players, s.mode, cfg.dirs, e);
    forall w | Usable(s, w) && (forall m | Usable(s, m) && m != w :: players[m].seqNo < players[w].seqNo)
      ensures s.cur.lastSubmitted == Some(Desired(Some(CoverTarget(players[w].artUrl, cfg.dirs(w))), s.mode))
    {
      assert Actionable(players, cfg.dirs, e, w);
      var v := Choice(cfg, s).winner;
      assert Usable(s, v);
    }
  }

  /** Does this action re-select? An accepted line, a tracked player's exit, a current result. */
  predicate Reselects(cfg: Config, s: Coord, a: Action) {
    match a
    case Line(text) => Lines.Parse(cfg.bases, text).Some?
    case Vanish(bus) => PlayerNameFromBus(bus).Some? && PlayerNameFromBus(bus).value in s.book.players
    case Report(result, _) => result.generation == s.cur.generation
    case _ => false
  }

  lemma ReselectionNeverStops(cfg: Config, s: Coord, a: Action)
    requires Reselects(cfg, s, a)
    ensures Act(cfg, s, a).cur.stopping == s.cur.stopping
  {
  }

  lemma ReselectionConverges(cfg: Config, s: Coord, a: Action)
    requires Inv(cfg, s) && Reselects(cfg, s, a) && !s.cur.stopping
    ensures var s' := Act(cfg, s, a); Inv(cfg, s') && Converged(cfg, s') && !s'.cur.stopping
  {
    ReselectionNeverStops(cfg, s, a);
    match a
    case Line(text) => OnLineKeeps(cfg, s, text);
    case Vanish(bus) => OnVanishKeeps(cfg, s, bus);
    case Report(result, r) => AdoptKeeps(cfg, s, result, r);
  }

  /** After every re-selection the newest usable player's cover is what was submitted last. */
  lemma NewestPlayerWins(cfg: Config, mode: Mode, actions: seq<Action>, a: Action)
    requires var s := After(cfg, mode, actions); Reselects(cfg, s, a) && !s.cur.stopping
    ensures FollowsNewest(cfg, Act(cfg, After(cfg, mode, actions), a))
  {
    var s := After(cfg, mode, actions);
    RunKeeps(cfg, mode, true, actions);
    ReselectionConverges(cfg, s, a);
    ConvergedFollowsNewest(cfg, Act(cfg, s, a));
  }

  /** One generation, one desire; generations never go back. */
  lemma GenerationFixesDesire(cfg: Config, mode: Mode, actions: seq<Action>, i: nat, j: nat)
    requires i <= j < |After(cfg, mode, actions).host.submissions|
    ensures var h := After(cfg, mode, actions).host.submissions;
      && h[i].generation <= h[j].generation
      && (h[i].generation == h[j].generation ==> h[i].desired == h[j].desired)
  {
    RunKeeps(cfg, mode, true, actions);
  }

  /** A result that would be adopted answers the desire decided last, whichever job it came from. */
  lemma AdoptedIsCurrent(cfg: Config, mode: Mode, actions: seq<Action>, i: nat)
    requires var s := After(cfg, mode, actions);
      !s.cur.stopping && i < |s.host.submissions| && s.host.submissions[i].generation == s.cur.generation
    ensures var s := After(cfg, mode, actions); s.cur.lastDesired == Some(s.host.submissions[i].desired)
  {
    RunKeeps(cfg, mode, true, actions);
  }

  /** The second guard of `fire_retry` never fires: an armed desire is still the decided one. */
  lemma Guard2Unreachable(cfg: Config, mode: Mode, actions: seq<Action>)
    ensures var s := After(cfg, mode, actions);
      !s.cur.stopping && s.retry.desire.Some? ==> s.cur.lastDesired == s.retry.desire
  {
    RunKeeps(cfg, mode, true, actions);
  }

  /** Shutdown is final: nothing is submitted, adopted or armed any more. */
  lemma {:induction false} NothingAfterShutdown(cfg: Config, s: Coord, actions: seq<Action>)
    requires Inv(cfg, s)
    ensures var d := BeginShutdown(s); var s' := Run(cfg, d, actions);
      && s'.cur.stopping && s'.host.submissions == s.host.submissions && s'.host.slot == s.host.slot
      && s'.applied == s.applied && s'.appliedTarget == s.appliedTarget
      && s'.host.timer.None? && s'.host.nextTimer == s.host.nextTimer
  {
    if |actions| == 0 {
      CancelRetryKeeps(cfg, s);
    } else {
      NothingAfterShutdown(cfg, s, actions[..|actions| - 1]);
      StoppedActs(cfg, Run(cfg, BeginShutdown(s), actions[..|actions| - 1]), actions[|actions| - 1]);
    }
  }

  lemma StoppedActs(cfg: Config, s: Coord, a: Action)
    requires s.cur.stopping && s.host.timer.None?
    ensures var s' := Act(cfg, s, a);
      && s'.cur.stopping && s'.host == s.host.(workerAlive := s'.host.workerAlive)
      && s'.applied == s.applied && s'.appliedTarget == s.appliedTarget
  {
  }

  // ----- timers -----

  lemma {:induction false} Pow2Positive(n: nat)
    ensures Pow2(n) >= 1 && (n >= 5 ==> Pow2(n) >= 32)
  {
    if n > 0 { Pow2Positive(n - 1); }
    if n == 5 { assert Pow2(5) == 32; }
  }

  /** No shift or multiplication overflow shows: the delay is the capped exponential for every attempt. */
  lemma {:induction false} BackoffIsCappedExponential(attempt: nat)
    requires attempt >= 1
    ensures CappedBackoff(attempt) == Min(RETRY_BASE_MS * Pow2(attempt - 1), RETRY_CAP_MS)
  {
    Pow2Positive(attempt - 1);
  }

  /**
   * Since the count was last reset at most three timers were armed, with delays of 1, 2 and 4
   * seconds within the jitter; giving up was noted once, and only after all three.
   */
  lemma RetriesAreBounded(cfg: Config, mode: Mode, actions: seq<Action>)
    ensures var e := After(cfg, mode, actions).retry.episode;
      && |e.delays| <= 3 && e.giveUps <= 1 && (e.giveUps == 1 ==> |e.delays| == 3)
      && forall k | 0 <= k < |e.delays| && 0.85 <= e.delays[k].1 <= 1.15 ::
           850 * Pow2(k) <= e.delays[k].0 <= 1150 * Pow2(k)
  {
    RunKeeps(cfg, mode, true, actions);
    var e := After(cfg, mode, actions).retry.episode;
    forall k | 0 <= k < |e.delays| && 0.85 <= e.delays[k].1 <= 1.15
      ensures 850 * Pow2(k) <= e.delays[k].0 <= 1150 * Pow2(k)
    {
      JitteredDelay(k, e.delays[k].1);
    }
  }

  lemma {:induction false} JitteredDelay(k: nat, jitter: real)
    requires k < 3 && 0.85 <= jitter <= 1.15
    ensures 850 * Pow2(k) <= BackoffDelay(k + 1, jitter) <= 1150 * Pow2(k)
  {
    BackoffIsCappedExponential(k + 1);
    assert Pow2(0) == 1 && Pow2(1) == 2 && Pow2(2) == 4;
    assert CappedBackoff(k + 1) == 1000 * Pow2(k);
  }

  /** Every timer ever armed has fired, was cancelled, or is the one both sides know as armed. */
  lemma TimersAccountedFor(cfg: Config, mode: Mode, actions: seq<Action>)
    ensures var s := After(cfg, mode, actions);
      && s.host.nextTimer == s.host.fired + s.host.cancelled + (if s.host.timer.Some? then 1 else 0)
      && (s.retry.timer.Some? <==> s.host.timer.Some?)
      && (s.retry.timer.Some? ==> s.retry.timer.value == s.host.timer.value.id == s.host.nextTimer)
  {
    RunKeeps(cfg, mode, true, actions);
  }

  // ----- re-opening a player -----

  /**
   * A line that resets its own player to Pending and selects it leads to a submission, except
   * in one case: the identity is a different one than before, and the value decided last, while
   * the player was not selected, was that very value. The exhausted player's own line is never
   * in that case.
   */
  lemma ReopenedPlayerIsSubmitted(cfg: Config, s: Coord, l: Lines.Line)
    requires Inv(cfg, s) && !s.cur.stopping
    requires var s1 := Track(cfg, s, l);
      && Choice(cfg, s1).Apply? && Choice(cfg, s1).winner == l.name
      && l.name in s1.book.covers && s1.book.covers[l.name].status.Pending?
      && !(l.name in s.book.covers && s.book.covers[l.name] == s1.book.covers[l.name])
    ensures var s1 := Track(cfg, s, l); var s' := DecideAndSubmit(cfg, s1, true);
      var changed := !(l.name in s.book.covers && s.book.covers[l.name].identity == s1.book.covers[l.name].identity);
      s'.host.submissions == s.host.submissions <==>
        changed && l.artUrl != "" && s.cur.lastSubmitted == Some(Choice(cfg, s1).desired)
  {
    var s1 := Track(cfg, s, l);
    DecisionMeaning(s1.book.players, s1.mode, cfg.dirs, Eligible(s1.book));
  }
}
