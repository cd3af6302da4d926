/** The exact conditions, on every run, of the coordinator properties that do not hold without one. */
module Conditions {
  import opened Types
  import opened Select
  import opened CoordinatorSpec
  import opened CoordinatorLaws
  import opened CoordinatorTheorems
  import Lines

  // ----- giving up and the timer -----

  /** This result would be adopted and is the failure that uses up the attempts. */
  ghost predicate GivesUp(s: Coord, result: JobResult) {
    && !s.cur.stopping && result.generation == s.cur.generation && result.outcome.FailedRetryable?
    && CountFor(s.retry, s.cur.lastSubmitted).attempt >= RETRY_MAX_ATTEMPTS
  }

  lemma GivingUpArmsNothing(s: Coord, result: JobResult, r: Reading)
    requires GivesUp(s, result)
    ensures var s1 := Settle(s, result, r);
      s1.host == s.host && s1.cur == s.cur && s1.retry.timer == s.retry.timer
  {
  }

  /** A new desire disarms, anything else leaves the timer. */
  lemma ReselectionTimer(cfg: Config, s: Coord, again: bool)
    requires Inv(cfg, s) && !s.cur.stopping
    ensures var sel := Choice(cfg, s);
      DecideAndSubmit(cfg, s, again).host.timer ==
        if sel.Hold? || s.cur.lastSubmitted == Some(sel.desired) then s.host.timer else None
  {
    CancelRetryKeeps(cfg, s);
  }

  /**
   * Giving up leaves a timer armed exactly if one was armed and selection, with the player given
   * up on out of the way, does not move on to another desire.
   */
  lemma GivingUpKeepsTimer(cfg: Config, mode: Mode, actions: seq<Action>, result: JobResult, r: Reading)
    ensures var s := After(cfg, mode, actions);
      GivesUp(s, result) ==>
        var sel := Choice(cfg, Settle(s, result, r));
        (Adopt(cfg, s, result, r).host.timer.Some? <==>
          s.host.timer.Some? && (sel.Hold? || s.cur.lastSubmitted == Some(sel.desired)))
  {
    var s := After(cfg, mode, actions);
    RunKeeps(cfg, mode, true, actions);
    if GivesUp(s, result) {
      GivingUpArmsNothing(s, result, r);
      SettleKeeps(cfg, s, result, r);
      ReselectionTimer(cfg, Settle(s, result, r), false);
    }
  }

  // ----- superseding a player that is being retried -----

  /** The state on which this action re-selects, before it does. */
  function Selecting(cfg: Config, s: Coord, a: Action): Coord {
    match a
    case Line(text) =>
      var l := Lines.Parse(cfg.bases, text);
      if l.Some? then Track(cfg, s, l.value) else s
    case Vanish(busName) =>
      var name := PlayerNameFromBus(busName);
      if name.Some? && name.value in s.book.players then s.(book := Evict(s.book, name.value)) else s
    case Scheme(value) => s.(mode := ModeFromScheme(value))
    case Report(result, r) =>
      if s.cur.stopping || result.generation != s.cur.generation then s else Settle(s, result, r)
    case _ => s
  }

  /** The player keeps the status `Retrying` through a submission of a new desire. */
  ghost predicate StaysRetrying(s': Coord, n: string) {
    n in s'.book.covers && s'.book.covers[n].status.Retrying?
  }

  /** Only the player whose timer is armed is demoted, and no retry is left for any other. */
  lemma NewDesireDemotes(s: Coord, d: Desired, p: Option<string>, again: bool, n: string)
    requires !s.cur.stopping && s.cur.lastSubmitted != Some(d)
    requires n in s.book.covers && s.book.covers[n].status.Retrying?
    ensures var s' := MaybeSubmit(s, d, p, again);
      && s'.retry == NO_RETRY && n in s'.book.covers
      && (StaysRetrying(s', n) <==> s.retry.timer.None? || s.retry.player != Some(n))
      && (!StaysRetrying(s', n) ==> s'.book.covers[n].status.Pending?)
  {
  }

  predicate Submits(a: Action) { a.Line? || a.Vanish? || a.Scheme? || a.Report? }

  /** A new generation of these actions is a submission from the state they select on. */
  lemma NewGenerationIsNewDesire(cfg: Config, s: Coord, a: Action) returns (d: Desired, p: Option<string>, again: bool)
    requires Submits(a) && Act(cfg, s, a).cur.generation != s.cur.generation
    ensures var s1 := Selecting(cfg, s, a);
      && !s1.cur.stopping && s1.cur.lastSubmitted != Some(d) && Act(cfg, s, a) == MaybeSubmit(s1, d, p, again)
  {
    var s1 := Selecting(cfg, s, a);
    again := a.Line? || a.Scheme?;
    var sel := Choice(cfg, s1);
    if a.Scheme? && s1.appliedTarget.Some? && (sel.Hold? || sel.desired.target != s1.appliedTarget) {
      d, p := Desired(s1.appliedTarget, s1.mode), None;
    } else if sel.Hold? {
      assert false;
    } else {
      d, p := sel.desired, if sel.Apply? then Some(sel.winner) else None;
    }
  }

  lemma SelectingKeeps(cfg: Config, s: Coord, a: Action)
    requires Inv(cfg, s)
    ensures Inv(cfg, Selecting(cfg, s, a))
  {
    match a
    case Line(text) =>
      var l := Lines.Parse(cfg.bases, text);
      if l.Some? { TrackKeeps(cfg, s, l.value); }
    case Vanish(busName) =>
      var name := PlayerNameFromBus(busName);
      if name.Some? { EvictKeeps(cfg, s, name.value); }
    case Report(result, r) => SettleKeeps(cfg, s, result, r);
    case _ =>
  }

  /**
   * On every run: when an action submits a new desire, a player that is being retried goes on
   * being called so exactly if the timer that is armed, if any, is not its own, and is pending
   * otherwise; no timer is left.
   */
  lemma SupersededKeepsRetrying(cfg: Config, mode: Mode, actions: seq<Action>, a: Action, n: string)
    ensures var s := After(cfg, mode, actions); var (s1, s') := (Selecting(cfg, s, a), Act(cfg, s, a));
      Submits(a) && s'.cur.generation != s.cur.generation
      && n in s1.book.covers && s1.book.covers[n].status.Retrying? ==>
        && s'.retry == NO_RETRY && s'.host.timer.None? && n in s'.book.covers
        && (StaysRetrying(s', n) <==> s1.host.timer.None? || s1.retry.player != Some(n))
        && (!StaysRetrying(s', n) ==> s'.book.covers[n].status.Pending?)
  {
    var s := After(cfg, mode, actions);
    RunKeeps(cfg, mode, true, actions);
    var s1 := Selecting(cfg, s, a);
    if Submits(a) && Act(cfg, s, a).cur.generation != s.cur.generation
       && n in s1.book.covers && s1.book.covers[n].status.Retrying? {
      SelectingKeeps(cfg, s, a);
      var d, p, again := NewGenerationIsNewDesire(cfg, s, a);
      NewDesireDemotes(s1, d, p, again, n);
      MaybeSubmitKeeps(cfg, s1, d, p, again);
    }
  }

  // ----- the cover a result is attributed to -----

  /** A desire with a target, whose directory is this player's. */
  predicate For(cfg: Config, d: Option<Desired>, p: string) {
    d.Some? && d.value.target.Some? && d.value.target.value.coversDir == cfg.dirs(p)
  }

  /** What was submitted or is retried for a player carries that player's directory. */
  ghost predicate Owned(cfg: Config, s: Coord) {
    && (!s.cur.stopping && s.cur.player.Some? ==> For(cfg, s.cur.lastDesired, s.cur.player.value))
    && (s.retry.desire.Some? && s.retry.player.Some? ==> For(cfg, s.retry.desire, s.retry.player.value))
  }

  lemma MaybeSubmitOwned(cfg: Config, s: Coord, d: Desired, p: Option<string>, again: bool)
    requires Inv(cfg, s) && Owned(cfg, s) && (p.Some? ==> For(cfg, Some(d), p.value))
    ensures Owned(cfg, MaybeSubmit(s, d, p, again))
  {
  }

  lemma DecideAndSubmitOwned(cfg: Config, s: Coord, again: bool)
    requires Inv(cfg, s) && Owned(cfg, s)
    ensures Owned(cfg, DecideAndSubmit(cfg, s, again))
  {
    DecisionMeaning(s.book.players, s.mode, cfg.dirs, Eligible(s.book));
    match Choice(cfg, s)
    case Hold =>
    case Apply(d, w) => MaybeSubmitOwned(cfg, s, d, Some(w), again);
    case Revert(d) => MaybeSubmitOwned(cfg, s, d, None, again);
  }

  lemma SettleOwned(cfg: Config, s: Coord, result: JobResult, r: Reading)
    requires Inv(cfg, s) && Owned(cfg, s) && !s.cur.stopping
    ensures Owned(cfg, Settle(s, result, r))
  {
  }

  lemma AdoptOwned(cfg: Config, s: Coord, result: JobResult, r: Reading)
    requires Inv(cfg, s) && Owned(cfg, s)
    ensures Owned(cfg, Adopt(cfg, s, result, r))
  {
    if !s.cur.stopping && result.generation == s.cur.generation {
      SettleKeeps(cfg, s, result, r);
      SettleOwned(cfg, s, result, r);
      DecideAndSubmitOwned(cfg, Settle(s, result, r), false);
    }
  }

  lemma SchemeOwned(cfg: Config, s: Coord, value: nat)
    requires Inv(cfg, s) && Owned(cfg, s)
    ensures Owned(cfg, OnScheme(cfg, s, value))
  {
    var s1 := s.(mode := ModeFromScheme(value));
    var sel := Choice(cfg, s1);
    DecisionMeaning(s1.book.players, s1.mode, cfg.dirs, Eligible(s1.book));
    if s1.appliedTarget.Some? && (sel.Hold? || sel.desired.target != s1.appliedTarget) {
      MaybeSubmitOwned(cfg, s1, Desired(s1.appliedTarget, s1.mode), None, true);
    } else if sel.Apply? {
      MaybeSubmitOwned(cfg, s1, sel.desired, Some(sel.winner), true);
    }
  }

  lemma ActOwned(cfg: Config, s: Coord, a: Action)
    requires Inv(cfg, s) && Owned(cfg, s)
    ensures Owned(cfg, Act(cfg, s, a))
  {
    SelectingKeeps(cfg, s, a);
    match a
    case Line(text) =>
      if Lines.Parse(cfg.bases, text).Some? { DecideAndSubmitOwned(cfg, Selecting(cfg, s, a), true); }
    case Vanish(busName) =>
      var name := PlayerNameFromBus(busName);
      if name.Some? && name.value in s.book.players { DecideAndSubmitOwned(cfg, Selecting(cfg, s, a), false); }
    case Scheme(value) => SchemeOwned(cfg, s, value);
    case Report(result, r) => AdoptOwned(cfg, s, result, r);
    case _ =>
  }

  lemma {:induction false} RunOwned(cfg: Config, mode: Mode, actions: seq<Action>)
    ensures Owned(cfg, After(cfg, mode, actions))
  {
    if |actions| > 0 {
      var before := actions[..|actions| - 1];
      RunOwned(cfg, mode, before);
      RunKeeps(cfg, mode, true, before);
      ActOwned(cfg, After(cfg, mode, before), actions[|actions| - 1]);
    }
  }

  /** The status an outcome gives, for a first, second or third failure and beyond. */
  function StatusAfter(s: Coord, outcome: Outcome): CoverStatus {
    if outcome.Refused? then Rejected
    else if outcome.Success() then Ready
    else if CountFor(s.retry, s.cur.lastSubmitted).attempt >= RETRY_MAX_ATTEMPTS then Exhausted
    else Retrying
  }

  /** A result marks the cover its player has by now, whichever was submitted, and no other. */
  lemma SettleMarks(s: Coord, result: JobResult, r: Reading, n: string)
    requires n in s.book.covers
    ensures var b := Settle(s, result, r).book;
      n in b.covers && b.covers[n] ==
        if s.cur.player == Some(n) then s.book.covers[n].(status := StatusAfter(s, result.outcome))
        else s.book.covers[n]
  {
  }

  /** The cover a player has by now is the one that was submitted for it, and so is its whole target. */
  ghost predicate StillSubmitted(cfg: Config, s: Coord, p: string)
    requires p in s.book.players && p in s.book.covers
    requires s.cur.lastDesired.Some? && s.cur.lastDesired.value.target.Some?
  {
    var t := s.cur.lastDesired.value.target.value;
    Identity(cfg, p, t.artUrl) == Some(s.book.covers[p].identity) && TargetOf(s.book.players, cfg.dirs, p) == t
  }

  lemma SubmittedForPlayer(cfg: Config, s: Coord, p: string)
    requires Inv(cfg, s) && Owned(cfg, s) && !s.cur.stopping && s.cur.player == Some(p) && p in s.book.covers
    ensures p in s.book.players && s.cur.lastDesired.Some? && s.cur.lastDesired.value.target.Some?
    ensures var t := s.cur.lastDesired.value.target.value;
      && (StillSubmitted(cfg, s, p) <==> s.book.players[p].artUrl == t.artUrl)
      && (Identity(cfg, p, t.artUrl) == Some(s.book.covers[p].identity) <==> s.book.players[p].artUrl == t.artUrl)
  {
  }

  /**
   * On every run: a result marks no cover but that of the player submitted last, and this is the
   * cover that was submitted exactly if the player's art URL is still the submitted one.
   */
  lemma MarkedCoverWasSubmitted(cfg: Config, mode: Mode, actions: seq<Action>, result: JobResult, r: Reading, n: string)
    ensures var s := After(cfg, mode, actions);
      !s.cur.stopping && n in s.book.covers ==>
        var b := Settle(s, result, r).book;
        && n in b.covers && (s.cur.player != Some(n) ==> b.covers[n] == s.book.covers[n])
        && (s.cur.player == Some(n) ==>
              && b.covers[n] == s.book.covers[n].(status := StatusAfter(s, result.outcome))
              && n in s.book.players && s.cur.lastDesired.Some? && s.cur.lastDesired.value.target.Some?
              && (StillSubmitted(cfg, s, n) <==>
                    s.book.players[n].artUrl == s.cur.lastDesired.value.target.value.artUrl))
  {
    var s := After(cfg, mode, actions);
    RunKeeps(cfg, mode, true, actions);
    RunOwned(cfg, mode, actions);
    if !s.cur.stopping && n in s.book.covers {
      SettleMarks(s, result, r, n);
      if s.cur.player == Some(n) { SubmittedForPlayer(cfg, s, n); }
    }
  }
}
