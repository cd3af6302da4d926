/** What single events do on every run: theme flips, exits, successes, the worker's death, and the loop's dispatch. */
module Events {
  import opened Types
  import opened Select
  import opened CoordinatorSpec
  import opened CoordinatorLaws
  import opened CoordinatorTheorems
  import opened RetryTiming
  import opened RunLoop
  import Lines

  // ----- the mode -----

  /** The mode heard last: 2 is light, anything else dark. */
  function LastMode(mode: Mode, actions: seq<Action>): Mode {
    if |actions| == 0 then mode
    else match actions[|actions| - 1]
      case Scheme(value) => if value == 2 then Light else Dark
      case _ => LastMode(mode, actions[..|actions| - 1])
  }

  lemma ModeKept(cfg: Config, s: Coord, a: Action)
    ensures !a.Scheme? ==> Act(cfg, s, a).mode == s.mode
    ensures a.Scheme? ==> Act(cfg, s, a).mode == if a.value == 2 then Light else Dark
  {
  }

  /** On every run the mode is the one heard last, whatever else happened. */
  lemma {:induction false} ModeIsLastHeard(cfg: Config, mode: Mode, actions: seq<Action>)
    ensures After(cfg, mode, actions).mode == LastMode(mode, actions)
  {
    if |actions| > 0 {
      var before := actions[..|actions| - 1];
      ModeIsLastHeard(cfg, mode, before);
      ModeKept(cfg, After(cfg, mode, before), actions[|actions| - 1]);
    }
  }

  // ----- theme flips -----

  /** `w` is the newest usable player. */
  ghost predicate Newest(s: Coord, w: string) {
    Usable(s, w) && forall m | Usable(s, m) && m != w :: s.book.players[m].seqNo < s.book.players[w].seqNo
  }

  /** The cover of a tracked player. */
  function CoverOf(cfg: Config, s: Coord, w: string): CoverTarget
    requires w in s.book.players
  {
    CoverTarget(s.book.players[w].artUrl, cfg.dirs(w))
  }

  /** The newest usable player is the one that selection applies. */
  lemma NewestIsChosen(cfg: Config, s: Coord, w: string)
    requires Inv(cfg, s)
    ensures Newest(s, w) <==> Choice(cfg, s).Apply? && Choice(cfg, s).winner == w
    ensures Newest(s, w) ==> Choice(cfg, s).desired == Desired(Some(CoverOf(cfg, s, w)), s.mode)
  {
    var (players, e) := (s.book.players, Eligible(s.book));
    DecisionMeaning(players, s.mode, cfg.dirs, e);
    UsableIsActionable(cfg, s);
    if Newest(s, w) {
      assert Actionable(players, cfg.dirs, e, w);
      var v := Choice(cfg, s).winner;
      assert Usable(s, v);
    }
  }

  lemma UsableIsActionable(cfg: Config, s: Coord)
    requires Inv(cfg, s)
    ensures forall n :: Usable(s, n) <==> Actionable(s.book.players, cfg.dirs, Eligible(s.book), n)
  {
  }

  /**
   * On every run a theme flip re-tones what is shown, unless that is what the newest usable player
   * plays, which is then submitted for that player; with nothing recorded as shown it is the newest
   * usable player's cover, and without one nothing is submitted. A repeated theme changes nothing.
   */
  lemma FlipSubmits(cfg: Config, mode: Mode, actions: seq<Action>, value: nat)
    ensures var s := After(cfg, mode, actions); var s' := Act(cfg, s, Scheme(value));
      var m := if value == 2 then Light else Dark;
      && (m == s.mode ==> s' == s)
      && s'.book.players == s.book.players && s'.appliedTarget == s.appliedTarget
      && (m != s.mode && !s.cur.stopping ==>
        && (forall w | Newest(s, w) && (s.appliedTarget.None? || s.appliedTarget.value == CoverOf(cfg, s, w)) ::
              s'.cur.lastSubmitted == Some(Desired(Some(CoverOf(cfg, s, w)), m)))
        && (s.appliedTarget.Some? && (forall w | Newest(s, w) :: s.appliedTarget.value != CoverOf(cfg, s, w)) ==>
              s'.cur.lastSubmitted == Some(Desired(s.appliedTarget, m)))
        && (s.appliedTarget.None? && (forall w :: !Newest(s, w)) ==> s' == s.(mode := m)))
  {
    var s := After(cfg, mode, actions);
    RunKeeps(cfg, mode, true, actions);
    var t := s.(mode := ModeFromScheme(value));
    var sel := Choice(cfg, t);
    forall w ensures Newest(t, w) <==> Newest(s, w) {
      SameUsable(s, t);
    }
    if sel.Apply? { NewestIsChosen(cfg, t, sel.winner); }
    forall w | Newest(t, w) ensures sel.Apply? && sel.winner == w && sel.desired.target == Some(CoverOf(cfg, s, w)) {
      NewestIsChosen(cfg, t, w);
    }
    DecisionMeaning(t.book.players, t.mode, cfg.dirs, Eligible(t.book));
    FlipActs(cfg, s, value);
  }

  lemma SameUsable(s: Coord, t: Coord)
    requires t.book == s.book
    ensures forall w :: Usable(t, w) <==> Usable(s, w)
  {
  }

  lemma FlipActs(cfg: Config, s: Coord, value: nat)
    requires Inv(cfg, s)
    ensures var s' := Act(cfg, s, Scheme(value)); var t := s.(mode := ModeFromScheme(value)); var sel := Choice(cfg, t);
      && (t.mode == s.mode ==> s' == s)
      && s'.book.players == s.book.players && s'.appliedTarget == s.appliedTarget
      && (t.mode != s.mode && !s.cur.stopping ==>
        if s.appliedTarget.Some? && (sel.Hold? || sel.desired.target != s.appliedTarget)
        then s'.cur.lastSubmitted == Some(Desired(s.appliedTarget, t.mode))
        else if sel.Apply? then s'.cur.lastSubmitted == Some(sel.desired)
        else s' == t)
  {
  }

  // ----- directory re-scans -----

  /** The standing desire is submitted once more, under its generation. */
  predicate Rescans(s: Coord, s': Coord) {
    s'.host.submissions != s.host.submissions && s'.cur.generation == s.cur.generation
  }

  /**
   * On every run: exits and results never re-scan a directory. A line does if and only if selection,
   * after it, stays with the directory submitted last.
   */
  lemma OnlyLinesRescan(cfg: Config, mode: Mode, actions: seq<Action>, a: Action)
    ensures var s := After(cfg, mode, actions); var s' := Act(cfg, s, a);
      && (a.Vanish? || a.Report? ==> !Rescans(s, s'))
      && (a.Line? && Lines.Parse(cfg.bases, a.text).Some? ==>
            var t := Track(cfg, s, Lines.Parse(cfg.bases, a.text).value); var sel := Choice(cfg, t);
            (Rescans(s, s') <==> !s.cur.stopping && sel.Apply? && t.cur.lastSubmitted == Some(sel.desired)
                                 && sel.desired.target.Some? && sel.desired.target.value.artUrl == ""))
  {
    var s := After(cfg, mode, actions);
    match a
    case Line(text) =>
      var l := Lines.Parse(cfg.bases, text);
      if l.Some? { SelectingRescans(cfg, Track(cfg, s, l.value), true); }
    case Vanish(busName) =>
      var name := PlayerNameFromBus(busName);
      if name.Some? && name.value in s.book.players {
        SelectingRescans(cfg, s.(book := Evict(s.book, name.value)), false);
      }
    case Report(result, r) => SelectingRescans(cfg, Settle(s, result, r), false);
    case _ =>
  }

  lemma SelectingRescans(cfg: Config, s: Coord, again: bool)
    ensures var sel := Choice(cfg, s);
      Rescans(s, DecideAndSubmit(cfg, s, again)) <==>
        again && !s.cur.stopping && sel.Apply? && s.cur.lastSubmitted == Some(sel.desired)
        && sel.desired.target.Some? && sel.desired.target.value.artUrl == ""
  {
    DecisionMeaning(s.book.players, s.mode, cfg.dirs, Eligible(s.book));
    match Choice(cfg, s)
    case Hold =>
    case Apply(d, w) => SubmittingRescans(s, d, Some(w), again);
    case Revert(d) => SubmittingRescans(s, d, None, again);
  }

  lemma SubmittingRescans(s: Coord, d: Desired, p: Option<string>, again: bool)
    ensures Rescans(s, MaybeSubmit(s, d, p, again)) <==>
      again && !s.cur.stopping && s.cur.lastSubmitted == Some(d) && d.target.Some? && d.target.value.artUrl == ""
  {
  }

  // ----- players that vanish -----

  /** On every run: the name after the prefix is untracked, with its cover; any other bus name means nothing. */
  lemma VanishedIsForgotten(cfg: Config, mode: Mode, actions: seq<Action>, name: string)
    ensures var s := After(cfg, mode, actions); var s' := Act(cfg, s, Vanish("org.mpris.MediaPlayer2." + name));
      && s'.book.players == s.book.players - {name} && s'.book.covers.Keys == s.book.covers.Keys - {name}
      && (name !in s.book.players ==> s' == s)
  {
    var s := After(cfg, mode, actions);
    RunKeeps(cfg, mode, true, actions);
    PrefixedName(name);
    if name in s.book.players {
      SelectingKeepsBook(cfg, s.(book := Evict(s.book, name)), false);
    } else {
      assert s.book.players - {name} == s.book.players && s.book.covers.Keys - {name} == s.book.covers.Keys;
    }
  }

  lemma PrefixedName(name: string)
    ensures PlayerNameFromBus("org.mpris.MediaPlayer2." + name) == Some(name)
  {
    assert (MPRIS_PREFIX + name)[|MPRIS_PREFIX|..] == name;
  }

  lemma OtherNamesIgnored(cfg: Config, s: Coord, busName: string)
    requires !("org.mpris.MediaPlayer2." <= busName)
    ensures Act(cfg, s, Vanish(busName)) == s
  {
  }

  lemma SelectingKeepsBook(cfg: Config, s: Coord, again: bool)
    ensures var s' := DecideAndSubmit(cfg, s, again);
      s'.book.players == s.book.players && s'.book.covers.Keys == s.book.covers.Keys
  {
  }

  // ----- successes -----

  /** On every run: exactly the successes of the current generation name what is applied. */
  lemma AppliedFollowsSuccess(cfg: Config, mode: Mode, actions: seq<Action>, a: Action)
    ensures var s := After(cfg, mode, actions);
      Act(cfg, s, a).applied ==
        if a.Report? && !s.cur.stopping && a.result.generation == s.cur.generation
           && (a.result.outcome.Committed? || a.result.outcome.SkippedDuplicate?)
        then a.result.coverId else s.applied
  {
  }

  // ----- the worker's death -----

  /**
   * One job is submitted at most. A live worker gets it in the slot; for a dead one it is dropped,
   * and that it is dead is noticed then and only then.
   */
  predicate Hosted(h: Host, h': Host) {
    && h'.workerAlive == h.workerAlive && h.submissions <= h'.submissions
    && |h'.submissions| <= |h.submissions| + 1
    && var submits := h'.submissions != h.submissions;
      if h.workerAlive
      then h'.workerDead == h.workerDead
        && h'.slot == (if submits then Some(h'.submissions[|h'.submissions| - 1]) else h.slot)
      else h'.slot == h.slot && (h'.workerDead <==> h.workerDead || submits)
  }

  /** On every run each event submits in this way; that the worker dies changes nothing else. */
  lemma DeathIsNoticed(cfg: Config, mode: Mode, actions: seq<Action>, a: Action)
    ensures var s := After(cfg, mode, actions); var s' := Act(cfg, s, a);
      if a.WorkerDies? then s' == s.(host := s.host.(workerAlive := false)) else Hosted(s.host, s'.host)
  {
    var s := After(cfg, mode, actions);
    match a
    case Line(text) =>
      var l := Lines.Parse(cfg.bases, text);
      if l.Some? { SelectingSubmits(cfg, Track(cfg, s, l.value), true); }
    case Vanish(busName) =>
      var name := PlayerNameFromBus(busName);
      if name.Some? && name.value in s.book.players {
        SelectingSubmits(cfg, s.(book := Evict(s.book, name.value)), false);
      }
    case Scheme(value) => FlipHosts(cfg, s, value);
    case Report(result, r) => SelectingSubmits(cfg, Settle(s, result, r), false);
    case _ =>
  }

  lemma SubmittingHosts(s: Coord, d: Desired, p: Option<string>, again: bool)
    ensures Hosted(s.host, MaybeSubmit(s, d, p, again).host)
  {
  }

  lemma SelectingSubmits(cfg: Config, s: Coord, again: bool)
    ensures Hosted(s.host, DecideAndSubmit(cfg, s, again).host)
  {
    match Choice(cfg, s)
    case Hold =>
    case Apply(d, w) => SubmittingHosts(s, d, Some(w), again);
    case Revert(d) => SubmittingHosts(s, d, None, again);
  }

  lemma FlipHosts(cfg: Config, s: Coord, value: nat)
    ensures Hosted(s.host, OnScheme(cfg, s, value).host)
  {
    var t := s.(mode := ModeFromScheme(value));
    var sel := Choice(cfg, t);
    if t.appliedTarget.Some? && (sel.Hold? || sel.desired.target != t.appliedTarget) {
      SubmittingHosts(t, Desired(t.appliedTarget, t.mode), None, true);
    } else if sel.Apply? {
      SubmittingHosts(t, sel.desired, Some(sel.winner), true);
    }
  }

  // ----- the loop's dispatch -----

  /** The state before the last arrival. */
  ghost function Until(cfg: Config, mode: Mode, arrivals: seq<Arrival>): Coord
    requires |arrivals| > 0
  {
    After(cfg, mode, Trace(arrivals[..|arrivals| - 1]))
  }

  /** The event makes the daemon select: an accepted line, a tracked player's exit, a current result. */
  predicate Selects(cfg: Config, s: Coord, e: Event) {
    match e
    case LineEvent(text) => Lines.Parse(cfg.bases, text).Some?
    case VanishEvent(bus) => PlayerNameFromBus(bus).Some? && PlayerNameFromBus(bus).value in s.book.players
    case WorkerEvent(result, _) => result.generation == s.cur.generation
    case _ => false
  }

  /** In the loop: after every such event what stands submitted follows the newest usable player. */
  lemma LoopFollowsNewest(cfg: Config, mode: Mode, arrivals: seq<Arrival>)
    requires |arrivals| > 0
    ensures var (s, e) := (Until(cfg, mode, arrivals), arrivals[|arrivals| - 1].event);
      var s' := After(cfg, mode, Heard(arrivals));
      && (Selects(cfg, s, e) && !s.cur.stopping ==> FollowsNewest(cfg, s'))
      && (e.SchemeEvent? ==> s'.mode == if e.value == 2 then Light else Dark)
      && (e.Oversize? || e.SchemeMalformed? || e.Timeout? ==> s' == s)
  {
    var (s, e) := (Until(cfg, mode, arrivals), arrivals[|arrivals| - 1].event);
    var before := Trace(arrivals[..|arrivals| - 1]);
    DispatchedIsARun(cfg, Initial(mode, true), before, e);
    if Selects(cfg, s, e) && !s.cur.stopping {
      NewestPlayerWins(cfg, mode, before, Dispatched(e)[0]);
    }
    if e.SchemeEvent? { ModeKept(cfg, s, Scheme(e.value)); }
  }
}
