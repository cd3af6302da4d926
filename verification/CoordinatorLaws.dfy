/** What every handler keeps, and what therefore holds on every run of the event loop. */
module CoordinatorLaws {
  import opened Types
  import opened Select
  import opened CoordinatorSpec
  import Lines

  // ----- the invariants -----

  ghost predicate SeqsDistinct(players: Players, seqNo: nat) {
    && (forall n | n in players :: 1 <= players[n].seqNo <= seqNo)
    && (forall n, m | n in players && m in players && players[n].seqNo == players[m].seqNo :: n == m)
  }

  /** `covers` holds exactly the players with an art source, under their current identity. */
  ghost predicate CoversMatch(cfg: Config, b: Book) {
    && (forall n | n in b.covers ::
          n in b.players && Identity(cfg, n, b.players[n].artUrl) == Some(b.covers[n].identity))
    && (forall n | n in b.players && HasSource(b.players, cfg.dirs, n) :: n in b.covers)
  }

  /** Generations never decrease, and one generation means one desire. */
  ghost predicate Ordered(h: seq<Job>) {
    forall i, j | 0 <= i <= j < |h| ::
      && h[i].generation <= h[j].generation
      && (h[i].generation == h[j].generation ==> h[i].desired == h[j].desired)
  }

  /** The submissions so far, against the decided, submitted and retried desires. */
  ghost predicate History(h: seq<Job>, c: Desire, retried: Option<Desired>) {
    && Ordered(h)
    && (forall i | 0 <= i < |h| :: 1 <= h[i].generation <= c.generation)
    && (c.stopping ==> forall i | 0 <= i < |h| :: h[i].generation < c.generation)
    && (!c.stopping ==>
          if h == [] then c.generation == 0 && c.lastDesired.None? && c.lastSubmitted.None? && retried.None?
          else
            && h[|h| - 1].generation == c.generation
            && c.lastDesired == Some(h[|h| - 1].desired)
            && (c.lastSubmitted.Some? ==> c.lastSubmitted == c.lastDesired)
            && (retried.Some? ==> retried == c.lastDesired))
  }

  /** The coordinator's handle is the host's timer, and every timer is accounted for. */
  ghost predicate TimerMatch(handle: Option<nat>, h: Host) {
    && handle == (if h.timer.Some? then Some(h.timer.value.id) else None)
    && (h.timer.Some? ==> h.timer.value.id == h.nextTimer)
    && h.nextTimer == h.fired + h.cancelled + (if h.timer.Some? then 1 else 0)
  }

  /** The k-th delay since the reset is the k-th backoff; there are at most three, then one warning. */
  ghost predicate EpisodeBounded(t: Retry) {
    && |t.episode.delays| == Min(t.attempt, RETRY_MAX_ATTEMPTS)
    && (forall k | 0 <= k < |t.episode.delays| ::
          t.episode.delays[k].0 == BackoffDelay(k + 1, t.episode.delays[k].1))
    && t.episode.giveUps == (if t.attempt > RETRY_MAX_ATTEMPTS then 1 else 0)
  }

  ghost predicate Inv(cfg: Config, s: Coord) {
    && SeqsDistinct(s.book.players, s.book.seqNo) && CoversMatch(cfg, s.book)
    && History(s.host.submissions, s.cur, s.retry.desire)
    && TimerMatch(s.retry.timer, s.host) && EpisodeBounded(s.retry)
  }

  /** Re-selection has been carried out: what was submitted last is what would be chosen now. */
  ghost predicate Converged(cfg: Config, s: Coord) {
    var sel := Choice(cfg, s);
    s.cur.stopping || sel.Hold? || s.cur.lastSubmitted == Some(sel.desired)
  }

  // ----- each internal step keeps them -----

  lemma RestatusKeeps(cfg: Config, b: Book, p: Option<string>, st: CoverStatus)
    requires CoversMatch(cfg, b)
    ensures CoversMatch(cfg, Restatus(b, p, st))
    ensures Restatus(b, p, st).players == b.players && Restatus(b, p, st).seqNo == b.seqNo
  {
    var b' := Restatus(b, p, st);
    assert forall n | n in b'.covers :: n in b.covers && b'.covers[n].identity == b.covers[n].identity;
  }

  lemma DemoteKeepsEligible(b: Book, p: Option<string>)
    ensures Eligible(Demote(b, p)) == Eligible(b)
  {
  }

  lemma SubmitKeeps(h: seq<Job>, c: Desire, d: Desired, retried: Option<Desired>)
    requires Ordered(h) && forall i | 0 <= i < |h| :: 1 <= h[i].generation <= c.generation
    requires h != [] && h[|h| - 1].generation == c.generation ==> h[|h| - 1].desired == d
    requires c.generation >= 1 && !c.stopping && c.lastDesired == Some(d)
    requires c.lastSubmitted.Some? ==> c.lastSubmitted == Some(d)
    requires retried.Some? ==> retried == Some(d)
    ensures History(h + [Job(c.generation, d)], c, retried)
  {
  }

  lemma CancelRetryKeeps(cfg: Config, s: Coord)
    requires Inv(cfg, s)
    ensures var s' := CancelRetry(s);
      && Inv(cfg, s') && s'.host.timer.None? && Eligible(s'.book) == Eligible(s.book)
      && s'.host.submissions == s.host.submissions
  {
    RestatusKeeps(cfg, s.book, s.retry.player, Pending);
    DemoteKeepsEligible(s.book, s.retry.player);
  }

  lemma MaybeSubmitKeeps(cfg: Config, s: Coord, d: Desired, p: Option<string>, again: bool)
    requires Inv(cfg, s)
    ensures var s' := MaybeSubmit(s, d, p, again);
      && Inv(cfg, s') && Eligible(s'.book) == Eligible(s.book)
      && (!s.cur.stopping ==> s'.cur.lastSubmitted == Some(d))
  {
    if !s.cur.stopping {
      var s' := MaybeSubmit(s, d, p, again);
      if s.cur.lastSubmitted != Some(d) {
        CancelRetryKeeps(cfg, s);
        SubmitKeeps(s.host.submissions, s'.cur, d, None);
      } else if s'.host.submissions != s.host.submissions {
        SubmitKeeps(s.host.submissions, s'.cur, d, s.retry.desire);
      }
    }
  }

  lemma DecideAndSubmitKeeps(cfg: Config, s: Coord, again: bool)
    requires Inv(cfg, s)
    ensures var s' := DecideAndSubmit(cfg, s, again);
      Inv(cfg, s') && Choice(cfg, s') == Choice(cfg, s) && Converged(cfg, s')
  {
    match Choice(cfg, s)
    case Hold =>
    case Apply(d, w) => MaybeSubmitKeeps(cfg, s, d, Some(w), again);
    case Revert(d) => MaybeSubmitKeeps(cfg, s, d, None, again);
  }

  lemma TrackKeeps(cfg: Config, s: Coord, l: Lines.Line)
    requires Inv(cfg, s)
    ensures Inv(cfg, Track(cfg, s, l))
  {
    TrackKeepsSeqs(cfg, s.book, l);
    TrackKeepsCovers(cfg, s.book, l);
  }

  lemma TrackKeepsSeqs(cfg: Config, b: Book, l: Lines.Line)
    requires SeqsDistinct(b.players, b.seqNo)
    ensures var b' := TrackBook(cfg, b, l).0; SeqsDistinct(b'.players, b'.seqNo)
  {
  }

  lemma TrackKeepsCovers(cfg: Config, b: Book, l: Lines.Line)
    requires CoversMatch(cfg, b)
    ensures CoversMatch(cfg, TrackBook(cfg, b, l).0)
  {
    var b' := TrackBook(cfg, b, l).0;
    forall n | n in b'.covers
      ensures n in b'.players && Identity(cfg, n, b'.players[n].artUrl) == Some(b'.covers[n].identity)
    {
      if n != l.name { assert n in b.covers; }
    }
    forall n | n in b'.players && HasSource(b'.players, cfg.dirs, n)
      ensures n in b'.covers
    {
      if n != l.name { assert n in b.players && HasSource(b.players, cfg.dirs, n); }
    }
  }

  lemma EvictKeeps(cfg: Config, s: Coord, name: string)
    requires Inv(cfg, s)
    ensures Inv(cfg, s.(book := Evict(s.book, name)))
  {
    var b' := Evict(s.book, name);
    forall n | n in b'.players && HasSource(b'.players, cfg.dirs, n)
      ensures n in b'.covers
    {
      assert n in s.book.players && HasSource(s.book.players, cfg.dirs, n);
    }
  }

  lemma ArmRetryKeeps(cfg: Config, s: Coord, r: Reading)
    requires Inv(cfg, s)
    ensures Inv(cfg, ArmRetry(s, r))
  {
  }

  lemma SettleKeeps(cfg: Config, s: Coord, result: JobResult, r: Reading)
    requires Inv(cfg, s)
    ensures Inv(cfg, Settle(s, result, r))
  {
    match result.outcome
    case FailedRetryable =>
      ArmRetryKeeps(cfg, s, r);
      RestatusKeeps(cfg, s.book, s.cur.player, Exhausted);
      RestatusKeeps(cfg, s.book, s.cur.player, Retrying);
    case Refused => RestatusKeeps(cfg, s.book, s.cur.player, Rejected);
    case _ => RestatusKeeps(cfg, s.book, s.cur.player, Ready);
  }

  lemma OnLineKeeps(cfg: Config, s: Coord, text: string)
    requires Inv(cfg, s)
    ensures Inv(cfg, OnLine(cfg, s, text))
    ensures Lines.Parse(cfg.bases, text).Some? ==> Converged(cfg, OnLine(cfg, s, text))
  {
    var l := Lines.Parse(cfg.bases, text);
    if l.Some? {
      TrackKeeps(cfg, s, l.value);
      DecideAndSubmitKeeps(cfg, Track(cfg, s, l.value), true);
    }
  }

  lemma OnVanishKeeps(cfg: Config, s: Coord, busName: string)
    requires Inv(cfg, s)
    ensures Inv(cfg, OnVanish(cfg, s, busName))
    ensures var name := PlayerNameFromBus(busName);
      name.Some? && name.value in s.book.players ==> Converged(cfg, OnVanish(cfg, s, busName))
  {
    var name := PlayerNameFromBus(busName);
    if name.Some? && name.value in s.book.players {
      EvictKeeps(cfg, s, name.value);
      DecideAndSubmitKeeps(cfg, s.(book := Evict(s.book, name.value)), false);
    }
  }

  lemma OnSchemeKeeps(cfg: Config, s: Coord, value: nat)
    requires Inv(cfg, s)
    ensures Inv(cfg, OnScheme(cfg, s, value))
  {
    var s1 := s.(mode := ModeFromScheme(value));
    var sel := Choice(cfg, s1);
    if s1.appliedTarget.Some? && (sel.Hold? || sel.desired.target != s1.appliedTarget) {
      MaybeSubmitKeeps(cfg, s1, Desired(s1.appliedTarget, s1.mode), None, true);
    } else if sel.Apply? {
      MaybeSubmitKeeps(cfg, s1, sel.desired, Some(sel.winner), true);
    }
  }

  lemma AdoptKeeps(cfg: Config, s: Coord, result: JobResult, r: Reading)
    requires Inv(cfg, s)
    ensures Inv(cfg, Adopt(cfg, s, result, r))
    ensures !s.cur.stopping && result.generation == s.cur.generation ==> Converged(cfg, Adopt(cfg, s, result, r))
  {
    SettleKeeps(cfg, s, result, r);
    DecideAndSubmitKeeps(cfg, Settle(s, result, r), false);
  }

  lemma ClockKeeps(cfg: Config, s: Coord, now: int)
    requires Inv(cfg, s)
    ensures Inv(cfg, FireDueTimer(s, now))
  {
    var s' := FireDueTimer(s, now);
    if s'.host.submissions != s.host.submissions {
      SubmitKeeps(s.host.submissions, s'.cur, s.retry.desire.value, s.retry.desire);
    }
  }

  lemma ActKeeps(cfg: Config, s: Coord, a: Action)
    requires Inv(cfg, s)
    ensures Inv(cfg, Act(cfg, s, a))
  {
    match a
    case Line(text) => OnLineKeeps(cfg, s, text);
    case Vanish(busName) => OnVanishKeeps(cfg, s, busName);
    case Scheme(value) => OnSchemeKeeps(cfg, s, value);
    case Report(result, r) => AdoptKeeps(cfg, s, result, r);
    case Clock(now) => ClockKeeps(cfg, s, now);
    case Shutdown => CancelRetryKeeps(cfg, s);
    case WorkerDies =>
  }

  /** Every run from a fresh coordinator, whatever arrives in whatever order. */
  lemma {:induction false} RunKeeps(cfg: Config, mode: Mode, alive: bool, actions: seq<Action>)
    ensures Inv(cfg, Run(cfg, Initial(mode, alive), actions))
  {
    if |actions| > 0 {
      RunKeeps(cfg, mode, alive, actions[..|actions| - 1]);
      ActKeeps(cfg, Run(cfg, Initial(mode, alive), actions[..|actions| - 1]), actions[|actions| - 1]);
    }
  }
}
