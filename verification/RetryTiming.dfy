/** How long the daemon waits after a failure: a retry comes no earlier than its back-off delay, and when it is due. */
module RetryTiming {
  import opened Types
  import opened CoordinatorSpec
  import opened CoordinatorLaws
  import opened CoordinatorTheorems
  import opened Conditions
  import opened RunLoop
  import Lines

  // ----- what arming a timer means -----

  /** This step leaves a timer armed that was not armed before. */
  predicate Arms(s: Coord, s': Coord) { s'.host.timer.Some? && s'.host.timer != s.host.timer }

  /** `wait` is the k-th delay: a thousand doubled k-1 times, scaled by the jitter and rounded down. */
  predicate Delays(k: nat, jitter: real, wait: int) {
    && 1 <= k <= RETRY_MAX_ATTEMPTS
    && wait as real <= (1000 * Pow2(k - 1)) as real * jitter < wait as real + 1.0
  }

  /** The jitter the host draws. */
  predicate Jittered(r: Reading) { 0.85 <= r.jitter <= 1.15 }

  /** The failure that is reported leaves `s'` waiting, under a fresh timer, for its k-th delay. */
  predicate WaitsFor(s: Coord, result: JobResult, r: Reading, s': Coord, k: nat)
    requires s'.host.timer.Some?
  {
    && !s.cur.stopping && result.generation == s.cur.generation && result.outcome.FailedRetryable?
    && s'.host.timer.value.id == s.host.nextTimer + 1 && s'.retry.attempt == k == |s'.retry.episode.delays|
    && s'.retry.desire == s.cur.lastSubmitted && s'.retry.player == s.cur.player
    && (Jittered(r) ==> Delays(k, r.jitter, s'.host.timer.value.due - r.now))
  }

  lemma {:induction false} ExactDelay(k: nat, jitter: real)
    requires 1 <= k <= RETRY_MAX_ATTEMPTS && 0.85 <= jitter <= 1.15
    ensures Delays(k, jitter, BackoffDelay(k, jitter))
  {
    BackoffIsCappedExponential(k);
    assert Pow2(0) == 1 && Pow2(1) == 2 && Pow2(2) == 4;
    assert CappedBackoff(k) == 1000 * Pow2(k - 1);
  }

  lemma {:induction false} DelayBounds(k: nat, jitter: real, wait: int)
    requires Delays(k, jitter, wait) && 0.85 <= jitter <= 1.15
    ensures 850 * Pow2(k - 1) <= wait <= 1150 * Pow2(k - 1)
  {
    assert Pow2(0) == 1 && Pow2(1) == 2 && Pow2(2) == 4;
    assert k == 1 || k == 2 || k == 3;
  }

  /** No other step than settling a failure arms a timer, and re-selection does not move it. */
  lemma OnlyFailuresArm(cfg: Config, s: Coord, a: Action)
    requires Inv(cfg, s) && Arms(s, Act(cfg, s, a))
    ensures a.Report? && !s.cur.stopping && a.result.generation == s.cur.generation && a.result.outcome.FailedRetryable?
    ensures CountFor(s.retry, s.cur.lastSubmitted).attempt < RETRY_MAX_ATTEMPTS
    ensures var (s1, s') := (Settle(s, a.result, a.reading), Act(cfg, s, a));
      Arms(s, s1) && s'.host.timer == s1.host.timer && s'.retry == s1.retry
  {
    match a
    case Line(text) => LineArmsNothing(cfg, s, text);
    case Vanish(busName) => VanishArmsNothing(cfg, s, busName);
    case Scheme(value) => SchemeArmsNothing(cfg, s, value);
    case Report(result, r) => ReportArms(cfg, s, result, r);
    case _ =>
  }

  lemma ReportArms(cfg: Config, s: Coord, result: JobResult, r: Reading)
    requires Inv(cfg, s) && Arms(s, Adopt(cfg, s, result, r))
    ensures !s.cur.stopping && result.generation == s.cur.generation && result.outcome.FailedRetryable?
    ensures CountFor(s.retry, s.cur.lastSubmitted).attempt < RETRY_MAX_ATTEMPTS
    ensures var (s1, s') := (Settle(s, result, r), Adopt(cfg, s, result, r));
      Arms(s, s1) && s'.host.timer == s1.host.timer && s'.retry == s1.retry
  {
    SettleKeeps(cfg, s, result, r);
    SelectingMovesNothing(cfg, Settle(s, result, r), false);
  }

  lemma SchemeArmsNothing(cfg: Config, s: Coord, value: nat)
    requires Inv(cfg, s)
    ensures !Arms(s, OnScheme(cfg, s, value))
  {
    var s1 := s.(mode := ModeFromScheme(value));
    var sel := Choice(cfg, s1);
    if s1.appliedTarget.Some? && (sel.Hold? || sel.desired.target != s1.appliedTarget) {
      SubmittingArmsNothing(s1, Desired(s1.appliedTarget, s1.mode), None);
    } else if sel.Apply? {
      SubmittingArmsNothing(s1, sel.desired, Some(sel.winner));
    }
  }

  lemma SubmittingArmsNothing(s: Coord, d: Desired, p: Option<string>)
    ensures !Arms(s, MaybeSubmit(s, d, p, true))
  {
  }

  lemma SelectingMovesNothing(cfg: Config, s: Coord, again: bool)
    requires Inv(cfg, s)
    ensures var s' := DecideAndSubmit(cfg, s, again);
      s'.host.timer.None? || (s'.host.timer == s.host.timer && s'.retry == s.retry)
  {
    if !s.cur.stopping { ReselectionTimer(cfg, s, again); }
  }

  lemma LineArmsNothing(cfg: Config, s: Coord, text: string)
    requires Inv(cfg, s)
    ensures !Arms(s, OnLine(cfg, s, text))
  {
    var l := Lines.Parse(cfg.bases, text);
    if l.Some? {
      TrackKeeps(cfg, s, l.value);
      SelectingMovesNothing(cfg, Track(cfg, s, l.value), true);
    }
  }

  lemma VanishArmsNothing(cfg: Config, s: Coord, busName: string)
    requires Inv(cfg, s)
    ensures !Arms(s, OnVanish(cfg, s, busName))
  {
    var name := PlayerNameFromBus(busName);
    if name.Some? && name.value in s.book.players {
      EvictKeeps(cfg, s, name.value);
      SelectingMovesNothing(cfg, s.(book := Evict(s.book, name.value)), false);
    }
  }

  lemma FailureWaits(cfg: Config, s: Coord, result: JobResult, r: Reading)
    requires Inv(cfg, s) && !s.cur.stopping && result.generation == s.cur.generation
    requires result.outcome.FailedRetryable? && CountFor(s.retry, s.cur.lastSubmitted).attempt < RETRY_MAX_ATTEMPTS
    ensures var s1 := Settle(s, result, r);
      s1.host.timer.Some? && WaitsFor(s, result, r, s1, s1.retry.attempt)
  {
    if Jittered(r) { ExactDelay(CountFor(s.retry, s.cur.lastSubmitted).attempt + 1, r.jitter); }
  }

  /**
   * On every run: only the adoption of a retryable failure arms a timer, as the k-th of its
   * episode, and it is due exactly the k-th delay after the clock reading of that failure.
   */
  lemma ArmedTimerIsDelayed(cfg: Config, mode: Mode, actions: seq<Action>, a: Action)
    ensures var s := After(cfg, mode, actions); var s' := Act(cfg, s, a);
      Arms(s, s') ==> a.Report? && WaitsFor(s, a.result, a.reading, s', s'.retry.attempt)
  {
    var s := After(cfg, mode, actions);
    RunKeeps(cfg, mode, true, actions);
    if Arms(s, Act(cfg, s, a)) {
      OnlyFailuresArm(cfg, s, a);
      FailureWaits(cfg, s, a.result, a.reading);
    }
  }

  /** On every run: a failure before the cap arms a timer exactly if selection does not move on. */
  lemma FailureArms(cfg: Config, mode: Mode, actions: seq<Action>, result: JobResult, r: Reading)
    ensures var s := After(cfg, mode, actions);
      !s.cur.stopping && result.generation == s.cur.generation && result.outcome.FailedRetryable? ==>
        var sel := Choice(cfg, Settle(s, result, r));
        (Arms(s, Adopt(cfg, s, result, r)) <==>
          && CountFor(s.retry, s.cur.lastSubmitted).attempt < RETRY_MAX_ATTEMPTS
          && (sel.Hold? || s.cur.lastSubmitted == Some(sel.desired)))
  {
    var s := After(cfg, mode, actions);
    RunKeeps(cfg, mode, true, actions);
    if !s.cur.stopping && result.generation == s.cur.generation && result.outcome.FailedRetryable? {
      SettleKeeps(cfg, s, result, r);
      ReselectionTimer(cfg, Settle(s, result, r), false);
    }
  }

  // ----- where the armed timer comes from -----

  /** The state after the first `n` actions. */
  ghost function At(cfg: Config, mode: Mode, actions: seq<Action>, n: nat): Coord
    requires n <= |actions|
  {
    After(cfg, mode, actions[..n])
  }

  /** Action `i` reported the failure whose timer is still armed after all actions. */
  ghost predicate ArmedAt(cfg: Config, mode: Mode, actions: seq<Action>, i: nat) {
    && i < |actions| && actions[i].Report? && After(cfg, mode, actions).host.timer.Some?
    && At(cfg, mode, actions, i + 1).host.timer == After(cfg, mode, actions).host.timer
    && WaitsFor(At(cfg, mode, actions, i), actions[i].result, actions[i].reading,
                At(cfg, mode, actions, i + 1), At(cfg, mode, actions, i + 1).retry.attempt)
  }

  lemma {:induction false} NextAt(cfg: Config, mode: Mode, actions: seq<Action>, i: nat)
    requires i < |actions|
    ensures At(cfg, mode, actions, i + 1) == Act(cfg, At(cfg, mode, actions, i), actions[i])
  {
    assert actions[..i + 1][..i] == actions[..i];
  }

  lemma {:induction false} TimerHasOrigin(cfg: Config, mode: Mode, actions: seq<Action>) returns (i: nat)
    requires After(cfg, mode, actions).host.timer.Some?
    ensures ArmedAt(cfg, mode, actions, i)
    decreases |actions|
  {
    var n := |actions| - 1;
    var before := actions[..n];
    assert actions[..|actions|] == actions;
    NextAt(cfg, mode, actions, n);
    if Arms(After(cfg, mode, before), After(cfg, mode, actions)) {
      ArmedTimerIsDelayed(cfg, mode, before, actions[n]);
      i := n;
    } else {
      NoActionKeepsTimer(cfg, After(cfg, mode, before), actions[n]);
      i := TimerHasOrigin(cfg, mode, before);
      assert before[..i] == actions[..i] && before[..i + 1] == actions[..i + 1];
    }
  }

  lemma NoActionKeepsTimer(cfg: Config, s: Coord, a: Action)
    requires Act(cfg, s, a).host.timer.Some? && !Arms(s, Act(cfg, s, a))
    ensures s.host.timer == Act(cfg, s, a).host.timer
  {
  }

  // ----- when a retry is submitted -----

  /** The timer check at this clock reading submits again. */
  predicate Retries(s: Coord, now: int) { FireDueTimer(s, now).host.submissions != s.host.submissions }

  /**
   * On every run: the timer check submits again exactly if a timer is due and its desire still
   * stands; it is then that desire, for the player that failed, under a new generation.
   */
  lemma RetriesWhenDue(cfg: Config, mode: Mode, actions: seq<Action>, now: int)
    ensures var s := After(cfg, mode, actions);
      && (Retries(s, now) <==>
            s.host.timer.Some? && s.host.timer.value.due <= now && !s.cur.stopping && s.retry.desire.Some?)
      && (Retries(s, now) ==>
            var s' := FireDueTimer(s, now);
            && s'.host.submissions == s.host.submissions + [Job(s.cur.generation + 1, s.retry.desire.value)]
            && s'.cur.generation == s.cur.generation + 1 && s'.cur.player == s.retry.player
            && s'.host.timer.None? && s'.retry.timer.None? && s'.book == s.book)
  {
    Guard2Unreachable(cfg, mode, actions);
  }

  /** `now` is no earlier than the k-th delay after this failure. */
  predicate Waited(r: Reading, k: nat, now: int) {
    Jittered(r) ==>
      && 1 <= k <= RETRY_MAX_ATTEMPTS && now >= r.now + 850 * Pow2(k - 1)
      && (now - r.now) as real > (1000 * Pow2(k - 1)) as real * r.jitter - 1.0
  }

  /** On every run: a retry is submitted no earlier than the failure that armed its timer plus the delay. */
  lemma RetryWaits(cfg: Config, mode: Mode, actions: seq<Action>, now: int) returns (i: nat)
    requires Retries(After(cfg, mode, actions), now)
    ensures ArmedAt(cfg, mode, actions, i)
    ensures Waited(actions[i].reading, At(cfg, mode, actions, i + 1).retry.attempt, now)
  {
    RetriesWhenDue(cfg, mode, actions, now);
    i := TimerHasOrigin(cfg, mode, actions);
    var (r, k) := (actions[i].reading, At(cfg, mode, actions, i + 1).retry.attempt);
    if Jittered(r) { DelayBounds(k, r.jitter, After(cfg, mode, actions).host.timer.value.due - r.now); }
  }

  // ----- the loop -----

  /** The actions up to the handler of the last arrival, before the timer check after it. */
  function Heard(arrivals: seq<Arrival>): seq<Action>
    requires |arrivals| > 0
  {
    Trace(arrivals[..|arrivals| - 1]) + Dispatched(arrivals[|arrivals| - 1].event)
  }

  lemma {:induction false} TraceHasEvent(arrivals: seq<Arrival>, i: nat) returns (j: nat)
    requires i < |Trace(arrivals)| && !Trace(arrivals)[i].Clock?
    ensures j < |arrivals| && Dispatched(arrivals[j].event) == [Trace(arrivals)[i]]
    ensures Trace(arrivals)[..i] == Trace(arrivals[..j])
    decreases |arrivals|
  {
    var before := arrivals[..|arrivals| - 1];
    var (head, d) := (Trace(before), Dispatched(arrivals[|arrivals| - 1].event));
    assert |d| <= 1;
    if i < |head| {
      j := TraceHasEvent(before, i);
      assert before[..j] == arrivals[..j];
      assert Trace(arrivals)[..i] == head[..i];
    } else {
      j := |arrivals| - 1;
      assert Trace(arrivals)[..i] == head;
      assert d == [Trace(arrivals)[i]];
    }
  }

  /**
   * In the loop: if the timer check after the last arrival submits again, one of the arrivals
   * reported the failure, and the check's clock reads at least its delay more than it did then.
   * `k` says which failure in a row that was.
   */
  lemma LoopRetryWaits(cfg: Config, mode: Mode, arrivals: seq<Arrival>) returns (j: nat, k: nat)
    requires |arrivals| > 0
    requires Retries(After(cfg, mode, Heard(arrivals)), arrivals[|arrivals| - 1].now)
    ensures j < |arrivals| && arrivals[j].event.WorkerEvent? && arrivals[j].event.result.outcome.FailedRetryable?
    ensures k == After(cfg, mode, Heard(arrivals[..j + 1])).retry.attempt
    ensures Waited(arrivals[j].event.reading, k, arrivals[|arrivals| - 1].now)
  {
    var (last, heard) := (arrivals[|arrivals| - 1], Heard(arrivals));
    var i := RetryWaits(cfg, mode, heard, last.now);
    j := HeardFrom(arrivals, i);
    k := At(cfg, mode, heard, i + 1).retry.attempt;
  }

  /** Which arrival an action of the trace that is no timer check comes from. */
  lemma {:induction false} HeardFrom(arrivals: seq<Arrival>, i: nat) returns (j: nat)
    requires |arrivals| > 0 && i < |Heard(arrivals)| && !Heard(arrivals)[i].Clock?
    ensures j < |arrivals| && Dispatched(arrivals[j].event) == [Heard(arrivals)[i]]
    ensures Heard(arrivals[..j + 1]) == Heard(arrivals)[..i + 1]
  {
    var (heard, trace) := (Heard(arrivals), Trace(arrivals));
    assert trace == heard + [Clock(arrivals[|arrivals| - 1].now)];
    assert trace[i] == heard[i] && heard[..i] == trace[..i];
    j := TraceHasEvent(arrivals, i);
    HeardUpTo(arrivals, j);
    OneLonger(heard, i);
  }

  lemma HeardUpTo(arrivals: seq<Arrival>, j: nat)
    requires j < |arrivals|
    ensures Heard(arrivals[..j + 1]) == Trace(arrivals[..j]) + Dispatched(arrivals[j].event)
  {
    assert arrivals[..j + 1][..j] == arrivals[..j];
  }

  lemma OneLonger(actions: seq<Action>, i: nat)
    requires i < |actions|
    ensures actions[..i + 1] == actions[..i] + [actions[i]]
  {
  }
}
