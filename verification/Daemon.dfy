/** The daemon's mutable objects, each method proved against the functions the laws are about. */
module Daemon {
  import opened Types
  import opened CoordinatorSpec
  import Select
  import Lines

  /** A one-slot, replace-on-put handoff. */
  class Mailbox {
    var slot: Option<Job>

    constructor ()
      ensures slot == None
    {
      slot := None;
    }

    method Put(job: Job)
      modifies this
      ensures slot == Some(job)
    {
      slot := Some(job);
    }

    /** Returns once a job waits or `stop` is set; `stop` wins and drains the slot. */
    method Get(stop: bool) returns (job: Option<Job>)
      requires slot.Some? || stop
      modifies this
      ensures slot == None
      ensures job == if stop then None else old(slot)
    {
      if stop {
        slot := None;
        return None;
      }
      job := slot;
      slot := None;
    }

    method Clear()
      modifies this
      ensures slot == None
    {
      slot := None;
    }

    /** Strictly newer: a same-generation resubmit does not preempt the running job. */
    method Superseded(generation: nat) returns (newer: bool)
      ensures newer <==> slot.Some? && slot.value.generation > generation
    {
      newer := slot.Some? && slot.value.generation > generation;
    }
  }

  /** The running daemon's host: mailbox, liveness flag and the single deadline. */
  class RuntimeHost {
    const mailbox: Mailbox
    var workerAlive: bool
    var workerDead: bool
    var timer: Option<Timer>
    var nextTimer: nat
    ghost var submissions: seq<Job>
    ghost var cancelled: nat
    ghost var fired: nat

    ghost function Abs(): Host
      reads this, mailbox
    {
      Host(mailbox.slot, workerAlive, workerDead, timer, nextTimer, submissions, cancelled, fired)
    }

    constructor (mailbox: Mailbox, alive: bool)
      ensures this.mailbox == mailbox
      ensures Abs() == Host(mailbox.slot, alive, false, None, 0, [], 0, 0)
    {
      this.mailbox := mailbox;
      workerAlive, workerDead, timer, nextTimer := alive, false, None, 0;
      submissions, cancelled, fired := [], 0, 0;
    }

    method Submit(generation: nat, desired: Desired)
      modifies this, mailbox
      ensures Abs() == HostSubmit(old(Abs()), Job(generation, desired))
    {
      submissions := submissions + [Job(generation, desired)];
      if !workerAlive {
        workerDead := true;
        return;
      }
      mailbox.Put(Job(generation, desired));
    }

    method ScheduleRetry(delay: nat, now: int) returns (id: nat)
      modifies this
      ensures Abs() == HostSchedule(old(Abs()), delay, now) && id == nextTimer
    {
      nextTimer := nextTimer + 1;
      timer := Some(Timer(nextTimer, now + delay));
      id := nextTimer;
    }

    method CancelRetry(id: nat)
      modifies this
      ensures Abs() == HostCancel(old(Abs()), id)
    {
      if timer.Some? && timer.value.id == id {
        timer := None;
        cancelled := cancelled + 1;
      }
    }
  }

  class Coordinator {
    const cfg: Config
    const host: RuntimeHost
    var players: Select.Players
    var covers: map<string, CoverState>
    var seqNo: nat
    var generation: nat
    var mode: Mode
    var applied: Option<string>
    var appliedTarget: Option<CoverTarget>
    var lastDesired: Option<Desired>
    var lastSubmitted: Option<Desired>
    var stopping: bool
    var submittedPlayer: Option<string>
    var retryTimer: Option<nat>
    var retryDesire: Option<Desired>
    var retryPlayer: Option<string>
    var retryAttempt: nat
    ghost var episode: Episode

    ghost function Abs(): Coord
      reads this, host, host.mailbox
    {
      Coord(Book(players, covers, seqNo), mode, applied, appliedTarget,
            Desire(generation, lastDesired, lastSubmitted, stopping, submittedPlayer),
            Retry(retryTimer, retryDesire, retryPlayer, retryAttempt, episode), host.Abs())
    }

    constructor (host: RuntimeHost, cfg: Config, mode: Mode)
      requires host.Abs() == Initial(mode, host.workerAlive).host
      ensures this.cfg == cfg && this.host == host
      ensures Abs() == Initial(mode, host.workerAlive)
    {
      this.host, this.cfg, this.mode := host, cfg, mode;
      players, covers, seqNo, generation := map[], map[], 0, 0;
      applied, appliedTarget, lastDesired, lastSubmitted := None, None, None, None;
      stopping, submittedPlayer := false, None;
      retryTimer, retryDesire, retryPlayer, retryAttempt := None, None, None, 0;
      episode := Episode([], 0);
    }

    // ----- internals -----

    method Decide() returns (sel: Select.Selection)
      ensures sel == Choice(cfg, Abs())
    {
      var covers := this.covers;
      var eligible := n => n !in covers || covers[n].status.Eligible();
      sel := Select.Decide(players, mode, cfg.dirs, eligible);
      assert (set n | n in players && eligible(n)) == Eligible(Abs().book);
    }

    method SetCoverStatus(status: CoverStatus)
      modifies this`covers
      ensures Abs() == old(Abs()).(book := Restatus(old(Abs()).book, submittedPlayer, status))
    {
      if submittedPlayer.Some? && submittedPlayer.value in covers {
        var player := submittedPlayer.value;
        covers := covers[player := covers[player].(status := status)];
      }
    }

    /** The superseded player loses its retry chain, so it is demoted Retrying -> Pending. */
    method Demote()
      modifies this`covers
      ensures Abs() == old(Abs()).(book := CoordinatorSpec.Demote(old(Abs()).book, retryPlayer))
    {
      if retryPlayer.Some? && retryPlayer.value in covers && covers[retryPlayer.value].status.Retrying? {
        covers := covers[retryPlayer.value := covers[retryPlayer.value].(status := Pending)];
      }
    }

    method CancelRetry()
      modifies this, host
      ensures Abs() == CoordinatorSpec.CancelRetry(old(Abs()))
    {
      if retryTimer.Some? {
        host.CancelRetry(retryTimer.value);
        retryTimer := None;
        Demote();
      }
      ForgetRetry();
    }

    method ForgetRetry()
      modifies this`retryDesire, this`retryPlayer, this`retryAttempt, this`episode
      ensures Abs() == old(Abs()).(retry := NO_RETRY.(timer := retryTimer))
    {
      retryDesire, retryPlayer, retryAttempt := None, None, 0;
      episode := Episode([], 0);
    }

    method HandOver(player: Option<string>, desired: Desired)
      modifies this`submittedPlayer, host, host.mailbox
      ensures Abs() == CoordinatorSpec.Submit(old(Abs()), player, desired)
    {
      submittedPlayer := player;
      host.Submit(generation, desired);
    }

    method MaybeSubmit(desired: Desired, player: Option<string>, dirResubmit: bool)
      modifies this, host, host.mailbox
      ensures Abs() == CoordinatorSpec.MaybeSubmit(old(Abs()), desired, player, dirResubmit)
    {
      if stopping {
        return;
      }
      lastDesired := Some(desired);
      if lastSubmitted == Some(desired) {
        var stable := desired.target.None? || desired.target.value.artUrl != "";
        if !dirResubmit || stable {
          return;
        }
        HandOver(player, desired);
        return;
      }
      Supersede(desired, player);
    }

    /** A new desire, under a new generation and without the old one's retries. */
    method Supersede(desired: Desired, player: Option<string>)
      requires !stopping && lastSubmitted != Some(desired) && lastDesired == Some(desired)
      modifies this, host, host.mailbox
      ensures Abs() == CoordinatorSpec.MaybeSubmit(old(Abs()), desired, player, true)
    {
      generation := generation + 1;
      CancelRetry();
      lastSubmitted := Some(desired);
      HandOver(player, desired);
    }

    method DecideAndSubmit(dirResubmit: bool)
      modifies this, host, host.mailbox
      ensures Abs() == CoordinatorSpec.DecideAndSubmit(cfg, old(Abs()), dirResubmit)
    {
      var sel := Decide();
      match sel
      case Hold =>
      case Apply(desired, winner) => MaybeSubmit(desired, Some(winner), dirResubmit);
      case Revert(desired) => MaybeSubmit(desired, None, dirResubmit);
    }

    method ArmTimer(r: Reading)
      modifies this`retryTimer, this`retryPlayer, this`episode, host
      ensures Abs() == CoordinatorSpec.ArmTimer(old(Abs()), r)
    {
      if retryTimer.Some? {
        host.CancelRetry(retryTimer.value);
      }
      var delay := BackoffDelay(retryAttempt, r.jitter);
      var id := host.ScheduleRetry(delay, r.now);
      retryTimer, retryPlayer := Some(id), submittedPlayer;
      episode := episode.(delays := episode.delays + [(delay, r.jitter)]);
    }

    method ArmRetry(r: Reading) returns (exhausted: bool)
      modifies this, host
      ensures Abs() == CoordinatorSpec.ArmRetry(old(Abs()), r)
      ensures exhausted <==> retryAttempt > RETRY_MAX_ATTEMPTS
    {
      if lastSubmitted != retryDesire {
        retryDesire, retryAttempt := lastSubmitted, 0;
        episode := Episode([], 0);
      }
      retryAttempt := retryAttempt + 1;
      if retryAttempt > RETRY_MAX_ATTEMPTS {
        if retryAttempt == RETRY_MAX_ATTEMPTS + 1 {
          episode := episode.(giveUps := episode.giveUps + 1);
        }
        return true;
      }
      ArmTimer(r);
      exhausted := false;
    }

    // ----- handlers -----

    method Track(l: Lines.Line)
      modifies this
      ensures Abs() == CoordinatorSpec.Track(cfg, old(Abs()), l)
    {
      seqNo := seqNo + 1;
      players := players[l.name := PlayerState(l.status, l.artUrl, seqNo)];
      match Identity(cfg, l.name, l.artUrl)
      case None => covers := covers - {l.name};
      case Some(ident) =>
        if l.name in covers && covers[l.name].identity == ident {
          if covers[l.name].status.Exhausted? {
            covers := covers[l.name := CoverState(ident, Pending)];
            lastSubmitted := None;
          }
        } else {
          covers := covers[l.name := CoverState(ident, Pending)];
        }
    }

    /** A rejected line mutates nothing. */
    method OnLine(line: string)
      modifies this, host, host.mailbox
      ensures Abs() == CoordinatorSpec.OnLine(cfg, old(Abs()), line)
    {
      var l := Lines.Parse(cfg.bases, line);
      if l.Some? {
        Track(l.value);
        DecideAndSubmit(true);
      }
    }

    method OnVanish(busName: string)
      modifies this, host, host.mailbox
      ensures Abs() == CoordinatorSpec.OnVanish(cfg, old(Abs()), busName)
    {
      var name := PlayerNameFromBus(busName);
      if name.None? || name.value !in players {
        return;
      }
      players := players - {name.value};
      covers := covers - {name.value};
      DecideAndSubmit(false);
    }

    method OnScheme(value: nat)
      modifies this, host, host.mailbox
      ensures Abs() == CoordinatorSpec.OnScheme(cfg, old(Abs()), value)
    {
      var newMode := ModeFromScheme(value);
      if newMode == mode {
        return;
      }
      mode := newMode;
      var sel := Decide();
      if appliedTarget.Some? {
        var winnerIsShown := !sel.Hold? && sel.desired.target == appliedTarget;
        if !winnerIsShown {
          MaybeSubmit(Desired(appliedTarget, newMode), None, true);
          return;
        }
      }
      if sel.Apply? {
        MaybeSubmit(sel.desired, Some(sel.winner), true);
      }
    }

    method Settle(result: JobResult, r: Reading)
      modifies this, host
      ensures Abs() == CoordinatorSpec.Settle(old(Abs()), result, r)
    {
      match result.outcome
      case FailedRetryable =>
        var exhausted := ArmRetry(r);
        SetCoverStatus(if exhausted then Exhausted else Retrying);
      case Refused =>
        SetCoverStatus(Rejected);
      case _ =>
        Record(result.coverId);
    }

    /** A success: the cover last submitted is shown, and back-off starts anew. */
    method Record(coverId: Option<string>)
      modifies this`applied, this`appliedTarget, this`retryDesire, this`retryAttempt, this`episode, this`covers
      ensures Abs() == CoordinatorSpec.Recorded(old(Abs()), coverId)
    {
      applied := coverId;
      appliedTarget := if lastSubmitted.Some? then lastSubmitted.value.target else None;
      StartOver();
      SetCoverStatus(Ready);
    }

    method StartOver()
      modifies this`retryDesire, this`retryAttempt, this`episode
      ensures Abs() == old(Abs()).(retry := old(Abs()).retry.(desire := None, attempt := 0, episode := Episode([], 0)))
    {
      retryDesire, retryAttempt, episode := None, 0, Episode([], 0);
    }

    method Adopt(result: JobResult, r: Reading)
      modifies this, host, host.mailbox
      ensures Abs() == CoordinatorSpec.Adopt(cfg, old(Abs()), result, r)
    {
      if stopping || result.generation != generation {
        return;
      }
      Settle(result, r);
      DecideAndSubmit(false);
    }

    method BeginShutdown()
      modifies this, host
      ensures Abs() == CoordinatorSpec.BeginShutdown(old(Abs()))
    {
      stopping := true;
      generation := generation + 1;
      CancelRetry();
    }

    method FireRetry()
      modifies this, host, host.mailbox
      ensures Abs() == CoordinatorSpec.FireRetry(old(Abs()))
    {
      retryTimer := None;
      if stopping {
        return;
      }
      if retryDesire.None? {
        return;
      }
      if lastDesired != retryDesire {
        return;
      }
      generation := generation + 1;
      HandOver(retryPlayer, retryDesire.value);
    }
  }
}
