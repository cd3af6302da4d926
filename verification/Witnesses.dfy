/** Runs of the whole daemon, from boot, on which some natural-looking claims about it fail. */
module Witnesses {
  import opened Types
  import opened Select
  import opened CoordinatorSpec
  import opened WorkerSpec
  import opened System
  import opened Convergence
  import opened ShownTarget
  import opened Standing
  import WorkerRefinement
  import Lines

  // ----- playing -----

  /** Some run of the daemon, booted in dark mode, leads to `y`. */
  ghost predicate Played(cfg: Config, palette: WorkerRefinement.Extraction, y: Sys) {
    exists moves :: Play(cfg, palette, Booted(Dark), moves) == Some(y)
  }

  lemma BootPlayed(cfg: Config, palette: WorkerRefinement.Extraction)
    ensures Played(cfg, palette, Booted(Dark))
  {
    assert Play(cfg, palette, Booted(Dark), []) == Some(Booted(Dark));
  }

  lemma PlayMore(cfg: Config, palette: WorkerRefinement.Extraction, y: Sys, m: Move)
    requires Played(cfg, palette, y) && Possible(palette, y, m)
    ensures Played(cfg, palette, Perform(cfg, y, m))
  {
    var moves :| Play(cfg, palette, Booted(Dark), moves) == Some(y);
    assert (moves + [m])[..|moves|] == moves;
    assert Play(cfg, palette, Booted(Dark), moves + [m]) == Some(Perform(cfg, y, m));
  }

  /** Two followed players, `a` and `b`; `a` may have a covers directory. */
  function Two(dir: Option<string>): Config {
    Config(["a", "b"], name => if name == "a" then dir else None)
  }

  /** What an accepted line leads to. */
  ghost function Heard(cfg: Config, s: Coord, l: Lines.Line): Coord {
    DecideAndSubmit(cfg, Track(cfg, s, l), true)
  }

  /** A line that says something is accepted as saying just that. */
  lemma SaysParses(l: Lines.Line) returns (text: string)
    requires l.name in ["a", "b"] && '\t' !in l.artUrl && '\n' !in l.artUrl
    ensures Lines.Parse(["a", "b"], text) == Some(l)
  {
    text := l.name + "\t" + Lines.StatusName(l.status) + "\t" + l.artUrl;
    assert Lines.TrimNewlines(text) == text by {
      var last := text[|text| - 1];
      assert |l.artUrl| > 0 ==> last == l.artUrl[|l.artUrl| - 1] && last in l.artUrl;
      assert |l.artUrl| == 0 ==> last == '\t';
    }
    assert l.name == ["a", "b"][0] || l.name == ["a", "b"][1];
    Lines.ParseExact(["a", "b"], text, l);
  }

  lemma HeardIsActed(cfg: Config, s: Coord, l: Lines.Line, text: string)
    requires Lines.Parse(cfg.bases, text) == Some(l)
    ensures Act(cfg, s, Action.Line(text)) == Heard(cfg, s, l)
  {
  }

  lemma Hear(dir: Option<string>, palette: WorkerRefinement.Extraction, y: Sys, l: Lines.Line) returns (y': Sys)
    requires Played(Two(dir), palette, y)
    requires l.name in ["a", "b"] && '\t' !in l.artUrl && '\n' !in l.artUrl
    ensures y' == With(y, Heard(Two(dir), y.c, l)) && Played(Two(dir), palette, y')
  {
    y' := With(y, Heard(Two(dir), y.c, l));
    var text := SaysParses(l);
    HeardIsActed(Two(dir), y.c, l, text);
    PlayMore(Two(dir), palette, y, Outer(Action.Line(text)));
  }

  /** The oldest result is delivered, with a jitter of one. */
  lemma Learn(cfg: Config, palette: WorkerRefinement.Extraction, y: Sys) returns (y': Sys)
    requires Played(cfg, palette, y) && |y.queue| == 1
    ensures y'.c == Adopt(cfg, y.c, y.queue[0], Reading(0, 1.0)) && y'.w == y.w && y'.queue == []
    ensures Played(cfg, palette, y')
  {
    y' := Do(cfg, y, Deliver(Reading(0, 1.0)));
    PlayMore(cfg, palette, y, In(Deliver(Reading(0, 1.0))));
  }

  lemma FireTimer(cfg: Config, palette: WorkerRefinement.Extraction, y: Sys) returns (y': Sys)
    requires Played(cfg, palette, y) && y.c.host.timer.Some?
    ensures y'.c == FireDueTimer(y.c, y.c.host.timer.value.due) && y'.w == y.w && y'.queue == y.queue
    ensures Played(cfg, palette, y')
  {
    y' := Do(cfg, y, Fire);
    PlayMore(cfg, palette, y, In(Fire));
  }

  /** A job for a cover waits, and the worker has nothing else to do or to tell. */
  predicate Waits(y: Sys, job: Job) {
    y.c.host.slot == Some(job) && job.desired.target.Some? && y.w.phase.Idle? && y.queue == []
  }

  function Emptied(c: Coord): Coord { c.(host := c.host.(slot := None)) }

  /** The worker takes the job, and resolving its cover fails. */
  lemma Attempt(cfg: Config, palette: WorkerRefinement.Extraction, y: Sys, job: Job, res: Resolution)
    returns (y': Sys)
    requires Played(cfg, palette, y) && Waits(y, job) && !res.Ready?
    ensures y'.c == Emptied(y.c) && y'.w == y.w && Played(cfg, palette, y')
    ensures y'.queue == [JobResult(job.generation, if res.Refusal? then Refused else FailedRetryable, None)]
  {
    var st := Stage(res, ("", "", ""), true, false);
    var taken := Do(cfg, y, Work(st));
    PlayMore(cfg, palette, y, In(Work(st)));
    y' := Do(cfg, taken, Work(st));
    PlayMore(cfg, palette, taken, In(Work(st)));
  }

  /** The worker takes the job and gets as far as the call of ctl. */
  lemma Prepare(cfg: Config, palette: WorkerRefinement.Extraction, y: Sys, job: Job, content: ContentId)
    returns (y': Sys)
    requires Played(cfg, palette, y) && Waits(y, job)
    requires y.w.lastCommitted != Some(Cover(content, job.desired.mode))
    ensures y'.c == Emptied(y.c) && y'.queue == [] && Played(cfg, palette, y')
    ensures y'.w == y.w.(phase := Applying(job, "cover", content, palette(content, job.desired.mode)))
  {
    var st := Stage(Resolution.Ready("cover", content), palette(content, job.desired.mode), true, false);
    y' := y;
    for i := 0 to 5
      invariant Played(cfg, palette, y')
      invariant y'.queue == [] && y'.c == if i == 0 then y.c else Emptied(y.c)
      invariant y'.w == y.w.(phase :=
        if i == 0 then Idle
        else if i == 1 then Fetched(job)
        else if i == 2 then Resolved(job, "cover", content)
        else if i == 3 then Extracting(job, "cover", content)
        else if i == 4 then Extracted(job, "cover", content, st.colors)
        else Applying(job, "cover", content, st.colors))
    {
      PlayMore(cfg, palette, y', In(Work(st)));
      y' := Do(cfg, y', Work(st));
    }
  }

  /** The call of ctl succeeds. */
  lemma Commit(cfg: Config, palette: WorkerRefinement.Extraction, y: Sys, job: Job, content: ContentId)
    returns (y': Sys)
    requires Played(cfg, palette, y) && y.queue == []
    requires y.w.phase == Applying(job, "cover", content, palette(content, job.desired.mode))
    ensures y'.c == y.c && Played(cfg, palette, y')
    ensures y'.queue == [JobResult(job.generation, Outcome.Committed, Some("cover"))]
    ensures y'.w == Worker(Idle, Some(Cover(content, job.desired.mode)),
                           Palette(palette(content, job.desired.mode)), Some((job.desired, Some(content))))
  {
    var st := Stage(Resolution.Ready("cover", content), palette(content, job.desired.mode), true, false);
    y' := Do(cfg, y, Work(st));
    PlayMore(cfg, palette, y, In(Work(st)));
  }

  lemma NothingLeft(y: Sys)
    requires y.c.host.slot.None? && y.c.host.timer.None? && y.w.phase.Idle? && y.queue == []
    ensures AtRest(y)
  {
  }

  lemma Chosen(cfg: Config, s: Coord, w: string)
    requires Actionable(s.book.players, cfg.dirs, Eligible(s.book), w)
    requires forall m :: Actionable(s.book.players, cfg.dirs, Eligible(s.book), m) && m != w ==>
      s.book.players[m].seqNo < s.book.players[w].seqNo
    ensures Choice(cfg, s) == Apply(Desired(Some(TargetOf(s.book.players, cfg.dirs, w)), s.mode), w)
  {
    var e := Eligible(s.book);
    DecisionMeaning(s.book.players, s.mode, cfg.dirs, e);
    NameLessTotal(w, w);
    assert IsWinner(s.book.players, cfg.dirs, e, w);
    WinnerUnique(s.book.players, cfg.dirs, e, w, Choice(cfg, s).winner);
  }

  lemma Held(cfg: Config, s: Coord, p: string)
    requires IsPlaying(s.book.players, p)
    requires forall m :: !Actionable(s.book.players, cfg.dirs, Eligible(s.book), m)
    ensures Choice(cfg, s) == Hold
  {
    DecisionMeaning(s.book.players, s.mode, cfg.dirs, Eligible(s.book));
  }

  // ----- a directory player that is re-scanned while its timer is armed -----

  const SCAN: Desired := Desired(Some(CoverTarget("", Some("d"))), Dark)
  const SCANNED: Config := Two(Some("d"))
  const RESCAN: Job := Job(1, SCAN)

  /** The scan of `d` stands for this player. */
  function ScanFor(generation: nat, player: string): Desire {
    Desire(generation, Some(SCAN), Some(SCAN), false, Some(player))
  }

  /** `b` plays without any source; `a` plays from its directory, with `attempt` failures so far. */
  ghost predicate Scanning(s: Coord, attempt: nat, status: CoverStatus) {
    && s.book.players.Keys == {"a", "b"} && s.mode == Dark
    && s.book.players["b"] == PlayerState(Playing, "", 1)
    && s.book.players["a"].status == Playing && s.book.players["a"].artUrl == ""
    && s.book.covers == map["a" := CoverState(Dir("d"), status)]
    && s.cur == ScanFor(1, "a") && s.host.workerAlive
    && s.retry.attempt == attempt && s.retry.desire == (if attempt == 0 then None else Some(SCAN))
    && (s.retry.timer.Some? <==> attempt > 0) && (s.host.timer.Some? <==> attempt > 0)
  }

  function ScanStatus(failures: nat): CoverStatus {
    if failures == 0 then Pending else if failures < 4 then Retrying else Exhausted
  }

  lemma FirstScan(s: Coord)
    requires s == Heard(SCANNED, Initial(Dark, true), Lines.Line("b", Playing, ""))
    ensures var t := Heard(SCANNED, s, Lines.Line("a", Playing, ""));
      Scanning(t, 0, Pending) && t.host.slot == Some(RESCAN)
  {
    var t := Track(SCANNED, Initial(Dark, true), Lines.Line("b", Playing, ""));
    Held(SCANNED, t, "b");
    Chosen(SCANNED, Track(SCANNED, s, Lines.Line("a", Playing, "")), "a");
  }

  /** A repeated line scans again without a new generation. */
  lemma ScanAgain(s: Coord, attempt: nat, status: CoverStatus)
    requires Scanning(s, attempt, status) && status.Eligible()
    ensures var t := Heard(SCANNED, s, Lines.Line("a", Playing, ""));
      Scanning(t, attempt, status) && t.host.slot == Some(RESCAN)
  {
    Chosen(SCANNED, Track(SCANNED, s, Lines.Line("a", Playing, "")), "a");
  }

  /** A failure counts, and up to the third arms a timer; the fourth gives up without disarming it. */
  lemma ScanFails(s: Coord, attempt: nat)
    requires Scanning(s, attempt, ScanStatus(attempt)) && attempt <= 3
    ensures var t := Adopt(SCANNED, s, JobResult(1, FailedRetryable, None), Reading(0, 1.0));
      Scanning(t, attempt + 1, ScanStatus(attempt + 1)) && t.host.slot == s.host.slot
  {
    var t := Settle(s, JobResult(1, FailedRetryable, None), Reading(0, 1.0));
    if attempt < 3 {
      Chosen(SCANNED, t, "a");
    } else {
      Held(SCANNED, t, "b");
    }
  }

  /** A scan fails, and before that is known a line asks for the next one. */
  lemma ScanRound(palette: WorkerRefinement.Extraction, y: Sys, attempt: nat) returns (y': Sys)
    requires Played(SCANNED, palette, y) && Waits(y, RESCAN) && attempt <= 3
    requires Scanning(y.c, attempt, ScanStatus(attempt))
    ensures Played(SCANNED, palette, y') && Waits(y', RESCAN) && y'.w == y.w
    ensures Scanning(y'.c, attempt + 1, ScanStatus(attempt + 1))
  {
    y' := Attempt(SCANNED, palette, y, RESCAN, Retryable);
    ScanAgain(y'.c, attempt, ScanStatus(attempt));
    y' := Hear(Some("d"), palette, y', Lines.Line("a", Playing, ""));
    ScanFails(y'.c, attempt);
    y' := Learn(SCANNED, palette, y');
  }

  /** Giving up on a cover does not mean that no retry is scheduled: a directory is scanned beside its timer. */
  lemma ExhaustedWithLiveTimer(palette: WorkerRefinement.Extraction) returns (y: Sys)
    ensures Played(SCANNED, palette, y) && Waits(y, RESCAN) && y.w == Seeded(Dark) && Scanning(y.c, 4, Exhausted)
    ensures y.c.book.covers["a"].status.Exhausted? && y.c.host.timer.Some?
  {
    BootPlayed(SCANNED, palette);
    y := Hear(Some("d"), palette, Booted(Dark), Lines.Line("b", Playing, ""));
    FirstScan(y.c);
    y := Hear(Some("d"), palette, y, Lines.Line("a", Playing, ""));
    for i := 0 to 4
      invariant Played(SCANNED, palette, y) && Waits(y, RESCAN) && y.w == Seeded(Dark)
      invariant Scanning(y.c, i, ScanStatus(i))
    {
      y := ScanRound(palette, y, i);
    }
  }

  ghost predicate ReopenedAndHeld(t: Coord) {
    && t.book.players.Keys == {"a", "b"} && t.book.players["b"] == PlayerState(Playing, "", 1)
    && t.book.players["a"].status == Paused
    && t.book.covers == map["a" := CoverState(Dir("d"), Pending)]
    && t.cur == Desire(1, Some(SCAN), None, false, Some("a")) && t.host.timer.Some?
  }

  /** The given-up player pauses: its own line re-opens it, but the other player holds the selection. */
  lemma PausedWhileHeld(s: Coord)
    requires Scanning(s, 4, Exhausted)
    ensures var t := Heard(SCANNED, s, Lines.Line("a", Paused, ""));
      ReopenedAndHeld(t) && t.host == s.host
  {
    Held(SCANNED, Track(SCANNED, s, Lines.Line("a", Paused, "")), "b");
  }

  lemma CommitWhileHeld(t: Coord)
    requires ReopenedAndHeld(t)
    ensures var u := Adopt(SCANNED, t, JobResult(1, Outcome.Committed, Some("cover")), Reading(0, 1.0));
      && u.applied == Some("cover") && u.appliedTarget.None? && u.host == t.host && u.retry.desire.None?
  {
    Held(SCANNED, Settle(t, JobResult(1, Outcome.Committed, Some("cover")), Reading(0, 1.0)), "b");
  }

  /** At rest a cover can be on the screen while the coordinator records none: a re-opened player that is held. */
  lemma ShownCoverForgotten(palette: WorkerRefinement.Extraction, content: ContentId) returns (y: Sys)
    ensures Played(SCANNED, palette, y) && AtRest(y)
    ensures y.c.appliedTarget.None? && Shown(y.w) == SCAN.target && y.w.screen == Palette(palette(content, Dark))
  {
    y := ExhaustedWithLiveTimer(palette);
    PausedWhileHeld(y.c);
    y := Hear(Some("d"), palette, y, Lines.Line("a", Paused, ""));
    y := Prepare(SCANNED, palette, y, RESCAN, content);
    y := Commit(SCANNED, palette, y, RESCAN, content);
    CommitWhileHeld(y.c);
    y := Learn(SCANNED, palette, y);
    y := FireTimer(SCANNED, palette, y);
    NothingLeft(y);
  }

  // ----- a retry that lost its timer before it lost its turn -----

  const FIRST: Desired := Desired(Some(CoverTarget("u", None)), Dark)
  const SECOND: Desired := Desired(Some(CoverTarget("w", None)), Dark)
  const PLAIN: Config := Two(None)

  ghost predicate FirstAlone(s: Coord, generation: nat, status: CoverStatus) {
    && s.book == Book(map["a" := PlayerState(Playing, "u", 1)], map["a" := CoverState(Url("u"), status)], 1)
    && s.mode == Dark && s.cur == Desire(generation, Some(FIRST), Some(FIRST), false, Some("a"))
    && s.host.workerAlive
  }

  lemma StartFirst()
    ensures var s := Heard(PLAIN, Initial(Dark, true), Lines.Line("a", Playing, "u"));
      FirstAlone(s, 1, Pending) && s.retry == NO_RETRY && s.host.timer.None? && s.host.slot == Some(Job(1, FIRST))
  {
    Chosen(PLAIN, Track(PLAIN, Initial(Dark, true), Lines.Line("a", Playing, "u")), "a");
  }

  lemma FirstFails(s: Coord)
    requires FirstAlone(s, 1, Pending) && s.retry == NO_RETRY && s.host.timer.None?
    ensures var t := Adopt(PLAIN, s, JobResult(1, FailedRetryable, None), Reading(0, 1.0));
      && FirstAlone(t, 1, Retrying) && t.host.timer.Some?
      && t.retry.desire == Some(FIRST) && t.retry.player == Some("a")
  {
    Chosen(PLAIN, Settle(s, JobResult(1, FailedRetryable, None), Reading(0, 1.0)), "a");
  }

  lemma FirstFires(s: Coord)
    requires FirstAlone(s, 1, Retrying) && s.host.timer.Some?
    requires s.retry.desire == Some(FIRST) && s.retry.player == Some("a")
    ensures var t := FireDueTimer(s, s.host.timer.value.due);
      FirstAlone(t, 2, Retrying) && t.retry.timer.None? && t.host.timer.None?
  {
  }

  lemma NewerSupersedes(s: Coord)
    requires FirstAlone(s, 2, Retrying) && s.retry.timer.None? && s.host.timer.None?
    ensures var t := Heard(PLAIN, s, Lines.Line("b", Playing, "w"));
      && t.book.covers.Keys == {"a", "b"} && t.book.covers["a"].status.Retrying?
      && t.retry == NO_RETRY && t.host.timer.None?
      && t.cur.lastSubmitted == Some(SECOND)
  {
    Chosen(PLAIN, Track(PLAIN, s, Lines.Line("b", Playing, "w")), "b");
  }

  /** A superseded player keeps the status `Retrying` when its timer had already fired. */
  lemma RetryingWithoutTimer(palette: WorkerRefinement.Extraction) returns (y: Sys)
    ensures Played(PLAIN, palette, y) && y.c.book.covers.Keys == {"a", "b"}
    ensures y.c.book.covers["a"].status.Retrying? && y.c.cur.lastSubmitted == Some(SECOND)
    ensures y.c.retry.timer.None? && y.c.host.timer.None? && y.c.retry.desire.None?
  {
    BootPlayed(PLAIN, palette);
    StartFirst();
    y := Hear(None, palette, Booted(Dark), Lines.Line("a", Playing, "u"));
    y := Attempt(PLAIN, palette, y, Job(1, FIRST), Retryable);
    FirstFails(y.c);
    y := Learn(PLAIN, palette, y);
    FirstFires(y.c);
    y := FireTimer(PLAIN, palette, y);
    NewerSupersedes(y.c);
    y := Hear(None, palette, y, Lines.Line("b", Playing, "w"));
  }

  // ----- a result that lands on the wrong cover, and a cover that is never tried again -----

  /** `b` plays without a source; `a` has cover `url`; `u` is all that was ever submitted. */
  ghost predicate OnlyUSubmitted(s: Coord, status: PlaybackStatus, url: string, cover: CoverStatus) {
    && s.book.players.Keys == {"a", "b"} && s.mode == Dark
    && s.book.players["b"] == PlayerState(Playing, "", 1)
    && s.book.players["a"].status == status && s.book.players["a"].artUrl == url
    && s.book.covers == map["a" := CoverState(Url(url), cover)]
    && s.cur == Desire(1, Some(FIRST), Some(FIRST), false, Some("a"))
    && s.host.submissions == [Job(1, FIRST)] && s.retry.timer.None? && s.host.timer.None?
  }

  lemma StartU(s: Coord)
    requires s == Heard(PLAIN, Initial(Dark, true), Lines.Line("b", Playing, ""))
    ensures var t := Heard(PLAIN, s, Lines.Line("a", Playing, "u"));
      OnlyUSubmitted(t, Playing, "u", Pending) && t.host.slot == Some(Job(1, FIRST))
  {
    Held(PLAIN, Track(PLAIN, Initial(Dark, true), Lines.Line("b", Playing, "")), "b");
    Chosen(PLAIN, Track(PLAIN, s, Lines.Line("a", Playing, "u")), "a");
  }

  /** A pause with another cover: a fresh cover state, and the selection is held. */
  lemma PausesWithV(s: Coord)
    requires OnlyUSubmitted(s, Playing, "u", Pending)
    ensures var t := Heard(PLAIN, s, Lines.Line("a", Paused, "v"));
      OnlyUSubmitted(t, Paused, "v", Pending) && t.host == s.host
  {
    Held(PLAIN, Track(PLAIN, s, Lines.Line("a", Paused, "v")), "b");
  }

  lemma RefusedWhileHeld(s: Coord)
    requires OnlyUSubmitted(s, Paused, "v", Pending)
    ensures var t := Adopt(PLAIN, s, JobResult(1, Refused, None), Reading(0, 1.0));
      OnlyUSubmitted(t, Paused, "v", Rejected) && t.host == s.host
  {
    Held(PLAIN, Settle(s, JobResult(1, Refused, None), Reading(0, 1.0)), "b");
  }

  /** Playing a refused cover: the selection is still held. */
  lemma PlaysRefusedV(s: Coord)
    requires OnlyUSubmitted(s, Paused, "v", Rejected)
    ensures var t := Heard(PLAIN, s, Lines.Line("a", Playing, "v"));
      OnlyUSubmitted(t, Playing, "v", Rejected) && t.host == s.host
  {
    Held(PLAIN, Track(PLAIN, s, Lines.Line("a", Playing, "v")), "b");
  }

  /** Playing the first cover again: chosen, but its value is the one submitted last. */
  lemma PlaysUAgain(s: Coord)
    requires OnlyUSubmitted(s, Playing, "v", Rejected)
    ensures var t := Heard(PLAIN, s, Lines.Line("a", Playing, "u"));
      OnlyUSubmitted(t, Playing, "u", Pending) && Choice(PLAIN, t) == Apply(FIRST, "a") && t.host == s.host
  {
    var t := Track(PLAIN, s, Lines.Line("a", Playing, "u"));
    Chosen(PLAIN, t, "a");
    assert DecideAndSubmit(PLAIN, t, true) == t;
  }

  /** The refusal of one cover marks another, which was never submitted, as refused; playing it does not help. */
  lemma RefusalOfAnotherCover(palette: WorkerRefinement.Extraction) returns (y: Sys)
    ensures Played(PLAIN, palette, y) && OnlyUSubmitted(y.c, Playing, "v", Rejected)
    ensures AtRest(y) && y.c.host.slot.None? && y.w.phase.Idle? && y.queue == []
  {
    BootPlayed(PLAIN, palette);
    y := Hear(None, palette, Booted(Dark), Lines.Line("b", Playing, ""));
    StartU(y.c);
    y := Hear(None, palette, y, Lines.Line("a", Playing, "u"));
    PausesWithV(y.c);
    y := Hear(None, palette, y, Lines.Line("a", Paused, "v"));
    y := Attempt(PLAIN, palette, y, Job(1, FIRST), Refusal);
    RefusedWhileHeld(y.c);
    y := Learn(PLAIN, palette, y);
    PlaysRefusedV(y.c);
    y := Hear(None, palette, y, Lines.Line("a", Playing, "v"));
    NothingLeft(y);
  }

  /**
   * Coming back to a refused cover after another one: it is pending and chosen again, but value
   * dedup absorbs it, and with nothing left to happen neither a job nor a timer will try it.
   */
  lemma ReturnIsAbsorbed(palette: WorkerRefinement.Extraction) returns (refused: Sys, y: Sys)
    ensures Played(PLAIN, palette, refused) && OnlyUSubmitted(refused.c, Playing, "v", Rejected)
    ensures y == With(refused, Heard(PLAIN, refused.c, Lines.Line("a", Playing, "u")))
    ensures Played(PLAIN, palette, y) && AtRest(y)
    ensures OnlyUSubmitted(y.c, Playing, "u", Pending) && Choice(PLAIN, y.c) == Apply(FIRST, "a")
  {
    refused := RefusalOfAnotherCover(palette);
    PlaysUAgain(refused.c);
    y := Hear(None, palette, refused, Lines.Line("a", Playing, "u"));
    NothingLeft(y);
  }

  // ----- a cover that is shown too late -----

  lemma FirstCommits(s: Coord)
    requires FirstAlone(s, 1, Pending) && s.retry == NO_RETRY && s.host.timer.None?
    ensures var t := Adopt(PLAIN, s, JobResult(1, Outcome.Committed, Some("cover")), Reading(0, 1.0));
      && FirstAlone(t, 1, CoverStatus.Ready) && t.retry == NO_RETRY && t.host.timer.None?
      && t.appliedTarget == FIRST.target
  {
    Chosen(PLAIN, Settle(s, JobResult(1, Outcome.Committed, Some("cover")), Reading(0, 1.0)), "a");
  }

  /** `a` plays `u`, which is recorded as shown; `b` has `w` and plays or not. */
  ghost predicate Both(s: Coord, b: PlaybackStatus, cover: CoverStatus, cur: Desire) {
    && s.book.players.Keys == {"a", "b"} && s.mode == Dark
    && s.book.players["a"] == PlayerState(Playing, "u", 1) && s.book.players["b"].status == b
    && s.book.players["b"].artUrl == "w" && 1 < s.book.players["b"].seqNo <= s.book.seqNo
    && s.book.covers == map["a" := CoverState(Url("u"), cover), "b" := CoverState(Url("w"), Pending)]
    && s.cur == cur && s.host.workerAlive && s.appliedTarget == FIRST.target
  }

  lemma SecondStarts(s: Coord)
    requires FirstAlone(s, 1, CoverStatus.Ready) && s.retry == NO_RETRY && s.host.timer.None?
    requires s.appliedTarget == FIRST.target
    ensures var t := Heard(PLAIN, s, Lines.Line("b", Playing, "w"));
      && Both(t, Playing, CoverStatus.Ready, Desire(2, Some(SECOND), Some(SECOND), false, Some("b")))
      && t.host.slot == Some(Job(2, SECOND)) && t.host.timer.None? && t.retry == NO_RETRY
      && t.host.submissions != []
  {
    Chosen(PLAIN, Track(PLAIN, s, Lines.Line("b", Playing, "w")), "b");
  }

  /** The first player is on again, in its given attempt, with what `b` committed unrecorded. */
  ghost predicate Back(s: Coord, generation: nat, attempt: nat) {
    && Both(s, Paused, if attempt == 0 then CoverStatus.Ready else ScanStatus(attempt),
            Desire(generation, Some(FIRST), Some(FIRST), false, Some("a")))
    && s.retry.attempt == attempt && s.retry.desire == (if attempt == 0 then None else Some(FIRST))
    && (attempt > 0 ==> s.retry.player == Some("a"))
  }

  lemma SecondPauses(s: Coord)
    requires Both(s, Playing, CoverStatus.Ready, Desire(2, Some(SECOND), Some(SECOND), false, Some("b")))
    requires s.host.timer.None? && s.retry == NO_RETRY
    ensures var t := Heard(PLAIN, s, Lines.Line("b", Paused, "w"));
      Back(t, 3, 0) && t.host.slot == Some(Job(3, FIRST)) && t.host.timer.None?
  {
    Chosen(PLAIN, Track(PLAIN, s, Lines.Line("b", Paused, "w")), "a");
  }

  /** Every failure but the last arms the timer; the last one gives up, and selection is held. */
  lemma BackFails(s: Coord, generation: nat, attempt: nat)
    requires Back(s, generation, attempt) && attempt <= 3 && s.host.timer.None? && s.retry.timer.None?
    ensures var t := Adopt(PLAIN, s, JobResult(generation, FailedRetryable, None), Reading(0, 1.0));
      && Back(t, generation, attempt + 1) && (t.host.timer.Some? <==> attempt < 3) && t.host.slot == s.host.slot
      && (attempt == 3 ==> Choice(PLAIN, t) == Hold)
  {
    var t := Settle(s, JobResult(generation, FailedRetryable, None), Reading(0, 1.0));
    if attempt < 3 { Chosen(PLAIN, t, "a"); } else { Held(PLAIN, t, "a"); }
  }

  lemma BackFires(s: Coord, generation: nat, attempt: nat)
    requires Back(s, generation, attempt) && 1 <= attempt <= 3 && s.host.timer.Some?
    ensures var t := FireDueTimer(s, s.host.timer.value.due);
      && Back(t, generation + 1, attempt) && t.host.timer.None? && t.retry.timer.None?
      && t.host.slot == Some(Job(generation + 1, FIRST))
  {
  }

  /** One more attempt at the first cover fails, and its timer fires. */
  lemma BackRound(palette: WorkerRefinement.Extraction, y: Sys, attempt: nat) returns (y': Sys)
    requires Played(PLAIN, palette, y) && Back(y.c, 3 + attempt, attempt) && attempt < 3
    requires Waits(y, Job(3 + attempt, FIRST)) && y.c.host.timer.None? && y.c.retry.timer.None?
    ensures Played(PLAIN, palette, y') && Back(y'.c, 4 + attempt, attempt + 1) && y'.w == y.w
    ensures Waits(y', Job(4 + attempt, FIRST)) && y'.c.host.timer.None? && y'.c.retry.timer.None?
  {
    y' := Attempt(PLAIN, palette, y, Job(3 + attempt, FIRST), Retryable);
    BackFails(y'.c, 3 + attempt, attempt);
    y' := Learn(PLAIN, palette, y');
    BackFires(y'.c, 3 + attempt, attempt + 1);
    y' := FireTimer(PLAIN, palette, y');
  }

  lemma FlipWhileHeld(s: Coord)
    requires Back(s, 6, 4)
    ensures OnScheme(PLAIN, s, 2).cur.lastSubmitted == Some(Desired(FIRST.target, Light))
  {
  }

  lemma ShowsFirst(palette: WorkerRefinement.Extraction, content: ContentId) returns (y: Sys)
    ensures Played(PLAIN, palette, y) && FirstAlone(y.c, 1, CoverStatus.Ready) && y.c.retry == NO_RETRY
    ensures y.c.host.timer.None? && y.c.appliedTarget == FIRST.target
    ensures y.w.phase.Idle? && y.w.lastCommitted == Some(Cover(content, Dark)) && y.queue == []
    ensures y.w.shownFor == Some((FIRST, Some(content)))
  {
    BootPlayed(PLAIN, palette);
    StartFirst();
    y := Hear(None, palette, Booted(Dark), Lines.Line("a", Playing, "u"));
    y := Prepare(PLAIN, palette, y, Job(1, FIRST), content);
    y := Commit(PLAIN, palette, y, Job(1, FIRST), content);
    FirstCommits(y.c);
    y := Learn(PLAIN, palette, y);
  }

  lemma SecondIsHeard(palette: WorkerRefinement.Extraction, content: ContentId) returns (y: Sys)
    ensures Played(PLAIN, palette, y) && Waits(y, Job(2, SECOND)) && y.w.lastCommitted == Some(Cover(content, Dark))
    ensures y.w.shownFor == Some((FIRST, Some(content)))
    ensures Both(y.c, Playing, CoverStatus.Ready, Desire(2, Some(SECOND), Some(SECOND), false, Some("b")))
    ensures y.c.retry == NO_RETRY && y.c.host.timer.None? && y.c.host.submissions != []
  {
    y := ShowsFirst(palette, content);
    SecondStarts(y.c);
    y := Hear(None, palette, y, Lines.Line("b", Playing, "w"));
  }

  lemma AboutToCommit(palette: WorkerRefinement.Extraction, content: ContentId, content': ContentId)
    returns (y: Sys)
    requires content != content'
    ensures Played(PLAIN, palette, y) && y.queue == [] && y.c.host.timer.None? && y.c.retry == NO_RETRY
    ensures Both(y.c, Playing, CoverStatus.Ready, Desire(2, Some(SECOND), Some(SECOND), false, Some("b")))
    ensures y.w.phase == Applying(Job(2, SECOND), "cover", content', palette(content', Dark))
  {
    y := SecondIsHeard(palette, content);
    y := Prepare(PLAIN, palette, y, Job(2, SECOND), content');
  }

  /** The worker commits the second cover, after the selection went back to the first. */
  lemma CommitsTooLate(palette: WorkerRefinement.Extraction, content: ContentId, content': ContentId)
    returns (y: Sys)
    requires content != content'
    ensures Played(PLAIN, palette, y) && Back(y.c, 3, 0) && Waits(y, Job(3, FIRST))
    ensures y.c.host.timer.None? && y.c.retry.timer.None?
    ensures Shown(y.w) == SECOND.target && y.w.screen == Palette(palette(content', Dark))
  {
    y := AboutToCommit(palette, content, content');
    SecondPauses(y.c);
    y := Hear(None, palette, y, Lines.Line("b", Paused, "w"));
    y := Commit(PLAIN, palette, y, Job(2, SECOND), content');
    y := Learn(PLAIN, palette, y);
  }

  /**
   * At rest the recorded target can be another cover than the one on the screen: a superseded
   * job was committed, and the newer one failed for good. A theme flip then re-tones the wrong one.
   */
  lemma WrongCoverRecorded(palette: WorkerRefinement.Extraction, content: ContentId, content': ContentId)
    returns (y: Sys)
    requires content != content'
    ensures Played(PLAIN, palette, y) && AtRest(y) && y.c.appliedTarget == FIRST.target
    ensures Shown(y.w) == SECOND.target && y.w.screen == Palette(palette(content', Dark))
    ensures OnScheme(PLAIN, y.c, 2).cur.lastSubmitted == Some(Desired(FIRST.target, Light))
  {
    y := CommitsTooLate(palette, content, content');
    for i := 0 to 3
      invariant Played(PLAIN, palette, y) && Back(y.c, 3 + i, i) && Waits(y, Job(3 + i, FIRST))
      invariant y.c.host.timer.None? && y.c.retry.timer.None?
      invariant Shown(y.w) == SECOND.target && y.w.screen == Palette(palette(content', Dark))
    {
      y := BackRound(palette, y, i);
    }
    y := Attempt(PLAIN, palette, y, Job(6, FIRST), Retryable);
    BackFails(y.c, 6, 3);
    y := Learn(PLAIN, palette, y);
    FlipWhileHeld(y.c);
    NothingLeft(y);
  }

  // ----- a chosen cover that is not shown -----

  /** At rest `w`'s cover is chosen, but the screen shows something else, and no job or timer is left. */
  ghost predicate ChosenNotShown(cfg: Config, palette: WorkerRefinement.Extraction, y: Sys, w: string) {
    && AtRest(y) && Running(y) && Choice(cfg, y.c).Apply? && Choice(cfg, y.c).winner == w
    && w in y.c.book.covers && y.c.book.covers[w].status.Pending?
    && !ScreenShows(palette, y.w, Choice(cfg, y.c).desired)
  }

  const LATER: Desired := Desired(Some(CoverTarget("u", None)), Light)

  /** `a` alone, playing `url`; `u` was shown in dark mode, and re-toning it was submitted for no player. */
  ghost predicate Retoned(s: Coord, url: string, covers: map<string, CoverState>) {
    && s.book.players.Keys == {"a"} && s.book.players["a"].status == Playing && s.book.players["a"].artUrl == url
    && s.book.covers == covers && s.mode == Light
    && s.cur == Desire(2, Some(LATER), Some(LATER), false, None) && s.host.workerAlive
    && s.host.submissions != [] && s.retry.timer.None? && s.host.timer.None?
  }

  /** The only player loses its art, so that selection holds. */
  lemma LosesArt(s: Coord)
    requires FirstAlone(s, 1, CoverStatus.Ready)
    ensures var t := Heard(PLAIN, s, Lines.Line("a", Playing, ""));
      && t.book.players == map["a" := PlayerState(Playing, "", 2)] && t.book.covers == map[] && t.mode == Dark
      && t.cur == s.cur && t.host == s.host && t.retry == s.retry && t.appliedTarget == s.appliedTarget
  {
    Held(PLAIN, Track(PLAIN, s, Lines.Line("a", Playing, "")), "a");
  }

  lemma FlipRetones(t: Coord)
    requires t.book.players == map["a" := PlayerState(Playing, "", 2)] && t.book.covers == map[] && t.mode == Dark
    requires t.cur == Desire(1, Some(FIRST), Some(FIRST), false, Some("a")) && t.appliedTarget == FIRST.target
    requires t.host.workerAlive && t.host.timer.None? && t.retry == NO_RETRY
    ensures var u := Act(PLAIN, t, Scheme(2)); Retoned(u, "", map[]) && u.host.slot == Some(Job(2, LATER))
  {
    Held(PLAIN, t.(mode := Light), "a");
  }

  /** Its line with the art again is absorbed: the re-tone has that very value. */
  lemma ArtIsBack(s: Coord)
    requires Retoned(s, "", map[])
    ensures var t := Heard(PLAIN, s, Lines.Line("a", Playing, "u"));
      Retoned(t, "u", map["a" := CoverState(Url("u"), Pending)]) && t.host == s.host
  {
    var t := Track(PLAIN, s, Lines.Line("a", Playing, "u"));
    Chosen(PLAIN, t, "a");
    assert DecideAndSubmit(PLAIN, t, true) == t;
  }

  lemma RetoneRefused(s: Coord)
    requires Retoned(s, "u", map["a" := CoverState(Url("u"), Pending)])
    ensures var t := Adopt(PLAIN, s, JobResult(2, Refused, None), Reading(0, 1.0));
      && t.book == s.book && t.mode == s.mode && t.host == s.host && Choice(PLAIN, t) == Apply(LATER, "a")
  {
    var t := Settle(s, JobResult(2, Refused, None), Reading(0, 1.0));
    Chosen(PLAIN, t, "a");
    assert t == s && DecideAndSubmit(PLAIN, t, false) == t;
  }

  lemma Flip(cfg: Config, palette: WorkerRefinement.Extraction, y: Sys, value: nat) returns (y': Sys)
    requires Played(cfg, palette, y)
    ensures y' == With(y, Act(cfg, y.c, Scheme(value))) && Played(cfg, palette, y')
  {
    y' := With(y, Act(cfg, y.c, Scheme(value)));
    PlayMore(cfg, palette, y, Outer(Scheme(value)));
  }

  lemma Retones(palette: WorkerRefinement.Extraction, content: ContentId) returns (y: Sys)
    ensures Played(PLAIN, palette, y) && Retoned(y.c, "", map[]) && Waits(y, Job(2, LATER))
    ensures y.w.shownFor == Some((FIRST, Some(content)))
  {
    y := ShowsFirst(palette, content);
    LosesArt(y.c);
    y := Hear(None, palette, y, Lines.Line("a", Playing, ""));
    FlipRetones(y.c);
    y := Flip(PLAIN, palette, y, 2);
  }

  lemma RetoneRecord(s: Coord)
    requires Retoned(s, "u", map["a" := CoverState(Url("u"), Pending)])
    ensures Distinct(PLAIN, s) && !Misdirected(s) && !NotForRivals(PLAIN, s)
  {
    assert "a" in Rivals(PLAIN, s);
  }

  /**
   * With a single player: re-toning its former cover stands for no player, its line with the same
   * cover is absorbed, and when the re-tone is refused nobody is marked and nothing is tried again.
   */
  lemma RetoneStandsForNobody(palette: WorkerRefinement.Extraction, content: ContentId) returns (mid: Sys, y: Sys)
    ensures Played(PLAIN, palette, mid) && Awaiting(mid) && mid.c.book.players.Keys == {"a"}
    ensures Distinct(PLAIN, mid.c) && !Misdirected(mid.c) && !NotForRivals(PLAIN, mid.c)
    ensures Played(PLAIN, palette, y) && ChosenNotShown(PLAIN, palette, y, "a") && y.c.cur.player.None?
    ensures y.w.shownFor == Some((FIRST, Some(content)))
  {
    mid := Retones(palette, content);
    ArtIsBack(mid.c);
    mid := Hear(None, palette, mid, Lines.Line("a", Playing, "u"));
    RetoneRecord(mid.c);
    y := Attempt(PLAIN, palette, mid, Job(2, LATER), Refusal);
    RetoneRefused(y.c);
    y := Learn(PLAIN, palette, y);
    NothingLeft(y);
  }

  const SECOND_LATER: Desired := Desired(Some(CoverTarget("w", None)), Light)

  /** Both players play `w`, and `a` is the newer one. */
  ghost predicate Shared(s: Coord, cover: CoverStatus, mode: Mode, cur: Desire) {
    && s.book.players.Keys == {"a", "b"} && (forall n :: n in s.book.players ==>
          s.book.players[n].status == Playing && s.book.players[n].artUrl == "w")
    && s.book.players["b"].seqNo < s.book.players["a"].seqNo
    && s.book.covers == map["a" := CoverState(Url("w"), cover), "b" := CoverState(Url("w"), Pending)]
    && s.mode == mode && s.cur == cur && s.host.workerAlive
    && s.host.submissions != [] && s.retry == NO_RETRY && s.host.timer.None?
  }

  /** The line of `a` is absorbed: its cover was just submitted for `b`. */
  lemma FirstShares(s: Coord)
    requires Both(s, Playing, CoverStatus.Ready, Desire(2, Some(SECOND), Some(SECOND), false, Some("b")))
    requires s.retry == NO_RETRY && s.host.timer.None? && s.host.workerAlive && s.host.submissions != []
    ensures var t := Heard(PLAIN, s, Lines.Line("a", Playing, "w"));
      Shared(t, Pending, Dark, s.cur) && t.host == s.host && t.appliedTarget == s.appliedTarget
  {
    var t := Track(PLAIN, s, Lines.Line("a", Playing, "w"));
    Chosen(PLAIN, t, "a");
    assert DecideAndSubmit(PLAIN, t, true) == t;
  }

  lemma SharedFlip(s: Coord)
    requires Shared(s, Pending, Dark, Desire(2, Some(SECOND), Some(SECOND), false, Some("b")))
    requires s.appliedTarget == FIRST.target
    ensures var t := Act(PLAIN, s, Scheme(2));
      && Shared(t, Pending, Light, Desire(3, Some(LATER), Some(LATER), false, None))
      && t.host.slot == Some(Job(3, LATER))
  {
    Chosen(PLAIN, s.(mode := Light), "a");
  }

  lemma SharedRecord(s: Coord)
    requires Shared(s, Pending, Light, Desire(3, Some(LATER), Some(LATER), false, None))
    ensures !Distinct(PLAIN, s) && NotForRivals(PLAIN, s) && !Misdirected(s)
  {
    assert Candidate(PLAIN, s, "a") && Candidate(PLAIN, s, "b");
  }

  /** The re-tone failed, so the newer player's cover is submitted. */
  lemma SharedStarts(s: Coord)
    requires Shared(s, Pending, Light, Desire(3, Some(LATER), Some(LATER), false, None))
    ensures var t := Adopt(PLAIN, s, JobResult(3, Refused, None), Reading(0, 1.0));
      && Shared(t, Pending, Light, Desire(4, Some(SECOND_LATER), Some(SECOND_LATER), false, Some("a")))
      && t.host.slot == Some(Job(4, SECOND_LATER))
  {
    var t := Settle(s, JobResult(3, Refused, None), Reading(0, 1.0));
    assert t == s;
    Chosen(PLAIN, t, "a");
  }

  lemma SharedRefused(s: Coord)
    requires Shared(s, Pending, Light, Desire(4, Some(SECOND_LATER), Some(SECOND_LATER), false, Some("a")))
    ensures var t := Adopt(PLAIN, s, JobResult(4, Refused, None), Reading(0, 1.0));
      && Shared(t, Rejected, Light, s.cur) && t.host == s.host && Choice(PLAIN, t) == Apply(SECOND_LATER, "b")
  {
    var t := Settle(s, JobResult(4, Refused, None), Reading(0, 1.0));
    Chosen(PLAIN, t, "b");
    assert DecideAndSubmit(PLAIN, t, false) == t;
  }

  lemma BothPlayIt(palette: WorkerRefinement.Extraction, content: ContentId) returns (y: Sys)
    ensures Played(PLAIN, palette, y) && y.w.phase.Idle? && y.queue == [] && y.c.appliedTarget == FIRST.target
    ensures y.w.shownFor == Some((FIRST, Some(content)))
    ensures Shared(y.c, Pending, Dark, Desire(2, Some(SECOND), Some(SECOND), false, Some("b")))
  {
    y := SecondIsHeard(palette, content);
    FirstShares(y.c);
    y := Hear(None, palette, y, Lines.Line("a", Playing, "w"));
  }

  lemma SharedRetone(palette: WorkerRefinement.Extraction, content: ContentId) returns (y: Sys)
    ensures Played(PLAIN, palette, y) && Waits(y, Job(3, LATER)) && y.w.shownFor == Some((FIRST, Some(content)))
    ensures Shared(y.c, Pending, Light, Desire(3, Some(LATER), Some(LATER), false, None))
  {
    y := BothPlayIt(palette, content);
    SharedFlip(y.c);
    y := Flip(PLAIN, palette, y, 2);
  }

  lemma RetoneFails(palette: WorkerRefinement.Extraction, mid: Sys) returns (y: Sys)
    requires Played(PLAIN, palette, mid) && Waits(mid, Job(3, LATER))
    requires Shared(mid.c, Pending, Light, Desire(3, Some(LATER), Some(LATER), false, None))
    ensures Played(PLAIN, palette, y) && Waits(y, Job(4, SECOND_LATER)) && y.w == mid.w
    ensures Shared(y.c, Pending, Light, Desire(4, Some(SECOND_LATER), Some(SECOND_LATER), false, Some("a")))
  {
    y := Attempt(PLAIN, palette, mid, Job(3, LATER), Refusal);
    SharedStarts(y.c);
    y := Learn(PLAIN, palette, y);
  }

  /**
   * What stands submitted re-tones the cover on show and no player has it, but the two players
   * share another: once that one is submitted for the newer player, its refusal is not the older one's.
   */
  lemma SharedTargetIsStranded(palette: WorkerRefinement.Extraction, content: ContentId) returns (mid: Sys, y: Sys)
    ensures Played(PLAIN, palette, mid) && Awaiting(mid)
    ensures !Distinct(PLAIN, mid.c) && NotForRivals(PLAIN, mid.c) && !Misdirected(mid.c)
    ensures Played(PLAIN, palette, y) && ChosenNotShown(PLAIN, palette, y, "b") && y.c.cur.player == Some("a")
  {
    mid := SharedRetone(palette, content);
    SharedRecord(mid.c);
    y := RetoneFails(palette, mid);
    y := Attempt(PLAIN, palette, y, Job(4, SECOND_LATER), Refusal);
    SharedRefused(y.c);
    y := Learn(PLAIN, palette, y);
    NothingLeft(y);
  }

  // ----- a timer armed for a player that has moved on -----

  /** Two players that both use the covers directory `d`. */
  const SHARING: Config := Config(["a", "b"], name => Some("d"))

  lemma HearSharing(palette: WorkerRefinement.Extraction, y: Sys, l: Lines.Line) returns (y': Sys)
    requires Played(SHARING, palette, y)
    requires l.name in ["a", "b"] && '\t' !in l.artUrl && '\n' !in l.artUrl
    ensures y' == With(y, Heard(SHARING, y.c, l)) && Played(SHARING, palette, y')
  {
    y' := With(y, Heard(SHARING, y.c, l));
    var text := SaysParses(l);
    HeardIsActed(SHARING, y.c, l, text);
    PlayMore(SHARING, palette, y, Outer(Action.Line(text)));
  }

  /** Only `a` is known, playing from the directory. */
  ghost predicate ScansAlone(s: Coord, status: CoverStatus) {
    && s.book == Book(map["a" := PlayerState(Playing, "", 1)], map["a" := CoverState(Dir("d"), status)], 1)
    && s.mode == Dark && s.cur == ScanFor(1, "a") && s.host.workerAlive
    && s.host.submissions != []
  }

  lemma SharingStarts()
    ensures var s := Heard(SHARING, Initial(Dark, true), Lines.Line("a", Playing, ""));
      ScansAlone(s, Pending) && s.retry == NO_RETRY && s.host.timer.None? && s.host.slot == Some(RESCAN)
  {
    Chosen(SHARING, Track(SHARING, Initial(Dark, true), Lines.Line("a", Playing, "")), "a");
  }

  lemma SharingFails(s: Coord)
    requires ScansAlone(s, Pending) && s.retry == NO_RETRY && s.host.timer.None?
    ensures var t := Adopt(SHARING, s, JobResult(1, FailedRetryable, None), Reading(0, 1.0));
      && ScansAlone(t, Retrying) && t.host.timer.Some? && t.retry.timer.Some?
      && t.retry.desire == Some(SCAN) && t.retry.player == Some("a")
  {
    Chosen(SHARING, Settle(s, JobResult(1, FailedRetryable, None), Reading(0, 1.0)), "a");
  }

  /** `b` plays from the directory; `a` has `url` and the retry of the first scan, if its timer is still armed. */
  ghost predicate TakenOver(s: Coord, a: PlaybackStatus, url: string, cover: CoverState, cur: Desire) {
    && s.book.players.Keys == {"a", "b"} && s.mode == Dark && s.cur == cur && s.host.workerAlive
    && s.book.players["a"].status == a && s.book.players["a"].artUrl == url
    && s.book.players["b"].status == Playing && s.book.players["b"].artUrl == ""
    && s.book.covers == map["a" := cover, "b" := CoverState(Dir("d"), Pending)]
    && s.host.submissions != [] && s.retry.desire == Some(SCAN) && s.retry.player == Some("a")
  }

  /** The newer player scans the same directory, under the same generation and beside the timer. */
  lemma OtherScans(s: Coord)
    requires ScansAlone(s, Retrying) && s.host.timer.Some? && s.retry.timer.Some?
    requires s.retry.desire == Some(SCAN) && s.retry.player == Some("a")
    ensures var t := Heard(SHARING, s, Lines.Line("b", Playing, ""));
      && TakenOver(t, Playing, "", CoverState(Dir("d"), Retrying), ScanFor(1, "b"))
      && t.book.players["b"].seqNo == 2 && t.book.seqNo == 2
      && t.host.slot == Some(RESCAN) && t.host.timer.Some? && t.retry.timer.Some?
  {
    Chosen(SHARING, Track(SHARING, s, Lines.Line("b", Playing, "")), "b");
  }

  lemma FirstMovesOn(s: Coord)
    requires s.host.timer.Some? && s.retry.timer.Some?
    requires TakenOver(s, Playing, "", CoverState(Dir("d"), Retrying), ScanFor(1, "b"))
    ensures var t := Heard(SHARING, s, Lines.Line("a", Paused, "x"));
      && TakenOver(t, Paused, "x", CoverState(Url("x"), Pending), ScanFor(1, "b"))
      && t.host.timer.Some? && t.retry.timer.Some? && t.host.slot == Some(RESCAN)
  {
    Chosen(SHARING, Track(SHARING, s, Lines.Line("a", Paused, "x")), "b");
  }

  lemma TimerRecord(s: Coord)
    requires s.retry.timer.Some?
    requires TakenOver(s, Paused, "x", CoverState(Url("x"), Pending), ScanFor(1, "b"))
    ensures Distinct(SHARING, s) && NotForRivals(SHARING, s) && Misdirected(s)
  {
  }

  lemma TimerFires(s: Coord)
    requires s.host.timer.Some?
    requires TakenOver(s, Paused, "x", CoverState(Url("x"), Pending), ScanFor(1, "b"))
    ensures var t := FireDueTimer(s, s.host.timer.value.due);
      && TakenOver(t, Paused, "x", CoverState(Url("x"), Pending), ScanFor(2, "a"))
      && t.host.timer.None? && t.host.slot == Some(Job(2, SCAN))
  {
  }

  lemma ScanRefused(s: Coord)
    requires s.host.timer.None?
    requires TakenOver(s, Paused, "x", CoverState(Url("x"), Pending), ScanFor(2, "a"))
    ensures var t := Adopt(SHARING, s, JobResult(2, Refused, None), Reading(0, 1.0));
      && TakenOver(t, Paused, "x", CoverState(Url("x"), Rejected), ScanFor(2, "a"))
      && t.host == s.host && Choice(SHARING, t) == Apply(SCAN, "b")
  {
    var t := Settle(s, JobResult(2, Refused, None), Reading(0, 1.0));
    Chosen(SHARING, t, "b");
    assert DecideAndSubmit(SHARING, t, false) == t;
  }

  lemma ScanMovesOver(palette: WorkerRefinement.Extraction) returns (y: Sys)
    ensures Played(SHARING, palette, y) && Waits(y, RESCAN) && y.w == Seeded(Dark)
    ensures y.c.host.timer.Some? && y.c.retry.timer.Some?
    ensures TakenOver(y.c, Playing, "", CoverState(Dir("d"), Retrying),
                      ScanFor(1, "b"))
  {
    BootPlayed(SHARING, palette);
    SharingStarts();
    y := HearSharing(palette, Booted(Dark), Lines.Line("a", Playing, ""));
    y := Attempt(SHARING, palette, y, RESCAN, Retryable);
    SharingFails(y.c);
    y := Learn(SHARING, palette, y);
    OtherScans(y.c);
    y := HearSharing(palette, y, Lines.Line("b", Playing, ""));
  }

  lemma TimerIsAnothers(palette: WorkerRefinement.Extraction) returns (y: Sys)
    ensures Played(SHARING, palette, y) && Waits(y, RESCAN) && y.w == Seeded(Dark) && y.c.host.timer.Some?
    ensures TakenOver(y.c, Paused, "x", CoverState(Url("x"), Pending), ScanFor(1, "b"))
    ensures Distinct(SHARING, y.c) && NotForRivals(SHARING, y.c) && Misdirected(y.c)
  {
    y := ScanMovesOver(palette);
    FirstMovesOn(y.c);
    y := HearSharing(palette, y, Lines.Line("a", Paused, "x"));
    TimerRecord(y.c);
  }

  /**
   * No two candidates share a target and the standing scan is the chosen player's, but the timer is
   * another's: it re-submits for that one, whose cover is then marked instead.
   */
  lemma TimerStandsForAnother(palette: WorkerRefinement.Extraction) returns (mid: Sys, y: Sys)
    ensures Played(SHARING, palette, mid) && Awaiting(mid)
    ensures Distinct(SHARING, mid.c) && NotForRivals(SHARING, mid.c) && Misdirected(mid.c)
    ensures Played(SHARING, palette, y) && ChosenNotShown(SHARING, palette, y, "b") && y.c.cur.player == Some("a")
  {
    mid := TimerIsAnothers(palette);
    TimerFires(mid.c);
    y := FireTimer(SHARING, palette, mid);
    y := Attempt(SHARING, palette, y, Job(2, SCAN), Refusal);
    ScanRefused(y.c);
    y := Learn(SHARING, palette, y);
    NothingLeft(y);
  }
}
