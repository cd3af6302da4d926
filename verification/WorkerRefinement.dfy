/**
 * Serving whole jobs, and the dedup key's justification: a worker that skips what it believes
 * is already shown leaves the same screen as one that re-applies everything.
 */
module WorkerRefinement {
  import opened Types
  import opened WorkerSpec

  /** What happens before and during one micro-step: puts that arrive, then the stage called. */
  datatype Beat = Beat(puts: seq<Job>, stage: Stage)

  datatype Served = Served(worker: Worker, slot: Option<Job>, report: Option<JobResult>)

  function Arrive(slot: Option<Job>, puts: seq<Job>): Option<Job> {
    if |puts| == 0 then slot else Some(puts[|puts| - 1])
  }

  /** A key of `None` never matches, so clearing it before every step is re-applying everything. */
  function Keyed(dedup: bool, w: Worker): Worker {
    if dedup then w else w.(lastCommitted := None)
  }

  /** Runs the job in hand to its end. */
  function Drive(dedup: bool, w: Worker, slot: Option<Job>, beats: seq<Beat>): Served
    requires !w.phase.Idle? && |beats| >= Remaining(w.phase)
    decreases Remaining(w.phase)
  {
    var slot := Arrive(slot, beats[0].puts);
    var e := Step(Keyed(dedup, w), slot, beats[0].stage);
    if e.worker.phase.Idle? then Served(e.worker, slot, e.report)
    else Drive(dedup, e.worker, slot, beats[1..])
  }

  datatype Task = Task(job: Job, slot: Option<Job>, beats: seq<Beat>)

  function ServeAll(dedup: bool, w: Worker, tasks: seq<Task>): Worker
    requires w.phase.Idle? && forall t | t in tasks :: |t.beats| == 5
    ensures ServeAll(dedup, w, tasks).phase.Idle?
    decreases |tasks|
  {
    if |tasks| == 0 then w
    else
      var t := tasks[0];
      DriveEnds(dedup, w.(phase := Fetched(t.job)), t.slot, t.beats);
      ServeAll(dedup, Drive(dedup, w.(phase := Fetched(t.job)), t.slot, t.beats).worker, tasks[1..])
  }

  lemma {:induction false} DriveEnds(dedup: bool, w: Worker, slot: Option<Job>, beats: seq<Beat>)
    requires !w.phase.Idle? && |beats| >= Remaining(w.phase)
    ensures Drive(dedup, w, slot, beats).worker.phase.Idle?
    decreases Remaining(w.phase)
  {
    var slot := Arrive(slot, beats[0].puts);
    var e := Step(Keyed(dedup, w), slot, beats[0].stage);
    if !e.worker.phase.Idle? { DriveEnds(dedup, e.worker, slot, beats[1..]); }
  }

  type Extraction = (ContentId, Mode) -> Colors

  function ScreenOf(palette: Extraction, key: Committed): Screen {
    match key
    case Preset(_) => ConfigPreset
    case Cover(content, mode) => Palette(palette(content, mode))
  }

  /** `last_committed` names what the screen shows. */
  predicate Truthful(palette: Extraction, w: Worker) {
    w.lastCommitted.Some? ==> w.screen == ScreenOf(palette, w.lastCommitted.value)
  }

  /** Extraction is determined by the content and the mode, at every stage the phase still holds. */
  ghost predicate Determined(palette: Extraction, p: Phase, beats: seq<Beat>)
    requires |beats| >= Remaining(p)
  {
    match p
    case Fetched(job) =>
      beats[0].stage.resolution.Ready? ==>
        beats[2].stage.colors == palette(beats[0].stage.resolution.content, job.desired.mode)
    case Resolved(job, _, content) => beats[1].stage.colors == palette(content, job.desired.mode)
    case Extracting(job, _, content) => beats[0].stage.colors == palette(content, job.desired.mode)
    case Extracted(job, _, content, colors) => colors == palette(content, job.desired.mode)
    case Applying(job, _, content, colors) => colors == palette(content, job.desired.mode)
    case _ => true
  }

  /** The screen the job in hand would set. */
  function Aim(palette: Extraction, p: Phase): Screen
    requires !p.Idle? && !p.Fetched?
  {
    if p.Reverting? then ConfigPreset else Palette(palette(p.content, p.job.desired.mode))
  }

  /** Re-applying what is already shown changes nothing, whether it succeeds, fails, panics or is dropped. */
  lemma {:induction false} ReapplyIsIdle(palette: Extraction, w: Worker, slot: Option<Job>, beats: seq<Beat>)
    requires !w.phase.Idle? && !w.phase.Fetched? && |beats| >= Remaining(w.phase)
    requires Determined(palette, w.phase, beats) && w.screen == Aim(palette, w.phase)
    ensures Drive(false, w, slot, beats).worker.screen == w.screen
    decreases Remaining(w.phase)
  {
    var slot := Arrive(slot, beats[0].puts);
    var e := Step(Keyed(false, w), slot, beats[0].stage);
    if !e.worker.phase.Idle? { ReapplyIsIdle(palette, e.worker, slot, beats[1..]); }
  }

  /** Both workers at the same point of the same job, showing the same screen, end on the same screen. */
  lemma {:induction false} DriveRefines(palette: Extraction, d: Worker, n: Worker, slot: Option<Job>, beats: seq<Beat>)
    requires !d.phase.Idle? && n.phase == d.phase && |beats| >= Remaining(d.phase)
    requires Determined(palette, d.phase, beats) && Truthful(palette, d) && n.screen == d.screen
    ensures var d' := Drive(true, d, slot, beats).worker; var n' := Drive(false, n, slot, beats).worker;
      Truthful(palette, d') && n'.screen == d'.screen
    decreases Remaining(d.phase)
  {
    var slot := Arrive(slot, beats[0].puts);
    var de := Step(d, slot, beats[0].stage);
    var ne := Step(Keyed(false, n), slot, beats[0].stage);
    if !de.worker.phase.Idle? {
      DriveRefines(palette, de.worker, ne.worker, slot, beats[1..]);
    } else if !ne.worker.phase.Idle? {
      ReapplyIsIdle(palette, ne.worker, slot, beats[1..]);
    }
  }

  /**
   * After any sequence of jobs, puts, resolutions, ctl failures and panics, `last_committed`
   * names what is shown, and the screen is the one a worker without dedup would leave.
   */
  lemma {:induction false} DedupRefinesReapplying(palette: Extraction, d: Worker, n: Worker, tasks: seq<Task>)
    requires d.phase.Idle? && n.phase.Idle? && n.screen == d.screen && Truthful(palette, d)
    requires forall t | t in tasks :: |t.beats| == 5 && Determined(palette, Fetched(t.job), t.beats)
    ensures var d' := ServeAll(true, d, tasks); var n' := ServeAll(false, n, tasks);
      Truthful(palette, d') && n'.screen == d'.screen
    decreases |tasks|
  {
    if |tasks| > 0 {
      var t := tasks[0];
      var d1 := d.(phase := Fetched(t.job));
      var n1 := n.(phase := Fetched(t.job));
      DriveRefines(palette, d1, n1, t.slot, t.beats);
      DriveEnds(true, d1, t.slot, t.beats);
      DriveEnds(false, n1, t.slot, t.beats);
      DedupRefinesReapplying(palette, Drive(true, d1, t.slot, t.beats).worker,
                             Drive(false, n1, t.slot, t.beats).worker, tasks[1..]);
    }
  }

  /** The one job that would bring the screen to what the key claims it shows. */
  function Exposing(palette: Extraction, key: Committed): Task {
    var (target, content, mode) :=
      match key
      case Preset(mode) => (None, (0, 0), mode)
      case Cover(content, mode) => (Some(CoverTarget("", None)), content, mode);
    var beat := Beat([], Stage(Ready("", content), palette(content, mode), true, false));
    Task(Job(1, Desired(target, mode)), None, [beat, beat, beat, beat, beat])
  }

  /**
   * The premise is needed: a key that does not name what the screen shows, as after a failed
   * start-up revert, makes the deduplicating worker leave the wrong screen after that one job.
   */
  lemma {:induction false} UntruthfulKeyShows(palette: Extraction, d: Worker, n: Worker)
    requires d.phase.Idle? && n.phase.Idle? && n.screen == d.screen && !Truthful(palette, d)
    ensures var t := Exposing(palette, d.lastCommitted.value);
      && |t.beats| == 5 && Determined(palette, Fetched(t.job), t.beats)
      && ServeAll(true, d, [t]).screen == d.screen
      && ServeAll(false, n, [t]).screen == ScreenOf(palette, d.lastCommitted.value) != d.screen
  {
    var t := Exposing(palette, d.lastCommitted.value);
    var (d1, n1) := (d.(phase := Fetched(t.job)), n.(phase := Fetched(t.job)));
    DriveEnds(true, d1, None, t.beats);
    DriveEnds(false, n1, None, t.beats);
    ReapplyShows(palette, n1, d.lastCommitted.value);
    assert ServeAll(true, d, [t]) == ServeAll(true, Drive(true, d1, None, t.beats).worker, []);
    assert ServeAll(false, n, [t]) == ServeAll(false, Drive(false, n1, None, t.beats).worker, []);
  }

  lemma {:induction false} ReapplyShows(palette: Extraction, n: Worker, key: Committed)
    requires var t := Exposing(palette, key); n.phase == Fetched(t.job)
    ensures Drive(false, n, None, Exposing(palette, key).beats).worker.screen == ScreenOf(palette, key)
  {
    var beats := Exposing(palette, key).beats;
    if key.Preset? {
      var n1 := Step(Keyed(false, n), None, beats[0].stage).worker;
      assert n1.phase.Reverting?;
      assert Drive(false, n, None, beats) == Drive(false, n1, None, beats[1..]);
    } else {
      var n1 := Step(Keyed(false, n), None, beats[0].stage).worker;
      var n2 := Step(Keyed(false, n1), None, beats[1].stage).worker;
      var n3 := Step(Keyed(false, n2), None, beats[2].stage).worker;
      var n4 := Step(Keyed(false, n3), None, beats[3].stage).worker;
      assert Drive(false, n, None, beats) == Drive(false, n1, None, beats[1..]);
      assert Drive(false, n1, None, beats[1..]) == Drive(false, n2, None, beats[1..][1..]);
      assert Drive(false, n2, None, beats[1..][1..]) == Drive(false, n3, None, beats[1..][1..][1..]);
      assert Drive(false, n3, None, beats[1..][1..][1..]) == Drive(false, n4, None, beats[1..][1..][1..][1..]);
    }
  }

  /** The daemon's seed satisfies the premise, so the theorem holds from start-up on. */
  lemma {:induction false} SeededWorkerRefines(palette: Extraction, mode: Mode, tasks: seq<Task>)
    requires forall t | t in tasks :: |t.beats| == 5 && Determined(palette, Fetched(t.job), t.beats)
    ensures ServeAll(true, Seeded(mode), tasks).screen == ServeAll(false, Seeded(mode), tasks).screen
  {
    DedupRefinesReapplying(palette, Seeded(mode), Seeded(mode), tasks);
  }
}
