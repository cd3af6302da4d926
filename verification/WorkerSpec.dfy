/**
 * The palette worker as a machine of micro-steps, so that a `put` can fall between any two of
 * them. A step that locks the mailbox sees the slot as it is at that moment.
 */
module WorkerSpec {
  import opened Types

  type ContentId = (nat, nat)
  type Colors = (string, string, string)

  datatype Resolution = Ready(path: string, content: ContentId) | Retryable | Refusal

  /** The last change the worker confirmed: the layer-2 dedup key. */
  datatype Committed = Preset(mode: Mode) | Cover(content: ContentId, mode: Mode)

  /** What wlchroma shows. */
  datatype Screen = Unknown | ConfigPreset | Palette(colors: Colors)

  datatype Phase =
    | Idle
    | Fetched(job: Job)
    | Reverting(job: Job)
    | Resolved(job: Job, path: string, content: ContentId)
    | Extracting(job: Job, path: string, content: ContentId)
    | Extracted(job: Job, path: string, content: ContentId, colors: Colors)
    | Applying(job: Job, path: string, content: ContentId, colors: Colors)

  /** `shownFor` is a history: the job's desire, and its content, that the screen last answered. */
  datatype Worker = Worker(
    phase: Phase, lastCommitted: Option<Committed>, screen: Screen,
    shownFor: Option<(Desired, Option<ContentId>)>)

  /** How the stage called in this step behaves; a panic or a failed ctl changes nothing. */
  datatype Stage = Stage(resolution: Resolution, colors: Colors, ctlOk: bool, panics: bool)

  /** One micro-step: the worker after it, and what it did to the outside. */
  datatype Effect = Effect(worker: Worker, takes: bool, report: Option<JobResult>, drops: bool, ctl: bool)

  predicate Superseded(slot: Option<Job>, generation: nat) {
    slot.Some? && slot.value.generation > generation
  }

  function Moves(w: Worker, phase: Phase): Effect {
    Effect(w.(phase := phase), false, None, false, false)
  }

  function Reports(w: Worker, job: Job, outcome: Outcome, coverId: Option<string>): Effect {
    Effect(w.(phase := Idle), false, Some(JobResult(job.generation, outcome, coverId)), false, false)
  }

  function Drops(w: Worker): Effect {
    Effect(w.(phase := Idle), false, None, true, false)
  }

  function Commits(w: Worker, job: Job, key: Committed, screen: Screen, content: Option<ContentId>,
                   coverId: Option<string>): Effect {
    Reports(w.(lastCommitted := Some(key), screen := screen, shownFor := Some((job.desired, content))),
            job, Outcome.Committed, coverId).(ctl := true)
  }

  predicate CanStep(w: Worker, slot: Option<Job>) {
    w.phase.Idle? ==> slot.Some?
  }

  function Step(w: Worker, slot: Option<Job>, st: Stage): Effect
    requires CanStep(w, slot)
  {
    match w.phase
    case Idle => Moves(w, Fetched(slot.value)).(takes := true)
    case Fetched(job) =>
      if job.desired.target.None? then
        if w.lastCommitted == Some(Preset(job.desired.mode)) then
          Reports(w.(shownFor := Some((job.desired, None))), job, SkippedDuplicate, None)
        else if Superseded(slot, job.generation) then Drops(w)
        else Moves(w, Reverting(job))
      else if st.panics then Reports(w, job, FailedRetryable, None)
      else (match st.resolution
            case Retryable => Reports(w, job, FailedRetryable, None)
            case Refusal => Reports(w, job, Refused, None)
            case Ready(path, content) => Moves(w, Resolved(job, path, content)))
    case Reverting(job) =>
      if st.panics || !st.ctlOk then Reports(w, job, FailedRetryable, None).(ctl := true)
      else Commits(w, job, Preset(job.desired.mode), ConfigPreset, None, None)
    case Resolved(job, path, content) =>
      if w.lastCommitted == Some(Cover(content, job.desired.mode)) then
        Reports(w.(shownFor := Some((job.desired, Some(content)))), job, SkippedDuplicate, Some(path))
      else if Superseded(slot, job.generation) then Drops(w)
      else Moves(w, Extracting(job, path, content))
    case Extracting(job, path, content) =>
      if st.panics then Reports(w, job, FailedRetryable, None)
      else Moves(w, Extracted(job, path, content, st.colors))
    case Extracted(job, path, content, colors) =>
      if Superseded(slot, job.generation) then Drops(w)
      else Moves(w, Applying(job, path, content, colors))
    case Applying(job, path, content, colors) =>
      if st.panics || !st.ctlOk then Reports(w, job, FailedRetryable, None).(ctl := true)
      else Commits(w, job, Cover(content, job.desired.mode), Palette(colors), Some(content), Some(path))
  }

  /** The worker as the daemon starts it: seeded with the revert it has just carried out. */
  function Seeded(mode: Mode): Worker {
    Worker(Idle, Some(Preset(mode)), ConfigPreset, None)
  }

  /** How many micro-steps a job in this phase can still take. */
  function Remaining(p: Phase): nat {
    match p
    case Idle => 0
    case Fetched(_) => 5
    case Reverting(_) => 1
    case Resolved(_, _, _) => 4
    case Extracting(_, _, _) => 3
    case Extracted(_, _, _, _) => 2
    case Applying(_, _, _, _) => 1
  }

  /** A job in hand ends in exactly one of two ways: reported, or dropped for a strictly newer one. */
  lemma StepShape(w: Worker, slot: Option<Job>, st: Stage)
    requires CanStep(w, slot)
    ensures var e := Step(w, slot, st);
      && (e.takes <==> w.phase.Idle?)
      && (e.takes ==> e.worker.phase == Fetched(slot.value) && e.report.None? && !e.drops && !e.ctl)
      && (!e.takes && !e.worker.phase.Idle? ==>
            e.worker.phase.job == w.phase.job && e.report.None? && !e.drops && !e.ctl)
      && (!e.takes ==> Remaining(e.worker.phase) < Remaining(w.phase))
      && (!e.takes && e.worker.phase.Idle? ==>
            && (e.drops <==> e.report.None?)
            && (e.drops ==> Superseded(slot, w.phase.job.generation) && !e.ctl)
            && (e.report.Some? ==> e.report.value.generation == w.phase.job.generation))
  {
  }

  /** What a job is deduplicated by: the preset, or the content of its cover, in its mode. */
  function KeyOf(job: Job, content: Option<ContentId>): Committed {
    if content.None? then Preset(job.desired.mode) else Cover(content.value, job.desired.mode)
  }

  /** The content of the cover in hand; a revert has none. */
  function ContentOf(p: Phase): Option<ContentId> {
    if p.Resolved? || p.Extracting? || p.Extracted? || p.Applying? then Some(p.content) else None
  }

  /** The stage called in this phase does not do its work. */
  predicate StageFails(p: Phase, st: Stage) {
    match p
    case Fetched(job) => job.desired.target.Some? && (st.panics || st.resolution.Retryable?)
    case Extracting(_, _, _) => st.panics
    case Reverting(_) => st.panics || !st.ctlOk
    case Applying(_, _, _, _) => st.panics || !st.ctlOk
    case _ => false
  }

  /**
   * A report is true: committed means that ctl has just changed the screen, and the key says to
   * what; a skipped duplicate that the key already said so; anything else changed nothing, and is
   * retryable exactly if a stage failed, refused exactly if the cover was.
   */
  lemma ReportsAreTrue(w: Worker, slot: Option<Job>, st: Stage)
    requires CanStep(w, slot) && !w.phase.Idle?
    ensures var e := Step(w, slot, st); var (job, content) := (w.phase.job, ContentOf(w.phase));
      e.report.Some? ==>
        && (e.report.value.outcome.FailedRetryable? <==> StageFails(w.phase, st))
        && (e.report.value.outcome.Refused? <==> w.phase.Fetched? && job.desired.target.Some?
                                                  && !st.panics && st.resolution.Refusal?)
        && (e.report.value.outcome.Committed? ==>
              && e.ctl && e.worker.lastCommitted == Some(KeyOf(job, content))
              && (w.phase.Reverting? ==> e.worker.screen == ConfigPreset)
              && (!w.phase.Reverting? ==> w.phase.Applying? && e.worker.screen == Palette(w.phase.colors)))
        && (e.report.value.outcome.SkippedDuplicate? ==> !e.ctl && w.lastCommitted == Some(KeyOf(job, content)))
        && (!e.report.value.outcome.Committed? ==>
              e.worker.lastCommitted == w.lastCommitted && e.worker.screen == w.screen)
        && (e.report.value.coverId.Some? <==> e.report.value.outcome.Success() && content.Some?)
  {
  }
}
