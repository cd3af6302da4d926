/** The worker object: one job from `get` to its report, with puts arriving between any two stages. */
module PaletteWorker {
  import opened Types
  import opened WorkerSpec
  import opened WorkerRefinement
  import opened Daemon

  /** How `run_once` returns: normally, or by a panic that `serve` catches. */
  datatype Finish = Returned(result: Option<JobResult>) | Panicked

  class PaletteWorker {
    const mailbox: Mailbox
    var lastCommitted: Option<Committed>
    ghost var screen: Screen
    ghost var shownFor: Option<(Desired, Option<ContentId>)>

    ghost function Abs(phase: Phase): Worker
      reads this
    {
      Worker(phase, lastCommitted, screen, shownFor)
    }

    constructor (mailbox: Mailbox, initial: Option<Committed>, ghost shown: Screen)
      ensures this.mailbox == mailbox && Abs(Idle) == Worker(Idle, initial, shown, None)
    {
      this.mailbox, lastCommitted, screen, shownFor := mailbox, initial, shown, None;
    }

    /** What the coordinator's thread does in the meantime. */
    method Meanwhile(puts: seq<Job>)
      modifies mailbox
      ensures mailbox.slot == Arrive(old(mailbox.slot), puts)
    {
      for i := 0 to |puts|
        invariant mailbox.slot == Arrive(old(mailbox.slot), puts[..i])
      {
        mailbox.Put(puts[i]);
        assert puts[..i + 1][i] == puts[i];
      }
      assert puts[..|puts|] == puts;
    }

    /** The ghost outcome of the rest of the job, from this phase on. */
    ghost function Rest(phase: Phase, beats: seq<Beat>): Served
      reads this, mailbox
      requires !phase.Idle? && |beats| >= Remaining(phase)
    {
      Drive(true, Abs(phase), mailbox.slot, beats)
    }

    ghost predicate Ends(served: Served, finish: Finish, generation: nat)
      reads this, mailbox
    {
      && Abs(Idle) == served.worker && mailbox.slot == served.slot
      && served.report == (match finish
                           case Returned(result) => result
                           case Panicked => Some(JobResult(generation, FailedRetryable, None)))
    }

    /** `run_once` for a revert. */
    method RunRevert(job: Job, beats: seq<Beat>) returns (finish: Finish)
      requires job.desired.target.None? && |beats| >= 5
      modifies this, mailbox
      ensures Ends(old(Rest(Fetched(job), beats)), finish, job.generation)
    {
      ghost var rest := Rest(Fetched(job), beats);
      var key := Preset(job.desired.mode);
      Meanwhile(beats[0].puts);
      if lastCommitted == Some(key) {
        shownFor := Some((job.desired, None));
        return Returned(Some(JobResult(job.generation, SkippedDuplicate, None)));
      }
      var superseded := mailbox.Superseded(job.generation);
      if superseded {
        return Returned(None);
      }
      assert rest == Rest(Reverting(job), beats[1..]);
      Meanwhile(beats[1].puts);
      var stage := beats[1].stage;
      if stage.panics {
        return Panicked;
      }
      if !stage.ctlOk {
        return Returned(Some(JobResult(job.generation, FailedRetryable, None)));
      }
      screen, shownFor := ConfigPreset, Some((job.desired, None));
      lastCommitted := Some(key);
      return Returned(Some(JobResult(job.generation, Outcome.Committed, None)));
    }

    /** `run_once` for a cover, once it is resolved. */
    method RunResolved(job: Job, path: string, content: ContentId, beats: seq<Beat>) returns (finish: Finish)
      requires |beats| >= 4
      modifies this, mailbox
      ensures Ends(old(Rest(Resolved(job, path, content), beats)), finish, job.generation)
    {
      ghost var rest := Rest(Resolved(job, path, content), beats);
      var key := Cover(content, job.desired.mode);
      Meanwhile(beats[0].puts);
      if lastCommitted == Some(key) {
        shownFor := Some((job.desired, Some(content)));
        return Returned(Some(JobResult(job.generation, SkippedDuplicate, Some(path))));
      }
      var superseded := mailbox.Superseded(job.generation);
      if superseded {
        return Returned(None);
      }
      assert rest == Rest(Extracting(job, path, content), beats[1..]);
      Meanwhile(beats[1].puts);
      if beats[1].stage.panics {
        return Panicked;
      }
      var colors := beats[1].stage.colors;
      assert rest == Rest(Extracted(job, path, content, colors), beats[2..]) by {
        assert beats[1..][1..] == beats[2..];
      }
      finish := RunExtracted(job, path, content, colors, beats[2..]);
    }

    /** The re-check immediately before ctl, and ctl. */
    method RunExtracted(job: Job, path: string, content: ContentId, colors: Colors, beats: seq<Beat>)
      returns (finish: Finish)
      requires |beats| >= 2
      modifies this, mailbox
      ensures Ends(old(Rest(Extracted(job, path, content, colors), beats)), finish, job.generation)
    {
      ghost var rest := Rest(Extracted(job, path, content, colors), beats);
      Meanwhile(beats[0].puts);
      var superseded := mailbox.Superseded(job.generation);
      if superseded {
        return Returned(None);
      }
      assert rest == Rest(Applying(job, path, content, colors), beats[1..]);
      Meanwhile(beats[1].puts);
      var stage := beats[1].stage;
      if stage.panics {
        return Panicked;
      }
      if !stage.ctlOk {
        return Returned(Some(JobResult(job.generation, FailedRetryable, None)));
      }
      screen, shownFor := Palette(colors), Some((job.desired, Some(content)));
      lastCommitted := Some(Cover(content, job.desired.mode));
      return Returned(Some(JobResult(job.generation, Outcome.Committed, Some(path))));
    }

    method RunOnce(job: Job, beats: seq<Beat>) returns (finish: Finish)
      requires |beats| >= 5
      modifies this, mailbox
      ensures Ends(old(Rest(Fetched(job), beats)), finish, job.generation)
    {
      if job.desired.target.None? {
        finish := RunRevert(job, beats);
        return;
      }
      ghost var rest := Rest(Fetched(job), beats);
      Meanwhile(beats[0].puts);
      if beats[0].stage.panics {
        return Panicked;
      }
      match beats[0].stage.resolution
      case Retryable => finish := Returned(Some(JobResult(job.generation, FailedRetryable, None)));
      case Refusal => finish := Returned(Some(JobResult(job.generation, Refused, None)));
      case Ready(path, content) =>
        assert rest == Rest(Resolved(job, path, content), beats[1..]);
        finish := RunResolved(job, path, content, beats[1..]);
    }

    /** One pump iteration: a panic is contained and reported as a retryable failure. */
    method Serve(job: Job, beats: seq<Beat>) returns (report: Option<JobResult>)
      requires |beats| >= 5
      modifies this, mailbox
      ensures var served := old(Rest(Fetched(job), beats));
        Abs(Idle) == served.worker && mailbox.slot == served.slot && report == served.report
    {
      var finish := RunOnce(job, beats);
      match finish
      case Returned(result) => report := result;
      case Panicked => report := Some(JobResult(job.generation, FailedRetryable, None));
    }
  }
}
