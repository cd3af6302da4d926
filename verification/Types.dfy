/** The records the coordinator, the mailbox and the worker exchange. */
module Types {

  datatype Option<+T> = None | Some(value: T)

  datatype Mode = Dark | Light

  datatype PlaybackStatus = Playing | Paused | Stopped

  /** One tracked player; `seqNo` is the recency counter (higher is newer). */
  datatype PlayerState = PlayerState(status: PlaybackStatus, artUrl: string, seqNo: nat)

  /** What cover resolution needs: an art URL, or a directory to scan, or both. */
  datatype CoverTarget = CoverTarget(artUrl: string, coversDir: Option<string>)

  /** The end state to converge to; no target means the config preset. */
  datatype Desired = Desired(target: Option<CoverTarget>, mode: Mode)

  datatype Job = Job(generation: nat, desired: Desired)

  datatype Outcome = Committed | SkippedDuplicate | FailedRetryable | Refused
  {
    predicate Success() { Committed? || SkippedDuplicate? }
  }

  datatype JobResult = JobResult(generation: nat, outcome: Outcome, coverId: Option<string>)
}
