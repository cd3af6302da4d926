# Verification model of mpris-chroma

The daemon follows media players and keeps the colours of a desktop in step with the cover of
whatever plays. Two parts of it carry algorithms worth proving, and both are modelled here in
Dafny: the protocol between coordinator, mailbox and palette worker, and the colour pipeline from
a decoded cover to three palette slots.

`dafny verify dfyconfig.toml` checks the whole project. No lemma relies on automatic induction.

## The protocol

- `Types`, `Lines`, `Select`: the records, the line format, and which player should be followed.
- `CoordinatorSpec`: the coordinator and its host as one value, each handler a function on it.
  `CoordinatorLaws` has the invariants every handler keeps, `CoordinatorTheorems` what follows for
  every run, and `Conditions` the exact conditions of what does not hold without one. `Tracking`
  says what a line does in terms of art URLs, `Events` what theme flips, exits, successes and the
  worker's death do, and `RetryTiming` how long a retry waits, in the loop as well.
- `WorkerSpec`: the worker as a machine of micro-steps, so that a put can fall between any two.
  `MailboxRuns` quantifies over all interleavings; `WorkerRefinement` justifies the dedup key.
- `System` and `Convergence`: coordinator, mailbox, worker and result queue together. Every run
  comes to rest; at rest the screen shows the desire decided last if the worker succeeded with it,
  and what selection chooses, with the exceptions stated. `Standing` says what must hold of a
  submission for the chosen cover to be shown without exception.
- `ShownTarget` and `StableTargets`: when the recorded target is the shown one, and that nothing
  but a directory has more than one attempt or timer outstanding. `Witnesses` has runs of the whole
  daemon, from boot, on which some natural-looking claims fail.
- `Daemon`, `PaletteWorker`, `RunLoop`, `ServiceRuns`: the mutable objects and the event loop, each
  method proved against the functions the laws are about.
- `Framing`: the line framer, whose output does not depend on how the bytes were cut up.

Five things that look true of the protocol are not. For each there is a run of the whole daemon in
`Witnesses`, and a condition under which the property does hold, exact in the last four cases:

- At rest the screen need not show the cover that selection chooses, although its player is pending
  and could be tried. It does whenever the unanswered submission was on record for its player
  (`Standing.ChosenCoverIsShown`): no two candidates share a target, no player it could move to has
  the standing desire, and no timer belongs to another player. Each of the three is needed:
  `Witnesses.SharedTargetIsStranded`, `Witnesses.RetoneStandsForNobody` (with a single player) and
  `Witnesses.TimerStandsForAnother` end otherwise, with only that one broken at first. What a line,
  a vanish or a result newly submits is on record if and only if no two candidates share a target
  (`Standing.NewSubmissionStands`).
- Giving up on a cover does not mean that no timer is armed. One stays armed if and only if one was
  armed and selection does not move on (`Conditions.GivingUpKeepsTimer`), and only for a directory
  (`StableTargets.GivingUpIsFinal`).
- The status "retrying" does not mean that a retry is scheduled. A superseded player keeps it if
  and only if the armed timer is not its own (`Conditions.SupersededKeepsRetrying`).
- A result can be attributed to a cover that was never submitted: if and only if the player's art
  URL is no longer the submitted one (`Conditions.MarkedCoverWasSubmitted`). A player can also come
  back to an earlier cover without any job for it; `CoordinatorTheorems.ReopenedPlayerIsSubmitted`
  says exactly when.
- The recorded shown target can be missing while a cover is shown, and it can be another cover.
  `ShownTarget` has the conditions: which moves make a right record wrong, that adopting a success
  puts it right if and only if a submission is on record or no cover is shown, and that a
  success goes unrecorded until the next one if its job was superseded before the commit or
  between the commit and the delivery of the result.

Where comments and code differ the code is modelled:

- `src/coordinator.rs:249-252` resets a player whose cover changed, so that the cover is tried.
  `CoordinatorTheorems.ReopenedPlayerIsSubmitted` gives the exact condition under which the reset
  leads to a submission; `Witnesses.ReturnIsAbsorbed` reaches the case in which it does not.
- `src/coordinator.rs:131-134` calls the recorded target the one that is shown;
  `Witnesses.ShownCoverForgotten` and `Witnesses.WrongCoverRecorded` end at rest with none and with
  a wrong one.
- `src/daemon.rs:114-116` starts from a known-good default, but a failed start-up revert is only
  logged (`src/daemon.rs:103-107`); `WorkerRefinement.UntruthfulKeyShows` says what that costs.

## The colour pipeline

- `BoxSplit`, `BoxHeap`, `BoxTree`, `CutOrder`, `MedianCut`: one cut, the heap, the tree of boxes,
  the order the heap gives to the cuts, the loop.
- `Histogram`, `Numbering`, `Means`, `Nearest`, `Quantize`, `PixelCounts`: the rest of the
  quantizer, up to the theorem that few colours are kept exactly. `Determined` proves that palette
  and indices are a function of the pixels, whatever order the histogram and the sorts leave equal
  entries in.
- `Hsv`, `Pick`, `Vibrancy`: colour conversion, ranking and the greedy choice of up to three
  colours, and what the ranking prefers in terms of pixels and vividness.
- `Tone`, `Brightness`: toning, the curve it follows from cover to cover, and separation.
- `Palette`, `Extraction`: the histogram of a sample, the rendered palette, the one-slot memo, and
  the extraction from a sample to three colours as one.
- `Windows`, `WeightSums`, `Convolution`, `Resize`, `ImageResize`, `Accuracy`: the two-pass bicubic
  resize. Its crop, its skipped passes and its copy shortcut are proved to be nothing but
  shortcuts, the weights of a window never to cancel out, and the fixed-point sums to stay within
  32 bits and close to the exact ones.
- `Interpolation`, `Mirror`: what the filter does to an image: a smooth curve through the samples,
  exact on lines and parabolas, with lobes as wide as the output samples are apart, and no side
  favoured.

`Sorting` stands for the library sort and `Reals` has shared real arithmetic.

Floating-point numbers are modelled as reals. The Oklab transforms, the chroma ceiling, the
distance, the power function, the hex formatter and the pixel hash are parameters, with only the
facts a theorem needs stated in it. Clock readings, jitter, stage outcomes and what a file
contains are parameters too.

## Model

| member | source | states |
|---|---|---|
| Convergence.DaemonConverges | src/coordinator.rs:333-368 | For every run from boot on which a submission of the current generation is still unanswered, be it a new desire, a forced retry or a directory re-scan: once nothing more can happen, in any order of worker steps, results and timer fires, the screen shows what selection chooses; the only exceptions are a held selection and, if the last result was no success, a revert whose retries are used up or a submission that does not stand for the winner: it stands for another player with the same target or, if it re-tones the shown cover, for none |
| Standing.ChosenCoverIsShown | src/coordinator.rs:333-368 | If at that point the submission is on record for its player (no two candidates share a target, no other player would be submitted with the standing desire, no timer belongs to another player), the exceptions for a chosen cover are gone: at rest it is shown, whoever failed on the way |
| Standing.NewSubmissionStands | src/coordinator.rs:426-494 | On every run, a line, a vanish or a result that makes selection submit a new desire leaves it on record in that sense if and only if no two candidates share a target |
| Convergence.RestShowsDecided | src/coordinator.rs:333-368 | For every run from boot, whatever the last event was: once nothing more can happen, a live worker has answered the desire decided last, and if it succeeded the screen shows that desire |
| Convergence.SubmissionIsAwaited | src/coordinator.rs:458-494 | Whatever a line, a vanish, a theme flip or a due timer submits to a live worker is under the generation it leaves, so it is covered by the convergence theorem |
| System.EveryRunComesToRest | src/coordinator.rs:333-400 | Without further lines, vanishes or theme flips no run of worker steps, results and timer fires is infinite: fallback, retry and re-selection never livelock |
| System.DoDecreases | src/coordinator.rs:448-544 | Each such step lowers one lexicographic measure of eight components and keeps the invariants |
| Convergence.RestIsAlwaysReached | src/coordinator.rs:333-400 | Every state reachable from boot meets the premises of the termination theorem |
| Convergence.PlayCoherent | src/worker.rs:180-278 | On every run the slot, the job in hand and the queued results stay consistent with the coordinator: nothing on its way is newer than the current generation, and a current result answers the current desire |
| CoordinatorLaws.RunKeeps | src/coordinator.rs:122-154 | The coordinator invariants hold after every sequence of events: distinct recency numbers, covers matching identities, ordered generations, timer handle matching the host, bounded retry episode |
| CoordinatorTheorems.NewestPlayerWins | src/coordinator.rs:426-456 | After every accepted line, tracked exit or current result, the standing submission is the preset if nothing plays, and otherwise the cover of the newest playing, sourced player that is not given up on or refused |
| CoordinatorTheorems.GenerationFixesDesire | src/coordinator.rs:458-494 | Submitted generations never decrease and equal generations carry equal desires, directory re-scans and forced retries included |
| CoordinatorTheorems.AdoptedIsCurrent | src/coordinator.rs:333-336 | A result that would be adopted answers the desire decided last |
| CoordinatorTheorems.NothingAfterShutdown | src/coordinator.rs:372-376 | After shutdown began nothing is submitted, adopted or armed, whatever still arrives |
| CoordinatorTheorems.Guard2Unreachable | src/coordinator.rs:389-396 | The defensive guard of the retry handler is never taken: an armed desire is still the decided one |
| CoordinatorTheorems.BackoffIsCappedExponential | src/coordinator.rs:38-44 | The checked shift and saturating product over 64 bits give 1000 times a power of two, capped at 30000, for every attempt number |
| CoordinatorTheorems.RetriesAreBounded | src/coordinator.rs:496-523 | Between two resets at most three timers are armed, with delays of 1, 2 and 4 seconds within the jitter, and giving up is noted once and only after all three |
| RetryTiming.ArmedTimerIsDelayed | src/runtime.rs:120-125 | On every run only the adoption of a retryable failure arms a timer; if it is the k-th of its episode, it is due exactly the k-th delay (1000 doubled k-1 times, times the jitter, rounded down) after the clock reading of that failure |
| RetryTiming.FailureArms | src/coordinator.rs:496-523 | On every run a current retryable failure arms one if and only if fewer than three were used up and selection, after it, holds or stays with the desire submitted last |
| RetryTiming.RetriesWhenDue | src/coordinator.rs:381-400 | On every run the timer check submits if and only if a timer is due, the daemon is not stopping and its desire still stands; it then submits that desire once, under the next generation, for the player that failed |
| RetryTiming.RetryWaits | src/runtime.rs:120-125 | On every run a retry is submitted no earlier than the failure whose timer it is plus the delay of that failure, so at least 850, 1700 or 3400 milliseconds later |
| RetryTiming.LoopRetryWaits | src/runtime.rs:180-205 | The same in the loop: if the timer check after an arrival submits, one of the arrivals so far reported the failure, and the clock reads at least its delay more than it did then |
| CoordinatorTheorems.TimersAccountedFor | src/coordinator.rs:517-531 | Scheduled equals fired plus cancelled plus armed, and the coordinator holds a handle exactly when the host has that timer |
| CoordinatorTheorems.ReopenedPlayerIsSubmitted | src/coordinator.rs:249-280 | A line that resets its own player to pending and selects it leads to a submission, if and only if it is not the case that the identity changed to a URL whose value was the one submitted last |
| Tracking.LineUpdates | src/coordinator.rs:236-279 | On every run an accepted line makes its player the newest and touches no other player or cover; with the same art URL as before, a cover keeps its status unless it was given up on; other art, a new player or a cover given up on is pending; only re-opening forgets what was submitted last |
| Tracking.LineIsFollowed | src/coordinator.rs:223-280 | On every run a player that says it plays something it has a source for is the chosen one after its line, if and only if it is not the case that its cover was refused and is still the same; what it plays is then what was submitted last |
| Tracking.NewArtIsSubmitted | src/coordinator.rs:261-279 | So a track with another URL than before is always what is submitted last, whatever became of the one before |
| Events.ModeIsLastHeard | src/coordinator.rs:301-307 | On every run the mode is the one of the theme event heard last, whatever else happened |
| Events.FlipSubmits | src/coordinator.rs:290-331 | On every run a theme flip re-tones what is recorded as shown, unless the newest usable player plays just that, which is then submitted in the new mode; with nothing recorded it is the cover of the newest usable player, and without one nothing; a repeated theme changes nothing |
| Events.OnlyLinesRescan | src/coordinator.rs:458-475 | On every run a directory is scanned again, under the same generation, by no exit or result, and by a line if and only if selection stays with the directory submitted last |
| Events.VanishedIsForgotten | src/coordinator.rs:283-293 | On every run the exit of a bus name untracks exactly the player named after the prefix, with its cover |
| Events.AppliedFollowsSuccess | src/coordinator.rs:333-346 | On every run exactly the adopted successes set the applied cover, to the cover of their result |
| Events.DeathIsNoticed | src/runtime.rs:109-118 | On every run an event submits one job at most; a live worker has it in the slot, for a dead one it never gets there, and that the worker is dead is noticed if and only if something is submitted to it |
| Events.LoopFollowsNewest | src/runtime.rs:180-205 | In the loop, after an accepted line, a tracked exit or a current result what stands submitted follows the newest usable player; theme events set the mode, and malformed, oversized and timeout events change nothing |
| Conditions.GivingUpKeepsTimer | src/coordinator.rs:503-511 | On every run the failure that uses up the attempts leaves a timer armed if and only if one was armed before and selection, with the cover given up on, holds or stays with the desire submitted last |
| StableTargets.OneAttemptAtATime | src/coordinator.rs:464-476 | On every run of the whole daemon, as long as the preset or a URL is decided, at most one of these is outstanding: a waiting job, a job in hand, a result to adopt, the retry timer |
| StableTargets.GivingUpIsFinal | src/coordinator.rs:503-511 | So on every run giving up on the preset or a URL leaves no timer: only directory targets are in the exceptional case |
| Witnesses.ExhaustedWithLiveTimer | src/coordinator.rs:503-523 | A run of the whole daemon, every failure through the one-slot mailbox, on which a directory cover is given up on while its retry timer is still armed |
| Conditions.SupersededKeepsRetrying | src/coordinator.rs:525-544 | On every run, when a line, vanish, theme flip or result submits a new desire, a player in the retrying status keeps it if and only if no timer is armed or the armed one is not its own, and is pending otherwise; no timer is left then |
| Witnesses.RetryingWithoutTimer | src/coordinator.rs:525-544 | A run of the whole daemon on which a superseded player keeps the retrying status although no timer and no retry exists |
| Conditions.MarkedCoverWasSubmitted | src/coordinator.rs:437-446 | On every run a current result marks no cover but the one the player submitted last has by now; that one is the cover that was submitted, by identity and by whole target, if and only if the art URL of the player is still the submitted one |
| Witnesses.RefusalOfAnotherCover | src/coordinator.rs:437-446 | A run of the whole daemon, ending at rest, on which the refusal of one cover has marked a cover that was never submitted |
| Witnesses.ReturnIsAbsorbed | src/coordinator.rs:458-475 | A run of the whole daemon, ending at rest, on which a player is pending and chosen, but value dedup absorbed its line and neither a job nor a timer will try it |
| Witnesses.RetoneStandsForNobody | src/coordinator.rs:301-331 | A run of the whole daemon with a single player, ending at rest: its former cover was re-toned for no player, value dedup absorbed its line with the same cover, and when the re-tone was refused its cover is chosen and pending but not shown; only the second condition of the record was broken |
| Witnesses.SharedTargetIsStranded | src/coordinator.rs:458-475 | A run of the whole daemon, ending at rest, on which the cover on show was being re-toned while two players shared another cover: submitted for the newer player and refused, that cover is then chosen and pending for the older one but not shown; only the first condition of the record was broken |
| Witnesses.TimerStandsForAnother | src/coordinator.rs:381-400 | A run of the whole daemon, ending at rest, on which the timer re-submitted the directory of the chosen player in the name of another one, whose cover was marked instead; only the third condition of the record was broken |
| ShownTarget.AdoptedIsRecorded | src/coordinator.rs:337-346 | On every run, adopting a success makes the recorded target the one the screen was last set for if and only if a submission is still on record or the shown desire has no target |
| ShownTarget.RecordStaysRight | src/coordinator.rs:337-346 | On every run and for every possible move, a right record stays right unless the worker succeeds for another target than the recorded one, or a success is adopted without a submission on record while a cover is shown; then it becomes wrong |
| ShownTarget.RecordRightOnceHeard | src/coordinator.rs:333-346 | On every run on which no success is dropped as stale or adopted without a submission on record, the record is right whenever no success is still to be delivered, so at rest |
| ShownTarget.LateSuccessGoesUnrecorded | src/coordinator.rs:333-346 | On every run, a success for a superseded job changes the screen and never the record: whatever follows, until the worker succeeds again the record is right if and only if it named the target of that job before |
| ShownTarget.OvertakenSuccessGoesUnrecorded | src/coordinator.rs:333-346 | The same for a success whose job was current at the commit, if another desire is submitted before the result is delivered: it is dropped, and until the worker succeeds again the record stays as right or wrong as it was |
| Witnesses.ShownCoverForgotten | src/coordinator.rs:337-346 | A run of the whole daemon, ending at rest, on which a cover is shown while no shown target is recorded |
| Witnesses.WrongCoverRecorded | src/coordinator.rs:333-346 | A run of the whole daemon, ending at rest, on which the recorded target is another cover than the shown one, and a theme flip submits the wrong one |
| Select.Decide | src/select.rs:38-71 | The sort and the scan give the decision that is defined without any iteration order of the map |
| Select.DecisionMeaning | src/select.rs:25-37 | Revert exactly if nothing plays, hold exactly if something plays but nothing is actionable, and otherwise the newest actionable player with its URL and directory |
| Select.WinnerUnique | src/select.rs:51-54 | Two winners are the same player, whatever the map order |
| Lines.ParseExact | src/coordinator.rs:223-249 | A line is accepted exactly if it is three tab-free fields naming a followed player in a known state, and then it means those fields and no prefix of them |
| Lines.FollowedNames | src/coordinator.rs:404-419 | Of the names that are no base exactly those are followed that go on after a base with a dot |
| Daemon.Coordinator.OnLine | src/coordinator.rs:223-280 | Updates the fields as the handler function on values says; so do the other handlers |
| Daemon.Coordinator.OnVanish | src/coordinator.rs:283-293 | Evicts a tracked player and re-selects, as specified |
| Daemon.Coordinator.OnScheme | src/coordinator.rs:301-331 | Adopts the mode and re-tones the shown cover or the winner, as specified |
| Daemon.Coordinator.Adopt | src/coordinator.rs:333-368 | Adopts a result of the current generation only, settles it and re-selects, as specified |
| Daemon.Coordinator.FireRetry | src/coordinator.rs:381-400 | Resubmits the retried desire under a new generation, as specified |
| Daemon.Coordinator.BeginShutdown | src/coordinator.rs:372-376 | Stops, invalidates what is in flight and cancels the retry, as specified |
| Daemon.Coordinator.MaybeSubmit | src/coordinator.rs:458-494 | Value dedup, directory re-scan and superseding submission on the fields, as specified |
| Daemon.Coordinator.ArmRetry | src/coordinator.rs:496-523 | Counts the attempt, replaces an armed timer and reports exhaustion, as specified |
| Daemon.Coordinator.CancelRetry | src/coordinator.rs:525-544 | Cancels only through a handle and demotes the superseded player, as specified |
| Daemon.RuntimeHost.Submit | src/runtime.rs:109-118 | Puts the job on the mailbox, or notes a dead worker and drops it |
| Daemon.RuntimeHost.ScheduleRetry | src/runtime.rs:120-125 | Replaces the timer with a fresh identifier and due time |
| Daemon.Mailbox.Get | src/worker.rs:94-105 | Takes the job; a set stop flag wins and drains the slot |
| RunLoop.Loop | src/runtime.rs:180-205 | The loop serves arrivals up to the first that ends it, runs the timer check after each, leaves no due timer, and exits for exactly the stated reasons |
| RunLoop.TurnsAreARun | src/runtime.rs:180-205 | The turns of the loop are a run of the coordinator, so every law about runs holds of the loop |
| MailboxRuns.HandoffIsSafe | src/worker.rs:86-126 | Under every interleaving of puts with worker micro-steps: ctl calls come in submission order, every silently dropped job is followed by a put of a strictly newer generation, and when the slot is empty and the worker idle the last submission has been reported, after every other report |
| MailboxRuns.SupersededNeverApplied | src/worker.rs:207-278 | Once a strictly newer job waits before the last check, the older job never reaches ctl, whatever follows |
| ServiceRuns.DriveIsAnInterleaving | src/worker.rs:190-205 | Serving a job with puts in between is one of those interleavings |
| PaletteWorker.PaletteWorker.RunResolved | src/worker.rs:236-278 | The object that dedups, checks, extracts, checks again and calls ctl does what the micro-step machine does |
| PaletteWorker.PaletteWorker.RunRevert | src/worker.rs:212-231 | The same for a revert job |
| WorkerSpec.ReportsAreTrue | src/worker.rs:207-278 | Every report is true: committed means that ctl has just put this cover, or the preset, on the screen and the key says so; a skipped duplicate that the key said so already; any other changed nothing, and it is retryable if and only if a stage failed, refused if and only if the cover was |
| WorkerRefinement.DedupRefinesReapplying | src/worker.rs:142-162 | After any jobs, puts, ctl failures and panics, the dedup key names what the screen shows, and the screen is the one a worker that always re-applies would leave |
| WorkerRefinement.SeededWorkerRefines | src/daemon.rs:116-136 | The start-up seed satisfies the premise, so the refinement holds from start-up on |
| WorkerRefinement.UntruthfulKeyShows | src/daemon.rs:103-107 | The premise is exact: for every key that does not name what is shown, as after a failed start-up revert, there is one job after which the two workers show different things |
| Framing.FeedAll | src/framing.rs:52-87 | However a stream is cut into feeds, the lines are its newline-terminated segments of at most the maximum length, in order, and the final state depends on the stream alone |
| Framing.LineFramer.Feed | src/framing.rs:52-87 | After each feed at most the maximum is buffered, and refusals equal the oversized segments, counting an unfinished one once |
| Framing.CuttingIsIrrelevant | src/framing.rs:52-87 | Two cuttings of one stream give the same lines, the same number of refusals and the same state |
| Framing.StreamIsItsSegments | src/framing.rs:52-58 | Segments and rest, rejoined with newlines, are the stream, and none contains a newline |
| Framing.FittingExact | src/framing.rs:60-87 | Wherever it stands among others, a segment is kept if and only if it has at most the maximum length, and every segment is either kept or counted as oversized |
| BoxHeap.Heap.Add | src/color/quantize.rs:93-104 | Keeps the heap order and adds the box to the contents |
| BoxHeap.Heap.Remove | src/color/quantize.rs:106-131 | Keeps the heap order, and takes out a box with the largest count and nothing else; sinking goes on through ties |
| BoxHeap.DrainingSorts | src/color/quantize.rs:106-131 | Emptying any heap gives exactly its contents, largest counts first |
| BoxHeap.Filled | src/color/quantize.rs:93-104 | Any sequence of adds gives a heap of exactly the added boxes |
| BoxHeap.EqualsSinkLeft | src/color/quantize.rs:106-131 | Ties are settled as coded: among boxes with equally many pixels the one put at the top sinks to the bottom along the left edge, and no other place changes |
| BoxSplit.Split | src/color/quantize.rs:137-187 | Cuts along the axis of the largest weighted extent, the first among equals, at the pixel-count median: both sides non-empty, strictly separated, dividing the entries and the pixels; if the median value is the last one, the right side is exactly its entries |
| BoxSplit.WidestBySpans | src/color/quantize.rs:137-149 | In terms of the spans of the channels: red if 77 times its span is at least 150 times that of green and 29 times that of blue, else green unless 29 times that of blue is larger, else blue |
| BoxSplit.CutIsDetermined | src/color/quantize.rs:137-187 | The conditions of a median cut fit only one way of dividing the entries: both sides are determined |
| BoxSplit.Volume | src/color/quantize.rs:68-78 | Zero exactly for an empty box and one exactly for a box of one colour |
| BoxSplit.TotalPermuted | src/color/quantize.rs:150-186 | The pixel total does not depend on the order in which the sort leaves the entries |
| BoxTree.GrownLeaves | src/color/quantize.rs:262-269 | A cut puts the two new leaves where the old one was in depth-first order |
| BoxTree.GrownDisjoint | src/color/quantize.rs:262-269 | A cut keeps the bounding boxes of all leaves pairwise disjoint |
| MedianCut.CutKeepsPartition | src/color/quantize.rs:246-269 | A cut keeps the partition of the entries into disjoint, non-empty leaves and adds exactly one leaf |
| MedianCut.Cut | src/color/quantize.rs:246-269 | The cutting loop is a sequence of greedy cuts of a box with most pixels; its leaves partition the entries, number at most the colours asked for, and fewer only if all are one colour; boxes with equally many pixels are cut in the order in which the heap as coded gives them |
| CutOrder.CuttingIsDetermined | src/color/quantize.rs:246-269 | Two runs of the cutting loop over the same entries, in whatever order, end with the same number of boxes, and each box holds the same entries: the tie-breaking of the heap depends on the counts and not on the order of entries |
| Histogram.Build | src/color/quantize.rs:227-244 | One entry for each hash value that occurs, in the colour of the first pixel that has it, counting its pixels; the counts add up to the image |
| Determined.HistogramIsUnique | src/color/quantize.rs:227-244 | Two histograms of the same pixels have the same entries, however the table orders them |
| Determined.ResultIsDetermined | src/color/quantize.rs:218-341 | Two quantizations of the same pixels are the same palette and the same indices: the result depends on axis values, never on the order of equal entries |
| Numbering.Number | src/color/quantize.rs:271-288 | The stack walk numbers the leaves depth first and left first, each once, and maps every entry to the number of its leaf |
| Numbering.LeavesHashApart | src/color/quantize.rs:281-283 | Different leaves share no hash value, so no number is overwritten |
| Means.Palette | src/color/quantize.rs:290-302 | Each palette entry is the mean of the pixels of its box, rounded to nearest with halves up |
| Means.MeanWithin | src/color/quantize.rs:300-302 | Each channel of a mean lies between the smallest and the largest value it averages, so it fits a byte |
| Nearest.FarCannotWin | src/color/quantize.rs:322-329 | An entry more than four times the own squared distance away from the own entry is strictly farther from the pixel |
| Nearest.DistancesAdd | src/color/quantize.rs:29-34 | The distance is Euclidean in all three channels: differences in different channels add up as in a right-angled triangle |
| Nearest.Search | src/color/quantize.rs:304-339 | The pruned search finds what the exhaustive scan finds: a nearest entry, the own one if it is among them, else the first by distance from the own entry and then index |
| Nearest.ScanFindsNearest | src/color/quantize.rs:304-339 | The exhaustive scan in search order finds that entry |
| Nearest.NearestIsUnique | src/color/quantize.rs:304-339 | That description fits at most one entry |
| Quantize.Quantize | src/color/quantize.rs:218-341 | The whole computation: refusal beyond 65536 hash values, otherwise histogram, a sequence of greedy median cuts from the box of all entries in the order of the heap, partition, numbering, means and nearest indices as above; every index fits a byte |
| Quantize.Lossless | src/color/quantize.rs:218-341 | An image with at most the colours asked for, no two sharing a hash value, is reproduced exactly at every pixel |
| Quantize.Pigeonhole | src/color/quantize.rs:246-269 | As many non-empty leaves as entries hold one entry each |
| Quantize.NoEmptyBox | src/color/quantize.rs:290-302 | No leaf is without pixels, so no mean divides by zero |
| PixelCounts.BoxCountsItsPixels | src/color/quantize.rs:290-302 | Each leaf counts exactly the pixels that are mapped to it |
| PixelCounts.Colors | src/color/quantize.rs:199-211 | Lists exactly the used entries in index order with their counts, and the counts add up to the image |
| PixelCounts.UsageIsUnique | src/color/quantize.rs:199-211 | Indices have only one such list |
| Hsv.RoundTrip | src/color/pick.rs:38-79 | Decoding an encoded colour gives it back over the reals: all six sectors, their boundaries, greys and wrapped hues |
| Hsv.HueByOrder | src/color/pick.rs:38-60 | Which sixth of the turn a colour is in, and how far into it, by the order of its channels and the place of the middle one: red, yellow, green, cyan, blue, magenta |
| Hsv.ValueAndSaturation | src/color/pick.rs:38-60 | The value is the largest channel, and saturation times value the range of the channels |
| Hsv.PyMod1 | src/color/pick.rs:26-35 | The remainder in the range from 0 to 1 that differs from its argument by a whole number |
| Pick.Rank | src/color/pick.rs:104-112 | The sort ranks by score, equal scores in histogram order |
| Vibrancy.ProminentFirst | src/color/pick.rs:81-97 | A colour of at least one pixel in a hundred ranks before every rarer one |
| Vibrancy.RareByCount | src/color/pick.rs:81-97 | Rarer colours rank by count alone, whatever they look like, and equal counts in histogram order |
| Vibrancy.VividnessTradesOff | src/color/pick.rs:81-97 | Of two colours of at least one pixel in a hundred one ranks first if and only if twice what it lacks in pixels is less than the total times what it has more of saturation times value, or as much and it stands first in the histogram |
| Vibrancy.VividOvertakesGrey | src/color/pick.rs:81-97 | So a colour overtakes a grey exactly if twice what it lacks in pixels is less than the total times its saturation times its value, up to histogram order |
| Vibrancy.FirstPickLeads | src/color/pick.rs:100-132 | The first pick is the colour that ranks before all others |
| Pick.RankingIsUnique | src/color/pick.rs:110-112 | There is only one such ranking |
| Pick.Select | src/color/pick.rs:100-136 | Three picks for every histogram that is not empty: the first n pairwise at least 0.08 apart, every candidate passed over closer than that to a pick ranked above it, the rest repeating the last real one |
| Pick.PicksAreUnique | src/color/pick.rs:114-132 | The ranking determines the picks |
| Tone.ChromaFor | src/color/tone.rs:37-43 | Never above the ceiling; grey is not enriched; any other colour keeps its chroma between 85 parts in a hundred of the ceiling and the ceiling, is lifted to the one and capped by the other |
| Tone.ToningKeeps | src/color/tone.rs:75-93 | Toning lands in the envelope, keeps lightness order, hue and source chroma, never widens a gap, and keeps it exactly away from the bounds |
| Tone.BrighterCoverStaysBrighter | src/color/tone.rs:75-84 | A brighter cover is toned no darker, for any monotone power function |
| Brightness.ExtremesMeetBounds | src/color/tone.rs:75-93 | A black cover is toned at the lower bound of the mode, a white one at the upper bound |
| Brightness.BrighterIsBrighter | src/color/tone.rs:75-93 | Of two covers of one lightness each, the brighter one is toned strictly brighter, for any strictly increasing power function with 0 and 1 fixed |
| Brightness.ModesBendApart | src/color/tone.rs:20-29 | Against the straight line between the bounds the dark mode lifts every such cover, or leaves it, and the light mode lowers it |
| Brightness.MeanIsCurved | src/color/tone.rs:70-93 | Of any cover none of whose slots is clamped, the mean is moved to where a cover of one lightness with that mean is toned: the mean alone decides it |
| Brightness.MeansKeepOrder | src/color/tone.rs:70-93 | So of two such covers the one with the brighter mean is toned to the brighter mean, and equal means to equal ones |
| Tone.ToneAll | src/color/tone.rs:75-93 | Every slot is toned about the mean lightness of all of them |
| Tone.ClosestPair | src/color/tone.rs:138-150 | The first pair with the smallest distance |
| Tone.Allowed | src/color/tone.rs:197-232 | The move is the specified one: to the target, as far as the budget goes, and none exactly if the slot is stuck; never beyond budget, envelope or neighbour |
| Tone.MoveIsLongest | src/color/tone.rs:197-232 | The move of a slot is as long as it may be: a hundredth, what is left of its budget, or the room to the envelope or the neighbour, whichever is least |
| Tone.NudgeKeeps | src/color/tone.rs:217-237 | Such a move keeps the order of all slots, the path accounts and the envelope |
| Tone.RunPasses | src/color/tone.rs:187-248 | At most eight passes that move anything, each moving the higher slot of the closest pair up and then the lower one down, as far as allowed, and no other; slots that are clear at the start are left alone; stopping as clear, spent or blocked is true of the final slots, and stopping at the cap means that all eight passes moved something and budget is left |
| Tone.Separate | src/color/tone.rs:159-266 | Hue and source chroma are unchanged, the lightness order is kept, each slot travels at most 0.04 in all, slots stay in the envelope, the result is clear exactly if all real pairs are 0.10 apart, the residual is the smallest distance, the reason is true, and the other slots repeat the last real one |
| Palette.HistogramOfSample | src/color/mod.rs:61-70 | Lists exactly the palette entries in use, in colours recoverable from their HSV, with counts that add up to the sample; 65536 colours are never refused |
| Palette.FewColorsAreKept | src/color/mod.rs:61-70 | The histogram of an image of at most 16 colours without collisions has every one of them exactly |
| Extraction.ExtractColors | src/color/mod.rs:112-115 | The whole extraction from a sample: up to 65536 pixels are never refused, no pixels give the default accent; otherwise the picks are the greedy ones of the histogram of the sample, each real one the colour of a used mean of the median cut, for at most 16 colours without collisions that of an actual pixel, and the colours are those of slots in the envelope at the hue and source chroma of their picks |
| Extraction.SelectionIsDetermined | src/color/mod.rs:61-89 | The picks and the number of distinct ones are a function of the sampled pixels: whatever histogram, cuts and ranking led to them, two selections agree |
| Palette.RenderSlots | src/color/mod.rs:94-108 | Every rendered slot lies in the envelope of the mode at the hue and source chroma of its pick, within 0.04 of where toning put it |
| Palette.RenderPalette | src/color/mod.rs:94-108 | The default accent for no picks, otherwise the colours of those slots |
| Palette.RenderedIsMeasured | src/color/tone.rs:61-68 | What is rendered is what separation measured: the same lightness and hue at the same derived chroma, within the ceiling, lifted to 85 parts in a hundred of it but for greys |
| Palette.PaletteMemo.Get | src/color/mod.rs:165-172 | The answer is the uncached one; selection runs exactly when the slot holds other content, and a panic leaves the slot as it was |
| Palette.PaletteMemo.GetAll | src/color/mod.rs:118-131 | A run of extractions equals uncached extractions, and flipping the mode of one content selects at most once |
| Windows.WindowFits | src/color/resize.rs:74-81 | Every window is non-empty, lies in the source and has at most as many samples as there is room for taps |
| Windows.WindowsAscend | src/color/resize.rs:74-81 | The starts and the ends of the windows never go back |
| Windows.WholeSourceIsUsed | src/color/resize.rs:156-158 | Over the whole source the first window starts at the first sample and the last ends at the last |
| WeightSums.LittleCancels | src/color/resize.rs:42-92 | At any scale and crop the absolute values of the weights of a window sum to less than 1.9 times what the weights sum to |
| WeightSums.WeightsSumPositive | src/color/resize.rs:82-92 | So the weights of a window never cancel out, the guard against a zero sum is always passed and normalised weights sum to one |
| WeightSums.LobeBound | src/color/resize.rs:42-52 | The negative lobes of the filter go no lower than -2/27 |
| Interpolation.WeightsGiveCurve | src/color/resize.rs:42-52 | The four weights around a point give the cubic curve through the two middle samples whose slopes there are those of the chords over them, for any samples |
| Interpolation.EnlargingInterpolates | src/color/resize.rs:63-92 | Where nothing is reduced, the exact result is that curve at the position of the output sample |
| Interpolation.ParabolaIsKept | src/color/resize.rs:63-92 | So samples of a line or a parabola give its very value there |
| Interpolation.LobesMeetNeighbours | src/color/resize.rs:63-81 | At any scale a source sample counts positively if it is nearer to the centre than the next output sample, negatively if nearer than the one after that, and not at all otherwise (with one source pixel as the least distance) |
| Mirror.WindowMissesNothing | src/color/resize.rs:74-81 | No source sample with any weight is outside the window |
| Mirror.WindowIsMirrored | src/color/resize.rs:74-81 | Seen from the other side, windows are the same but for samples without weight, and mirrored samples have the same weight |
| Mirror.ResizeCommutes | src/color/resize.rs:151-215 | Resizing an image commutes with mirroring it left to right or top to bottom, bit for bit; a result is determined by the image and the size |
| Resize.Precompute | src/color/resize.rs:63-104 | For each output sample the window, and the normalised weights in fixed point, padded |
| Resize.Horizontal | src/color/resize.rs:112-129 | Every pixel is the fixed-point blend of its window |
| Resize.Vertical | src/color/resize.rs:131-148 | The same along columns |
| Resize.CroppedIsUncropped | src/color/resize.rs:155-179 | Computing only the rows the second pass reads, and moving its windows, gives the uncropped result |
| ImageResize.Resample | src/color/resize.rs:151-179 | With cropping and with passes left out, the result is always that of both full passes |
| ImageResize.CropIsTwoPass | src/color/resize.rs:183-198 | Copying an integral box is what both passes would compute |
| ImageResize.ImResize | src/color/resize.rs:183-200 | So the crop shortcut never changes the result either |
| Resize.OneHotBlend | src/color/resize.rs:106-129 | A single tap of one reproduces its pixel |
| Convolution.FlatBlend | src/color/resize.rs:106-126 | Up to 16448 taps that sum to one keep a constant colour exactly in fixed point |
| ImageResize.FlatTwoPass | src/color/resize.rs:202-215 | A flat image stays flat in its exact colour at any reduction up to 4112 to one |
| Accuracy.AccumulatorsFit | src/color/resize.rs:112-148 | In both passes the taps, the products and every accumulator after any number of additions fit 32 bits, for any pixels and any window of up to 888205 taps |
| Accuracy.HorizontalError | src/color/resize.rs:112-129 | Each channel of the first pass is within one half plus 127.5 times the number of taps over 2 to the 22 of the exact clamped convolution |
| Accuracy.VerticalError | src/color/resize.rs:131-148 | The same for the second pass on what it reads |
| Accuracy.TwoPassError | src/color/resize.rs:151-179 | Each channel of the whole resize is within the error of the second pass plus 1.9 times that of the first of the two exact clamped convolutions |
| ImageResize.ResizeImage | src/color/resize.rs:202-215 | A copy for the same size, two steps for very tall images, otherwise both passes; the requested size; flat images stay flat |

## Left out

- MailboxRuns.HandoffIsSafe: covers runs on which neither the stop flag nor `clear` is used; shutdown is the subject of `CoordinatorTheorems.NothingAfterShutdown`.
- Daemon.Mailbox.Get: does not model blocking on the condition variable; a job or the stop flag must be there.
- Framing.CuttingIsIrrelevant: speaks of the number of refusals, because the size reported for an oversized line does depend on the cutting.
- ImageResize.FlatTwoPass: reductions beyond 4112 to one are not covered, because the rounding errors of more than 16448 taps may add up to a whole step.
- Quantize.Lossless: needs the hash to be free of collisions on the image, because the histogram keeps one colour per hash value.
- WorkerRefinement.DedupRefinesReapplying: assumes that a ctl call that fails or panics leaves the screen unchanged; the stages of `src/worker.rs:180-278` know no more of such a call than that it failed.
- Palette.PaletteMemo.Get: assumes that the content identifier determines the sampled pixels, which is what the key is for; that selection is a function of those is `Extraction.SelectionIsDetermined`.
- Floating-point rounding and bit parity with Pillow and Python: the real numbers stand for the doubles and floats.
- Accuracy.AccumulatorsFit: windows of more than 888205 taps are not covered; 16 million pixels, the most that is decoded, need 640001.
- The width of counters and sums (`u32`, `u64`): unbounded integers are used, except in the backoff computation.
- The flat layout of rasters and of the distance table: rows of rows are used instead.
- UTF-8 decoding of lines and the rate limit of dropped-line logging: no effect on which lines are accepted.
- The pump loop around `serve`: jobs are served from a list, so that the model terminates.
- Name matching and resolution details of D-Bus, playerctl, signals and process handling: input and output without algorithms.
- Fetching, file access, directory scans and the cover cache: they appear only as the outcome of the resolve stage.
- Image decoding and the reduced-precision rehash of the quantizer: not ported or foreign code; the refusal of larger inputs is modelled.
- The Oklab matrices and gamma curves, and the ramp measurement: uninterpreted or not used by the daemon.
