/**
 * Every interleaving of the coordinator's puts with the worker's micro-steps. Jobs carry their
 * submission index, so the histories can speak of order.
 */
module MailboxRuns {
  import opened Types
  import opened WorkerSpec

  /** `slot` and `running` are indices into `puts`; the rest is history. */
  datatype Line = Line(
    puts: seq<Job>, slot: Option<nat>, running: Option<nat>, worker: Worker,
    ctls: seq<nat>, ends: seq<End>)

  /** How job `index` ended: reported, or dropped without a word. */
  datatype End = End(index: nat, report: Option<JobResult>)

  datatype Move = Put(job: Job) | Work(stage: Stage)

  ghost predicate WellTagged(l: Line) {
    && (l.slot.Some? ==> l.slot.value < |l.puts|)
    && (l.running.Some? ==> l.running.value < |l.puts|)
    && (l.running.Some? <==> !l.worker.phase.Idle?)
    && (l.running.Some? ==> l.worker.phase.job == l.puts[l.running.value])
  }

  function SlotJob(l: Line): Option<Job>
    requires WellTagged(l)
  {
    if l.slot.Some? then Some(l.puts[l.slot.value]) else None
  }

  /** The coordinator never puts an older generation than it has put before. */
  ghost predicate Allowed(l: Line, m: Move)
    requires WellTagged(l)
  {
    match m
    case Put(job) => |l.puts| > 0 ==> l.puts[|l.puts| - 1].generation <= job.generation
    case Work(_) => CanStep(l.worker, SlotJob(l))
  }

  function Do(l: Line, m: Move): Line
    requires WellTagged(l) && Allowed(l, m)
  {
    match m
    case Put(job) => l.(puts := l.puts + [job], slot := Some(|l.puts|))
    case Work(st) =>
      var e := Step(l.worker, SlotJob(l), st);
      if l.running.None? then l.(worker := e.worker, running := l.slot, slot := None)
      else
        l.(worker := e.worker,
           running := if e.worker.phase.Idle? then None else l.running,
           ctls := if e.ctl then l.ctls + [l.running.value] else l.ctls,
           ends := if e.worker.phase.Idle? then l.ends + [End(l.running.value, e.report)] else l.ends)
  }

  ghost predicate Sorted(puts: seq<Job>) {
    forall i, j | 0 <= i <= j < |puts| :: puts[i].generation <= puts[j].generation
  }

  /** The slot holds the last put, ahead of the job in hand. */
  ghost predicate SlotIsLast(l: Line) {
    && (l.slot.Some? ==> l.slot.value == |l.puts| - 1)
    && (l.running.Some? && l.slot.Some? ==> l.running.value < l.slot.value)
  }

  /** Index `k` lies before the job in hand and the job in the slot. */
  predicate Ahead(l: Line, k: nat) {
    && k < |l.puts| && (l.running.Some? ==> k < l.running.value) && (l.slot.Some? ==> k < l.slot.value)
  }

  /** ctl calls, in the order they were made, are in submission order. */
  ghost predicate CtlsInOrder(l: Line) {
    && (forall i, j | 0 <= i < j < |l.ctls| :: l.ctls[i] < l.ctls[j])
    && (forall k | 0 <= k < |l.ctls| :: Ahead(l, l.ctls[k]))
  }

  ghost predicate EndsInOrder(l: Line) {
    && (forall i, j | 0 <= i < j < |l.ends| :: l.ends[i].index < l.ends[j].index)
    && (forall k | 0 <= k < |l.ends| :: Ahead(l, l.ends[k].index))
    && (forall k | 0 <= k < |l.ends| && l.ends[k].report.Some? ::
          l.ends[k].report.value.generation == l.puts[l.ends[k].index].generation)
  }

  ghost predicate Newer(l: Line, k: nat, j: nat)
    requires k < |l.puts|
  {
    k < j < |l.puts| && l.puts[j].generation > l.puts[k].generation
  }

  /** A silent drop is answered by a strictly newer put. */
  ghost predicate DropsAnswered(l: Line)
    requires EndsInOrder(l)
  {
    forall k | 0 <= k < |l.ends| && l.ends[k].report.None? :: exists j :: Newer(l, l.ends[k].index, j)
  }

  /** The last put is waiting, in hand, or reported: it is never lost. */
  ghost predicate LastAccounted(l: Line) {
    l.puts != [] && l.slot.None? ==>
      || l.running == Some(|l.puts| - 1)
      || (l.ends != [] && l.ends[|l.ends| - 1].index == |l.puts| - 1 && l.ends[|l.ends| - 1].report.Some?)
  }

  ghost predicate Good(l: Line) {
    && WellTagged(l) && Sorted(l.puts) && SlotIsLast(l)
    && CtlsInOrder(l) && EndsInOrder(l) && DropsAnswered(l) && LastAccounted(l)
  }

  lemma NewerPersists(l: Line, l': Line)
    requires EndsInOrder(l) && DropsAnswered(l) && EndsInOrder(l')
    requires l.puts <= l'.puts && l.ends <= l'.ends
    requires forall k | |l.ends| <= k < |l'.ends| && l'.ends[k].report.None? ::
      exists j :: Newer(l', l'.ends[k].index, j)
    ensures DropsAnswered(l')
  {
    forall k | 0 <= k < |l.ends| && l.ends[k].report.None?
      ensures exists j :: Newer(l', l'.ends[k].index, j)
    {
      var j :| Newer(l, l.ends[k].index, j);
      assert Newer(l', l'.ends[k].index, j);
    }
  }

  lemma PutKeepsGood(l: Line, job: Job)
    requires Good(l) && Allowed(l, Put(job))
    ensures Good(Do(l, Put(job)))
  {
    var l' := Do(l, Put(job));
    assert forall k | Ahead(l, k) :: Ahead(l', k);
    NewerPersists(l, l');
  }

  lemma TakeKeepsGood(l: Line, st: Stage)
    requires Good(l) && Allowed(l, Work(st)) && l.running.None?
    ensures Good(Do(l, Work(st)))
  {
    var l' := Do(l, Work(st));
    assert forall k | Ahead(l, k) :: Ahead(l', k);
    NewerPersists(l, l');
  }

  lemma ContinueKeepsGood(l: Line, st: Stage)
    requires Good(l) && Allowed(l, Work(st)) && l.running.Some?
    requires !Step(l.worker, SlotJob(l), st).worker.phase.Idle?
    ensures Good(Do(l, Work(st)))
  {
    var l' := Do(l, Work(st));
    StepShape(l.worker, SlotJob(l), st);
    assert l' == l.(worker := l'.worker);
    assert forall k | Ahead(l, k) :: Ahead(l', k);
    NewerPersists(l, l');
  }

  lemma EndKeepsOrder(l: Line, st: Stage)
    requires WellTagged(l) && CtlsInOrder(l) && EndsInOrder(l) && SlotIsLast(l)
    requires Allowed(l, Work(st)) && l.running.Some?
    requires Step(l.worker, SlotJob(l), st).worker.phase.Idle?
    ensures CtlsInOrder(Do(l, Work(st))) && EndsInOrder(Do(l, Work(st)))
  {
    var l' := Do(l, Work(st));
    StepShape(l.worker, SlotJob(l), st);
    assert forall k | Ahead(l, k) :: Ahead(l', k);
    assert Ahead(l', l.running.value);
  }

  lemma EndKeepsGood(l: Line, st: Stage)
    requires Good(l) && Allowed(l, Work(st)) && l.running.Some?
    requires Step(l.worker, SlotJob(l), st).worker.phase.Idle?
    ensures Good(Do(l, Work(st)))
  {
    var l' := Do(l, Work(st));
    StepShape(l.worker, SlotJob(l), st);
    EndKeepsOrder(l, st);
    if l'.ends[|l.ends|].report.None? { assert Newer(l', l.running.value, l.slot.value); }
    NewerPersists(l, l');
  }

  function Start(w: Worker): Line { Line([], None, None, w, [], []) }

  /** The line after a sequence of moves, if each was possible. */
  ghost function Exec(l: Line, moves: seq<Move>): Option<Line> {
    if |moves| == 0 then Some(l)
    else
      var before := Exec(l, moves[..|moves| - 1]);
      if before.Some? && WellTagged(before.value) && Allowed(before.value, moves[|moves| - 1])
      then Some(Do(before.value, moves[|moves| - 1])) else None
  }

  lemma DoKeepsGood(l: Line, m: Move)
    requires Good(l) && Allowed(l, m)
    ensures Good(Do(l, m))
  {
    match m
    case Put(job) => PutKeepsGood(l, job);
    case Work(st) =>
      if l.running.None? { TakeKeepsGood(l, st); }
      else if Step(l.worker, SlotJob(l), st).worker.phase.Idle? { EndKeepsGood(l, st); }
      else { ContinueKeepsGood(l, st); }
  }

  lemma {:induction false} EveryInterleavingGood(l: Line, moves: seq<Move>)
    requires Good(l)
    ensures Exec(l, moves).Some? ==> Good(Exec(l, moves).value)
  {
    if |moves| > 0 && Exec(l, moves).Some? {
      EveryInterleavingGood(l, moves[..|moves| - 1]);
      DoKeepsGood(Exec(l, moves[..|moves| - 1]).value, moves[|moves| - 1]);
    }
  }

  /**
   * For every interleaving: ctl calls come in submission order, every job dropped without a
   * report is followed by a put of a strictly newer generation, and once the slot is empty and
   * the worker idle the last submitted job has been reported, after every other report.
   */
  lemma {:induction false} HandoffIsSafe(w: Worker, moves: seq<Move>)
    requires w.phase.Idle? && Exec(Start(w), moves).Some?
    ensures var l := Exec(Start(w), moves).value;
      && (forall i, j | 0 <= i < j < |l.ctls| :: l.ctls[i] < l.ctls[j] < |l.puts|)
      && (forall i, j | 0 <= i < j < |l.ends| :: l.ends[i].index < l.ends[j].index < |l.puts|)
      && (forall k | 0 <= k < |l.ends| && l.ends[k].report.None? ::
            exists j :: l.ends[k].index < j < |l.puts| && l.puts[j].generation > l.puts[l.ends[k].index].generation)
      && (l.puts != [] && l.slot.None? && l.worker.phase.Idle? ==>
            && l.ends != [] && l.ends[|l.ends| - 1].index == |l.puts| - 1
            && l.ends[|l.ends| - 1].report.Some?
            && l.ends[|l.ends| - 1].report.value.generation == l.puts[|l.puts| - 1].generation)
  {
    EveryInterleavingGood(Start(w), moves);
    var l := Exec(Start(w), moves).value;
    forall k | 0 <= k < |l.ends| && l.ends[k].report.None?
      ensures exists j :: l.ends[k].index < j < |l.puts| && l.puts[j].generation > l.puts[l.ends[k].index].generation
    {
      var j :| Newer(l, l.ends[k].index, j);
    }
  }

  /** The job in hand has a check of the slot still ahead of it, and the slot is strictly newer. */
  ghost predicate Doomed(l: Line)
    requires WellTagged(l)
  {
    && l.running.Some? && !l.worker.phase.Applying? && !l.worker.phase.Reverting?
    && Superseded(SlotJob(l), l.puts[l.running.value].generation)
  }

  /** Job `i` has made no ctl call, and can make none. */
  ghost predicate NeverApplies(l: Line, i: nat)
    requires WellTagged(l)
  {
    && i < |l.puts| && (forall k | 0 <= k < |l.ctls| :: l.ctls[k] != i)
    && (l.slot.Some? ==> l.slot.value > i)
    && (l.running.Some? ==> l.running.value > i || (l.running.value == i && Doomed(l)))
  }

  lemma PutKeepsNeverApplies(l: Line, i: nat, job: Job)
    requires WellTagged(l) && SlotIsLast(l) && NeverApplies(l, i) && Allowed(l, Put(job))
    ensures WellTagged(Do(l, Put(job))) && NeverApplies(Do(l, Put(job)), i)
  {
    var l' := Do(l, Put(job));
    assert l'.puts[i] == l.puts[i];
  }

  lemma WorkKeepsNeverApplies(l: Line, i: nat, st: Stage)
    requires WellTagged(l) && SlotIsLast(l) && NeverApplies(l, i) && Allowed(l, Work(st))
    ensures WellTagged(Do(l, Work(st))) && NeverApplies(Do(l, Work(st)), i)
  {
    StepShape(l.worker, SlotJob(l), st);
  }

  /** Once a strictly newer job waits before the last check, the older one never reaches ctl. */
  lemma {:induction false} SupersededNeverApplied(l: Line, i: nat, moves: seq<Move>)
    requires Good(l) && NeverApplies(l, i) && Exec(l, moves).Some?
    ensures Good(Exec(l, moves).value) && NeverApplies(Exec(l, moves).value, i)
  {
    EveryInterleavingGood(l, moves);
    if |moves| > 0 {
      SupersededNeverApplied(l, i, moves[..|moves| - 1]);
      var p := Exec(l, moves[..|moves| - 1]).value;
      match moves[|moves| - 1]
      case Put(job) => PutKeepsNeverApplies(p, i, job);
      case Work(st) => WorkKeepsNeverApplies(p, i, st);
    }
  }
}
