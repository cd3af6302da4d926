/** Serving a job is one of the interleavings: what holds of all of them holds of `serve`. */
module ServiceRuns {
  import opened Types
  import opened WorkerSpec
  import opened MailboxRuns
  import opened WorkerRefinement

  /** Puts that never go back behind `from` or behind each other. */
  predicate Rising(from: nat, puts: seq<Job>)
    decreases |puts|
  {
    |puts| > 0 ==> from <= puts[0].generation && Rising(puts[0].generation, puts[1..])
  }

  function LastGeneration(from: nat, puts: seq<Job>): nat {
    if |puts| == 0 then from else puts[|puts| - 1].generation
  }

  predicate RisingBeats(from: nat, beats: seq<Beat>)
    decreases |beats|
  {
    |beats| > 0 ==> Rising(from, beats[0].puts) && RisingBeats(LastGeneration(from, beats[0].puts), beats[1..])
  }

  lemma {:induction false} ExecConcat(l: Line, a: seq<Move>, b: seq<Move>)
    requires Exec(l, a).Some?
    ensures Exec(l, a + b) == Exec(Exec(l, a).value, b)
  {
    if |b| == 0 {
      assert a + b == a;
    } else {
      ExecConcat(l, a, b[..|b| - 1]);
      assert (a + b)[..|a + b| - 1] == a + b[..|b| - 1];
    }
  }

  lemma PutMove(l: Line, job: Job) returns (l': Line)
    requires Good(l) && LastGeneration(0, l.puts) <= job.generation
    ensures Exec(l, [Put(job)]) == Some(l') && Good(l') && l'.puts == l.puts + [job]
    ensures l'.worker == l.worker && l'.running == l.running && SlotJob(l') == Some(job)
  {
    l' := Do(l, Put(job));
    PutKeepsGood(l, job);
    assert Exec(l, [Put(job)]) == Some(l') by { assert [Put(job)][..0] == []; }
  }

  lemma OneByOne<T>(a: seq<T>, b: seq<T>)
    requires |b| > 0
    ensures a + [b[0]] + b[1..] == a + b
  {
  }

  lemma {:induction false} NextPut(before: seq<Job>, slot: Option<Job>, puts: seq<Job>)
    requires |puts| > 0 && Rising(LastGeneration(0, before), puts)
    ensures Rising(LastGeneration(0, before + [puts[0]]), puts[1..])
    ensures Arrive(Some(puts[0]), puts[1..]) == Arrive(slot, puts)
  {
    assert LastGeneration(0, before + [puts[0]]) == puts[0].generation;
    assert |puts| > 1 ==> puts[1..][|puts| - 2] == puts[|puts| - 1];
  }

  lemma {:induction false} ExecPuts(l: Line, puts: seq<Job>) returns (moves: seq<Move>, l': Line)
    requires Good(l) && Rising(LastGeneration(0, l.puts), puts)
    ensures Exec(l, moves) == Some(l') && Good(l')
    ensures l'.worker == l.worker && l'.running == l.running && l'.puts == l.puts + puts
    ensures SlotJob(l') == Arrive(SlotJob(l), puts)
    decreases |puts|
  {
    if |puts| == 0 {
      moves, l' := [], l;
      assert l.puts + puts == l.puts;
    } else {
      var l1 := PutMove(l, puts[0]);
      NextPut(l.puts, SlotJob(l), puts);
      OneByOne(l.puts, puts);
      var rest;
      rest, l' := ExecPuts(l1, puts[1..]);
      moves := [Put(puts[0])] + rest;
      ExecConcat(l, [Put(puts[0])], rest);
    }
  }

  lemma WorkMove(l: Line, st: Stage) returns (l': Line)
    requires Good(l) && l.running.Some?
    ensures Exec(l, [Work(st)]) == Some(l') && Good(l') && l'.puts == l.puts
    ensures l'.worker == Step(l.worker, SlotJob(l), st).worker && SlotJob(l') == SlotJob(l)
    ensures l'.worker.phase.Idle? || l'.running == l.running
  {
    l' := Do(l, Work(st));
    assert Exec(l, [Work(st)]) == Some(l') by { assert [Work(st)][..0] == []; }
    DoKeepsGood(l, Work(st));
  }

  /** The worker and the slot that `Drive` computes are reached by puts and micro-steps alone. */
  lemma {:induction false} DriveIsAnInterleaving(l: Line, beats: seq<Beat>) returns (moves: seq<Move>, l': Line)
    requires Good(l) && l.running.Some? && |beats| >= Remaining(l.worker.phase)
    requires RisingBeats(LastGeneration(0, l.puts), beats)
    ensures Exec(l, moves) == Some(l') && Good(l')
    ensures var served := Drive(true, l.worker, SlotJob(l), beats);
      l'.worker == served.worker && SlotJob(l') == served.slot
    decreases Remaining(l.worker.phase)
  {
    var m0, l0 := ExecPuts(l, beats[0].puts);
    var l1 := WorkMove(l0, beats[0].stage);
    StepShape(l0.worker, SlotJob(l0), beats[0].stage);
    ExecConcat(l, m0, [Work(beats[0].stage)]);
    moves, l' := m0 + [Work(beats[0].stage)], l1;
    if !l1.worker.phase.Idle? {
      assert LastGeneration(0, l1.puts) == LastGeneration(LastGeneration(0, l.puts), beats[0].puts);
      var rest;
      rest, l' := DriveIsAnInterleaving(l1, beats[1..]);
      ExecConcat(l, moves, rest);
      moves := moves + rest;
    }
  }
}
