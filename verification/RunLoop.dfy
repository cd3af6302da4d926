/** The event loop: one event at a time, then the timer check, until something ends it. */
module RunLoop {
  import opened Types
  import opened CoordinatorSpec
  import opened Daemon

  datatype Event =
    | LineEvent(text: string)
    | Oversize
    | Hangup
    | VanishEvent(busName: string)
    | SchemeEvent(value: nat)
    | SchemeMalformed
    | WorkerEvent(result: JobResult, reading: Reading)
    | ShutdownEvent
    | Timeout

  datatype LoopExit = ShutdownExit | HangupExit | WorkerDied | Disconnected

  /** An event, and what the clock reads at the timer check after it. */
  datatype Arrival = Arrival(event: Event, now: int)

  predicate Ends(e: Event) { e.Hangup? || e.ShutdownEvent? }

  function Dispatched(e: Event): seq<Action> {
    match e
    case LineEvent(text) => [Action.Line(text)]
    case VanishEvent(busName) => [Vanish(busName)]
    case SchemeEvent(value) => [Scheme(value)]
    case WorkerEvent(result, reading) => [Report(result, reading)]
    case _ => []
  }

  /** What the loop makes of the arrivals: each event's handler, then the timer check. */
  function Trace(arrivals: seq<Arrival>): seq<Action> {
    if |arrivals| == 0 then []
    else
      var last := arrivals[|arrivals| - 1];
      Trace(arrivals[..|arrivals| - 1]) + Dispatched(last.event) + [Clock(last.now)]
  }

  /** One turn of the loop: the event's handler, then the timer check. */
  ghost function Turn(cfg: Config, s: Coord, a: Arrival): Coord {
    var d := Dispatched(a.event);
    FireDueTimer(if d == [] then s else Act(cfg, s, d[0]), a.now)
  }

  type TurnOf = (Coord, Arrival) -> Coord

  /** `turn` is `Turn`; the trigger keeps the handlers folded where only their order matters. */
  ghost predicate IsTurn(cfg: Config, turn: TurnOf) {
    forall s, a {:trigger Turn(cfg, s, a)} :: turn(s, a) == Turn(cfg, s, a)
  }

  ghost function Turns(turn: TurnOf, s: Coord, arrivals: seq<Arrival>): Coord {
    if |arrivals| == 0 then s
    else turn(Turns(turn, s, arrivals[..|arrivals| - 1]), arrivals[|arrivals| - 1])
  }

  lemma {:induction false} TurnIsARun(cfg: Config, s: Coord, actions: seq<Action>, a: Arrival, turn: TurnOf)
    requires IsTurn(cfg, turn)
    ensures turn(Run(cfg, s, actions), a) == Run(cfg, s, actions + Dispatched(a.event) + [Clock(a.now)])
  {
    var d := Dispatched(a.event);
    assert turn(Run(cfg, s, actions), a) == Turn(cfg, Run(cfg, s, actions), a);
    DispatchedIsARun(cfg, s, actions, a.event);
    RunTimerCheck(cfg, s, actions + d, a.now);
  }

  lemma {:induction false} DispatchedIsARun(cfg: Config, s: Coord, actions: seq<Action>, e: Event)
    ensures var d := Dispatched(e); var s0 := Run(cfg, s, actions);
      Run(cfg, s, actions + d) == if d == [] then s0 else Act(cfg, s0, d[0])
  {
    var d := Dispatched(e);
    if d == [] {
      assert actions + d == actions;
    } else {
      assert d == [d[0]];
      RunOneMore(cfg, s, actions, d[0]);
    }
  }

  lemma {:induction false} RunTimerCheck(cfg: Config, s: Coord, actions: seq<Action>, now: int)
    ensures Run(cfg, s, actions + [Clock(now)]) == FireDueTimer(Run(cfg, s, actions), now)
  {
    RunOneMore(cfg, s, actions, Clock(now));
  }

  lemma {:induction false} RunOneMore(cfg: Config, s: Coord, actions: seq<Action>, a: Action)
    ensures Run(cfg, s, actions + [a]) == Act(cfg, Run(cfg, s, actions), a)
  {
    assert (actions + [a])[..|actions|] == actions;
  }

  /** The loop's turns are a run of the coordinator, so every law about runs holds of the loop. */
  lemma {:induction false} TurnsAreARun(cfg: Config, s: Coord, arrivals: seq<Arrival>, turn: TurnOf)
    requires IsTurn(cfg, turn)
    ensures Turns(turn, s, arrivals) == Run(cfg, s, Trace(arrivals))
  {
    if |arrivals| > 0 {
      var (before, last) := (arrivals[..|arrivals| - 1], arrivals[|arrivals| - 1]);
      TurnsAreARun(cfg, s, before, turn);
      TurnIsARun(cfg, s, Trace(before), last, turn);
    }
  }

  method FireDue(coord: Coordinator, now: int)
    modifies coord, coord.host, coord.host.mailbox
    ensures coord.Abs() == FireDueTimer(old(coord.Abs()), now)
  {
    if coord.host.timer.Some? && now >= coord.host.timer.value.due {
      coord.host.timer := None;
      coord.host.fired := coord.host.fired + 1;
      coord.FireRetry();
    }
  }

  method Dispatch(coord: Coordinator, e: Event)
    requires !Ends(e)
    modifies coord, coord.host, coord.host.mailbox
    ensures coord.Abs() == if Dispatched(e) == [] then old(coord.Abs())
                           else Act(coord.cfg, old(coord.Abs()), Dispatched(e)[0])
  {
    match e
    case LineEvent(text) => coord.OnLine(text);
    case VanishEvent(busName) => coord.OnVanish(busName);
    case SchemeEvent(value) => coord.OnScheme(value);
    case WorkerEvent(result, reading) => coord.Adopt(result, reading);
    case _ =>
  }

  method Serve(coord: Coordinator, a: Arrival, ghost turn: TurnOf)
    requires !Ends(a.event) && IsTurn(coord.cfg, turn)
    modifies coord, coord.host, coord.host.mailbox
    ensures coord.Abs() == turn(old(coord.Abs()), a)
    ensures coord.host.timer.Some? ==> a.now < coord.host.timer.value.due
  {
    Dispatch(coord, a.event);
    FireDue(coord, a.now);
    assert coord.Abs() == Turn(coord.cfg, old(coord.Abs()), a);
    assert coord.host.timer == coord.Abs().host.timer;
  }

  /**
   * Serves a prefix of the arrivals, each by its handler and then the timer check, so no due
   * timer ever waits behind further input; it stops at the first ending event, or right after
   * the event whose submission found the worker dead, and for no other reason.
   */
  method Loop(coord: Coordinator, arrivals: seq<Arrival>, ghost turn: TurnOf) returns (exit: LoopExit, served: nat)
    requires !coord.host.workerDead && IsTurn(coord.cfg, turn)
    modifies coord, coord.host, coord.host.mailbox
    ensures served <= |arrivals|
    ensures coord.Abs() == Turns(turn, old(coord.Abs()), arrivals[..served])
    ensures forall k | 0 <= k < served :: !arrivals[k].event.Hangup? && !arrivals[k].event.ShutdownEvent?
    ensures served > 0 && coord.host.timer.Some? ==> arrivals[served - 1].now < coord.host.timer.value.due
    ensures coord.host.workerDead <==> exit.WorkerDied?
    ensures exit.Disconnected? <==> served == |arrivals| && !coord.host.workerDead
    ensures exit.HangupExit? ==> arrivals[served].event.Hangup?
    ensures exit.ShutdownExit? ==> arrivals[served].event.ShutdownEvent?
  {
    ghost var start := coord.Abs();
    served := 0;
    while served < |arrivals|
      invariant served <= |arrivals| && !coord.host.workerDead
      invariant coord.Abs() == Turns(turn, start, arrivals[..served])
      invariant forall k | 0 <= k < served :: !Ends(arrivals[k].event)
      invariant served > 0 && coord.host.timer.Some? ==> arrivals[served - 1].now < coord.host.timer.value.due
    {
      var event := arrivals[served].event;
      if event.Hangup? {
        return HangupExit, served;
      }
      if event.ShutdownEvent? {
        return ShutdownExit, served;
      }
      Serve(coord, arrivals[served], turn);
      assert arrivals[..served + 1][..served] == arrivals[..served];
      served := served + 1;
      if coord.host.workerDead {
        return WorkerDied, served;
      }
    }
    exit := Disconnected;
  }
}
