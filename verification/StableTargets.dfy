/** The preset or a URL has at most one attempt or timer outstanding, so giving up on one is final. */
module StableTargets {
  import opened Types
  import opened CoordinatorSpec
  import opened CoordinatorLaws
  import WorkerRefinement
  import opened System
  import opened Convergence
  import opened Conditions
  import Lines

  /** What was decided last is the preset or a cover with a URL: nothing that is ever re-scanned. */
  predicate Settled(c: Coord) { c.cur.lastDesired.Some? ==> Stable(c.cur.lastDesired.value) }

  predicate Armed(c: Coord) { c.host.timer.Some? }

  /** At most one of: the job waiting, the job in hand, a result to be adopted, the timer. */
  ghost predicate OneAtATime(y: Sys) {
    !y.c.cur.stopping && Settled(y.c) ==> Tokens(y) + One(Armed(y.c)) <= 1
  }

  /** How a handler may add to what is outstanding: nothing for a stable desire that stands. */
  ghost predicate AddsNothing(c: Coord, c': Coord) {
    || (c'.cur.generation == c.cur.generation && (Settled(c') ==> Settled(c) && c'.host.slot == c.host.slot)
        && (Armed(c') ==> Armed(c)) && c'.cur.stopping == c.cur.stopping)
    || (c'.cur.generation == c.cur.generation + 1 && !Armed(c'))
  }

  lemma MaybeSubmitAddsNothing(cfg: Config, c: Coord, d: Desired, p: Option<string>, again: bool)
    requires Inv(cfg, c)
    ensures AddsNothing(c, MaybeSubmit(c, d, p, again))
  {
    CancelRetryKeeps(cfg, c);
  }

  lemma ReselectionAddsNothing(cfg: Config, c: Coord, again: bool)
    requires Inv(cfg, c)
    ensures AddsNothing(c, DecideAndSubmit(cfg, c, again))
  {
    match Choice(cfg, c)
    case Hold =>
    case Apply(d, w) => MaybeSubmitAddsNothing(cfg, c, d, Some(w), again);
    case Revert(d) => MaybeSubmitAddsNothing(cfg, c, d, None, again);
  }

  lemma SchemeAddsNothing(cfg: Config, c: Coord, value: nat)
    requires Inv(cfg, c)
    ensures AddsNothing(c, OnScheme(cfg, c, value))
  {
    var c1 := c.(mode := ModeFromScheme(value));
    var sel := Choice(cfg, c1);
    if c1.appliedTarget.Some? && (sel.Hold? || sel.desired.target != c1.appliedTarget) {
      MaybeSubmitAddsNothing(cfg, c1, Desired(c1.appliedTarget, c1.mode), None, true);
    } else if sel.Apply? {
      MaybeSubmitAddsNothing(cfg, c1, sel.desired, Some(sel.winner), true);
    }
  }

  lemma ClockAddsNothing(cfg: Config, c: Coord, now: int)
    requires Inv(cfg, c)
    ensures AddsNothing(c, FireDueTimer(c, now))
  {
  }

  lemma OuterAddsNothing(cfg: Config, c: Coord, a: Action)
    requires Inv(cfg, c) && !a.Report?
    ensures AddsNothing(c, Act(cfg, c, a))
  {
    match a
    case Line(text) =>
      var l := Lines.Parse(cfg.bases, text);
      if l.Some? {
        TrackKeeps(cfg, c, l.value);
        ReselectionAddsNothing(cfg, Track(cfg, c, l.value), true);
      }
    case Vanish(busName) =>
      var name := PlayerNameFromBus(busName);
      if name.Some? && name.value in c.book.players {
        EvictKeeps(cfg, c, name.value);
        ReselectionAddsNothing(cfg, c.(book := Evict(c.book, name.value)), false);
      }
    case Scheme(value) => SchemeAddsNothing(cfg, c, value);
    case Clock(now) => ClockAddsNothing(cfg, c, now);
    case Shutdown => CancelRetryKeeps(cfg, c);
    case WorkerDies =>
  }

  /** Under a new generation only the slot can hold a token. */
  lemma NewGenerationTokens(cfg: Config, y: Sys, c': Coord)
    requires Coherent(cfg, y) && c'.cur.generation == y.c.cur.generation + 1
    ensures Tokens(With(y, c')) <= 1
  {
    CountNone(y.queue, y.c.cur.generation + 1);
  }

  lemma MovedOneAtATime(cfg: Config, y: Sys, c': Coord)
    requires Coherent(cfg, y) && OneAtATime(y) && AddsNothing(y.c, c')
    ensures OneAtATime(With(y, c'))
  {
    if c'.cur.generation != y.c.cur.generation { NewGenerationTokens(cfg, y, c'); }
  }

  /** A result of the current generation is consumed; at most the timer takes its place. */
  lemma DeliverOneAtATime(cfg: Config, y: Sys, r: Reading)
    requires Coherent(cfg, y) && OneAtATime(y) && Enabled(y, Deliver(r))
    requires !y.c.cur.stopping && y.queue[0].generation == y.c.cur.generation
    ensures OneAtATime(Do(cfg, y, Deliver(r)))
  {
    var (c, c') := (y.c, Adopted(cfg, y, r));
    var c1 := Settle(c, y.queue[0], r);
    SettleKeeps(cfg, c, y.queue[0], r);
    SettleTouchesSubmitted(cfg, c, y.queue[0], r);
    if c'.cur.generation == c.cur.generation {
      SameDesireKeeps(cfg, c1);
    } else {
      NewDesireIsFresh(cfg, c1);
      CountNone(y.queue[1..], c'.cur.generation);
    }
  }

  lemma DoOneAtATime(cfg: Config, y: Sys, i: Inner)
    requires Coherent(cfg, y) && OneAtATime(y) && Enabled(y, i)
    ensures OneAtATime(Do(cfg, y, i))
  {
    match i
    case Work(stage) => WorkKeepsTokens(cfg, y, stage);
    case Fire =>
      var now := y.c.host.timer.value.due;
      ClockAddsNothing(cfg, y.c, now);
      MovedOneAtATime(cfg, y, FireDueTimer(y.c, now));
    case Deliver(r) =>
      if !y.c.cur.stopping && y.queue[0].generation == y.c.cur.generation {
        DeliverOneAtATime(cfg, y, r);
      }
  }

  lemma {:induction false} PlayOneAtATime(cfg: Config, palette: WorkerRefinement.Extraction, y: Sys, moves: seq<Move>)
    requires Coherent(cfg, y) && TruePalette(palette, y.w) && OneAtATime(y)
    ensures var y' := Play(cfg, palette, y, moves); y'.Some? ==> OneAtATime(y'.value)
  {
    if |moves| > 0 && Play(cfg, palette, y, moves).Some? {
      var (before, m) := (moves[..|moves| - 1], moves[|moves| - 1]);
      PlayOneAtATime(cfg, palette, y, before);
      PlayCoherent(cfg, palette, y, before);
      var mid := Play(cfg, palette, y, before).value;
      match m {
        case In(i) => DoOneAtATime(cfg, mid, i);
        case Outer(a) =>
          OuterAddsNothing(cfg, mid.c, a);
          MovedOneAtATime(cfg, mid, Act(cfg, mid.c, a));
      }
    }
  }

  /** On every run from boot, as long as a preset or a URL is decided: one attempt, or one timer, or neither. */
  lemma {:induction false} OneAttemptAtATime(cfg: Config, palette: WorkerRefinement.Extraction, mode: Mode,
                                             moves: seq<Move>)
    ensures var y := Play(cfg, palette, Booted(mode), moves); y.Some? ==> OneAtATime(y.value)
  {
    PlayOneAtATime(cfg, palette, Booted(mode), moves);
  }

  /** On every run from boot giving up leaves no timer, unless a directory was being scanned. */
  lemma {:induction false} GivingUpIsFinal(cfg: Config, palette: WorkerRefinement.Extraction, mode: Mode,
                                           moves: seq<Move>, r: Reading)
    ensures var y := Play(cfg, palette, Booted(mode), moves);
      y.Some? && |y.value.queue| > 0 && GivesUp(y.value.c, y.value.queue[0]) && Settled(y.value.c) ==>
        !Armed(Adopted(cfg, y.value, r))
  {
    var y := Play(cfg, palette, Booted(mode), moves);
    if y.Some? && |y.value.queue| > 0 && GivesUp(y.value.c, y.value.queue[0]) && Settled(y.value.c) {
      OneAttemptAtATime(cfg, palette, mode, moves);
      PlayCoherent(cfg, palette, Booted(mode), moves);
      var (c, result) := (y.value.c, y.value.queue[0]);
      assert Tokens(y.value) >= 1;
      GivingUpArmsNothing(c, result, r);
      SettleKeeps(cfg, c, result, r);
      ReselectionTimer(cfg, Settle(c, result, r), false);
    }
  }
}
