/**
 * The coordinator and the runtime's host as one value, and each handler as a function on it.
 * Environment readings (clock, jitter) are parameters; `submissions`, `cancelled`, `fired`,
 * `delays` and `giveUps` are histories that no handler reads.
 */
module CoordinatorSpec {
  import opened Types
  import opened Select
  import Lines

  const RETRY_BASE_MS: nat := 1000
  const RETRY_CAP_MS: nat := 30_000
  const RETRY_MAX_ATTEMPTS: nat := 3
  const U64_MAX: nat := 0xFFFF_FFFF_FFFF_FFFF

  datatype CoverStatus = Pending | Ready | Retrying | Exhausted | Rejected
  {
    predicate Eligible() { Pending? || Ready? || Retrying? }
  }

  datatype CoverIdentity = Url(url: string) | Dir(dir: string)

  datatype CoverState = CoverState(identity: CoverIdentity, status: CoverStatus)

  /** What the daemon is configured with: the followed bases and the covers directories. */
  datatype Config = Config(bases: seq<string>, dirs: CoversDirs)

  /** One reading of the host's clock and jitter source. */
  datatype Reading = Reading(now: int, jitter: real)

  datatype Timer = Timer(id: nat, due: int)

  datatype Host = Host(
    slot: Option<Job>, workerAlive: bool, workerDead: bool,
    timer: Option<Timer>, nextTimer: nat,
    submissions: seq<Job>, cancelled: nat, fired: nat)

  /** What the current attempt count has produced since it was last reset. */
  datatype Episode = Episode(delays: seq<(nat, real)>, giveUps: nat)

  /** Per-player records: `players`, `covers` and the recency counter `seq`. */
  datatype Book = Book(players: Players, covers: map<string, CoverState>, seqNo: nat)

  /** What was decided and submitted, and for whom. */
  datatype Desire = Desire(
    generation: nat, lastDesired: Option<Desired>, lastSubmitted: Option<Desired>,
    stopping: bool, player: Option<string>)

  /** The `retry_*` scalars. */
  datatype Retry = Retry(
    timer: Option<nat>, desire: Option<Desired>, player: Option<string>, attempt: nat, episode: Episode)

  datatype Coord = Coord(
    book: Book, mode: Mode, applied: Option<string>, appliedTarget: Option<CoverTarget>,
    cur: Desire, retry: Retry, host: Host)

  const NO_RETRY: Retry := Retry(None, None, None, 0, Episode([], 0))

  function Initial(mode: Mode, workerAlive: bool): Coord {
    Coord(Book(map[], map[], 0), mode, None, None, Desire(0, None, None, false, None), NO_RETRY,
          Host(None, workerAlive, false, None, 0, [], 0, 0))
  }

  // ----- the host -----

  function HostSubmit(h: Host, job: Job): Host {
    var h := h.(submissions := h.submissions + [job]);
    if h.workerAlive then h.(slot := Some(job)) else h.(workerDead := true)
  }

  function HostSchedule(h: Host, delay: nat, now: int): Host {
    h.(nextTimer := h.nextTimer + 1, timer := Some(Timer(h.nextTimer + 1, now + delay)))
  }

  function HostCancel(h: Host, id: nat): Host {
    if h.timer.Some? && h.timer.value.id == id then h.(timer := None, cancelled := h.cancelled + 1) else h
  }

  // ----- backoff -----

  function Pow2(n: nat): nat { if n == 0 then 1 else 2 * Pow2(n - 1) }

  function Min(a: nat, b: nat): nat { if a <= b then a else b }

  /** `checked_shl`, `saturating_mul` and `min`, as written over u64. */
  function CappedBackoff(attempt: nat): nat {
    var shift := if attempt == 0 then 0 else attempt - 1;
    var factor := if shift < 64 then Pow2(shift) else U64_MAX;
    Min(Min(RETRY_BASE_MS * factor, U64_MAX), RETRY_CAP_MS)
  }

  function BackoffDelay(attempt: nat, jitter: real): nat {
    var scaled := CappedBackoff(attempt) as real * jitter;
    if scaled < 0.0 then 0 else scaled.Floor
  }

  // ----- cover state -----

  function Identity(cfg: Config, name: string, artUrl: string): Option<CoverIdentity> {
    if artUrl != "" then Some(Url(artUrl))
    else match cfg.dirs(name) case None => None case Some(d) => Some(Dir(d))
  }

  function Eligible(b: Book): set<string> {
    set n | n in b.players && (n !in b.covers || b.covers[n].status.Eligible())
  }

  ghost function Choice(cfg: Config, s: Coord): Selection {
    Decision(s.book.players, s.mode, cfg.dirs, Eligible(s.book))
  }

  function Restatus(b: Book, player: Option<string>, status: CoverStatus): Book {
    if player.Some? && player.value in b.covers
    then b.(covers := b.covers[player.value := b.covers[player.value].(status := status)])
    else b
  }

  /** A superseded player loses its retry chain but not its chance to be selected again. */
  function Demote(b: Book, player: Option<string>): Book {
    if player.Some? && player.value in b.covers && b.covers[player.value].status.Retrying?
    then Restatus(b, player, Pending) else b
  }

  // ----- internals -----

  function Submit(s: Coord, player: Option<string>, desired: Desired): Coord {
    s.(cur := s.cur.(player := player), host := HostSubmit(s.host, Job(s.cur.generation, desired)))
  }

  function CancelRetry(s: Coord): Coord {
    if s.retry.timer.None? then s.(retry := NO_RETRY)
    else s.(retry := NO_RETRY, host := HostCancel(s.host, s.retry.timer.value), book := Demote(s.book, s.retry.player))
  }

  function Stable(desired: Desired): bool {
    desired.target.None? || desired.target.value.artUrl != ""
  }

  function MaybeSubmit(s: Coord, desired: Desired, player: Option<string>, dirResubmit: bool): Coord {
    if s.cur.stopping then s
    else if s.cur.lastSubmitted == Some(desired) then
      var s1 := s.(cur := s.cur.(lastDesired := Some(desired)));
      if !dirResubmit || Stable(desired) then s1 else Submit(s1, player, desired)
    else
      var cur := s.cur.(generation := s.cur.generation + 1,
                        lastDesired := Some(desired), lastSubmitted := Some(desired));
      Submit(CancelRetry(s).(cur := cur), player, desired)
  }

  ghost function DecideAndSubmit(cfg: Config, s: Coord, dirResubmit: bool): Coord {
    match Choice(cfg, s)
    case Hold => s
    case Apply(desired, winner) => MaybeSubmit(s, desired, Some(winner), dirResubmit)
    case Revert(desired) => MaybeSubmit(s, desired, None, dirResubmit)
  }

  /** The attempt count a failure of `desire` continues: a new target starts afresh. */
  function CountFor(t: Retry, desire: Option<Desired>): Retry {
    if desire != t.desire then t.(desire := desire, attempt := 0, episode := Episode([], 0)) else t
  }

  /** Arms the backoff timer of the current attempt, replacing one that is still armed. */
  function ArmTimer(s: Coord, r: Reading): Coord {
    var h := if s.retry.timer.Some? then HostCancel(s.host, s.retry.timer.value) else s.host;
    var delay := BackoffDelay(s.retry.attempt, r.jitter);
    var h' := HostSchedule(h, delay, r.now);
    var e := s.retry.episode.(delays := s.retry.episode.delays + [(delay, r.jitter)]);
    s.(host := h', retry := s.retry.(timer := Some(h'.nextTimer), player := s.cur.player, episode := e))
  }

  /** Counts a retryable failure; past the cap it only notes, once, that it gives up. */
  function ArmRetry(s: Coord, r: Reading): Coord {
    var t := CountFor(s.retry, s.cur.lastSubmitted);
    var t' := t.(attempt := t.attempt + 1);
    if t'.attempt > RETRY_MAX_ATTEMPTS then
      var more := if t'.attempt == RETRY_MAX_ATTEMPTS + 1 then 1 else 0;
      s.(retry := t'.(episode := t.episode.(giveUps := t.episode.giveUps + more)))
    else ArmTimer(s.(retry := t'), r)
  }

  // ----- handlers -----

  /** The cover state one accepted line leaves, and whether it re-opens an exhausted player. */
  function TrackBook(cfg: Config, b: Book, l: Lines.Line): (Book, bool) {
    var players := b.players[l.name := PlayerState(l.status, l.artUrl, b.seqNo + 1)];
    match Identity(cfg, l.name, l.artUrl)
    case None => (Book(players, b.covers - {l.name}, b.seqNo + 1), false)
    case Some(ident) =>
      if l.name in b.covers && b.covers[l.name].identity == ident then
        var reopen := b.covers[l.name].status.Exhausted?;
        var covers := if reopen then b.covers[l.name := CoverState(ident, Pending)] else b.covers;
        (Book(players, covers, b.seqNo + 1), reopen)
      else (Book(players, b.covers[l.name := CoverState(ident, Pending)], b.seqNo + 1), false)
  }

  function Track(cfg: Config, s: Coord, l: Lines.Line): Coord {
    var (book, reopen) := TrackBook(cfg, s.book, l);
    s.(book := book, cur := if reopen then s.cur.(lastSubmitted := None) else s.cur)
  }

  ghost function OnLine(cfg: Config, s: Coord, line: string): Coord {
    match Lines.Parse(cfg.bases, line)
    case None => s
    case Some(l) => DecideAndSubmit(cfg, Track(cfg, s, l), true)
  }

  const MPRIS_PREFIX: string := "org.mpris.MediaPlayer2."

  function PlayerNameFromBus(busName: string): Option<string> {
    if MPRIS_PREFIX <= busName then Some(busName[|MPRIS_PREFIX|..]) else None
  }

  function Evict(b: Book, name: string): Book {
    b.(players := b.players - {name}, covers := b.covers - {name})
  }

  ghost function OnVanish(cfg: Config, s: Coord, busName: string): Coord {
    var name := PlayerNameFromBus(busName);
    if name.None? || name.value !in s.book.players then s
    else DecideAndSubmit(cfg, s.(book := Evict(s.book, name.value)), false)
  }

  function ModeFromScheme(value: nat): Mode { if value == 2 then Light else Dark }

  ghost function OnScheme(cfg: Config, s: Coord, value: nat): Coord {
    var mode := ModeFromScheme(value);
    if mode == s.mode then s
    else
      var s1 := s.(mode := mode);
      var sel := Choice(cfg, s1);
      if s1.appliedTarget.Some? && (sel.Hold? || sel.desired.target != s1.appliedTarget) then
        MaybeSubmit(s1, Desired(s1.appliedTarget, mode), None, true)
      else if sel.Apply? then MaybeSubmit(s1, sel.desired, Some(sel.winner), true)
      else s1
  }

  /** The effect of a current result before re-selection. */
  function Settle(s: Coord, result: JobResult, r: Reading): Coord {
    match result.outcome
    case Refused => s.(book := Restatus(s.book, s.cur.player, Rejected))
    case FailedRetryable =>
      var s1 := ArmRetry(s, r);
      s1.(book := Restatus(s.book, s.cur.player,
                           if s1.retry.attempt > RETRY_MAX_ATTEMPTS then Exhausted else Retrying))
    case _ => Recorded(s, result.coverId)
  }

  function Recorded(s: Coord, coverId: Option<string>): Coord {
    s.(applied := coverId,
       appliedTarget := if s.cur.lastSubmitted.Some? then s.cur.lastSubmitted.value.target else None,
       retry := s.retry.(desire := None, attempt := 0, episode := Episode([], 0)),
       book := Restatus(s.book, s.cur.player, Ready))
  }

  ghost function Adopt(cfg: Config, s: Coord, result: JobResult, r: Reading): Coord {
    if s.cur.stopping || result.generation != s.cur.generation then s
    else DecideAndSubmit(cfg, Settle(s, result, r), false)
  }

  function BeginShutdown(s: Coord): Coord {
    CancelRetry(s).(cur := s.cur.(stopping := true, generation := s.cur.generation + 1))
  }

  function FireRetry(s: Coord): Coord {
    var s1 := s.(retry := s.retry.(timer := None));
    if s.cur.stopping || s.retry.desire.None? || s.cur.lastDesired != s.retry.desire then s1
    else
      Submit(s1.(cur := s.cur.(generation := s.cur.generation + 1)), s.retry.player, s.retry.desire.value)
  }

  /** `fire_due_timer`: the host consumes a due timer, then the coordinator hears of it. */
  function FireDueTimer(s: Coord, now: int): Coord {
    if s.host.timer.Some? && now >= s.host.timer.value.due
    then FireRetry(s.(host := s.host.(timer := None, fired := s.host.fired + 1)))
    else s
  }

  // ----- runs -----

  /** One thing that happens on the event-loop thread. */
  datatype Action =
    | Line(text: string)
    | Vanish(busName: string)
    | Scheme(value: nat)
    | Report(result: JobResult, reading: Reading)
    | Clock(now: int)
    | Shutdown
    | WorkerDies

  ghost function Act(cfg: Config, s: Coord, a: Action): Coord {
    match a
    case Line(text) => OnLine(cfg, s, text)
    case Vanish(busName) => OnVanish(cfg, s, busName)
    case Scheme(value) => OnScheme(cfg, s, value)
    case Report(result, reading) => Adopt(cfg, s, result, reading)
    case Clock(now) => FireDueTimer(s, now)
    case Shutdown => BeginShutdown(s)
    case WorkerDies => s.(host := s.host.(workerAlive := false))
  }

  ghost function Run(cfg: Config, s: Coord, actions: seq<Action>): Coord {
    if |actions| == 0 then s
    else Act(cfg, Run(cfg, s, actions[..|actions| - 1]), actions[|actions| - 1])
  }
}
