/** What an accepted line does to the records, in terms of art URLs, and when its player is followed from then on. */
module Tracking {
  import opened Types
  import opened Select
  import opened CoordinatorSpec
  import opened CoordinatorLaws
  import opened CoordinatorTheorems
  import Lines

  /** The line repeats the art URL that its player had before. */
  predicate SameArt(b: Book, l: Lines.Line) {
    l.name in b.players && b.players[l.name].artUrl == l.artUrl
  }

  /** There is something to show for the line: a URL, or a directory configured for the player. */
  predicate Sourced(cfg: Config, l: Lines.Line) { l.artUrl != "" || cfg.dirs(l.name).Some? }

  /** The status of the player's cover after the line: other art starts afresh, and so does giving up on it. */
  predicate StatusFollows(b: Book, l: Lines.Line, status: CoverStatus) {
    if SameArt(b, l) && l.name in b.covers && !b.covers[l.name].status.Exhausted?
    then status == b.covers[l.name].status
    else status.Pending?
  }

  /** The line re-opens a player that was given up on. */
  predicate Reopens(cfg: Config, b: Book, l: Lines.Line) {
    SameArt(b, l) && Sourced(cfg, l) && l.name in b.covers && b.covers[l.name].status.Exhausted?
  }

  /**
   * On every run: an accepted line makes its player the newest, touches no other player, and keeps
   * the status of an unchanged cover unless it was given up on; only then is the standing value forgotten.
   */
  lemma LineUpdates(cfg: Config, mode: Mode, actions: seq<Action>, l: Lines.Line)
    ensures var s := After(cfg, mode, actions); var t := Track(cfg, s, l);
      && (l.name in t.book.players && t.book.players[l.name].status == l.status
          && t.book.players[l.name].artUrl == l.artUrl)
      && (forall n | n in s.book.players && n != l.name ::
            n in t.book.players && t.book.players[n] == s.book.players[n]
            && t.book.players[n].seqNo < t.book.players[l.name].seqNo)
      && t.book.players.Keys == s.book.players.Keys + {l.name}
      && t.book.covers.Keys == s.book.covers.Keys - {l.name} + (if Sourced(cfg, l) then {l.name} else {})
      && (forall n | n in s.book.covers && n != l.name :: t.book.covers[n] == s.book.covers[n])
      && (Sourced(cfg, l) ==> StatusFollows(s.book, l, t.book.covers[l.name].status))
      && t.cur == (if Reopens(cfg, s.book, l) then s.cur.(lastSubmitted := None) else s.cur)
      && t.host == s.host && t.retry == s.retry && t.mode == s.mode && t.appliedTarget == s.appliedTarget
  {
    RunKeeps(cfg, mode, true, actions);
    var s := After(cfg, mode, actions);
    var t := Track(cfg, s, l);
    if Sourced(cfg, l) { CoverAfter(cfg, s.book, l); }
  }

  /** The identities of a cover are equal exactly if the art URLs are. */
  lemma CoverAfter(cfg: Config, b: Book, l: Lines.Line)
    requires CoversMatch(cfg, b) && Sourced(cfg, l)
    ensures SameArt(b, l) <==>
      l.name in b.covers && Some(b.covers[l.name].identity) == Identity(cfg, l.name, l.artUrl)
    ensures var t := TrackBook(cfg, b, l);
      && l.name in t.0.covers && StatusFollows(b, l, t.0.covers[l.name].status)
      && (t.1 <==> Reopens(cfg, b, l))
  {
    if SameArt(b, l) { assert HasSource(b.players, cfg.dirs, l.name); }
  }

  /** The desire for what the line says is playing. */
  function DesireOfLine(cfg: Config, l: Lines.Line, mode: Mode): Desired {
    Desired(Some(CoverTarget(l.artUrl, cfg.dirs(l.name))), mode)
  }

  /** The player's cover was refused, and the line does not change it. */
  predicate StillRefused(b: Book, l: Lines.Line) {
    SameArt(b, l) && l.name in b.covers && b.covers[l.name].status.Rejected?
  }

  /**
   * On every run: a player that says it plays something it has a source for is followed from then
   * on, unless its cover was refused and is still the same. What it plays is then submitted last.
   */
  lemma LineIsFollowed(cfg: Config, mode: Mode, actions: seq<Action>, text: string)
    ensures var s := After(cfg, mode, actions); var l := Lines.Parse(cfg.bases, text);
      !s.cur.stopping && l.Some? && l.value.status.Playing? && Sourced(cfg, l.value) ==>
        var s' := OnLine(cfg, s, text); var sel := Choice(cfg, s');
        && (sel.Apply? && sel.winner == l.value.name <==> !StillRefused(s.book, l.value))
        && (!StillRefused(s.book, l.value) ==> s'.cur.lastSubmitted == Some(DesireOfLine(cfg, l.value, s.mode)))
  {
    var s := After(cfg, mode, actions);
    var l := Lines.Parse(cfg.bases, text);
    RunKeeps(cfg, mode, true, actions);
    if !s.cur.stopping && l.Some? && l.value.status.Playing? && Sourced(cfg, l.value) {
      var t := Track(cfg, s, l.value);
      TrackKeeps(cfg, s, l.value);
      DecideAndSubmitKeeps(cfg, t, true);
      FollowedAfter(cfg, s, l.value);
    }
  }

  lemma FollowedAfter(cfg: Config, s: Coord, l: Lines.Line)
    requires Inv(cfg, s) && l.status.Playing? && Sourced(cfg, l)
    ensures var t := Track(cfg, s, l); var sel := Choice(cfg, t);
      && (sel.Apply? && sel.winner == l.name <==> !StillRefused(s.book, l))
      && (sel.Apply? && sel.winner == l.name ==> sel.desired == DesireOfLine(cfg, l, s.mode))
  {
    var t := Track(cfg, s, l);
    var (players, e) := (t.book.players, Eligible(t.book));
    CoverAfter(cfg, s.book, l);
    DecisionMeaning(players, t.mode, cfg.dirs, e);
    assert Actionable(players, cfg.dirs, e, l.name) <==> !StillRefused(s.book, l);
    if !StillRefused(s.book, l) {
      var w := Choice(cfg, t).winner;
      assert NotAfter((w, players[w]), (l.name, players[l.name]));
    }
  }

  /** On every run: a track with another URL than before is what is submitted last, whatever became of the last one. */
  lemma NewArtIsSubmitted(cfg: Config, mode: Mode, actions: seq<Action>, text: string)
    ensures var s := After(cfg, mode, actions); var l := Lines.Parse(cfg.bases, text);
      !s.cur.stopping && l.Some? && l.value.status.Playing? && l.value.artUrl != "" && !SameArt(s.book, l.value) ==>
        OnLine(cfg, s, text).cur.lastSubmitted == Some(DesireOfLine(cfg, l.value, s.mode))
  {
    LineIsFollowed(cfg, mode, actions, text);
  }
}
