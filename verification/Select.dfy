/** Desired-state selection: which player, if any, the palette should follow. */
module Select {
  import opened Types
  import Sorting

  datatype Selection =
    | Apply(desired: Desired, winner: string)
    | Revert(desired: Desired)
    | Hold

  type Players = map<string, PlayerState>
  type CoversDirs = string -> Option<string>

  /** Lexicographic order on names, by code point. */
  predicate NameLess(a: string, b: string) {
    if |b| == 0 then false
    else if |a| == 0 then true
    else a[0] < b[0] || (a[0] == b[0] && NameLess(a[1..], b[1..]))
  }

  /** Newest first; the name only breaks ties. */
  predicate NotAfter(a: (string, PlayerState), b: (string, PlayerState)) {
    a.1.seqNo > b.1.seqNo || (a.1.seqNo == b.1.seqNo && !NameLess(b.0, a.0))
  }

  predicate HasSource(players: Players, dirs: CoversDirs, n: string) {
    n in players && (players[n].artUrl != "" || dirs(n).Some?)
  }

  predicate IsPlaying(players: Players, n: string) {
    n in players && players[n].status.Playing?
  }

  predicate Actionable(players: Players, dirs: CoversDirs, eligible: set<string>, n: string) {
    IsPlaying(players, n) && HasSource(players, dirs, n) && n in eligible
  }

  /** The newest actionable player: every other actionable one ranks after it. */
  ghost predicate IsWinner(players: Players, dirs: CoversDirs, eligible: set<string>, n: string) {
    && Actionable(players, dirs, eligible, n)
    && forall m :: Actionable(players, dirs, eligible, m) ==> NotAfter((n, players[n]), (m, players[m]))
  }

  function TargetOf(players: Players, dirs: CoversDirs, n: string): CoverTarget
    requires n in players
  {
    CoverTarget(players[n].artUrl, dirs(n))
  }

  /** What selection means, without an iteration order. */
  ghost function Decision(players: Players, mode: Mode, dirs: CoversDirs, eligible: set<string>): Selection {
    if forall n :: !IsPlaying(players, n) then Revert(Desired(None, mode))
    else if n :| IsWinner(players, dirs, eligible, n) then
      Apply(Desired(Some(TargetOf(players, dirs, n)), mode), n)
    else Hold
  }

  // ----- the order is total, so the winner is unique and exists -----

  lemma {:induction false} NameLessTotal(a: string, b: string)
    ensures NameLess(a, b) || NameLess(b, a) || a == b
    ensures !(NameLess(a, b) && NameLess(b, a)) && !NameLess(a, a)
  {
    if |a| > 0 && |b| > 0 && a[0] == b[0] {
      NameLessTotal(a[1..], b[1..]);
      assert a == [a[0]] + a[1..] && b == [b[0]] + b[1..];
    }
    if |a| > 0 { NameLessTotal(a[1..], a[1..]); }
  }

  lemma {:induction false} NameLessTransitive(a: string, b: string, c: string)
    requires NameLess(a, b) && NameLess(b, c)
    ensures NameLess(a, c)
  {
    if |a| > 0 && a[0] == b[0] == c[0] {
      NameLessTransitive(a[1..], b[1..], c[1..]);
    }
  }

  lemma NotAfterIsTotalPreorder()
    ensures Sorting.TotalPreorder(NotAfter)
  {
    forall x: (string, PlayerState), y: (string, PlayerState)
      ensures NotAfter(x, y) || NotAfter(y, x)
    {
      NameLessTotal(x.0, y.0);
    }
    forall x: (string, PlayerState), y: (string, PlayerState), z: (string, PlayerState)
      | NotAfter(x, y) && NotAfter(y, z)
      ensures NotAfter(x, z)
    {
      if x.1.seqNo == y.1.seqNo == z.1.seqNo && NameLess(z.0, x.0) {
        NameLessTotal(x.0, y.0);
        NameLessTotal(y.0, z.0);
        if x.0 != y.0 { NameLessTransitive(z.0, x.0, y.0); }
      }
    }
  }

  /** Two winners are the same player, whatever order the map is walked in. */
  lemma WinnerUnique(players: Players, dirs: CoversDirs, eligible: set<string>, n: string, m: string)
    requires IsWinner(players, dirs, eligible, n) && IsWinner(players, dirs, eligible, m)
    ensures n == m
  {
    NameLessTotal(n, m);
  }

  /** `sort_by` and the scan of `decide`: the decision is a function of the map, not of its order. */
  method Decide(players: Players, mode: Mode, dirs: CoversDirs, eligible: string -> bool) returns (sel: Selection)
    ensures sel == Decision(players, mode, dirs, set n | n in players && eligible(n))
  {
    var playing: seq<(string, PlayerState)> := [];
    var names := players.Keys;
    while names != {}
      invariant names <= players.Keys
      invariant forall e :: e in playing <==>
        e.0 in players && e.0 !in names && e.1 == players[e.0] && e.1.status.Playing?
    {
      var n :| n in names;
      names := names - {n};
      if players[n].status.Playing? {
        playing := playing + [(n, players[n])];
      }
    }
    if |playing| == 0 {
      assert forall n | IsPlaying(players, n) :: (n, players[n]) in playing;
      return Revert(Desired(None, mode));
    }
    assert IsPlaying(players, playing[0].0);
    ghost var chosen := set n | n in players && eligible(n);
    NotAfterIsTotalPreorder();
    var ranked := Sorting.Sort(playing, NotAfter);
    Sorting.SameMembers(ranked, playing);
    for i := 0 to |ranked|
      invariant forall j :: 0 <= j < i ==> !Actionable(players, dirs, chosen, ranked[j].0)
    {
      var (n, p) := ranked[i];
      assert (n, p) in ranked;
      var coversDir := dirs(n);
      if (p.artUrl != "" || coversDir.Some?) && eligible(n) {
        forall m | Actionable(players, dirs, chosen, m)
          ensures NotAfter((n, players[n]), (m, players[m]))
        {
          assert (m, players[m]) in playing;
          var j :| 0 <= j < |ranked| && ranked[j] == (m, players[m]);
          if j == i { NameLessTotal(n, n); }
        }
        forall m | IsWinner(players, dirs, chosen, m) ensures m == n {
          WinnerUnique(players, dirs, chosen, n, m);
        }
        assert IsWinner(players, dirs, chosen, n);
        return Apply(Desired(Some(CoverTarget(p.artUrl, coversDir)), mode), n);
      }
    }
    assert forall m | IsPlaying(players, m) :: (m, players[m]) in playing && (m, players[m]) in ranked;
    return Hold;
  }

  /** The decision in both directions: each case holds exactly under its condition. */
  lemma DecisionMeaning(players: Players, mode: Mode, dirs: CoversDirs, eligible: set<string>)
    ensures var sel := Decision(players, mode, dirs, eligible);
      && (sel.Revert? <==> forall n :: !IsPlaying(players, n))
      && (sel.Hold? <==> (exists n :: IsPlaying(players, n)) && forall n :: !Actionable(players, dirs, eligible, n))
      && (sel.Apply? ==> IsWinner(players, dirs, eligible, sel.winner)
                         && sel.desired == Desired(Some(TargetOf(players, dirs, sel.winner)), mode))
      && (sel.Revert? ==> sel.desired == Desired(None, mode))
  {
    if n :| Actionable(players, dirs, eligible, n) {
      var w := WinnerExists(players, dirs, eligible, n);
    }
  }

  lemma WinnerExists(players: Players, dirs: CoversDirs, eligible: set<string>, n: string) returns (w: string)
    requires Actionable(players, dirs, eligible, n)
    ensures IsWinner(players, dirs, eligible, w)
  {
    w := n;
    var rest := (set m | m in players.Keys && Actionable(players, dirs, eligible, m));
    NotAfterIsTotalPreorder();
    while rest != {}
      invariant Actionable(players, dirs, eligible, w)
      invariant rest <= players.Keys
      invariant forall m | m !in rest && Actionable(players, dirs, eligible, m) ::
                  NotAfter((w, players[w]), (m, players[m]))
    {
      var m :| m in rest;
      rest := rest - {m};
      if Actionable(players, dirs, eligible, m) && !NotAfter((w, players[w]), (m, players[m])) {
        w := m;
      }
    }
  }
}
