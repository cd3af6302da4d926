/** The trust boundary for playerctl lines: `name \t status \t artUrl`, or nothing. */
module Lines {
  import opened Types

  datatype Line = Line(name: string, status: PlaybackStatus, artUrl: string)

  function TrimNewlines(s: string): string {
    if |s| > 0 && s[|s| - 1] == '\n' then TrimNewlines(s[..|s| - 1]) else s
  }

  function SplitTabs(s: string): (fields: seq<string>)
    ensures |fields| > 0
  {
    if |s| == 0 then [""]
    else
      var rest := SplitTabs(s[1..]);
      if s[0] == '\t' then [""] + rest else [[s[0]] + rest[0]] + rest[1..]
  }

  function ParseStatus(s: string): Option<PlaybackStatus> {
    if s == "Playing" then Some(Playing)
    else if s == "Paused" then Some(Paused)
    else if s == "Stopped" then Some(Stopped)
    else None
  }

  function StatusName(st: PlaybackStatus): string {
    match st case Playing => "Playing" case Paused => "Paused" case Stopped => "Stopped"
  }

  /** Each state is said in one word, and nothing else says it. */
  lemma StatusWords(s: string, st: PlaybackStatus)
    ensures ParseStatus(s) == Some(st) <==>
      (s == "Playing" && st.Playing?) || (s == "Paused" && st.Paused?) || (s == "Stopped" && st.Stopped?)
    ensures ParseStatus(s) == Some(st) <==> s == StatusName(st)
  {
  }

  /** A configured base, or an instance of it: never a bare prefix. */
  predicate AllowedName(bases: seq<string>, name: string) {
    exists i :: 0 <= i < |bases| && (name == bases[i] || bases[i] + "." <= name)
  }

  /** `name` goes on after `base`, and with a dot. */
  predicate InstanceOf(base: string, name: string) {
    |base| < |name| && name[..|base|] == base && name[|base|] == '.'
  }

  /** A base is followed itself; of other names exactly the dotted instances of a base are. */
  lemma FollowedNames(bases: seq<string>, name: string)
    ensures name in bases ==> AllowedName(bases, name)
    ensures name !in bases ==>
      (AllowedName(bases, name) <==> exists i :: 0 <= i < |bases| && InstanceOf(bases[i], name))
  {
    forall i | 0 <= i < |bases| ensures bases[i] + "." <= name <==> InstanceOf(bases[i], name) {
      var b := bases[i];
      if |b| < |name| { assert name[..|b| + 1] == name[..|b|] + [name[|b|]]; }
    }
    if name in bases {
      var i :| 0 <= i < |bases| && bases[i] == name;
    }
  }

  /** Exactly the newlines at the end are taken off. */
  lemma {:induction false} TrimExact(s: string)
    ensures var t := TrimNewlines(s);
      && |t| <= |s| && s[..|t|] == t && (forall i :: |t| <= i < |s| ==> s[i] == '\n')
      && (|t| > 0 ==> t[|t| - 1] != '\n')
  {
    if |s| > 0 && s[|s| - 1] == '\n' { TrimExact(s[..|s| - 1]); }
  }

  function Parse(bases: seq<string>, line: string): Option<Line> {
    var parts := SplitTabs(TrimNewlines(line));
    if |parts| != 3 || !AllowedName(bases, parts[0]) then None
    else match ParseStatus(parts[1])
      case None => None
      case Some(status) => Some(Line(parts[0], status, parts[2]))
  }

  function Join(fields: seq<string>): string
    requires |fields| > 0
  {
    if |fields| == 1 then fields[0] else fields[0] + "\t" + Join(fields[1..])
  }

  lemma {:induction false} SplitJoin(s: string)
    ensures Join(SplitTabs(s)) == s
    ensures forall i :: 0 <= i < |SplitTabs(s)| ==> '\t' !in SplitTabs(s)[i]
  {
    if |s| > 0 {
      SplitJoin(s[1..]);
      assert s == [s[0]] + s[1..];
      var rest := SplitTabs(s[1..]);
      if s[0] == '\t' {
        assert ([""] + rest)[1..] == rest;
      } else {
        assert ([[s[0]] + rest[0]] + rest[1..])[1..] == rest[1..];
      }
    }
  }

  lemma {:induction false} JoinSplit(fields: seq<string>)
    requires |fields| > 0
    requires forall i :: 0 <= i < |fields| ==> '\t' !in fields[i]
    ensures SplitTabs(Join(fields)) == fields
    decreases |fields|, |fields[0]|
  {
    var f := fields[0];
    if |f| > 0 {
      JoinSplit([f[1..]] + fields[1..]);
      assert ([f[1..]] + fields[1..])[1..] == fields[1..];
      assert Join(fields)[0] == f[0] && f[0] in f;
      assert Join(fields)[1..] == Join([f[1..]] + fields[1..]);
      assert [f[0]] + f[1..] == f && [f] + fields[1..] == fields;
    } else if |fields| > 1 {
      JoinSplit(fields[1..]);
      assert Join(fields)[1..] == Join(fields[1..]);
    }
  }

  lemma JoinThree(a: string, b: string, c: string)
    ensures Join([a, b, c]) == a + "\t" + b + "\t" + c
  {
    assert [a, b, c][1..] == [b, c] && [b, c][1..] == [c];
    assert Join([b, c]) == b + "\t" + c;
  }

  /**
   * A line is accepted exactly when it is three tab-free fields naming a followed
   * player in a known state, and then it means those fields and no prefix of them.
   * `StatusWords` has the words for the states.
   */
  lemma {:induction false} ParseExact(bases: seq<string>, line: string, l: Line)
    ensures Parse(bases, line) == Some(l) <==>
      && AllowedName(bases, l.name)
      && '\t' !in l.name && '\t' !in l.artUrl
      && TrimNewlines(line) == l.name + "\t" + StatusName(l.status) + "\t" + l.artUrl
  {
    var body := TrimNewlines(line);
    ThreeFields(body, l.name, StatusName(l.status), l.artUrl);
    assert ParseStatus(StatusName(l.status)) == Some(l.status);
  }

  lemma {:induction false} ThreeFields(body: string, a: string, b: string, c: string)
    requires '\t' !in b
    ensures SplitTabs(body) == [a, b, c] <==> '\t' !in a && '\t' !in c && body == a + "\t" + b + "\t" + c
  {
    JoinThree(a, b, c);
    SplitJoin(body);
    if '\t' !in a && '\t' !in c { JoinSplit([a, b, c]); }
    if SplitTabs(body) == [a, b, c] { assert SplitTabs(body)[0] == a && SplitTabs(body)[2] == c; }
  }
}
