/** The deterministic battle identity: time, mode and the teams' tags in canonical order. */
module BattleKey {
  import opened Text

  const BAR: Unit := 124
  const COMMA: Unit := 44

  type Team = seq<Text>

  datatype Battle = Battle(time: Text, mode: Text, teams: seq<Team>)

  /** Every tag upper-cased; `upper` is the runtime's case mapping. */
  function Raised(upper: Text -> Text, team: Team): (r: Team)
    ensures |r| == |team| && forall i :: 0 <= i < |team| ==> r[i] == upper(team[i])
  {
    if team == [] then [] else [upper(team[0])] + Raised(upper, team[1..])
  }

  function TeamKey(upper: Text -> Text, team: Team): Text {
    Join(COMMA, Sort(Raised(upper, team)))
  }

  /** Keys of the non-empty teams, in the order reported. */
  function TeamKeys(upper: Text -> Text, teams: seq<Team>): seq<Text> {
    if teams == [] then []
    else (if TeamKey(upper, teams[0]) == [] then [] else [TeamKey(upper, teams[0])]) + TeamKeys(upper, teams[1..])
  }

  function CanonicalTeams(upper: Text -> Text, teams: seq<Team>): Text {
    Join(BAR, Sort(TeamKeys(upper, teams)))
  }

  /** The text whose SHA-256 is the battle key. */
  function KeyText(upper: Text -> Text, b: Battle): Text {
    b.time + [BAR] + b.mode + [BAR] + CanonicalTeams(upper, b.teams)
  }

  /**
   * What the key text reads: time, mode and the keys of the teams that have one, between bars; a
   * team's key is its raised tags between commas; both lists ascend in code-unit order and lose nothing.
   */
  lemma KeyReads(upper: Text -> Text, b: Battle, team: Team)
    ensures exists keys: seq<Text> ::
      && KeyText(upper, b) == b.time + Codes("|") + b.mode + Codes("|") + Join('|' as int, keys)
      && multiset(keys) == multiset(TeamKeys(upper, b.teams)) && Ascends(keys)
    ensures exists tags: seq<Text> ::
      && TeamKey(upper, team) == Join(',' as int, tags)
      && multiset(tags) == multiset(Raised(upper, team)) && Ascends(tags)
  {
    assert Codes("|") == [BAR];
    hide Codes;
    var keys, tags := Sort(TeamKeys(upper, b.teams)), Sort(Raised(upper, team));
    SortAscends(TeamKeys(upper, b.teams));
    SortAscends(Raised(upper, team));
    hide Sort, ComesBefore, Join;
    assert Ascends(keys) && Ascends(tags);
    assert KeyText(upper, b) == b.time + Codes("|") + b.mode + Codes("|") + Join('|' as int, keys);
  }

  ghost predicate Ascends(ts: seq<Text>) {
    forall i, j :: 0 <= i < j < |ts| ==> ts[i] == ts[j] || ComesBefore(ts[i], ts[j])
  }

  // ------------------------------------------------------------- same battle

  /** A team's tags, their order forgotten. */
  function Squad(upper: Text -> Text, t: Team): multiset<Text> {
    multiset(Raised(upper, t))
  }

  /** How many of the (non-empty) teams have exactly these tags, whatever their order. */
  function Count(upper: Text -> Text, teams: seq<Team>, squad: multiset<Text>): nat {
    if teams == [] then 0
    else (if Squad(upper, teams[0]) == squad then 1 else 0) + Count(upper, teams[1..], squad)
  }

  /** The same squads as often on both sides: equal up to the order of teams and of tags inside a team. */
  ghost predicate SameTeams(upper: Text -> Text, x: seq<Team>, y: seq<Team>) {
    forall squad: multiset<Text> :: squad != multiset{} ==> Count(upper, x, squad) == Count(upper, y, squad)
  }

  /** A player tag: non-empty, without comma or bar. */
  predicate CleanTag(tag: Text) {
    tag != [] && Free(COMMA, tag) && Free(BAR, tag)
  }

  predicate CleanTeam(upper: Text -> Text, team: Team) {
    forall tag :: tag in Raised(upper, team) ==> CleanTag(tag)
  }

  predicate CleanTeams(upper: Text -> Text, teams: seq<Team>) {
    forall team :: team in teams ==> CleanTeam(upper, team)
  }

  predicate Clean(upper: Text -> Text, b: Battle) {
    Free(BAR, b.time) && Free(BAR, b.mode) && CleanTeams(upper, b.teams)
  }

  lemma SquadsShareAKey(upper: Text -> Text, s: Team, t: Team)
    requires Squad(upper, s) == Squad(upper, t)
    ensures TeamKeys(upper, [s]) == TeamKeys(upper, [t])
  {
    SortForgetsOrder(Raised(upper, s), Raised(upper, t));
  }

  lemma KeysTellSquadsApart(upper: Text -> Text, s: Team, t: Team)
    requires CleanTeam(upper, s) && CleanTeam(upper, t)
    ensures TeamKey(upper, s) == TeamKey(upper, t) <==> Squad(upper, s) == Squad(upper, t)
  {
    hide Sort, Join, Raised;
    var x, y := Raised(upper, s), Raised(upper, t);
    SortForgetsOrder(x, y);
    if Join(COMMA, Sort(x)) == Join(COMMA, Sort(y)) {
      SortElements(x);
      SortElements(y);
      JoinIsInjective(COMMA, Sort(x), Sort(y));
    }
  }

  lemma KeyOfTeam(upper: Text -> Text, t: Team)
    requires CleanTeam(upper, t)
    ensures TeamKey(upper, t) == [] <==> Squad(upper, t) == multiset{}
    ensures Free(BAR, TeamKey(upper, t))
  {
    hide Sort, Join, Raised;
    var x := Raised(upper, t);
    SortElements(x);
    JoinIsEmpty(COMMA, Sort(x));
    JoinIsFree(COMMA, BAR, Sort(x));
    assert |multiset(x)| == |x|;
    assert |multiset(Sort(x))| == |Sort(x)|;
  }

  /** Counting squads is counting team keys. */
  lemma {:induction false} CountIsKeyCount(upper: Text -> Text, teams: seq<Team>, t: Team)
    requires CleanTeams(upper, teams) && CleanTeam(upper, t) && TeamKey(upper, t) != []
    ensures Count(upper, teams, Squad(upper, t)) == multiset(TeamKeys(upper, teams))[TeamKey(upper, t)]
  {
    hide CleanTeam, TeamKey, Raised;
    if teams != [] {
      var s, rest := teams[0], teams[1..];
      assert s in teams && forall u :: u in rest ==> u in teams;
      CountIsKeyCount(upper, rest, t);
      KeysTellSquadsApart(upper, s, t);
      var first: seq<Text> := if TeamKey(upper, s) == [] then [] else [TeamKey(upper, s)];
      assert multiset(first + TeamKeys(upper, rest)) == multiset(first) + multiset(TeamKeys(upper, rest));
    }
  }

  lemma {:induction false} KeyHasTeam(upper: Text -> Text, teams: seq<Team>, k: Text) returns (t: Team)
    requires k in TeamKeys(upper, teams)
    ensures t in teams && TeamKey(upper, t) == k && k != []
  {
    if TeamKey(upper, teams[0]) != [] && k == TeamKey(upper, teams[0]) {
      t := teams[0];
    } else {
      t := KeyHasTeam(upper, teams[1..], k);
    }
  }

  lemma {:induction false} SquadHasTeam(upper: Text -> Text, teams: seq<Team>, squad: multiset<Text>) returns (t: Team)
    requires Count(upper, teams, squad) > 0
    ensures t in teams && Squad(upper, t) == squad
  {
    if Squad(upper, teams[0]) == squad {
      t := teams[0];
    } else {
      t := SquadHasTeam(upper, teams[1..], squad);
    }
  }

  lemma TeamCounts(upper: Text -> Text, x: seq<Team>, y: seq<Team>, t: Team)
    requires CleanTeams(upper, x) && CleanTeams(upper, y) && CleanTeam(upper, t) && TeamKey(upper, t) != []
    ensures Count(upper, x, Squad(upper, t)) == Count(upper, y, Squad(upper, t))
       <==> multiset(TeamKeys(upper, x))[TeamKey(upper, t)] == multiset(TeamKeys(upper, y))[TeamKey(upper, t)]
  {
    CountIsKeyCount(upper, x, t);
    CountIsKeyCount(upper, y, t);
  }

  lemma KeysMeanTeams(upper: Text -> Text, x: seq<Team>, y: seq<Team>)
    requires CleanTeams(upper, x) && CleanTeams(upper, y)
    requires multiset(TeamKeys(upper, x)) == multiset(TeamKeys(upper, y))
    ensures SameTeams(upper, x, y)
  {
    hide CleanTeam, TeamKey, Raised, TeamKeys, Count;
    forall squad: multiset<Text> | squad != multiset{}
      ensures Count(upper, x, squad) == Count(upper, y, squad)
    {
      if Count(upper, x, squad) > 0 || Count(upper, y, squad) > 0 {
        var t := SquadHasTeam(upper, if Count(upper, x, squad) > 0 then x else y, squad);
        KeyOfTeam(upper, t);
        TeamCounts(upper, x, y, t);
      }
    }
  }

  // --------------------------------------------------------- order is ignored

  function FirstKey(upper: Text -> Text, t: Team): seq<Text> {
    if TeamKey(upper, t) == [] then [] else [TeamKey(upper, t)]
  }

  lemma KeysCons(upper: Text -> Text, x: seq<Team>)
    ensures x == [] ==> TeamKeys(upper, x) == []
    ensures x != [] ==> TeamKeys(upper, x) == FirstKey(upper, x[0]) + TeamKeys(upper, x[1..])
  {
  }

  lemma {:induction false} KeysAdd(upper: Text -> Text, x: seq<Team>, y: seq<Team>)
    ensures TeamKeys(upper, x + y) == TeamKeys(upper, x) + TeamKeys(upper, y)
  {
    hide TeamKeys, FirstKey;
    KeysCons(upper, x);
    if x == [] {
      assert x + y == y;
    } else {
      KeysAdd(upper, x[1..], y);
      KeysCons(upper, x + y);
      assert (x + y)[1..] == x[1..] + y;
    }
  }

  lemma {:induction false} CountsAdd(upper: Text -> Text, x: seq<Team>, y: seq<Team>, squad: multiset<Text>)
    ensures Count(upper, x + y, squad) == Count(upper, x, squad) + Count(upper, y, squad)
  {
    hide TeamKey, Squad;
    if x == [] {
      assert x + y == y;
    } else {
      CountsAdd(upper, x[1..], y, squad);
      assert (x + y)[1..] == x[1..] + y;
    }
  }

  function CutOut(y: seq<Team>, j: nat): seq<Team>
    requires j < |y|
  {
    y[..j] + y[j + 1..]
  }

  lemma TakeOutCount(upper: Text -> Text, y: seq<Team>, j: nat, squad: multiset<Text>)
    requires j < |y|
    ensures Count(upper, y, squad) == Count(upper, CutOut(y, j), squad) + if Squad(upper, y[j]) == squad then 1 else 0
  {
    hide Squad;
    assert y == y[..j] + ([y[j]] + y[j + 1..]);
    CountsAdd(upper, y[..j], [y[j]] + y[j + 1..], squad);
    CountsAdd(upper, [y[j]], y[j + 1..], squad);
    CountsAdd(upper, y[..j], y[j + 1..], squad);
  }

  lemma TakeOutKeys(upper: Text -> Text, y: seq<Team>, j: nat)
    requires j < |y|
    ensures multiset(TeamKeys(upper, y)) == multiset(TeamKeys(upper, CutOut(y, j))) + multiset(TeamKeys(upper, [y[j]]))
  {
    hide TeamKeys;
    assert y == y[..j] + ([y[j]] + y[j + 1..]);
    KeysAdd(upper, y[..j], [y[j]] + y[j + 1..]);
    KeysAdd(upper, [y[j]], y[j + 1..]);
    KeysAdd(upper, y[..j], y[j + 1..]);
  }

  lemma {:induction false} TeamOfSquad(upper: Text -> Text, y: seq<Team>, squad: multiset<Text>) returns (j: nat)
    requires Count(upper, y, squad) > 0
    ensures j < |y| && Squad(upper, y[j]) == squad
  {
    if Squad(upper, y[0]) == squad {
      j := 0;
    } else {
      j := TeamOfSquad(upper, y[1..], squad);
      j := j + 1;
    }
  }

  lemma EmptyTeamHasNoKey(upper: Text -> Text, t: Team)
    requires Squad(upper, t) == multiset{}
    ensures TeamKeys(upper, [t]) == []
  {
    assert |Squad(upper, t)| == |t|;
  }

  /** Drop the first team on both sides: alone if it is empty, together with a team of the same squad otherwise. */
  lemma DropFirst(upper: Text -> Text, x: seq<Team>, y: seq<Team>) returns (x': seq<Team>, y': seq<Team>)
    requires SameTeams(upper, x, y) && x != []
    ensures SameTeams(upper, x', y') && |x'| < |x| && |y'| <= |y|
    ensures multiset(TeamKeys(upper, x')) == multiset(TeamKeys(upper, y')) ==>
        multiset(TeamKeys(upper, x)) == multiset(TeamKeys(upper, y))
  {
    hide Squad, TeamKeys, Count, CutOut;
    var t := x[0];
    x', y' := CutOut(x, 0), y;
    CutLength(x, 0);
    TakeOutKeys(upper, x, 0);
    if Squad(upper, t) == multiset{} {
      EmptyTeamHasNoKey(upper, t);
      forall squad: multiset<Text> | squad != multiset{}
        ensures Count(upper, x', squad) == Count(upper, y', squad)
      {
        TakeOutCount(upper, x, 0, squad);
      }
    } else {
      TakeOutCount(upper, x, 0, Squad(upper, t));
      var j := TeamOfSquad(upper, y, Squad(upper, t));
      y' := CutOut(y, j);
      CutLength(y, j);
      TakeOutKeys(upper, y, j);
      SquadsShareAKey(upper, t, y[j]);
      forall squad: multiset<Text> | squad != multiset{}
        ensures Count(upper, x', squad) == Count(upper, y', squad)
      {
        TakeOutCount(upper, x, 0, squad);
        TakeOutCount(upper, y, j, squad);
      }
    }
  }

  lemma {:induction false} SameTeamsShareKeys(upper: Text -> Text, x: seq<Team>, y: seq<Team>)
    requires SameTeams(upper, x, y)
    ensures multiset(TeamKeys(upper, x)) == multiset(TeamKeys(upper, y))
    decreases |x| + |y|
  {
    hide TeamKeys, Count;
    if x != [] {
      var x', y' := DropFirst(upper, x, y);
      SameTeamsShareKeys(upper, x', y');
    } else if y != [] {
      var y', x' := DropFirst(upper, y, x);
      SameTeamsShareKeys(upper, y', x');
    }
  }

  lemma CutLength(y: seq<Team>, j: nat)
    requires j < |y|
    ensures |CutOut(y, j)| == |y| - 1
  {
  }

  // ------------------------------------------------------------ main results

  /** Whoever observed it: neither the order of the teams nor the order of tags inside a team changes the key. */
  lemma KeyIgnoresOrder(upper: Text -> Text, a: Battle, b: Battle)
    requires a.time == b.time && a.mode == b.mode && SameTeams(upper, a.teams, b.teams)
    ensures KeyText(upper, a) == KeyText(upper, b)
  {
    SameTeamsShareKeys(upper, a.teams, b.teams);
    SortForgetsOrder(TeamKeys(upper, a.teams), TeamKeys(upper, b.teams));
  }

  /**
   * One key per battle: two observations get the same key text exactly when time and mode
   * agree and the teams are the same up to the order of teams and of tags.
   */
  lemma KeyIdentifiesBattle(upper: Text -> Text, a: Battle, b: Battle)
    requires Clean(upper, a) && Clean(upper, b)
    ensures KeyText(upper, a) == KeyText(upper, b) <==>
            a.time == b.time && a.mode == b.mode && SameTeams(upper, a.teams, b.teams)
  {
    hide CleanTeams, TeamKeys, SameTeams, Sort, Join;
    if a.time == b.time && a.mode == b.mode && SameTeams(upper, a.teams, b.teams) {
      KeyIgnoresOrder(upper, a, b);
    }
    if KeyText(upper, a) == KeyText(upper, b) {
      var x, y := TeamKeys(upper, a.teams), TeamKeys(upper, b.teams);
      var c, d := CanonicalTeams(upper, a.teams), CanonicalTeams(upper, b.teams);
      var p, q := [BAR] + a.mode + [BAR] + c, [BAR] + b.mode + [BAR] + d;
      assert KeyText(upper, a) == a.time + p && KeyText(upper, b) == b.time + q;
      FreeIsPrefixFree(BAR, a.time, b.time, p, q);
      assert p[1..] == a.mode + ([BAR] + c) && q[1..] == b.mode + ([BAR] + d);
      FreeIsPrefixFree(BAR, a.mode, b.mode, [BAR] + c, [BAR] + d);
      assert ([BAR] + c)[1..] == c && ([BAR] + d)[1..] == d;
      SortedKeysAreClean(upper, a.teams);
      SortedKeysAreClean(upper, b.teams);
      JoinIsInjective(BAR, Sort(x), Sort(y));
      SortForgetsOrder(x, y);
      KeysMeanTeams(upper, a.teams, b.teams);
    }
  }

  lemma SortedKeysAreClean(upper: Text -> Text, teams: seq<Team>)
    requires CleanTeams(upper, teams)
    ensures forall k :: k in Sort(TeamKeys(upper, teams)) ==> k != [] && Free(BAR, k)
  {
    hide CleanTeam, TeamKey, Raised, TeamKeys, Sort;
    forall k | k in Sort(TeamKeys(upper, teams))
      ensures k != [] && Free(BAR, k)
    {
      SortElements(TeamKeys(upper, teams));
      var t := KeyHasTeam(upper, teams, k);
      KeyOfTeam(upper, t);
    }
  }
}
