/**
 * The three `INSERT ... SELECT ... GROUP BY` statements of the aggregation layer, as
 * functions over the battle tables: a scope selects joined rows, a batch of brawlers
 * restricts them, and each group key yields one aggregate row.
 */
module GroupBy {
  import opened Common
  import opened Keyset

  datatype Result = Victory | Defeat | Draw | Unknown

  datatype Battle = Battle(mode: Option<Id>, patch: Option<Id>, at: int)

  datatype Participant = Participant(battle: Id, brawler: Id, team: Option<Id>)

  datatype Data = Data(battles: map<Id, Battle>, teams: map<Id, Result>, participants: seq<Participant>)

  /** Group key of the three statements; the columns a scope does not group by are None. */
  datatype Key = Key(brawler: Id, opponent: Option<Id>, mode: Option<Id>, patch: Option<Id>)

  /** One joined row, before grouping. `result` is None when the LEFT JOIN finds no team. */
  datatype Item = Item(key: Key, result: Option<Result>, mode: Option<Id>, at: int)

  datatype Row = Row(
    key: Key, matches: nat, wins: nat, losses: nat, draws: Option<nat>,
    winRate: Option<real>, modeCoverage: Option<nat>, latest: int)

  // ------------------------------------------------------------------ joins

  function TeamResult(d: Data, team: Option<Id>): Option<Result> {
    if team.Some? && team.value in d.teams then Some(d.teams[team.value]) else None
  }

  /** battle_participants JOIN normalized_battles LEFT JOIN battle_teams. */
  function BattleItems(d: Data, scope: Scope, ps: seq<Participant>): seq<Item> {
    if ps == [] then []
    else
      var p := ps[0];
      var rest := BattleItems(d, scope, ps[1..]);
      if p.battle !in d.battles then rest
      else
        var b := d.battles[p.battle];
        if scope.PerMode? && b.mode.None? then rest
        else
          var key := Key(p.brawler, None, if scope.PerMode? then b.mode else None, b.patch);
          [Item(key, TeamResult(d, p.team), b.mode, b.at)] + rest
  }

  /** The ON clause and the WHERE clause of the matchup self-join. */
  predicate Opposed(p: Participant, q: Participant) {
    && q.battle == p.battle
    && p.team.Some? && q.team.Some? && q.team != p.team
    && p.brawler != q.brawler
  }

  function OpponentItems(d: Data, p: Participant, qs: seq<Participant>): seq<Item> {
    if qs == [] then []
    else
      var q := qs[0];
      var rest := OpponentItems(d, p, qs[1..]);
      if p.battle !in d.battles || !Opposed(p, q) then rest
      else
        var b := d.battles[p.battle];
        [Item(Key(p.brawler, Some(q.brawler), b.mode, b.patch), TeamResult(d, p.team), b.mode, b.at)] + rest
  }

  function MatchupItems(d: Data, ps: seq<Participant>): seq<Item> {
    if ps == [] then [] else OpponentItems(d, ps[0], d.participants) + MatchupItems(d, ps[1..])
  }

  function Joined(d: Data, scope: Scope): seq<Item> {
    if scope.Matchup? then MatchupItems(d, d.participants) else BattleItems(d, scope, d.participants)
  }

  // --------------------------------------------------------------- grouping

  function Where(items: seq<Item>, brawlers: set<Id>): seq<Item> {
    if items == [] then []
    else (if items[0].key.brawler in brawlers then [items[0]] else []) + Where(items[1..], brawlers)
  }

  function Group(items: seq<Item>, key: Key): seq<Item> {
    if items == [] then []
    else (if items[0].key == key then [items[0]] else []) + Group(items[1..], key)
  }

  /** SUM(CASE WHEN result = r THEN 1 ELSE 0 END). */
  function CountResult(items: seq<Item>, r: Result): nat {
    if items == [] then 0
    else (if items[0].result == Some(r) then 1 else 0) + CountResult(items[1..], r)
  }

  /** MAX(occurred_at) of a non-empty group. */
  function Latest(items: seq<Item>): int
    requires items != []
  {
    if |items| == 1 then items[0].at
    else var m := Latest(items[1..]); if items[0].at >= m then items[0].at else m
  }

  function Keys(items: seq<Item>): set<Key> {
    set i | 0 <= i < |items| :: items[i].key
  }

  function WinRate(wins: nat, losses: nat): Option<real> {
    if wins + losses > 0 then Some(wins as real / (wins + losses) as real) else None
  }

  function RowFor(scope: Scope, items: seq<Item>, key: Key): Row {
    var g := Group(items, key);
    var wins := CountResult(g, Victory);
    var losses := CountResult(g, Defeat);
    Row(key, |g|, wins, losses,
        if scope.Matchup? then None else Some(CountResult(g, Draw)),
        WinRate(wins, losses),
        if scope.Overall? then Some(|set i | 0 <= i < |g| && g[i].mode.Some? :: g[i].mode.value|) else None,
        if g == [] then 0 else Latest(g))
  }

  /** The rows one INSERT ... SELECT writes for a batch of brawlers. */
  function Aggregate(scope: Scope, d: Data, brawlers: set<Id>): set<Row> {
    var items := Where(Joined(d, scope), brawlers);
    set k | k in Keys(items) :: RowFor(scope, items, k)
  }

  // ------------------------------------------- a batch only sees its own keys

  lemma {:induction false} KeysHead(items: seq<Item>)
    requires items != []
    ensures Keys(items) == {items[0].key} + Keys(items[1..])
  {
    var rest := items[1..];
    forall k | k in Keys(items)
      ensures k in {items[0].key} + Keys(rest)
    {
      var i :| 0 <= i < |items| && items[i].key == k;
      if i > 0 {
        assert rest[i - 1].key == k;
      }
    }
    forall k | k in Keys(rest)
      ensures k in Keys(items)
    {
      var i :| 0 <= i < |rest| && rest[i].key == k;
      assert items[i + 1].key == k;
    }
  }

  lemma {:induction false} WhereKeys(items: seq<Item>, brawlers: set<Id>)
    ensures Keys(Where(items, brawlers)) == set k | k in Keys(items) && k.brawler in brawlers
  {
    if items != [] {
      WhereKeys(items[1..], brawlers);
      KeysHead(items);
      var w := Where(items, brawlers);
      if items[0].key.brawler in brawlers {
        assert w == [items[0]] + Where(items[1..], brawlers);
        KeysHead(w);
        assert w[1..] == Where(items[1..], brawlers);
      } else {
        assert w == Where(items[1..], brawlers);
      }
    }
  }

  lemma {:induction false} WhereGroup(items: seq<Item>, brawlers: set<Id>, key: Key)
    requires key.brawler in brawlers
    ensures Group(Where(items, brawlers), key) == Group(items, key)
  {
    if items != [] {
      WhereGroup(items[1..], brawlers, key);
      var w := Where(items, brawlers);
      if items[0].key.brawler in brawlers {
        assert w == [items[0]] + Where(items[1..], brawlers);
        assert w[1..] == Where(items[1..], brawlers);
      } else {
        assert w == Where(items[1..], brawlers);
      }
    }
  }

  /**
   * The batch restriction commutes with grouping: the rows are those of the whole join whose
   * brawler is in the batch.
   */
  lemma AggregateByKey(scope: Scope, d: Data, brawlers: set<Id>)
    ensures Aggregate(scope, d, brawlers)
         == set k | k in Keys(Joined(d, scope)) && k.brawler in brawlers :: RowFor(scope, Joined(d, scope), k)
  {
    var items := Joined(d, scope);
    WhereKeys(items, brawlers);
    forall k: Key | k.brawler in brawlers
      ensures RowFor(scope, Where(items, brawlers), k) == RowFor(scope, items, k)
    {
      WhereGroup(items, brawlers, k);
    }
  }

  /** Two disjoint batches write disjoint rows, and together exactly the rows of one statement over both. */
  lemma AggregateSplits(scope: Scope, d: Data, a: set<Id>, b: set<Id>)
    requires a !! b
    ensures Aggregate(scope, d, a) !! Aggregate(scope, d, b)
    ensures multiset(Aggregate(scope, d, a)) + multiset(Aggregate(scope, d, b)) == multiset(Aggregate(scope, d, a + b))
  {
    AggregateByKey(scope, d, a);
    AggregateByKey(scope, d, b);
    AggregateByKey(scope, d, a + b);
    assert Aggregate(scope, d, a + b) == Aggregate(scope, d, a) + Aggregate(scope, d, b);
  }

  // -------------------------------------------------------- reconciliation

  /** The negation of the predicate `countReconciliationWarnings` counts. */
  predicate Reconciles(r: Row) {
    r.wins + r.losses + (if r.draws.Some? then r.draws.value else 0) <= r.matches
  }

  lemma {:induction false} ResultsAreExclusive(g: seq<Item>)
    ensures CountResult(g, Victory) + CountResult(g, Defeat) + CountResult(g, Draw) <= |g|
  {
    if g != [] {
      ResultsAreExclusive(g[1..]);
    }
  }

  /** No row any of the three statements writes can raise a reconciliation warning. */
  lemma EveryRowReconciles(scope: Scope, d: Data, brawlers: set<Id>)
    ensures forall r :: r in Aggregate(scope, d, brawlers) ==> Reconciles(r)
  {
    var items := Where(Joined(d, scope), brawlers);
    forall r | r in Aggregate(scope, d, brawlers)
      ensures Reconciles(r)
    {
      var k :| k in Keys(items) && r == RowFor(scope, items, k);
      ResultsAreExclusive(Group(items, k));
    }
  }
}
