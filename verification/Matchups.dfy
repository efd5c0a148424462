/**
 * Conservation laws of the aggregate tables: the matchup self-join is symmetric,
 * pooling loses nothing, and the per-mode rows account for the overall row.
 */
module Matchups {
  import opened Common
  import opened Keyset
  import opened GroupBy

  // ------------------------------------------------------------ symmetry

  function Flip(k: Key): Key
    requires k.opponent.Some?
  {
    Key(k.opponent.value, Some(k.brawler), k.mode, k.patch)
  }

  /** Does the ordered participant pair (x, y) land in group `k`? */
  predicate Lands(d: Data, x: Participant, y: Participant, k: Key) {
    && x.battle in d.battles && Opposed(x, y)
    && Key(x.brawler, Some(y.brawler), d.battles[x.battle].mode, d.battles[x.battle].patch) == k
  }

  function Line(d: Data, x: Participant, ys: seq<Participant>, k: Key): nat {
    if ys == [] then 0 else (if Lands(d, x, ys[0], k) then 1 else 0) + Line(d, x, ys[1..], k)
  }

  /** Number of ordered pairs of xs * ys that land in `k`. */
  function Pairs(d: Data, xs: seq<Participant>, ys: seq<Participant>, k: Key): nat {
    if xs == [] then 0 else Line(d, xs[0], ys, k) + Pairs(d, xs[1..], ys, k)
  }

  lemma {:induction false} GroupAppend(s: seq<Item>, t: seq<Item>, k: Key)
    ensures Group(s + t, k) == Group(s, k) + Group(t, k)
  {
    if s == [] {
      assert s + t == t;
    } else {
      GroupAppend(s[1..], t, k);
      assert (s + t)[1..] == s[1..] + t;
    }
  }

  lemma {:induction false} LineIsGroup(d: Data, x: Participant, ys: seq<Participant>, k: Key)
    ensures |Group(OpponentItems(d, x, ys), k)| == Line(d, x, ys, k)
  {
    if ys != [] {
      LineIsGroup(d, x, ys[1..], k);
      var items := OpponentItems(d, x, ys);
      var rest := OpponentItems(d, x, ys[1..]);
      if x.battle in d.battles && Opposed(x, ys[0]) {
        assert items[1..] == rest;
      }
    }
  }

  lemma {:induction false} PairsIsGroup(d: Data, xs: seq<Participant>, k: Key)
    ensures |Group(MatchupItems(d, xs), k)| == Pairs(d, xs, d.participants, k)
  {
    if xs != [] {
      LineIsGroup(d, xs[0], d.participants, k);
      PairsIsGroup(d, xs[1..], k);
      GroupAppend(OpponentItems(d, xs[0], d.participants), MatchupItems(d, xs[1..]), k);
    }
  }

  /** Counting down the columns instead of along the rows, with the roles exchanged. */
  lemma {:induction false} PairsColumn(d: Data, xs: seq<Participant>, y: Participant, ys: seq<Participant>, k: Key)
    requires k.opponent.Some?
    ensures Pairs(d, xs, [y] + ys, k) == Line(d, y, xs, Flip(k)) + Pairs(d, xs, ys, k)
  {
    if xs != [] {
      PairsColumn(d, xs[1..], y, ys, k);
      assert ([y] + ys)[1..] == ys;
      assert Lands(d, xs[0], y, k) <==> Lands(d, y, xs[0], Flip(k));
    }
  }

  lemma {:induction false} PairsSwap(d: Data, xs: seq<Participant>, ys: seq<Participant>, k: Key)
    requires k.opponent.Some?
    ensures Pairs(d, xs, ys, k) == Pairs(d, ys, xs, Flip(k))
  {
    if ys == [] {
      PairsEmpty(d, xs, k);
    } else {
      PairsSwap(d, xs, ys[1..], k);
      PairsColumn(d, xs, ys[0], ys[1..], k);
      assert [ys[0]] + ys[1..] == ys;
    }
  }

  lemma {:induction false} PairsEmpty(d: Data, xs: seq<Participant>, k: Key)
    ensures Pairs(d, xs, [], k) == 0
  {
    if xs != [] {
      PairsEmpty(d, xs[1..], k);
    }
  }

  /** The self-join puts as many pairs in (a, b, mode, patch) as in (b, a, mode, patch). */
  lemma JoinIsSymmetric(d: Data, k: Key)
    requires k.opponent.Some?
    ensures |Group(Joined(d, Matchup), k)| == |Group(Joined(d, Matchup), Flip(k))|
  {
    PairsIsGroup(d, d.participants, k);
    PairsIsGroup(d, d.participants, Flip(k));
    PairsSwap(d, d.participants, d.participants, k);
  }

  lemma {:induction false} KeyIffGroup(items: seq<Item>, k: Key)
    ensures k in Keys(items) <==> Group(items, k) != []
  {
    if items != [] {
      KeysHead(items);
      KeyIffGroup(items[1..], k);
    }
  }

  /**
   * In the table a job builds, wherever (a, b) has a row and b was aggregated too, (b, a) has
   * one in the same mode and patch with the same number of matches.
   */
  lemma MatchupRowsAreSymmetric(d: Data, brawlers: set<Id>, r: Row)
    requires r in Aggregate(Matchup, d, brawlers)
    requires r.key.opponent.Some? && r.key.opponent.value in brawlers
    ensures exists q :: q in Aggregate(Matchup, d, brawlers) && q.key == Flip(r.key) && q.matches == r.matches
  {
    var items := Joined(d, Matchup);
    AggregateByKey(Matchup, d, brawlers);
    var k := Flip(r.key);
    JoinIsSymmetric(d, r.key);
    KeyIffGroup(items, r.key);
    KeyIffGroup(items, k);
    var q := RowFor(Matchup, items, k);
    assert q in Aggregate(Matchup, d, brawlers) && q.key == k;
  }

  // -------------------------------------------------- sums over groups of rows

  /** The three summed columns: matches, or the wins or losses among them. */
  datatype Column = Matches | Wins | Losses

  function CellOf(r: Row, c: Column): nat {
    match c case Matches => r.matches case Wins => r.wins case Losses => r.losses
  }

  function Measure(items: seq<Item>, c: Column): nat {
    match c
    case Matches => |items|
    case Wins => CountResult(items, Victory)
    case Losses => CountResult(items, Defeat)
  }

  /** SELECT SUM(column) over a set of rows. */
  ghost function Sum(rows: set<Row>, c: Column): nat {
    if rows == {} then 0
    else
      var r :| r in rows;
      CellOf(r, c) + Sum(rows - {r}, c)
  }

  lemma {:induction false} SumTakesOut(rows: set<Row>, r: Row, c: Column)
    requires r in rows
    ensures Sum(rows, c) == CellOf(r, c) + Sum(rows - {r}, c)
  {
    var q :| q in rows && Sum(rows, c) == CellOf(q, c) + Sum(rows - {q}, c);
    if q != r {
      SumTakesOut(rows - {q}, r, c);
      SumTakesOut(rows - {r}, q, c);
      assert rows - {q} - {r} == rows - {r} - {q};
    }
  }

  function Within(items: seq<Item>, keys: set<Key>): seq<Item> {
    if items == [] then []
    else (if items[0].key in keys then [items[0]] else []) + Within(items[1..], keys)
  }

  /** Adding one joined row in front adds that row's share of the column. */
  lemma MeasureCons(i: Item, rest: seq<Item>, c: Column)
    ensures Measure([i] + rest, c) == Measure([i], c) + Measure(rest, c)
  {
    CountCons(i, rest, Victory);
    CountCons(i, rest, Defeat);
    CountCons(i, [], Victory);
    CountCons(i, [], Defeat);
    assert [i] + [] == [i];
  }

  lemma CountCons(i: Item, rest: seq<Item>, r: Result)
    ensures CountResult([i] + rest, r) == (if i.result == Some(r) then 1 else 0) + CountResult(rest, r)
  {
    assert ([i] + rest)[1..] == rest;
  }

  lemma EmptyHeads(s: seq<Item>, t: seq<Item>, u: seq<Item>)
    ensures [] + s == s && [] + t == t && [] + u == u
  {
  }

  lemma SameShare(i: Item, j: Item, c: Column)
    requires i.result == j.result
    ensures Measure([i], c) == Measure([j], c)
  {
    assert [i][1..] == [] && [j][1..] == [];
  }

  lemma {:induction false} WithinSplits(items: seq<Item>, k: Key, keys: set<Key>, c: Column)
    requires k in keys
    ensures Measure(Within(items, keys), c) == Measure(Group(items, k), c) + Measure(Within(items, keys - {k}), c)
  {
    if items != [] {
      WithinSplits(items[1..], k, keys, c);
      var i := items[0];
      MeasureCons(i, Within(items[1..], keys), c);
      MeasureCons(i, Group(items[1..], k), c);
      MeasureCons(i, Within(items[1..], keys - {k}), c);
      EmptyHeads(Within(items[1..], keys), Group(items[1..], k), Within(items[1..], keys - {k}));
    }
  }

  function RowsOf(scope: Scope, items: seq<Item>, keys: set<Key>): set<Row> {
    set k | k in keys :: RowFor(scope, items, k)
  }

  /** Summing a column over the rows of some keys counts each joined row under one of those keys exactly once. */
  lemma {:induction false} SumCountsItems(scope: Scope, items: seq<Item>, keys: set<Key>, c: Column)
    ensures Sum(RowsOf(scope, items, keys), c) == Measure(Within(items, keys), c)
  {
    if keys == {} {
      WithinNothing(items);
    } else {
      var k :| k in keys;
      var rows := RowsOf(scope, items, keys);
      var r := RowFor(scope, items, k);
      SumCountsItems(scope, items, keys - {k}, c);
      assert rows - {r} == RowsOf(scope, items, keys - {k});
      SumTakesOut(rows, r, c);
      WithinSplits(items, k, keys, c);
    }
  }

  lemma {:induction false} WithinNothing(items: seq<Item>)
    ensures Within(items, {}) == []
  {
    if items != [] {
      WithinNothing(items[1..]);
    }
  }

  // ------------------------------------------------------------------ pooling

  /** `getPooledMatchupRowsForBrawler`: one figure per ordered pair, over every mode and patch. */
  ghost function Pooled(table: set<Row>, a: Id, b: Id, c: Column): nat {
    Sum((set r | r in table && r.key.brawler == a && r.key.opponent == Some(b)), c)
  }

  /** The same figure counted directly on the battles, mode and patch ignored. */
  function Direct(items: seq<Item>, a: Id, b: Id): seq<Item> {
    if items == [] then []
    else (if items[0].key.brawler == a && items[0].key.opponent == Some(b) then [items[0]] else [])
         + Direct(items[1..], a, b)
  }

  lemma {:induction false} DirectIsWithin(items: seq<Item>, keys: set<Key>, a: Id, b: Id)
    requires forall i :: 0 <= i < |items| ==>
               (items[i].key in keys <==> items[i].key.brawler == a && items[i].key.opponent == Some(b))
    ensures Within(items, keys) == Direct(items, a, b)
  {
    if items != [] {
      assert items[0].key in keys <==> items[0].key.brawler == a && items[0].key.opponent == Some(b);
      forall i | 0 <= i < |items[1..]|
        ensures items[1..][i].key in keys <==> items[1..][i].key.brawler == a && items[1..][i].key.opponent == Some(b)
      {
        assert items[1..][i] == items[i + 1];
      }
      DirectIsWithin(items[1..], keys, a, b);
    }
  }

  /**
   * Pooling the stored rows of one brawler over modes and patches equals the direct count, for
   * matches, wins and losses alike.
   */
  lemma PoolingLosesNothing(d: Data, brawlers: set<Id>, a: Id, b: Id, c: Column)
    requires a in brawlers
    ensures Pooled(Aggregate(Matchup, d, brawlers), a, b, c) == Measure(Direct(Joined(d, Matchup), a, b), c)
  {
    var items := Joined(d, Matchup);
    var keys := set k | k in Keys(items) && k.brawler == a && k.opponent == Some(b);
    AggregateByKey(Matchup, d, brawlers);
    var table := Aggregate(Matchup, d, brawlers);
    assert (set r | r in table && r.key.brawler == a && r.key.opponent == Some(b)) == RowsOf(Matchup, items, keys);
    SumCountsItems(Matchup, items, keys, c);
    assert forall i :: 0 <= i < |items| ==> items[i].key in Keys(items);
    DirectIsWithin(items, keys, a, b);
  }

  // ----------------------------------------------------- modes against overall

  /** The joined rows of brawler `b` in patch `p` whose battle has no game mode. */
  function NullMode(d: Data, ps: seq<Participant>, b: Id, p: Option<Id>): seq<Item> {
    var items := BattleItems(d, Overall, ps);
    ModeFilter(items, Key(b, None, None, p), true)
  }

  function ModeFilter(items: seq<Item>, k: Key, isNull: bool): seq<Item> {
    if items == [] then []
    else (if items[0].key == k && items[0].mode.None? == isNull then [items[0]] else [])
         + ModeFilter(items[1..], k, isNull)
  }

  lemma {:induction false} GroupByMode(items: seq<Item>, k: Key, c: Column)
    ensures Measure(Group(items, k), c)
         == Measure(ModeFilter(items, k, true), c) + Measure(ModeFilter(items, k, false), c)
  {
    if items != [] {
      GroupByMode(items[1..], k, c);
      var i := items[0];
      var g, n, m := Group(items[1..], k), ModeFilter(items[1..], k, true), ModeFilter(items[1..], k, false);
      MeasureCons(i, g, c);
      MeasureCons(i, n, c);
      MeasureCons(i, m, c);
      EmptyHeads(g, n, m);
    }
  }

  /** The per-mode join is the overall join without the null-mode rows. */
  lemma {:induction false} PerModeItems(d: Data, ps: seq<Participant>, keys: set<Key>, b: Id, p: Option<Id>, c: Column)
    requires forall i :: 0 <= i < |BattleItems(d, PerMode, ps)| ==>
               var k := BattleItems(d, PerMode, ps)[i].key; (k in keys <==> k.brawler == b && k.patch == p)
    ensures Measure(Within(BattleItems(d, PerMode, ps), keys), c)
         == Measure(ModeFilter(BattleItems(d, Overall, ps), Key(b, None, None, p), false), c)
  {
    if ps != [] {
      var mine := BattleItems(d, PerMode, ps);
      var rest := BattleItems(d, PerMode, ps[1..]);
      var all := BattleItems(d, Overall, ps);
      var k := Key(b, None, None, p);
      if ps[0].battle in d.battles && d.battles[ps[0].battle].mode.Some? {
        assert mine == [mine[0]] + rest;
        assert forall i :: 0 <= i < |rest| ==> rest[i] == mine[i + 1];
        PerModeItems(d, ps[1..], keys, b, p, c);
        assert mine[0].key in keys <==> all[0].key == k;
        assert all[1..] == BattleItems(d, Overall, ps[1..]);
        var w, m := Within(rest, keys), ModeFilter(all[1..], k, false);
        if all[0].key == k {
          assert Within(mine, keys) == [mine[0]] + w;
          assert ModeFilter(all, k, false) == [all[0]] + m;
          MeasureCons(mine[0], w, c);
          MeasureCons(all[0], m, c);
          SameShare(mine[0], all[0], c);
        } else {
          EmptyHeads(w, m, []);
        }
      } else {
        assert mine == rest;
        PerModeItems(d, ps[1..], keys, b, p, c);
        if ps[0].battle in d.battles {
          assert all[1..] == BattleItems(d, Overall, ps[1..]);
          EmptyHeads(ModeFilter(all[1..], k, false), [], []);
        }
      }
    }
  }

  /**
   * Per brawler and patch, the mode rows add up to the overall row minus the participations in
   * battles without a mode.
   */
  lemma ModesAccountForOverall(d: Data, brawlers: set<Id>, b: Id, p: Option<Id>, c: Column)
    requires b in brawlers
    ensures var modeRows := set r | r in Aggregate(PerMode, d, brawlers) && r.key.brawler == b && r.key.patch == p;
      Sum(modeRows, c) + Measure(NullMode(d, d.participants, b, p), c)
      == CellOf(RowFor(Overall, Joined(d, Overall), Key(b, None, None, p)), c)
  {
    var items := Joined(d, PerMode);
    var keys := set k | k in Keys(items) && k.brawler == b && k.patch == p;
    AggregateByKey(PerMode, d, brawlers);
    var modeRows := set r | r in Aggregate(PerMode, d, brawlers) && r.key.brawler == b && r.key.patch == p;
    assert modeRows == RowsOf(PerMode, items, keys);
    SumCountsItems(PerMode, items, keys, c);
    assert forall i :: 0 <= i < |items| ==> items[i].key in Keys(items);
    PerModeItems(d, d.participants, keys, b, p, c);
    GroupByMode(Joined(d, Overall), Key(b, None, None, p), c);
  }
}
