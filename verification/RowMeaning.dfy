/**
 * What an aggregate row says, read off the battle tables alone: for each of the three
 * statements, which participants (or ordered pairs of them) a row counts, and what each of
 * its columns is.
 */
module RowMeaning {
  import opened Common
  import opened Keyset
  import opened GroupBy
  import Matchups

  // ------------------------------------------------------- in the tables' terms

  /** The i-th participant took part in a known battle with this mode and this patch. */
  ghost predicate TookPart(d: Data, i: nat, brawler: Id, mode: Option<Id>, patch: Option<Id>) {
    && i < |d.participants| && d.participants[i].brawler == brawler
    && d.participants[i].battle in d.battles
    && d.battles[d.participants[i].battle].mode == mode && d.battles[d.participants[i].battle].patch == patch
  }

  /** The i-th and the j-th participant stood in different teams of one battle, as different brawlers. */
  ghost predicate Met(d: Data, i: nat, j: nat) {
    && i < |d.participants| && j < |d.participants|
    && d.participants[i].battle == d.participants[j].battle
    && d.participants[i].team.Some? && d.participants[j].team.Some?
    && d.participants[i].team.value != d.participants[j].team.value
    && d.participants[i].brawler != d.participants[j].brawler
  }

  /** The i-th participant's own team ended with this result. */
  ghost predicate Ended(d: Data, i: nat, r: Result) {
    && i < |d.participants| && d.participants[i].team.Some?
    && d.participants[i].team.value in d.teams && d.teams[d.participants[i].team.value] == r
  }

  /** The participations of a brawler in one mode and patch. */
  ghost function InMode(d: Data, brawler: Id, mode: Id, patch: Option<Id>): set<nat> {
    set i: nat | i < |d.participants| && TookPart(d, i, brawler, Some(mode), patch)
  }

  /** The participations of a brawler in one patch, whatever the mode. */
  ghost function InPatch(d: Data, brawler: Id, patch: Option<Id>): set<nat> {
    set i: nat | i < |d.participants| && d.participants[i].battle in d.battles
                 && TookPart(d, i, brawler, d.battles[d.participants[i].battle].mode, patch)
  }

  /** The ordered pairs in which brawler `a` met brawler `b` in one mode and patch. */
  ghost function Meetings(d: Data, a: Id, b: Id, mode: Option<Id>, patch: Option<Id>): set<(nat, nat)> {
    set i: nat, j: nat | i < |d.participants| && j < |d.participants| && Met(d, i, j)
                         && TookPart(d, i, a, mode, patch) && TookPart(d, j, b, mode, patch) :: (i, j)
  }

  /** The ordered pairs in which brawler `a` met brawler `b` in any known battle. */
  ghost function AllMeetings(d: Data, a: Id, b: Id): set<(nat, nat)> {
    set i: nat, j: nat | i < |d.participants| && j < |d.participants| && Met(d, i, j)
                         && d.participants[i].battle in d.battles
                         && d.participants[i].brawler == a && d.participants[j].brawler == b :: (i, j)
  }

  /** The rate is the share of wins among the decided, and the time the newest of `times`. */
  ghost predicate RateAndTime(r: Row, times: set<int>) {
    && (r.wins + r.losses == 0 ==> r.winRate == None)
    && (r.wins + r.losses > 0 ==> r.winRate == Some(r.wins as real / (r.wins + r.losses) as real))
    && r.latest in times && forall t :: t in times ==> t <= r.latest
  }

  ghost predicate InBattle(d: Data, i: nat) {
    i < |d.participants| && d.participants[i].battle in d.battles
  }

  ghost function BattleOf(d: Data, i: nat): Battle
    requires InBattle(d, i)
  {
    d.battles[d.participants[i].battle]
  }

  ghost function Ending(d: Data, played: set<nat>, r: Result): set<nat> {
    set i | i in played && Ended(d, i, r)
  }

  ghost function EndingPairs(d: Data, met: set<(nat, nat)>, r: Result): set<(nat, nat)> {
    set o | o in met && Ended(d, o.0, r)
  }

  /** The distinct modes of the battles played in. */
  ghost function ModesAmong(d: Data, played: set<nat>): set<Id> {
    set i | i in played && InBattle(d, i) && BattleOf(d, i).mode.Some? :: BattleOf(d, i).mode.value
  }

  ghost function TimesOf(d: Data, played: set<nat>): set<int> {
    set i | i in played && InBattle(d, i) :: BattleOf(d, i).at
  }

  ghost function TimesOfPairs(d: Data, met: set<(nat, nat)>): set<int> {
    set o | o in met && InBattle(d, o.0) :: BattleOf(d, o.0).at
  }

  /** The columns shared by the mode and the overall rows, counted over the given participations. */
  ghost predicate Counts(d: Data, r: Row, played: set<nat>) {
    && r.matches == |played|
    && r.wins == |Ending(d, played, Victory)| && r.losses == |Ending(d, played, Defeat)|
    && r.draws == Some(|Ending(d, played, Draw)|)
    && RateAndTime(r, TimesOf(d, played))
  }

  /** The columns of a matchup row, counted over the given ordered pairs. */
  ghost predicate CountsPairs(d: Data, r: Row, met: set<(nat, nat)>) {
    && r.matches == |met|
    && r.wins == |EndingPairs(d, met, Victory)| && r.losses == |EndingPairs(d, met, Defeat)|
    && r.draws == None && r.modeCoverage == None
    && RateAndTime(r, TimesOfPairs(d, met))
  }

  // ------------------------------------------------------------ where rows come from

  /** The joined rows `items`, listed without repetition: the n-th comes from `from[n]`. */
  ghost predicate Lists<O(!new)>(items: seq<Item>, from: seq<O>, of: map<O, Item>) {
    && |from| == |items|
    && (forall m, n :: 0 <= m < n < |from| ==> from[m] != from[n])
    && (forall n :: 0 <= n < |from| ==> from[n] in of && of[from[n]] == items[n])
    && (forall o :: o in of ==> o in from)
  }

  lemma ListsCons<O(!new)>(item: Item, o: O, items: seq<Item>, from: seq<O>, of: map<O, Item>)
    requires Lists(items, from, of) && o !in of
    ensures Lists([item] + items, [o] + from, of[o := item])
  {
    forall n | 0 <= n < |from|
      ensures from[n] != o
    {
    }
  }

  lemma ListsTail<O(!new)>(items: seq<Item>, from: seq<O>, of: map<O, Item>)
    requires Lists(items, from, of) && items != []
    ensures Lists(items[1..], from[1..], of - {from[0]})
    ensures from[0] in of && of[from[0]] == items[0] && of == (of - {from[0]})[from[0] := items[0]]
  {
    forall o | o in of - {from[0]}
      ensures o in from[1..]
    {
      var n :| 0 <= n < |from| && from[n] == o;
      assert from[1..][n - 1] == o;
    }
  }

  lemma ListsAppend<O(!new)>(s: seq<Item>, f: seq<O>, a: map<O, Item>, t: seq<Item>, g: seq<O>, b: map<O, Item>)
    requires Lists(s, f, a) && Lists(t, g, b) && a.Keys !! b.Keys
    ensures Lists(s + t, f + g, a + b)
  {
    forall m, n | 0 <= m < n < |f + g|
      ensures (f + g)[m] != (f + g)[n]
    {
      if m < |f| <= n {
        assert f[m] in a && g[n - |f|] in b;
      }
    }
  }

  lemma {:induction false} ListsSize<O(!new)>(items: seq<Item>, from: seq<O>, of: map<O, Item>)
    requires Lists(items, from, of)
    ensures |items| == |of.Keys|
  {
    if items == [] {
      assert of.Keys == {};
    } else {
      ListsTail(items, from, of);
      ListsSize(items[1..], from[1..], of - {from[0]});
      assert of.Keys == (of - {from[0]}).Keys + {from[0]};
    }
  }

  ghost function OfKey<O(!new)>(of: map<O, Item>, key: Key): map<O, Item> {
    map o | o in of && of[o].key == key :: of[o]
  }

  lemma {:induction false} GroupLists<O(!new)>(items: seq<Item>, from: seq<O>, of: map<O, Item>, key: Key)
      returns (at: seq<O>)
    requires Lists(items, from, of)
    ensures Lists(Group(items, key), at, OfKey(of, key))
  {
    if items == [] {
      at := [];
    } else {
      var o, rest := from[0], of - {from[0]};
      ListsTail(items, from, of);
      var tail := GroupLists(items[1..], from[1..], rest, key);
      hide Lists;
      if items[0].key == key {
        at := [o] + tail;
        ListsCons(items[0], o, Group(items[1..], key), tail, OfKey(rest, key));
        assert OfKey(of, key) == OfKey(rest, key)[o := items[0]];
      } else {
        at := tail;
        assert OfKey(of, key) == OfKey(rest, key);
        assert [] + Group(items[1..], key) == Group(items[1..], key);
      }
    }
  }

  ghost function WithResult<O(!new)>(of: map<O, Item>, r: Result): set<O> {
    set o | o in of && of[o].result == Some(r)
  }

  lemma ResultTakesOut<O(!new)>(of: map<O, Item>, o: O, r: Result)
    requires o in of
    ensures |WithResult(of, r)| == (if of[o].result == Some(r) then 1 else 0) + |WithResult(of - {o}, r)|
  {
    if of[o].result == Some(r) {
      assert WithResult(of, r) == WithResult(of - {o}, r) + {o};
    } else {
      assert WithResult(of, r) == WithResult(of - {o}, r);
    }
  }

  lemma {:induction false} CountLists<O(!new)>(items: seq<Item>, from: seq<O>, of: map<O, Item>, r: Result)
    requires Lists(items, from, of)
    ensures CountResult(items, r) == |WithResult(of, r)|
  {
    if items == [] {
      assert WithResult(of, r) == {};
    } else {
      ListsTail(items, from, of);
      hide Lists, WithResult;
      CountLists(items[1..], from[1..], of - {from[0]}, r);
      ResultTakesOut(of, from[0], r);
    }
  }

  lemma {:induction false} LatestIsNewest(items: seq<Item>)
    requires items != []
    ensures forall n :: 0 <= n < |items| ==> items[n].at <= Latest(items)
    ensures exists n :: 0 <= n < |items| && items[n].at == Latest(items)
  {
    if |items| == 1 {
      assert items[0].at == Latest(items);
    } else {
      LatestIsNewest(items[1..]);
      forall n | 0 <= n < |items|
        ensures items[n].at <= Latest(items)
      {
        assert n > 0 ==> items[n] == items[1..][n - 1];
      }
      var n :| 0 <= n < |items[1..]| && items[1..][n].at == Latest(items[1..]);
      assert items[n + 1] == items[1..][n];
      assert items[0].at == Latest(items) || items[n + 1].at == Latest(items);
    }
  }

  // ---------------------------------------------------------- from joins to rows

  ghost function ModesIn<O(!new)>(of: map<O, Item>): set<Id> {
    set o | o in of && of[o].mode.Some? :: of[o].mode.value
  }

  ghost function TimesIn<O(!new)>(of: map<O, Item>): set<int> {
    set o | o in of :: of[o].at
  }

  /** What a row of a group says, for whatever the joined rows come from. */
  ghost predicate Says<O(!new)>(scope: Scope, r: Row, of: map<O, Item>) {
    && r.matches == |of.Keys|
    && r.wins == |WithResult(of, Victory)| && r.losses == |WithResult(of, Defeat)|
    && r.draws == (if scope.Matchup? then None else Some(|WithResult(of, Draw)|))
    && r.modeCoverage == (if scope.Overall? then Some(|ModesIn(of)|) else None)
    && RateAndTime(r, TimesIn(of))
  }

  lemma GroupModes<O(!new)>(g: seq<Item>, at: seq<O>, of: map<O, Item>)
    requires Lists(g, at, of)
    ensures (set n | 0 <= n < |g| && g[n].mode.Some? :: g[n].mode.value) == ModesIn(of)
  {
    var modes := set n | 0 <= n < |g| && g[n].mode.Some? :: g[n].mode.value;
    forall m | m in modes
      ensures m in ModesIn(of)
    {
      var n :| 0 <= n < |g| && g[n].mode.Some? && g[n].mode.value == m;
      assert of[at[n]] == g[n];
    }
    forall m | m in ModesIn(of)
      ensures m in modes
    {
      var o :| o in of && of[o].mode.Some? && of[o].mode.value == m;
      var n :| 0 <= n < |at| && at[n] == o;
      assert g[n].mode.value == m;
    }
  }

  lemma GroupTimes<O(!new)>(g: seq<Item>, at: seq<O>, of: map<O, Item>)
    requires Lists(g, at, of) && g != []
    ensures Latest(g) in TimesIn(of) && forall t :: t in TimesIn(of) ==> t <= Latest(g)
  {
    LatestIsNewest(g);
    var n :| 0 <= n < |g| && g[n].at == Latest(g);
    assert of[at[n]] == g[n];
    forall t | t in TimesIn(of)
      ensures t <= Latest(g)
    {
      var o :| o in of && of[o].at == t;
      var m :| 0 <= m < |at| && at[m] == o;
      assert g[m].at == t;
    }
  }

  lemma RowSays<O(!new)>(scope: Scope, items: seq<Item>, from: seq<O>, of: map<O, Item>, key: Key)
    requires Lists(items, from, of) && OfKey(of, key).Keys != {}
    ensures RowFor(scope, items, key).key == key && Says(scope, RowFor(scope, items, key), OfKey(of, key))
  {
    var g := Group(items, key);
    var mine := OfKey(of, key);
    var at := GroupLists(items, from, of, key);
    hide OfKey;
    ListsSize(g, at, mine);
    CountLists(g, at, mine, Victory);
    CountLists(g, at, mine, Defeat);
    CountLists(g, at, mine, Draw);
    GroupModes(g, at, mine);
    GroupTimes(g, at, mine);
    hide WithResult, ModesIn, TimesIn, Lists, Group, CountResult, Latest;
  }

  lemma KeyIffSource<O(!new)>(items: seq<Item>, from: seq<O>, of: map<O, Item>, key: Key)
    requires Lists(items, from, of)
    ensures key in Keys(items) <==> OfKey(of, key).Keys != {}
  {
    if key in Keys(items) {
      var n :| 0 <= n < |items| && items[n].key == key;
      assert from[n] in OfKey(of, key).Keys;
    }
    if OfKey(of, key).Keys != {} {
      var o :| o in OfKey(of, key).Keys;
      var n :| 0 <= n < |from| && from[n] == o;
      assert items[n].key == key;
    }
  }

  /** One statement: a row exists exactly for the keys of the batch that something falls under, once, and says what it counts. */
  lemma AggregateSays<O(!new)>(scope: Scope, d: Data, brawlers: set<Id>, key: Key, from: seq<O>, of: map<O, Item>)
    requires Lists(Joined(d, scope), from, of)
    ensures (exists r :: r in Aggregate(scope, d, brawlers) && r.key == key)
        <==> key.brawler in brawlers && OfKey(of, key).Keys != {}
    ensures forall r :: r in Aggregate(scope, d, brawlers) && r.key == key ==> Says(scope, r, OfKey(of, key))
    ensures forall r, s :: r in Aggregate(scope, d, brawlers) && s in Aggregate(scope, d, brawlers) && r.key == key == s.key ==> r == s
  {
    var items := Joined(d, scope);
    AggregateByKey(scope, d, brawlers);
    KeyIffSource(items, from, of, key);
    hide Aggregate, Joined, Lists, OfKey, Says;
    assert RowFor(scope, items, key).key == key;
    if OfKey(of, key).Keys != {} {
      RowSays(scope, items, from, of, key);
    }
  }

  // ------------------------------------------------------------- the battle joins

  /** The joined row of one participant. */
  ghost function ItemAt(d: Data, scope: Scope, i: nat): Item
    requires i < |d.participants| && d.participants[i].battle in d.battles
  {
    var p := d.participants[i];
    var b := d.battles[p.battle];
    Item(Key(p.brawler, None, if scope.PerMode? then b.mode else None, b.patch),
         if p.team.Some? && p.team.value in d.teams then Some(d.teams[p.team.value]) else None, b.mode, b.at)
  }

  ghost function ItemsFrom(d: Data, scope: Scope, n: nat): map<nat, Item> {
    map i: nat | n <= i < |d.participants| && d.participants[i].battle in d.battles
                 && (scope.PerMode? ==> d.battles[d.participants[i].battle].mode.Some?) :: ItemAt(d, scope, i)
  }

  lemma {:induction false} BattleItemsList(d: Data, scope: Scope, n: nat) returns (from: seq<nat>)
    requires n <= |d.participants| && !scope.Matchup?
    ensures Lists(BattleItems(d, scope, d.participants[n..]), from, ItemsFrom(d, scope, n))
    decreases |d.participants| - n
  {
    if n == |d.participants| {
      from := [];
    } else {
      var rest := BattleItemsList(d, scope, n + 1);
      var p := d.participants[n];
      assert d.participants[n..][0] == p && d.participants[n..][1..] == d.participants[n + 1..];
      var tail := BattleItems(d, scope, d.participants[n + 1..]);
      hide Lists;
      if p.battle !in d.battles || (scope.PerMode? && d.battles[p.battle].mode.None?) {
        from := rest;
        assert ItemsFrom(d, scope, n) == ItemsFrom(d, scope, n + 1);
      } else {
        from := [n] + rest;
        ListsCons(ItemAt(d, scope, n), n, tail, rest, ItemsFrom(d, scope, n + 1));
        assert ItemsFrom(d, scope, n) == ItemsFrom(d, scope, n + 1)[n := ItemAt(d, scope, n)];
      }
    }
  }

  lemma ResultIsEnded(d: Data, scope: Scope, i: nat, r: Result)
    requires i < |d.participants| && d.participants[i].battle in d.battles
    ensures ItemAt(d, scope, i).result == Some(r) <==> Ended(d, i, r)
  {
  }

  /** A key's share of the join, in the tables' terms. */
  lemma SharePlayed(d: Data, scope: Scope, key: Key, played: set<nat>)
    requires forall i :: i in played <==> i in ItemsFrom(d, scope, 0) && ItemAt(d, scope, i).key == key
    ensures var of := OfKey(ItemsFrom(d, scope, 0), key);
      && of.Keys == played && ModesIn(of) == ModesAmong(d, played) && TimesIn(of) == TimesOf(d, played)
      && forall r :: WithResult(of, r) == Ending(d, played, r)
  {
    var of := OfKey(ItemsFrom(d, scope, 0), key);
    assert of.Keys == played;
    forall i | i in played
      ensures InBattle(d, i) && of[i] == ItemAt(d, scope, i)
      ensures of[i].mode == BattleOf(d, i).mode && of[i].at == BattleOf(d, i).at
    {
    }
    hide OfKey, ItemsFrom;
    forall r
      ensures WithResult(of, r) == Ending(d, played, r)
    {
      forall i | i in played
        ensures of[i].result == Some(r) <==> Ended(d, i, r)
      {
        ResultIsEnded(d, scope, i, r);
      }
    }
    hide ItemAt, BattleOf;
    assert TimesIn(of) == TimesOf(d, played);
    assert ModesIn(of) == ModesAmong(d, played);
  }

  /**
   * A row of the per-mode statement: it exists exactly when the brawler is in the batch and took
   * part in that mode and patch, once, and counts exactly those participations, with the results
   * of the brawler's own team.
   */
  lemma ModeRowsCount(d: Data, brawlers: set<Id>, b: Id, mode: Id, patch: Option<Id>)
    ensures var table, key, played := Aggregate(PerMode, d, brawlers), Key(b, None, Some(mode), patch), InMode(d, b, mode, patch);
      && ((exists r :: r in table && r.key == key) <==> b in brawlers && played != {})
      && (forall r :: r in table && r.key == key ==> Counts(d, r, played) && r.modeCoverage == None)
      && (forall r, s :: r in table && s in table && r.key == key == s.key ==> r == s)
  {
    var from := BattleItemsList(d, PerMode, 0);
    var key, played := Key(b, None, Some(mode), patch), InMode(d, b, mode, patch);
    assert d.participants[0..] == d.participants;
    forall i
      ensures i in played <==> i in ItemsFrom(d, PerMode, 0) && ItemAt(d, PerMode, i).key == key
    {
    }
    SharePlayed(d, PerMode, key, played);
    AggregateSays(PerMode, d, brawlers, key, from, ItemsFrom(d, PerMode, 0));
    hide InMode, ItemsFrom, Lists, Aggregate, BattleItems, OfKey, RateAndTime;
  }

  /**
   * A row of the overall statement: likewise over all modes, the battles without a mode included;
   * its mode coverage is the number of distinct modes among them.
   */
  lemma OverallRowsCount(d: Data, brawlers: set<Id>, b: Id, patch: Option<Id>)
    ensures var table, key, played := Aggregate(Overall, d, brawlers), Key(b, None, None, patch), InPatch(d, b, patch);
      && ((exists r :: r in table && r.key == key) <==> b in brawlers && played != {})
      && (forall r :: r in table && r.key == key ==>
            Counts(d, r, played) && r.modeCoverage == Some(|ModesAmong(d, played)|))
      && (forall r, s :: r in table && s in table && r.key == key == s.key ==> r == s)
  {
    var from := BattleItemsList(d, Overall, 0);
    var key, played := Key(b, None, None, patch), InPatch(d, b, patch);
    assert d.participants[0..] == d.participants;
    forall i
      ensures i in played <==> i in ItemsFrom(d, Overall, 0) && ItemAt(d, Overall, i).key == key
    {
    }
    SharePlayed(d, Overall, key, played);
    AggregateSays(Overall, d, brawlers, key, from, ItemsFrom(d, Overall, 0));
    hide InPatch, ItemsFrom, Lists, Aggregate, BattleItems, OfKey, RateAndTime;
  }

  // ----------------------------------------------------------- the matchup join

  /** The joined row of one ordered pair. */
  ghost function PairAt(d: Data, o: (nat, nat)): Item
    requires Met(d, o.0, o.1) && d.participants[o.0].battle in d.battles
  {
    var p := d.participants[o.0];
    var b := d.battles[p.battle];
    Item(Key(p.brawler, Some(d.participants[o.1].brawler), b.mode, b.patch),
         if p.team.value in d.teams then Some(d.teams[p.team.value]) else None, b.mode, b.at)
  }

  /** The pairs with a first participant between `low` and `high` and a second one from `n` on. */
  ghost function PairsFrom(d: Data, low: nat, high: nat, n: nat): set<(nat, nat)> {
    set i: nat, j: nat | i < |d.participants| && j < |d.participants| && low <= i < high && n <= j && Met(d, i, j)
                         && d.participants[i].battle in d.battles :: (i, j)
  }

  ghost function PairItems(d: Data, low: nat, high: nat, n: nat): map<(nat, nat), Item> {
    map o | o in PairsFrom(d, low, high, n) :: PairAt(d, o)
  }

  lemma {:induction false} OpponentItemsList(d: Data, i: nat, n: nat) returns (from: seq<(nat, nat)>)
    requires i < |d.participants| && n <= |d.participants|
    ensures Lists(OpponentItems(d, d.participants[i], d.participants[n..]), from, PairItems(d, i, i + 1, n))
    decreases |d.participants| - n
  {
    if n == |d.participants| {
      from := [];
      assert PairItems(d, i, i + 1, n) == map[];
    } else {
      var rest := OpponentItemsList(d, i, n + 1);
      var p, q := d.participants[i], d.participants[n];
      assert d.participants[n..][0] == q && d.participants[n..][1..] == d.participants[n + 1..];
      var tail := OpponentItems(d, p, d.participants[n + 1..]);
      hide Lists;
      if p.battle !in d.battles || !Opposed(p, q) {
        from := rest;
        assert PairsFrom(d, i, i + 1, n) == PairsFrom(d, i, i + 1, n + 1);
      } else {
        from := [(i, n)] + rest;
        ListsCons(PairAt(d, (i, n)), (i, n), tail, rest, PairItems(d, i, i + 1, n + 1));
        assert PairsFrom(d, i, i + 1, n) == PairsFrom(d, i, i + 1, n + 1) + {(i, n)};
        assert PairItems(d, i, i + 1, n) == PairItems(d, i, i + 1, n + 1)[(i, n) := PairAt(d, (i, n))];
      }
    }
  }

  lemma PairsSplit(d: Data, n: nat, high: nat)
    requires n < high
    ensures var a, b := PairItems(d, n, n + 1, 0), PairItems(d, n + 1, high, 0);
      a.Keys !! b.Keys && PairItems(d, n, high, 0) == a + b
  {
    hide Met, PairAt;
    assert PairsFrom(d, n, high, 0) == PairsFrom(d, n, n + 1, 0) + PairsFrom(d, n + 1, high, 0);
  }

  lemma {:induction false} MatchupItemsList(d: Data, n: nat) returns (from: seq<(nat, nat)>)
    requires n <= |d.participants|
    ensures Lists(MatchupItems(d, d.participants[n..]), from, PairItems(d, n, |d.participants|, 0))
    decreases |d.participants| - n
  {
    var all := |d.participants|;
    if n == all {
      from := [];
      assert PairItems(d, n, all, 0) == map[];
    } else {
      var line := OpponentItemsList(d, n, 0);
      var rest := MatchupItemsList(d, n + 1);
      assert d.participants[0..] == d.participants;
      assert d.participants[n..][0] == d.participants[n] && d.participants[n..][1..] == d.participants[n + 1..];
      PairsSplit(d, n, all);
      hide Lists, OpponentItems, PairItems;
      from := line + rest;
      ListsAppend(OpponentItems(d, d.participants[n], d.participants), line, PairItems(d, n, n + 1, 0),
                  MatchupItems(d, d.participants[n + 1..]), rest, PairItems(d, n + 1, all, 0));
    }
  }

  /** All pairs, each with its joined row in the tables' terms. */
  lemma PairRead(d: Data, o: (nat, nat))
    requires o in PairItems(d, 0, |d.participants|, 0)
    ensures InBattle(d, o.0) && Met(d, o.0, o.1)
    ensures var item := PairItems(d, 0, |d.participants|, 0)[o]; var b := BattleOf(d, o.0);
      && item.key == Key(d.participants[o.0].brawler, Some(d.participants[o.1].brawler), b.mode, b.patch)
      && item.mode == b.mode && item.at == b.at
      && forall r :: item.result == Some(r) <==> Ended(d, o.0, r)
  {
  }

  lemma ShareMet(d: Data, key: Key, met: set<(nat, nat)>)
    requires OfKey(PairItems(d, 0, |d.participants|, 0), key).Keys == met
    ensures var of := OfKey(PairItems(d, 0, |d.participants|, 0), key);
      TimesIn(of) == TimesOfPairs(d, met) && forall r :: WithResult(of, r) == EndingPairs(d, met, r)
  {
    var all := PairItems(d, 0, |d.participants|, 0);
    var of := OfKey(all, key);
    forall o | o in met
      ensures InBattle(d, o.0) && of[o].at == BattleOf(d, o.0).at
      ensures forall r :: of[o].result == Some(r) <==> Ended(d, o.0, r)
    {
      PairRead(d, o);
    }
    hide OfKey, PairItems, BattleOf, InBattle, Ended;
    forall r
      ensures WithResult(of, r) == EndingPairs(d, met, r)
    {
    }
    assert TimesIn(of) == TimesOfPairs(d, met);
  }

  lemma MeetingsAreTheShare(d: Data, a: Id, b: Id, mode: Option<Id>, patch: Option<Id>)
    ensures OfKey(PairItems(d, 0, |d.participants|, 0), Key(a, Some(b), mode, patch)).Keys == Meetings(d, a, b, mode, patch)
  {
    var all := PairItems(d, 0, |d.participants|, 0);
    var of := OfKey(all, Key(a, Some(b), mode, patch));
    forall o: (nat, nat)
      ensures o in of.Keys <==> o in Meetings(d, a, b, mode, patch)
    {
      if o in of.Keys {
        PairRead(d, o);
      }
      if o in Meetings(d, a, b, mode, patch) {
        assert Met(d, o.0, o.1) && o == (o.0, o.1);
        assert o in PairsFrom(d, 0, |d.participants|, 0);
        PairRead(d, o);
      }
    }
  }

  /**
   * A row of the matchup statement: it exists exactly when the first brawler is in the batch and
   * met the second in that mode and patch, once, and counts exactly those ordered pairs, with
   * the results of the first participant's own team.
   */
  lemma MatchupRowsCount(d: Data, brawlers: set<Id>, a: Id, b: Id, mode: Option<Id>, patch: Option<Id>)
    ensures var table, key, met := Aggregate(Matchup, d, brawlers), Key(a, Some(b), mode, patch), Meetings(d, a, b, mode, patch);
      && ((exists r :: r in table && r.key == key) <==> a in brawlers && met != {})
      && (forall r :: r in table && r.key == key ==> CountsPairs(d, r, met))
      && (forall r, s :: r in table && s in table && r.key == key == s.key ==> r == s)
  {
    var from := MatchupItemsList(d, 0);
    var key, met := Key(a, Some(b), mode, patch), Meetings(d, a, b, mode, patch);
    assert d.participants[0..] == d.participants;
    MeetingsAreTheShare(d, a, b, mode, patch);
    ShareMet(d, key, met);
    AggregateSays(Matchup, d, brawlers, key, from, PairItems(d, 0, |d.participants|, 0));
    hide Meetings, PairItems, Lists, Aggregate, MatchupItems, OfKey, RateAndTime;
  }

  /** Rows have no other keys than these: each scope fills exactly its own key columns. */
  lemma RowKeysFit(scope: Scope, d: Data, brawlers: set<Id>, r: Row)
    requires r in Aggregate(scope, d, brawlers)
    ensures (r.key.opponent.Some? <==> scope.Matchup?)
    ensures (scope.PerMode? ==> r.key.mode.Some?) && (scope.Overall? ==> r.key.mode.None?)
  {
    AggregateByKey(scope, d, brawlers);
    var items := Joined(d, scope);
    var n :| 0 <= n < |items| && items[n].key == r.key;
    assert d.participants[0..] == d.participants;
    if scope.Matchup? {
      var from := MatchupItemsList(d, 0);
      PairRead(d, from[n]);
    } else {
      var from := BattleItemsList(d, scope, 0);
      assert from[n] in ItemsFrom(d, scope, 0);
    }
  }

  // ------------------------------------------------------------------ pooled rows

  ghost function OfPair<O(!new)>(of: map<O, Item>, a: Id, b: Id): map<O, Item> {
    map o | o in of && of[o].key.brawler == a && of[o].key.opponent == Some(b) :: of[o]
  }

  lemma {:induction false} DirectLists<O(!new)>(items: seq<Item>, from: seq<O>, of: map<O, Item>, a: Id, b: Id)
      returns (at: seq<O>)
    requires Lists(items, from, of)
    ensures Lists(Matchups.Direct(items, a, b), at, OfPair(of, a, b))
  {
    if items == [] {
      at := [];
    } else {
      var o, rest := from[0], of - {from[0]};
      ListsTail(items, from, of);
      var tail := DirectLists(items[1..], from[1..], rest, a, b);
      hide Lists;
      var more := Matchups.Direct(items[1..], a, b);
      if items[0].key.brawler == a && items[0].key.opponent == Some(b) {
        at := [o] + tail;
        ListsCons(items[0], o, more, tail, OfPair(rest, a, b));
        assert OfPair(of, a, b) == OfPair(rest, a, b)[o := items[0]];
      } else {
        at := tail;
        assert OfPair(of, a, b) == OfPair(rest, a, b);
        assert [] + more == more;
      }
    }
  }

  lemma AllMeetingsAreTheShare(d: Data, a: Id, b: Id)
    ensures var of := OfPair(PairItems(d, 0, |d.participants|, 0), a, b);
      of.Keys == AllMeetings(d, a, b) && forall r :: WithResult(of, r) == EndingPairs(d, AllMeetings(d, a, b), r)
  {
    var all := PairItems(d, 0, |d.participants|, 0);
    var of, met := OfPair(all, a, b), AllMeetings(d, a, b);
    forall o: (nat, nat)
      ensures o in of.Keys <==> o in met
    {
      if o in of.Keys {
        PairRead(d, o);
      }
      if o in met {
        assert Met(d, o.0, o.1) && o == (o.0, o.1);
        assert o in PairsFrom(d, 0, |d.participants|, 0);
        PairRead(d, o);
      }
    }
    forall o | o in met
      ensures forall r :: of[o].result == Some(r) <==> Ended(d, o.0, r)
    {
      PairRead(d, o);
    }
    hide OfPair, PairItems, AllMeetings, Ended;
    forall r
      ensures WithResult(of, r) == EndingPairs(d, met, r)
    {
    }
  }

  /**
   * The pooled figures of an ordered pair, summed over the stored rows of every mode and patch, are
   * the numbers of times the two met, and of those times the first one's team won or lost.
   */
  lemma PooledCountsMeetings(d: Data, brawlers: set<Id>, a: Id, b: Id)
    requires a in brawlers
    ensures var table, met := Aggregate(Matchup, d, brawlers), AllMeetings(d, a, b);
      && Matchups.Pooled(table, a, b, Matchups.Matches) == |met|
      && Matchups.Pooled(table, a, b, Matchups.Wins) == |EndingPairs(d, met, Victory)|
      && Matchups.Pooled(table, a, b, Matchups.Losses) == |EndingPairs(d, met, Defeat)|
  {
    var items := Joined(d, Matchup);
    var from := MatchupItemsList(d, 0);
    assert d.participants[0..] == d.participants;
    var all := PairItems(d, 0, |d.participants|, 0);
    var direct, of := Matchups.Direct(items, a, b), OfPair(all, a, b);
    var at := DirectLists(items, from, all, a, b);
    ListsSize(direct, at, of);
    CountLists(direct, at, of, Victory);
    CountLists(direct, at, of, Defeat);
    AllMeetingsAreTheShare(d, a, b);
    Matchups.PoolingLosesNothing(d, brawlers, a, b, Matchups.Matches);
    Matchups.PoolingLosesNothing(d, brawlers, a, b, Matchups.Wins);
    Matchups.PoolingLosesNothing(d, brawlers, a, b, Matchups.Losses);
    hide Aggregate, Matchups.Pooled, Joined, OfPair, Lists, AllMeetings, EndingPairs;
  }
}
