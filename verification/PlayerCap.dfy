/** The per-player cap: at most so many rows of one player count for a brawler, the newest ones. */
module PlayerCap {
  import opened Common
  import opened Keyset
  import GroupBy
  import Sorting

  /** One raw participation of a brawler; an empty text is an absent value. */
  datatype Row = Row(
    player: Id, occurredAt: int, result: Option<GroupBy.Result>, mode: Option<Id>, patch: Option<Id>,
    region: Option<Id>, bracket: Option<Id>)

  /** One player's rows, in input order. */
  function RowsOf(rows: seq<Row>, p: Id): seq<Row> {
    if rows == [] then []
    else RowsOf(rows[..|rows| - 1], p) + if rows[|rows| - 1].player == p then [rows[|rows| - 1]] else []
  }

  /** The players in order of first appearance. */
  function Players(rows: seq<Row>): seq<Id> {
    if rows == [] then []
    else
      var before := Players(rows[..|rows| - 1]);
      if rows[|rows| - 1].player in before then before else before + [rows[|rows| - 1].player]
  }

  predicate Newer(a: Row, b: Row) {
    a.occurredAt > b.occurredAt
  }

  /** Newest first; equal times keep their order. */
  function NewestFirst(s: seq<Row>): (t: seq<Row>)
    ensures multiset(t) == multiset(s)
  {
    Sorting.Sort(Newer, s)
  }

  predicate Descending(s: seq<Row>) {
    forall i, j :: 0 <= i < j < |s| ==> s[i].occurredAt >= s[j].occurredAt
  }

  lemma NewestFirstDescends(s: seq<Row>)
    ensures Descending(NewestFirst(s))
  {
    Sorting.SortOrdered(Newer, s);
    var t := NewestFirst(s);
    assert forall i, j :: 0 <= i < j < |t| ==> !Newer(t[j], t[i]);
  }

  /** What one player contributes. */
  function Kept(rows: seq<Row>, p: Id, cap: nat): seq<Row> {
    var sorted := NewestFirst(RowsOf(rows, p));
    sorted[..Min(cap, |sorted|)]
  }

  function Capped(rows: seq<Row>, players: seq<Id>, cap: nat): seq<Row> {
    if players == [] then [] else Capped(rows, players[..|players| - 1], cap) + Kept(rows, Last(players), cap)
  }

  lemma {:induction false} RowsOfMembers(rows: seq<Row>, p: Id)
    ensures forall r :: r in RowsOf(rows, p) ==> r in rows && r.player == p
  {
    if rows != [] {
      RowsOfMembers(rows[..|rows| - 1], p);
    }
  }

  /** The accumulator after some rows: the players in order, each with its rows. */
  ghost predicate Grouped(rows: seq<Row>, order: seq<Id>, byPlayer: map<Id, seq<Row>>) {
    && order == Players(rows)
    && (forall p :: p in byPlayer <==> p in order)
    && (forall p :: p in byPlayer ==> byPlayer[p] == RowsOf(rows, p))
    && (forall p :: p !in byPlayer ==> RowsOf(rows, p) == [])
  }

  function Append(byPlayer: map<Id, seq<Row>>, r: Row): map<Id, seq<Row>> {
    byPlayer[r.player := (if r.player in byPlayer then byPlayer[r.player] else []) + [r]]
  }

  lemma GroupOneMore(rows: seq<Row>, order: seq<Id>, byPlayer: map<Id, seq<Row>>, r: Row)
    requires Grouped(rows, order, byPlayer)
    ensures Grouped(rows + [r], if r.player in byPlayer then order else order + [r.player], Append(byPlayer, r))
  {
    var rows' := rows + [r];
    assert rows'[..|rows'| - 1] == rows;
    forall p
      ensures RowsOf(rows', p) == RowsOf(rows, p) + if p == r.player then [r] else []
    {
    }
  }

  method GroupByPlayer(rows: seq<Row>) returns (order: seq<Id>, byPlayer: map<Id, seq<Row>>)
    ensures Grouped(rows, order, byPlayer)
  {
    order, byPlayer := [], map[];
    for i := 0 to |rows|
      invariant Grouped(rows[..i], order, byPlayer)
    {
      hide Grouped;
      var r := rows[i];
      assert rows[..i + 1] == rows[..i] + [r];
      GroupOneMore(rows[..i], order, byPlayer, r);
      if r.player !in byPlayer {
        order := order + [r.player];
      }
      byPlayer := Append(byPlayer, r);
    }
    assert rows[..|rows|] == rows;
  }

  /** `applyPerPlayerCap`: group by player, sort each group, take its head. */
  method ApplyPerPlayerCap(rows: seq<Row>, cap: nat) returns (result: seq<Row>)
    ensures result == Capped(rows, Players(rows), cap)
  {
    hide Players, RowsOf, NewestFirst;
    var order, byPlayer := GroupByPlayer(rows);
    result := [];
    for i := 0 to |order|
      invariant result == Capped(rows, order[..i], cap)
    {
      assert order[..i + 1][..i] == order[..i];
      assert order[i] in order;
      var sorted := NewestFirst(byPlayer[order[i]]);
      result := result + sorted[..Min(cap, |sorted|)];
    }
    assert order[..|order|] == order;
  }

  // ------------------------------------------------------------ main results

  lemma {:induction false} PlayersAreDistinct(rows: seq<Row>)
    ensures forall i, j :: 0 <= i < j < |Players(rows)| ==> Players(rows)[i] != Players(rows)[j]
    ensures forall r :: r in rows ==> r.player in Players(rows)
  {
    if rows != [] {
      PlayersAreDistinct(rows[..|rows| - 1]);
      assert rows == rows[..|rows| - 1] + [rows[|rows| - 1]];
    }
  }

  lemma KeptIsOwn(rows: seq<Row>, p: Id, cap: nat)
    ensures forall r :: r in Kept(rows, p, cap) ==> r in rows && r.player == p
  {
    var sorted := NewestFirst(RowsOf(rows, p));
    RowsOfMembers(rows, p);
    forall r | r in Kept(rows, p, cap)
      ensures r in rows && r.player == p
    {
      assert r in sorted;
      assert r in multiset(sorted);
    }
  }

  lemma {:induction false} OthersDoNotMatter(s: seq<Row>, p: Id)
    requires forall r :: r in s ==> r.player != p
    ensures RowsOf(s, p) == []
  {
    if s != [] {
      assert s[|s| - 1] in s;
      OthersDoNotMatter(s[..|s| - 1], p);
    }
  }

  lemma {:induction false} AllOwn(s: seq<Row>, p: Id)
    requires forall r :: r in s ==> r.player == p
    ensures RowsOf(s, p) == s
  {
    if s != [] {
      assert s[|s| - 1] in s;
      AllOwn(s[..|s| - 1], p);
      assert s == s[..|s| - 1] + [s[|s| - 1]];
    }
  }

  lemma {:induction false} RowsOfJoins(a: seq<Row>, b: seq<Row>, p: Id)
    ensures RowsOf(a + b, p) == RowsOf(a, p) + RowsOf(b, p)
  {
    if b == [] {
      assert a + b == a;
    } else {
      RowsOfJoins(a, b[..|b| - 1], p);
      assert (a + b)[..|a + b| - 1] == a + b[..|b| - 1];
    }
  }

  lemma {:induction false} CappedPerPlayer(rows: seq<Row>, players: seq<Id>, cap: nat, p: Id)
    requires forall i, j :: 0 <= i < j < |players| ==> players[i] != players[j]
    ensures RowsOf(Capped(rows, players, cap), p) == if p in players then Kept(rows, p, cap) else []
  {
    hide Kept;
    if players != [] {
      var front, last := players[..|players| - 1], Last(players);
      CappedPerPlayer(rows, front, cap, p);
      RowsOfJoins(Capped(rows, front, cap), Kept(rows, last, cap), p);
      KeptIsOwn(rows, last, cap);
      assert players == front + [last];
      if p == last {
        AllOwn(Kept(rows, p, cap), p);
      } else {
        OthersDoNotMatter(Kept(rows, last, cap), p);
      }
    }
  }

  lemma SplitDescends(sorted: seq<Row>, n: nat, r: Row, d: Row)
    requires Descending(sorted) && n <= |sorted| && r in sorted[..n] && d in sorted[n..]
    ensures r.occurredAt >= d.occurredAt
  {
    var i :| 0 <= i < n && sorted[..n][i] == r;
    var j :| 0 <= j < |sorted| - n && sorted[n..][j] == d;
    assert sorted[i] == r && sorted[n + j] == d;
  }

  /** The head of the sorted rows: as many as the cap allows, and nothing left behind is newer. */
  lemma HeadIsNewest(own: seq<Row>, cap: nat)
    ensures var kept := NewestFirst(own)[..Min(cap, |NewestFirst(own)|)];
      && |kept| == Min(cap, |own|) && multiset(kept) <= multiset(own)
      && forall r, d :: r in kept && d in multiset(own) - multiset(kept) ==> r.occurredAt >= d.occurredAt
  {
    var sorted := NewestFirst(own);
    NewestFirstDescends(own);
    assert |multiset(sorted)| == |multiset(own)|;
    hide NewestFirst, Descending;
    var n := Min(cap, |sorted|);
    var kept, dropped := sorted[..n], sorted[n..];
    assert sorted == kept + dropped;
    assert multiset(own) == multiset(kept) + multiset(dropped);
    forall r: Row, d: Row | r in kept && d in multiset(dropped)
      ensures r.occurredAt >= d.occurredAt
    {
      SplitDescends(sorted, n, r, d);
    }
  }

  /**
   * Of each player exactly the newest rows count: min(cap, n) of them, all the player's own,
   * and none of the dropped ones is newer than any that counts.
   */
  lemma CapKeepsTheNewest(rows: seq<Row>, cap: nat, p: Id)
    ensures var kept := RowsOf(Capped(rows, Players(rows), cap), p); var own := RowsOf(rows, p);
      && |kept| == Min(cap, |own|)
      && multiset(kept) <= multiset(own)
      && forall r, d :: r in kept && d in multiset(own) - multiset(kept) ==> r.occurredAt >= d.occurredAt
  {
    PlayersAreDistinct(rows);
    if p !in Players(rows) {
      OthersDoNotMatter(rows, p);
    }
    hide Players, RowsOf, Capped, NewestFirst;
    CappedPerPlayer(rows, Players(rows), cap, p);
    HeadIsNewest(RowsOf(rows, p), cap);
  }
}
