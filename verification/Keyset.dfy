/**
 * Keyset pagination: `WHERE id > ? ORDER BY id LIMIT ?`.
 *
 * Every resumable loop of the repository reads its next slice this way. Identifiers
 * are lower-case UUID text in the source; only their order and equality are used, so
 * natural numbers stand for them, and the empty cursor stands for both NULL and ''.
 */
module Keyset {
  import opened Common

  type Id = nat

  predicate After(x: Id, cursor: Option<Id>) {
    cursor.None? || x > cursor.value
  }

  function Above(ids: set<Id>, cursor: Option<Id>): set<Id> {
    set x | x in ids && After(x, cursor)
  }

  /** The ids a scan has passed when its cursor stands at `cursor`. */
  function UpTo(ids: set<Id>, cursor: Option<Id>): set<Id> {
    set x | x in ids && !After(x, cursor)
  }

  function Elements(s: seq<Id>): set<Id> {
    set x | x in s
  }

  predicate Ascending(s: seq<Id>) {
    forall i, j :: 0 <= i < j < |s| ==> s[i] < s[j]
  }

  function Last(s: seq<Id>): Id
    requires s != []
  {
    s[|s| - 1]
  }

  predicate IsLeast(s: set<Id>, m: Id) {
    m in s && forall x :: x in s ==> m <= x
  }

  lemma {:induction false} LeastExists(s: set<Id>)
    requires s != {}
    ensures exists m :: IsLeast(s, m)
  {
    var x :| x in s;
    var rest := s - {x};
    assert s == rest + {x};
    if rest == {} {
      assert IsLeast(s, x);
    } else {
      LeastExists(rest);
      var m :| IsLeast(rest, m);
      assert IsLeast(s, if m <= x then m else x);
    }
  }

  function Least(s: set<Id>): (m: Id)
    requires s != {}
    ensures m in s
    ensures forall x :: x in s ==> m <= x
  {
    LeastExists(s);
    var m :| IsLeast(s, m);
    m
  }

  /** The page itself, smallest id first. */
  function Page(ids: set<Id>, cursor: Option<Id>, limit: nat): (p: seq<Id>)
    ensures forall x :: x in p ==> x in Above(ids, cursor)
    ensures |p| <= limit
    ensures p == [] <==> limit == 0 || Above(ids, cursor) == {}
    decreases limit
  {
    if limit == 0 || Above(ids, cursor) == {} then []
    else
      var m := Least(Above(ids, cursor));
      [m] + Page(ids, Some(m), limit - 1)
  }

  /**
   * A page is ascending and is a prefix of what lies ahead: it holds exactly the
   * remaining ids up to its own last one, so moving the cursor there skips nothing.
   */
  lemma {:induction false} PageIsPrefix(ids: set<Id>, cursor: Option<Id>, limit: nat)
    ensures var p := Page(ids, cursor, limit);
      && Ascending(p)
      && (p != [] ==> Elements(p) == Above(ids, cursor) - Above(ids, Some(Last(p))))
    decreases limit
  {
    var p := Page(ids, cursor, limit);
    if p != [] {
      var m := Least(Above(ids, cursor));
      var rest := Page(ids, Some(m), limit - 1);
      PageIsPrefix(ids, Some(m), limit - 1);
      assert p == [m] + rest;
      AscendingJoin([m], rest);
      assert Elements(p) == {m} + Elements(rest);
      if rest != [] {
        assert Last(p) == Last(rest);
        assert Last(rest) in rest;
      }
    }
  }

  /** A page is full unless it exhausts what lies ahead. */
  lemma {:induction false} PageSize(ids: set<Id>, cursor: Option<Id>, limit: nat)
    ensures |Page(ids, cursor, limit)| == Min(limit, |Above(ids, cursor)|)
    decreases limit
  {
    if limit > 0 && Above(ids, cursor) != {} {
      var m := Least(Above(ids, cursor));
      PageSize(ids, Some(m), limit - 1);
      assert Above(ids, cursor) == Above(ids, Some(m)) + {m};
    }
  }

  /** What remains after a non-empty page. */
  lemma PageRemainder(ids: set<Id>, cursor: Option<Id>, limit: nat)
    requires Page(ids, cursor, limit) != []
    ensures var p := Page(ids, cursor, limit);
      |Above(ids, Some(Last(p)))| == |Above(ids, cursor)| - Min(limit, |Above(ids, cursor)|)
  {
    var p := Page(ids, cursor, limit);
    PageIsPrefix(ids, cursor, limit);
    PageSize(ids, cursor, limit);
    AscendingCardinality(p);
    var next := Above(ids, Some(Last(p)));
    assert Last(p) in p;
    assert next <= Above(ids, cursor);
    assert Above(ids, cursor) == next + Elements(p);
  }

  lemma {:induction false} AscendingCardinality(s: seq<Id>)
    requires Ascending(s)
    ensures |Elements(s)| == |s|
  {
    if s != [] {
      var front := s[..|s| - 1];
      AscendingCardinality(front);
      assert Elements(s) == Elements(front) + {Last(s)};
    }
  }

  /** A filter picks as many entries as there are positions that pass. */
  lemma PickedSize<T>(s: seq<T>, pass: T -> bool, at: seq<nat>, positions: set<nat>)
    requires Picked(s, pass, at)
    requires forall i: nat :: i in positions <==> i < |s| && pass(s[i])
    ensures |at| == |positions|
  {
    AscendingCardinality(at);
    assert Elements(at) == positions;
  }

  lemma SubsetSize(a: set<Id>, b: set<Id>)
    requires a <= b
    ensures |a| <= |b|
  {
    assert b == a + (b - a);
  }

  /** Ascending sequences join when the second starts above the first. */
  lemma AscendingJoin(s: seq<Id>, t: seq<Id>)
    requires Ascending(s) && Ascending(t)
    requires forall x, y :: x in s && y in t ==> x < y
    ensures Ascending(s + t)
  {
    var u := s + t;
    forall i, j | 0 <= i < j < |u|
      ensures u[i] < u[j]
    {
      if i < |s| <= j {
        assert s[i] in s && t[j - |s|] in t;
      }
    }
  }

  /** All of a set in ascending order: what reading it page by page must amount to. */
  function InOrder(ids: set<Id>): seq<Id> {
    Page(ids, None, |ids|)
  }

  lemma InOrderIsAll(ids: set<Id>)
    ensures Ascending(InOrder(ids)) && Elements(InOrder(ids)) == ids && |InOrder(ids)| == |ids|
  {
    var p := InOrder(ids);
    assert p == Page(ids, None, |ids|);
    hide Page, InOrder;
    assert Above(ids, None) == ids;
    PageSize(ids, None, |ids|);
    PageIsPrefix(ids, None, |ids|);
    AscendingCardinality(p);
    var missing := ids - Elements(p);
    assert ids == Elements(p) + missing;
    assert |missing| == 0;
  }

  lemma InOrderStartsLeast(ids: set<Id>)
    requires ids != {}
    ensures InOrder(ids) != [] && InOrder(ids)[0] == Least(ids)
  {
    assert Above(ids, None) == ids;
  }

  /** An ascending arrangement of a set is unique. */
  lemma {:induction false} AscendingIsInOrder(s: seq<Id>, t: seq<Id>)
    requires Ascending(s) && Ascending(t) && Elements(s) == Elements(t)
    ensures s == t
    decreases |s|
  {
    AscendingCardinality(s);
    AscendingCardinality(t);
    if s != [] {
      var a, b := Last(s), Last(t);
      assert a in Elements(t) && b in Elements(s);
      assert a == b;
      var s', t' := s[..|s| - 1], t[..|t| - 1];
      assert s == s' + [a] && t == t' + [b];
      assert Elements(s') == Elements(s) - {a} && Elements(t') == Elements(t) - {b};
      AscendingIsInOrder(s', t');
    }
  }

  /** A scan with nothing ahead has passed everything. */
  lemma PassedAll(ids: set<Id>, cursor: Option<Id>)
    requires Above(ids, cursor) == {}
    ensures UpTo(ids, cursor) == ids
  {
    forall x | x in ids
      ensures !After(x, cursor)
    {
      assert x !in Above(ids, cursor);
    }
  }

  /** Moving the cursor over a page passes the page and nothing else. */
  lemma PageAdvances(ids: set<Id>, cursor: Option<Id>, b: nat)
    requires Page(ids, cursor, b) != []
    ensures var batch := Page(ids, cursor, b);
      UpTo(ids, Some(Last(batch))) == UpTo(ids, cursor) + Elements(batch)
  {
    PageIsPrefix(ids, cursor, b);
    var batch := Page(ids, cursor, b);
    assert Last(batch) in batch;
    assert After(Last(batch), cursor);
    forall x | x in ids
      ensures x in UpTo(ids, Some(Last(batch))) <==> x in UpTo(ids, cursor) || x in Elements(batch)
    {
      assert x in Elements(batch) <==> x in Above(ids, cursor) && x !in Above(ids, Some(Last(batch)));
    }
  }

  lemma PassedThenPage(ids: set<Id>, cursor: Option<Id>, limit: nat)
    requires Page(ids, cursor, limit) != []
    ensures Ascending(InOrder(UpTo(ids, cursor)) + Page(ids, cursor, limit))
  {
    hide Page, InOrder;
    var before, p := InOrder(UpTo(ids, cursor)), Page(ids, cursor, limit);
    InOrderIsAll(UpTo(ids, cursor));
    PageIsPrefix(ids, cursor, limit);
    forall x, y | x in before && y in p
      ensures x < y
    {
      assert x in Elements(before) && y in Above(ids, cursor);
    }
    AscendingJoin(before, p);
  }

  /** In order, the page comes right behind what the scan had passed. */
  lemma InOrderGrows(ids: set<Id>, cursor: Option<Id>, limit: nat)
    requires Page(ids, cursor, limit) != []
    ensures var p := Page(ids, cursor, limit);
      InOrder(UpTo(ids, Some(Last(p)))) == InOrder(UpTo(ids, cursor)) + p
  {
    hide Page, InOrder, Last, UpTo, Ascending;
    var p := Page(ids, cursor, limit);
    var before, after := InOrder(UpTo(ids, cursor)), InOrder(UpTo(ids, Some(Last(p))));
    PassedThenPage(ids, cursor, limit);
    PageAdvances(ids, cursor, limit);
    InOrderIsAll(UpTo(ids, cursor));
    InOrderIsAll(UpTo(ids, Some(Last(p))));
    assert Elements(before + p) == Elements(before) + Elements(p);
    AscendingIsInOrder(before + p, after);
  }

  /** There is always an id not in use yet. */
  lemma Unused(ids: set<Id>) returns (x: Id)
    ensures x !in ids
  {
    var all := InOrder(ids);
    InOrderIsAll(ids);
    x := if all == [] then 0 else Last(all) + 1;
    assert x !in Elements(all);
  }
}
