/**
 * Dataset migration: composite (timestamp, id) cursors, paging up to a fixed watermark, and
 * the page loop under failures and overlap restarts.
 */
module Migration {
  import opened Common
  import opened Keyset
  import Sorting

  /** The empty id text, below every row's id, is `None`. Timestamps are milliseconds. */
  datatype Cursor = Cursor(timestamp: int, id: Option<Id>)

  type Key = nat

  datatype Row = Row(id: Id, timestamp: int, key: Key, content: nat)

  function CursorOf(r: Row): Cursor {
    Cursor(r.timestamp, Some(r.id))
  }

  function CompareId(a: Option<Id>, b: Option<Id>): int {
    if a == b then 0
    else if a.None? then -1
    else if b.None? then 1
    else if a.value < b.value then -1 else 1
  }

  /** Negative, zero or positive, as `localeCompare` on fixed-width text. */
  function CompareCursor(a: Cursor, b: Cursor): int {
    var time := if a.timestamp < b.timestamp then -1 else if a.timestamp > b.timestamp then 1 else 0;
    if time != 0 then time else CompareId(a.id, b.id)
  }

  lemma CompareIsTotalOrder(a: Cursor, b: Cursor, c: Cursor)
    ensures CompareCursor(a, b) == 0 <==> a == b
    ensures CompareCursor(a, b) == -CompareCursor(b, a)
    ensures CompareCursor(a, b) <= 0 && CompareCursor(b, c) <= 0 ==> CompareCursor(a, c) <= 0
    ensures CompareCursor(a, b) < 0 && CompareCursor(b, c) <= 0 ==> CompareCursor(a, c) < 0
    ensures CompareCursor(a, b) <= 0 && CompareCursor(b, c) < 0 ==> CompareCursor(a, c) < 0
  {
  }

  /** The SQL the pages are selected with, for one row. */
  predicate PagePredicate(timestamp: int, id: Id, lower: Cursor, upper: Cursor) {
    && (timestamp > lower.timestamp || (timestamp == lower.timestamp && (lower.id.None? || id > lower.id.value)))
    && (timestamp < upper.timestamp || (timestamp == upper.timestamp && upper.id.Some? && id <= upper.id.value))
  }

  /** The SQL predicate and the in-memory comparison select the same rows. */
  lemma PagePredicateAgrees(r: Row, lower: Cursor, upper: Cursor)
    ensures PagePredicate(r.timestamp, r.id, lower, upper) <==> InRange(r, Some(lower), upper)
  {
  }

  // ------------------------------------------------------------------- pages

  predicate InRange(r: Row, lower: Option<Cursor>, upper: Cursor) {
    (lower.None? || CompareCursor(CursorOf(r), lower.value) > 0) && CompareCursor(CursorOf(r), upper) <= 0
  }

  function Filter(rows: seq<Row>, lower: Option<Cursor>, upper: Cursor): (f: seq<Row>)
    ensures forall r :: r in f <==> r in rows && InRange(r, lower, upper)
  {
    if rows == [] then []
    else (if InRange(rows[0], lower, upper) then [rows[0]] else []) + Filter(rows[1..], lower, upper)
  }

  predicate Before(a: Row, b: Row) {
    CompareCursor(CursorOf(a), CursorOf(b)) < 0
  }

  /** Everything in range, in cursor order. */
  function All(rows: seq<Row>, lower: Option<Cursor>, upper: Cursor): seq<Row> {
    Sorting.Sort(Before, Filter(rows, lower, upper))
  }

  /** `compositePage`: filter, sort, slice. */
  function CompositePage(rows: seq<Row>, lower: Option<Cursor>, upper: Cursor, limit: nat): seq<Row> {
    var all := All(rows, lower, upper);
    all[..Min(limit, |all|)]
  }

  /** `fixedWatermark`: the greatest cursor. */
  function FixedWatermark(rows: seq<Row>): Option<Cursor> {
    if rows == [] then None
    else
      var rest := FixedWatermark(rows[1..]);
      if rest.None? || CompareCursor(CursorOf(rows[0]), rest.value) > 0 then Some(CursorOf(rows[0])) else rest
  }

  predicate DistinctCursors(rows: seq<Row>) {
    forall i, j :: 0 <= i < j < |rows| ==> CursorOf(rows[i]) != CursorOf(rows[j])
  }

  predicate Ascending(s: seq<Row>) {
    forall i, j :: 0 <= i < j < |s| ==> Before(s[i], s[j])
  }

  lemma BeforeIsStrictOrder(a: Row, b: Row, c: Row)
    ensures !(Before(a, b) && Before(b, a)) && !Before(a, a)
    ensures CursorOf(a) != CursorOf(b) ==> Before(a, b) || Before(b, a)
    ensures Before(a, b) && Before(b, c) ==> Before(a, c)
  {
  }

  lemma SortAscending(s: seq<Row>)
    requires DistinctCursors(s)
    ensures Ascending(Sorting.Sort(Before, s))
  {
    assert Sorting.StrictWeak(Before);
    Sorting.SortOrdered(Before, s);
    var t := Sorting.Sort(Before, s);
    StaysDistinct(s, t);
    forall i, j | 0 <= i < j < |t|
      ensures Before(t[i], t[j])
    {
      BeforeIsStrictOrder(t[i], t[j], t[i]);
    }
  }

  lemma OtherCursors(s: seq<Row>, i: nat, r: Row)
    requires DistinctCursors(s) && i < |s| && r in multiset(s) - multiset{s[i]}
    ensures CursorOf(r) != CursorOf(s[i])
  {
    assert s == s[..i] + [s[i]] + s[i + 1..];
  }

  /** A rearrangement of rows with distinct cursors has distinct cursors. */
  lemma StaysDistinct(s: seq<Row>, t: seq<Row>)
    requires DistinctCursors(s) && multiset(s) == multiset(t)
    ensures DistinctCursors(t)
  {
    forall i, j | 0 <= i < j < |t|
      ensures CursorOf(t[i]) != CursorOf(t[j])
    {
      var rest := t[..i] + t[i + 1..];
      assert t == t[..i] + ([t[i]] + t[i + 1..]);
      assert multiset(rest) == multiset(s) - multiset{t[i]};
      assert t[i + 1..][j - i - 1] == t[j];
      assert t[j] in multiset(rest);
      assert t[i] in multiset(s);
      var k :| 0 <= k < |s| && s[k] == t[i];
      OtherCursors(s, k, t[j]);
    }
  }

  lemma {:induction false} FilterKeepsDistinct(rows: seq<Row>, lower: Option<Cursor>, upper: Cursor)
    requires DistinctCursors(rows)
    ensures DistinctCursors(Filter(rows, lower, upper))
  {
    if rows != [] {
      var rest := Filter(rows[1..], lower, upper);
      FilterKeepsDistinct(rows[1..], lower, upper);
      forall x | x in rest
        ensures CursorOf(x) != CursorOf(rows[0])
      {
        assert x in rows[1..];
      }
    }
  }

  lemma AllIsExact(rows: seq<Row>, lower: Option<Cursor>, upper: Cursor)
    requires DistinctCursors(rows)
    ensures Ascending(All(rows, lower, upper))
    ensures forall r :: r in All(rows, lower, upper) <==> r in rows && InRange(r, lower, upper)
  {
    FilterKeepsDistinct(rows, lower, upper);
    SortAscending(Filter(rows, lower, upper));
    forall r
      ensures r in All(rows, lower, upper) <==> r in Filter(rows, lower, upper)
    {
      assert r in multiset(All(rows, lower, upper)) <==> r in multiset(Filter(rows, lower, upper));
    }
  }

  lemma NonEmptyHasMember(s: seq<Row>)
    requires s != []
    ensures exists r :: r in s
  {
    assert s[0] in s;
  }

  lemma TailMembers(s: seq<Row>)
    requires s != [] && Ascending(s)
    ensures forall r :: r in s[1..] <==> r in s && r != s[0]
  {
    BeforeIsStrictOrder(s[0], s[0], s[0]);
    assert s == [s[0]] + s[1..];
  }

  lemma {:induction false} AscendingIsUnique(s: seq<Row>, t: seq<Row>)
    requires Ascending(s) && Ascending(t) && forall r :: r in s <==> r in t
    ensures s == t
  {
    hide Before;
    if s != [] {
      NonEmptyHasMember(s);
    }
    if t != [] {
      NonEmptyHasMember(t);
    }
    if s != [] && t != [] {
      assert s[0] in t && t[0] in s;
      BeforeIsStrictOrder(s[0], t[0], s[0]);
      assert s[0] == t[0];
      TailMembers(s);
      TailMembers(t);
      AscendingIsUnique(s[1..], t[1..]);
      assert s == [s[0]] + s[1..] && t == [t[0]] + t[1..];
    }
  }

  /** What follows a page is what is in range above the page's last cursor. */
  lemma PageThenRest(rows: seq<Row>, lower: Option<Cursor>, upper: Cursor, limit: nat)
    requires DistinctCursors(rows) && limit > 0
    ensures var p := CompositePage(rows, lower, upper, limit);
      && (p == [] <==> All(rows, lower, upper) == [])
      && (p != [] ==> All(rows, lower, upper) == p + All(rows, Some(CursorOf(p[|p| - 1])), upper))
  {
    hide All, InRange, Before, CursorOf;
    var all := All(rows, lower, upper);
    var p := CompositePage(rows, lower, upper, limit);
    if p != [] {
      var n := |p|;
      var last := p[n - 1];
      var rest := All(rows, Some(CursorOf(last)), upper);
      AllIsExact(rows, lower, upper);
      AllIsExact(rows, Some(CursorOf(last)), upper);
      forall r
        ensures r in all[n..] <==> r in rest
      {
        RestAgrees(rows, lower, upper, n, r);
      }
      AscendingIsUnique(all[n..], rest);
      assert all == p + all[n..];
    }
  }

  /** All pages from `lower` on, each starting above the last cursor of the one before. */
  ghost function Pages(rows: seq<Row>, lower: Option<Cursor>, upper: Cursor, limit: nat): seq<seq<Row>>
    requires DistinctCursors(rows) && limit > 0
    decreases |All(rows, lower, upper)|
  {
    hide All;
    var p := CompositePage(rows, lower, upper, limit);
    PageThenRest(rows, lower, upper, limit);
    if p == [] then [] else [p] + Pages(rows, Some(CursorOf(p[|p| - 1])), upper, limit)
  }

  function Flatten(pages: seq<seq<Row>>): seq<Row> {
    if pages == [] then [] else pages[0] + Flatten(pages[1..])
  }

  /** The pages together are exactly what is in range: each row once, in cursor order. */
  lemma {:induction false} PagesCoverExactlyOnce(rows: seq<Row>, lower: Option<Cursor>, upper: Cursor, limit: nat)
    requires DistinctCursors(rows) && limit > 0
    ensures Flatten(Pages(rows, lower, upper, limit)) == All(rows, lower, upper)
    decreases |All(rows, lower, upper)|
  {
    hide All, CursorOf, DistinctCursors;
    var p := CompositePage(rows, lower, upper, limit);
    PageThenRest(rows, lower, upper, limit);
    if p != [] {
      var rest := Pages(rows, Some(CursorOf(p[|p| - 1])), upper, limit);
      PagesCoverExactlyOnce(rows, Some(CursorOf(p[|p| - 1])), upper, limit);
      assert Pages(rows, lower, upper, limit) == [p] + rest;
      assert Flatten([p] + rest) == p + Flatten(rest);
    }
  }

  lemma RestAgrees(rows: seq<Row>, lower: Option<Cursor>, upper: Cursor, n: nat, r: Row)
    requires DistinctCursors(rows) && 0 < n <= |All(rows, lower, upper)|
    ensures var all := All(rows, lower, upper);
      r in all[n..] <==> r in All(rows, Some(CursorOf(all[n - 1])), upper)
  {
    hide All, Before, CompareCursor;
    var all := All(rows, lower, upper);
    var last := all[n - 1];
    AllIsExact(rows, lower, upper);
    AllIsExact(rows, Some(CursorOf(last)), upper);
    RestMembers(all, n, r);
    assert last in all;
    AboveMeansAfter(r, last, upper);
    if InRange(r, Some(CursorOf(last)), upper) {
      AboveStaysInRange(r, last, lower, upper);
    }
  }

  lemma AboveMeansAfter(r: Row, last: Row, upper: Cursor)
    ensures InRange(r, Some(CursorOf(last)), upper) <==> Before(last, r) && InRange(r, None, upper)
  {
    CompareIsTotalOrder(CursorOf(last), CursorOf(r), CursorOf(r));
  }

  lemma RestMembers(all: seq<Row>, n: nat, r: Row)
    requires Ascending(all) && 0 < n <= |all|
    ensures r in all[n..] <==> r in all && Before(all[n - 1], r)
  {
    hide Before;
    if r in all && Before(all[n - 1], r) {
      var i :| 0 <= i < |all| && all[i] == r;
      BeforeIsStrictOrder(all[n - 1], r, r);
      assert i >= n;
      assert all[n..][i - n] == r;
    }
  }

  lemma AboveStaysInRange(r: Row, last: Row, lower: Option<Cursor>, upper: Cursor)
    requires InRange(last, lower, upper) && InRange(r, Some(CursorOf(last)), upper)
    ensures InRange(r, lower, upper) && Before(last, r)
  {
    if lower.Some? {
      CompareIsTotalOrder(lower.value, CursorOf(last), CursorOf(r));
      CompareIsTotalOrder(CursorOf(last), lower.value, lower.value);
      CompareIsTotalOrder(CursorOf(r), CursorOf(last), lower.value);
    }
    CompareIsTotalOrder(CursorOf(last), CursorOf(r), CursorOf(r));
  }

  // ---------------------------------------------------------------- progress

  datatype Verdict = Done | Advanced | MissingCursor | Repeated | Regressed

  /** `validatePageProgress`. */
  function ValidatePageProgress(previous: Option<Cursor>, next: Option<Cursor>, rowCount: nat): Verdict {
    if rowCount == 0 then Done
    else if next.None? then MissingCursor
    else if previous.None? || CompareCursor(next.value, previous.value) > 0 then Advanced
    else if next == previous then Repeated
    else Regressed
  }

  function LastCursor(page: seq<Row>): Option<Cursor> {
    if page == [] then None else Some(CursorOf(page[|page| - 1]))
  }

  /** Every non-empty page passes the progress check; the empty page ends the loop. */
  lemma PagesAdvance(rows: seq<Row>, lower: Option<Cursor>, upper: Cursor, limit: nat)
    requires DistinctCursors(rows) && limit > 0
    ensures var p := CompositePage(rows, lower, upper, limit);
      ValidatePageProgress(lower, LastCursor(p), |p|) == if All(rows, lower, upper) == [] then Done else Advanced
  {
    hide All;
    var p := CompositePage(rows, lower, upper, limit);
    AllIsExact(rows, lower, upper);
    if p != [] {
      assert p[|p| - 1] in All(rows, lower, upper);
    }
  }

  /** The watermark is the last row's cursor, so up to it the range is the whole table. */
  lemma {:induction false} WatermarkIsGreatest(rows: seq<Row>)
    ensures rows == [] <==> FixedWatermark(rows) == None
    ensures forall r :: r in rows ==> InRange(r, None, FixedWatermark(rows).value)
    ensures rows != [] ==> exists r :: r in rows && FixedWatermark(rows) == Some(CursorOf(r))
  {
    hide CompareCursor, CursorOf;
    if rows != [] {
      var first, rest := CursorOf(rows[0]), FixedWatermark(rows[1..]);
      WatermarkIsGreatest(rows[1..]);
      assert rows[0] in rows && forall r :: r in rows[1..] ==> r in rows;
      var w := FixedWatermark(rows).value;
      forall r | r in rows
        ensures InRange(r, None, w)
      {
        assert r == rows[0] || r in rows[1..];
        CompareIsTotalOrder(first, w, w);
        if rest.Some? {
          CompareIsTotalOrder(first, rest.value, first);
          CompareIsTotalOrder(rest.value, first, first);
          CompareIsTotalOrder(CursorOf(r), rest.value, first);
        }
      }
    }
  }

  /** Rows that arrive above the watermark while paging change nothing. */
  lemma {:induction false} LaterRowsAreInvisible(rows: seq<Row>, later: seq<Row>, lower: Option<Cursor>, upper: Cursor)
    requires forall r :: r in later ==> CompareCursor(CursorOf(r), upper) > 0
    ensures All(rows + later, lower, upper) == All(rows, lower, upper)
  {
    FilterSkips(rows, later, lower, upper);
  }

  lemma {:induction false} FilterSkips(rows: seq<Row>, later: seq<Row>, lower: Option<Cursor>, upper: Cursor)
    requires forall r :: r in later ==> CompareCursor(CursorOf(r), upper) > 0
    ensures Filter(rows + later, lower, upper) == Filter(rows, lower, upper)
  {
    hide CompareCursor;
    if rows != [] {
      FilterSkips(rows[1..], later, lower, upper);
      assert (rows + later)[1..] == rows[1..] + later;
    } else {
      assert rows + later == later;
      FilterNothing(later, lower, upper);
    }
  }

  lemma {:induction false} FilterNothing(later: seq<Row>, lower: Option<Cursor>, upper: Cursor)
    requires forall r :: r in later ==> CompareCursor(CursorOf(r), upper) > 0
    ensures Filter(later, lower, upper) == []
  {
    hide CompareCursor;
    if later != [] {
      assert later[0] in later && !InRange(later[0], lower, upper);
      FilterNothing(later[1..], lower, upper);
    }
  }

  // ------------------------------------------------------------------ target

  /** Rows a re-run counts as already there. */
  predicate Same(a: Row, b: Row) {
    a.content == b.content && a.id == b.id
  }

  datatype Applied = Ok(target: map<Key, Row>) | Diverged

  /** `applySimulated`: insert, match or (unless the table is immutable) overwrite. */
  function ApplyOne(target: map<Key, Row>, r: Row, immutable: bool): Applied {
    if r.key !in target then Ok(target[r.key := r])
    else if Same(target[r.key], r) then Ok(target)
    else if immutable then Diverged
    else Ok(target[r.key := r])
  }

  function OverlapStart(c: Cursor, seconds: nat): Cursor {
    Cursor(c.timestamp - seconds * 1000, None)
  }

  predicate DistinctRowKeys(rows: seq<Row>) {
    forall i, j :: 0 <= i < j < |rows| ==> rows[i].key != rows[j].key
  }

  /** An in-range source row whose key the target already holds with other facts. */
  predicate Conflict(rows: seq<Row>, upper: Cursor, before: map<Key, Row>) {
    exists r :: r in rows && InRange(r, None, upper) && r.key in before && (before[r.key].content != r.content || before[r.key].id != r.id)
  }

  /** The rows up to the cursor are in the target; everything else is as it was. */
  ghost predicate Covered(rows: seq<Row>, upper: Cursor, immutable: bool, before: map<Key, Row>,
      cursor: Option<Cursor>, target: map<Key, Row>) {
    && (forall r :: r in rows && InRange(r, None, upper) && cursor.Some? && CompareCursor(CursorOf(r), cursor.value) <= 0 ==>
          r.key in target && Same(target[r.key], r))
    && Frame(rows, upper, immutable, before, target)
  }

  /**
   * Every target row is untouched or equal to an in-range source row; an immutable table never
   * changes a row it had.
   */
  ghost predicate Frame(rows: seq<Row>, upper: Cursor, immutable: bool, before: map<Key, Row>, target: map<Key, Row>) {
    && (forall k :: k in before ==> k in target && (immutable ==> target[k] == before[k]))
    && (forall k :: k in target ==> (k in before && target[k] == before[k]) || (target[k] in rows && InRange(target[k], None, upper) && target[k].key == k))
  }

  /** The migrated target: every in-range row, and nothing else changed. */
  ghost predicate Migrated(rows: seq<Row>, upper: Cursor, immutable: bool, before: map<Key, Row>,
      target: map<Key, Row>) {
    && (forall r :: r in rows && InRange(r, None, upper) ==>
          r.key in target && target[r.key].content == r.content && target[r.key].id == r.id)
    && Frame(rows, upper, immutable, before, target)
  }

  /**
   * What befalls a page: applied and committed, or only its first rows applied before a failure,
   * or a restart with overlap.
   */
  datatype Event = Page | Failure(applied: nat) | Restart(overlapSeconds: nat)

  datatype Outcome = Completed | FatalDivergence

  class Migrator {
    var cursor: Option<Cursor>
    var target: map<Key, Row>

    constructor (target: map<Key, Row>)
      ensures this.target == target && cursor == None
    {
      this.target, cursor := target, None;
    }

    method ApplySimulated(r: Row, immutable: bool) returns (ok: bool)
      modifies this`target
      ensures ok == ApplyOne(old(target), r, immutable).Ok?
      ensures target == if ok then ApplyOne(old(target), r, immutable).target else old(target)
      ensures !ok <==>
        immutable && r.key in old(target) && (old(target)[r.key].content != r.content || old(target)[r.key].id != r.id)
      ensures ok ==>
        && target.Keys == old(target).Keys + {r.key}
        && target[r.key].content == r.content && target[r.key].id == r.id
        && forall k :: k in old(target) && k != r.key ==> target[k] == old(target)[k]
      ensures r.key in old(target) && target != old(target) ==>
        target[r.key] == r && (old(target)[r.key].content != r.content || old(target)[r.key].id != r.id)
    {
      if r.key !in target {
        target := target[r.key := r];
        return true;
      }
      if Same(target[r.key], r) {
        return true;
      }
      if immutable {
        return false;
      }
      target := target[r.key := r];
      return true;
    }

    /** The first `n` rows of a page, in order; stops at a divergence. */
    method ApplyRows(page: seq<Row>, n: nat, immutable: bool, ghost rows: seq<Row>, ghost upper: Cursor,
        ghost before: map<Key, Row>)
      returns (ok: bool)
      requires n <= |page| && DistinctRowKeys(rows) && Frame(rows, upper, immutable, before, target)
      requires forall r :: r in page ==> r in rows && InRange(r, None, upper)
      modifies this`target
      ensures Frame(rows, upper, immutable, before, target)
      ensures Keeps(rows, upper, old(target), target)
      ensures ok ==> forall i :: 0 <= i < n ==> page[i].key in target && Same(target[page[i].key], page[i])
      ensures !ok ==> immutable && Conflict(rows, upper, before)
    {
      hide InRange, Same;
      var i := 0;
      KeepsReflexive(rows, upper, target);
      while i < n
        invariant 0 <= i <= n && Frame(rows, upper, immutable, before, target)
        invariant Keeps(rows, upper, old(target), target)
        invariant forall k :: 0 <= k < i ==> page[k].key in target && Same(target[page[k].key], page[k])
      {
        assert page[i] in page;
        ApplyOneKeeps(rows, upper, immutable, before, target, page[i]);
        ghost var earlier := target;
        ok := ApplySimulated(page[i], immutable);
        if !ok {
          return false;
        }
        KeepsTransitive(rows, upper, old(target), earlier, target);
        forall k | 0 <= k < i
          ensures page[k].key in target && Same(target[page[k].key], page[k])
        {
          assert page[k] in page;
        }
        i := i + 1;
      }
      return true;
    }

    /**
     * The page loop. Whatever pages fail after applying some of their rows and however
     * often it restarts with overlap, it ends with the same migrated target; and it
     * reports a divergence exactly when an immutable table already held other facts.
     */
    method Sync(rows: seq<Row>, upper: Cursor, limit: nat, immutable: bool, events: seq<Event>) returns (out: Outcome)
      requires DistinctCursors(rows) && DistinctRowKeys(rows) && limit > 0 && cursor == None
      modifies this
      ensures out == Completed ==> Migrated(rows, upper, immutable, old(target), target)
      ensures out == FatalDivergence <==> immutable && Conflict(rows, upper, old(target))
    {
      hide InRange, Same, All, Frame, CompareCursor, Conflict, Covered, Migrated, DistinctCursors;
      ghost var before := target;
      SyncStarts(rows, upper, immutable, before);
      var e := 0;
      while true
        invariant 0 <= e <= |events|
        invariant Covered(rows, upper, immutable, before, cursor, target)
        decreases |events| - e, |All(rows, cursor, upper)|
      {
        var event := if e < |events| then events[e] else Page;
        e := if e < |events| then e + 1 else e;
        if event.Restart? {
          RestartKeeps(rows, upper, immutable, before, cursor, target, event.overlapSeconds);
          cursor := if cursor.None? then None else Some(OverlapStart(cursor.value, event.overlapSeconds));
          continue;
        }
        var page := CompositePage(rows, cursor, upper, limit);
        PageThenRest(rows, cursor, upper, limit);
        PageMembers(rows, cursor, upper, limit);
        if event.Page? && page == [] {
          break;
        }
        ghost var earlier := target;
        CoveredHasFrame(rows, upper, immutable, before, cursor, target);
        var n := if event.Page? then |page| else Min(event.applied, |page|);
        var ok := ApplyRows(page, n, immutable, rows, upper, before);
        if !ok {
          return FatalDivergence;
        }
        CoveredKept(rows, upper, immutable, before, cursor, earlier, target);
        if event.Page? {
          PageCovers(rows, upper, immutable, before, cursor, target, limit);
          cursor := LastCursor(page);
        }
      }
      SyncEnds(rows, upper, immutable, before, cursor, target);
      return Completed;
    }
  }

  /** In-range rows already migrated stay migrated. */
  ghost predicate Keeps(rows: seq<Row>, upper: Cursor, a: map<Key, Row>, b: map<Key, Row>) {
    forall r :: r in rows && InRange(r, None, upper) && r.key in a && Same(a[r.key], r) ==> r.key in b && Same(b[r.key], r)
  }

  lemma KeepsReflexive(rows: seq<Row>, upper: Cursor, a: map<Key, Row>)
    ensures Keeps(rows, upper, a, a)
  {
  }

  lemma KeepsTransitive(rows: seq<Row>, upper: Cursor, a: map<Key, Row>, b: map<Key, Row>, c: map<Key, Row>)
    requires Keeps(rows, upper, a, b) && Keeps(rows, upper, b, c)
    ensures Keeps(rows, upper, a, c)
  {
  }

  lemma ApplyOneKeeps(rows: seq<Row>, upper: Cursor, immutable: bool, before: map<Key, Row>, target: map<Key, Row>,
      r: Row)
    requires DistinctRowKeys(rows) && Frame(rows, upper, immutable, before, target) && r in rows
        && InRange(r, None, upper)
    ensures var a := ApplyOne(target, r, immutable);
      && (a.Diverged? ==> immutable && Conflict(rows, upper, before))
      && (a.Ok? ==> Frame(rows, upper, immutable, before, a.target) && Keeps(rows, upper, target, a.target))
      && (a.Ok? ==> r.key in a.target && Same(a.target[r.key], r))
  {
    hide InRange;
    var a := ApplyOne(target, r, immutable);
    forall q | q in rows && q.key == r.key
      ensures q == r
    {
    }
    if a.Diverged? {
      assert r.key in before && target[r.key] == before[r.key];
    }
  }

  lemma SyncStarts(rows: seq<Row>, upper: Cursor, immutable: bool, before: map<Key, Row>)
    ensures Covered(rows, upper, immutable, before, None, before)
  {
  }

  lemma CoveredHasFrame(rows: seq<Row>, upper: Cursor, immutable: bool, before: map<Key, Row>,
      cursor: Option<Cursor>, target: map<Key, Row>)
    requires Covered(rows, upper, immutable, before, cursor, target)
    ensures Frame(rows, upper, immutable, before, target)
  {
  }

  /** Going back costs nothing: what was covered up to the cursor is covered up to any earlier one. */
  lemma RestartKeeps(rows: seq<Row>, upper: Cursor, immutable: bool, before: map<Key, Row>, cursor: Option<Cursor>,
      target: map<Key, Row>, seconds: nat)
    requires Covered(rows, upper, immutable, before, cursor, target)
    ensures cursor.Some? ==> Covered(rows, upper, immutable, before, Some(OverlapStart(cursor.value, seconds)), target)
  {
    if cursor.Some? {
      var start := OverlapStart(cursor.value, seconds);
      hide InRange, Same, Frame, CompareCursor;
      assert CompareCursor(start, cursor.value) <= 0 by {
        OverlapIsEarlier(cursor.value, seconds);
      }
      forall r | r in rows && InRange(r, None, upper) && CompareCursor(CursorOf(r), start) <= 0
        ensures r.key in target && Same(target[r.key], r)
      {
        CompareIsTotalOrder(CursorOf(r), start, cursor.value);
      }
    }
  }

  lemma OverlapIsEarlier(c: Cursor, seconds: nat)
    ensures CompareCursor(OverlapStart(c, seconds), c) <= 0
  {
  }

  lemma PageMembers(rows: seq<Row>, cursor: Option<Cursor>, upper: Cursor, limit: nat)
    requires DistinctCursors(rows)
    ensures forall r :: r in CompositePage(rows, cursor, upper, limit) ==> r in rows && InRange(r, None, upper)
  {
    AllIsExact(rows, cursor, upper);
    var all, p := All(rows, cursor, upper), CompositePage(rows, cursor, upper, limit);
    forall r | r in p
      ensures r in rows && InRange(r, None, upper)
    {
      assert r in all;
    }
  }

  lemma CoveredKept(rows: seq<Row>, upper: Cursor, immutable: bool, before: map<Key, Row>, cursor: Option<Cursor>,
      a: map<Key, Row>, b: map<Key, Row>)
    requires Covered(rows, upper, immutable, before, cursor, a) && Keeps(rows, upper, a, b)
        && Frame(rows, upper, immutable, before, b)
    ensures Covered(rows, upper, immutable, before, cursor, b)
  {
    hide InRange, Same, Frame, CompareCursor;
  }

  /** With its whole page applied, the cursor may move to the page's last row. */
  lemma PageCovers(rows: seq<Row>, upper: Cursor, immutable: bool, before: map<Key, Row>, cursor: Option<Cursor>,
      target: map<Key, Row>, limit: nat)
    requires DistinctCursors(rows) && limit > 0 && Covered(rows, upper, immutable, before, cursor, target)
    requires var p := CompositePage(rows, cursor, upper, limit);
      p != [] && forall i :: 0 <= i < |p| ==> p[i].key in target && Same(target[p[i].key], p[i])
    ensures Covered(rows, upper, immutable, before, LastCursor(CompositePage(rows, cursor, upper, limit)), target)
  {
    hide All, Same, Frame;
    var p := CompositePage(rows, cursor, upper, limit);
    var last := CursorOf(p[|p| - 1]);
    PageThenRest(rows, cursor, upper, limit);
    AllIsExact(rows, cursor, upper);
    AllIsExact(rows, Some(last), upper);
    forall r | r in rows && InRange(r, None, upper) && CompareCursor(CursorOf(r), last) <= 0
      ensures r.key in target && Same(target[r.key], r)
    {
      if InRange(r, cursor, upper) {
        assert r in p + All(rows, Some(last), upper);
        assert r !in All(rows, Some(last), upper);
        var i :| 0 <= i < |p| && p[i] == r;
      }
    }
  }

  lemma SyncEnds(rows: seq<Row>, upper: Cursor, immutable: bool, before: map<Key, Row>, cursor: Option<Cursor>,
      target: map<Key, Row>)
    requires DistinctCursors(rows) && Covered(rows, upper, immutable, before, cursor, target)
        && All(rows, cursor, upper) == []
    ensures Migrated(rows, upper, immutable, before, target)
    ensures !(immutable && Conflict(rows, upper, before))
  {
    hide All;
    AllIsExact(rows, cursor, upper);
    forall r | r in rows && InRange(r, None, upper)
      ensures r.key in target && Same(target[r.key], r)
    {
      assert !InRange(r, cursor, upper);
    }
  }
}
