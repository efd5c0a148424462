/** `deleteGraphBatch` as it runs: the gates in order, then table after table, batch after batch. */
module GraphStore {
  import opened Common
  import opened Keyset
  import opened Graph

  const DEFAULT_BATCH: int := 500
  const MAX_BATCH: nat := 2000

  datatype Manifest = Manifest(key: ArchiveKey, anchorCount: nat, verified: bool, verificationCount: nat,
      passedEvidence: nat, reimportPassed: bool)

  /** `validIds`: every allowlist entry is a UUID and none is a wildcard. */
  datatype Request = Request(allowlist: set<Id>, validIds: bool, eligible: bool, dryRun: bool, batchSize: Option<int>)

  datatype Block =
    | NoManifest | ArchiveOnly | MissingAllowlist | InvalidAllowlist | AllowlistMismatch | NotVerified
    | EvidenceMissing | ReimportNotPassed | EligibilityChanged

  datatype Outcome = Blocked(reason: Block) | DryRun | Deleted(byTable: map<Name, nat>) | Threw

  /**
   * The first gate that stops the call, in the source's order; the first two allowlist gates and
   * the missing manifest throw.
   */
  function FirstBlock(sha: seq<Id> -> nat, f: Family, manifest: Option<Manifest>, q: Request): Option<Block> {
    if manifest.None? then Some(NoManifest)
    else if f.archiveOnly then Some(ArchiveOnly)
    else if q.allowlist == {} then Some(MissingAllowlist)
    else if !q.validIds then Some(InvalidAllowlist)
    else if KeyFor(sha, f, q.allowlist) != manifest.value.key || |q.allowlist| != manifest.value.anchorCount
        then Some(AllowlistMismatch)
    else if !manifest.value.verified || manifest.value.verificationCount < 2 then Some(NotVerified)
    else if manifest.value.passedEvidence < 2 then Some(EvidenceMissing)
    else if !manifest.value.reimportPassed then Some(ReimportNotPassed)
    else if !q.eligible then Some(EligibilityChanged)
    else None
  }

  /** The first `n` of the nine gates, in the order they are asked. */
  ghost predicate PassesGates(sha: seq<Id> -> nat, f: Family, m: Option<Manifest>, q: Request, n: nat) {
    && (n >= 1 ==> m.Some?)
    && (n >= 2 ==> !f.archiveOnly)
    && (n >= 3 ==> |q.allowlist| > 0)
    && (n >= 4 ==> q.validIds)
    && (n >= 5 ==>
          && m.value.key.family == f && m.value.key.digest == sha(InOrder(q.allowlist))
          && m.value.anchorCount == |q.allowlist|)
    && (n >= 6 ==> m.value.verified && m.value.verificationCount >= 2)
    && (n >= 7 ==> m.value.passedEvidence >= 2)
    && (n >= 8 ==> m.value.reimportPassed)
    && (n >= 9 ==> q.eligible)
  }

  /** The gate that a refusal names. */
  function GateOf(reason: Block): nat {
    match reason
    case NoManifest => 1
    case ArchiveOnly => 2
    case MissingAllowlist => 3
    case InvalidAllowlist => 4
    case AllowlistMismatch => 5
    case NotVerified => 6
    case EvidenceMissing => 7
    case ReimportNotPassed => 8
    case EligibilityChanged => 9
  }

  /** A call goes ahead when all nine gates pass, and a refusal names the first that fails. */
  lemma RefusedByFirstGate(sha: seq<Id> -> nat, f: Family, m: Option<Manifest>, q: Request)
    ensures var r := FirstBlock(sha, f, m, q);
      && (r.None? <==> PassesGates(sha, f, m, q, 9))
      && (r.Some? ==> PassesGates(sha, f, m, q, GateOf(r.value) - 1) && !PassesGates(sha, f, m, q, GateOf(r.value)))
  {
  }

  /**
   * A row is keyed to the anchors: an anchor by its own id, a child by the column that ties it to its
   * anchor, and any other table by its own id again.
   */
  ghost predicate Keyed(f: Family, t: Name, id: Id, row: Row, anchors: set<Id>) {
    if t != f.anchor && t in f.children && f.children[t] != IdColumn
    then f.children[t] in row && row[f.children[t]] in anchors
    else id in anchors
  }

  /**
   * Row by row: a row is gone exactly when its table is one of those to delete from and it is keyed
   * to the anchors; every other row is unchanged, none is new, and each count is the rows that went.
   */
  ghost predicate DeletedExactly(f: Family, before: Db, after: Db, anchors: set<Id>, byTable: map<Name, nat>) {
    && after.Keys == before.Keys
    && (forall t, id :: t in before && id in before[t] ==>
          (id !in after[t] <==> t in f.deleteOrder && Keyed(f, t, id, before[t][id], anchors)))
    && (forall t, id :: t in before && id in after[t] ==> id in before[t] && after[t][id] == before[t][id])
    && (forall t :: t in byTable <==> t in f.deleteOrder)
    && (forall t :: t in byTable ==> byTable[t] == if t in before then |before[t].Keys - after[t].Keys| else 0)
  }

  lemma {:induction false} DrainedKeys(f: Family, db: Db, anchors: set<Id>, n: nat)
    requires n <= |f.deleteOrder|
    ensures Drained(f, db, anchors, n).Keys == db.Keys
  {
    if n > 0 {
      DrainedKeys(f, db, anchors, n - 1);
    }
  }

  lemma DrainedTable(f: Family, db: Db, anchors: set<Id>, t: Name)
    ensures var end := Drained(f, db, anchors, |f.deleteOrder|);
      && end.Keys == db.Keys
      && (t in db ==> end[t] == if t in f.deleteOrder then db[t] - Scoped(f, db, t, anchors) else db[t])
    ensures Covers(f.deleteOrder, |f.deleteOrder|, t) <==> t in f.deleteOrder
    ensures if t in db then db[t].Keys - (db[t] - Scoped(f, db, t, anchors)).Keys == Scoped(f, db, t, anchors)
      else Scoped(f, db, t, anchors) == {}
  {
    DrainedKeys(f, db, anchors, |f.deleteOrder|);
    DrainedRows(f, db, anchors, |f.deleteOrder|, t);
  }

  lemma ScopedIsKeyed(f: Family, db: Db, t: Name, anchors: set<Id>, id: Id)
    ensures id in Scoped(f, db, t, anchors) <==> t in db && id in db[t] && Keyed(f, t, id, db[t][id], anchors)
  {
  }

  lemma DrainedIsExact(f: Family, db: Db, anchors: set<Id>, byTable: map<Name, nat>)
    requires CountsTables(byTable, f, db, anchors, |f.deleteOrder|)
    ensures DeletedExactly(f, db, Drained(f, db, anchors, |f.deleteOrder|), anchors, byTable)
  {
    hide Drained, Covers, Scoped, Keyed;
    var end := Drained(f, db, anchors, |f.deleteOrder|);
    DrainedTable(f, db, anchors, f.anchor);
    forall t
      ensures Covers(f.deleteOrder, |f.deleteOrder|, t) <==> t in f.deleteOrder
      ensures t in db ==> end[t] == if t in f.deleteOrder then db[t] - Scoped(f, db, t, anchors) else db[t]
    {
      DrainedTable(f, db, anchors, t);
    }
    forall t, id | t in db && id in db[t]
      ensures id !in end[t] <==> t in f.deleteOrder && Keyed(f, t, id, db[t][id], anchors)
    {
      ScopedIsKeyed(f, db, t, anchors, id);
    }
    assert forall t :: t in byTable <==> t in f.deleteOrder;
    forall t | t in byTable
      ensures byTable[t] == if t in db then |db[t].Keys - end[t].Keys| else 0
    {
      DrainedTable(f, db, anchors, t);
    }
  }

  class Database {
    var tables: Db
    ghost var commits: seq<Db>

    constructor (db: Db)
      ensures tables == db && commits == []
    {
      tables, commits := db, [];
    }

    /**
     * One batch transaction: select a page of the scope above the cursor and delete it by
     * id. It is rolled back when the connection fails or when some row still points at the
     * page; the page is returned when it committed.
     */
    method DeleteScopedBatch(f: Family, t: Name, anchors: set<Id>, size: nat, cursor: Option<Id>, fails: bool)
      returns (page: Option<seq<Id>>)
      requires Integral(tables)
      modifies this
      ensures Integral(tables)
      ensures var p := Page(Scoped(f, old(tables), t, anchors), cursor, size);
        if fails || Referenced(old(tables), t, Elements(p)) then page == None && tables == old(tables)
            && commits == old(commits)
        else page == Some(p) && tables == Without(old(tables), t, Elements(p)) && commits == old(commits) + [tables]
    {
      var p := Page(Scoped(f, tables, t, anchors), cursor, size);
      if fails || Referenced(tables, t, Elements(p)) {
        return None;
      }
      DeleteKeepsIntegrity(tables, t, Elements(p));
      tables := Without(tables, t, Elements(p));
      commits := commits + [tables];
      return Some(p);
    }

    /** The inner loop: one table drained from the front, until a short page. */
    method DrainTable(f: Family, n: nat, anchors: set<Id>, size: nat, fails: nat -> bool, ghost start: Db)
      returns (deleted: nat, done: bool)
      requires n < |f.deleteOrder| && Distinct(f.deleteOrder) && size > 0
      requires tables == Drained(f, start, anchors, n) && Integral(tables)
      modifies this
      ensures Integral(tables) && AllIntegral(old(commits), commits)
      ensures done ==> tables == Drained(f, start, anchors, n + 1) && deleted == |Scoped(f, start, f.deleteOrder[n], anchors)|
      ensures Closed(f, start, anchors) && (forall k :: !fails(k)) ==> done
    {
      hide Between, Integral, AllIntegral, Referenced, Drained, Scoped, Closed, Without, Above, Distinct, Elements;
      var t := f.deleteOrder[n];
      ghost var scope := Scoped(f, start, t, anchors);
      ghost var left := scope;
      var cursor: Option<Id> := None;
      var k := 0;
      deleted := 0;
      DrainStarts(f, start, anchors, n);
      AllIntegralAppend(commits, []);
      while true
        invariant Between(f, start, anchors, n, left, tables)
        invariant left == Above(scope, cursor) && deleted + |left| == |scope|
        invariant Integral(tables) && AllIntegral(old(commits), commits)
        decreases |left|
      {
        BatchStep(f, start, anchors, n, cursor, left, tables, size);
        ghost var before := commits;
        var page := DeleteScopedBatch(f, t, anchors, size, cursor, fails(k));
        if page.None? {
          return deleted, false;
        }
        AllIntegralAppend(before, [tables]);
        AllIntegralTransitive(old(commits), before, commits);
        k := k + 1;
        left := left - Elements(page.value);
        deleted := deleted + |page.value|;
        if |page.value| < size {
          return deleted, true;
        }
        cursor := Some(Last(page.value));
      }
    }

    /** The outer loop: table after table in the delete order; stops at the first failed batch. */
    method DrainTables(f: Family, anchors: set<Id>, size: nat, fails: (nat, nat) -> bool)
        returns (byTable: map<Name, nat>, done: bool)
      requires Integral(tables) && Distinct(f.deleteOrder) && size > 0
      modifies this
      ensures Integral(tables) && AllIntegral(old(commits), commits)
      ensures done ==> tables == Drained(f, old(tables), anchors, |f.deleteOrder|)
      ensures done ==> CountsTables(byTable, f, old(tables), anchors, |f.deleteOrder|)
      ensures Closed(f, old(tables), anchors) && (forall n, k :: !fails(n, k)) ==> done
    {
      hide Scoped, Integral, AllIntegral, Closed, Distinct, Without;
      AllIntegralAppend(commits, []);
      byTable := map[];
      var n := 0;
      while n < |f.deleteOrder|
        invariant 0 <= n <= |f.deleteOrder|
        invariant tables == Drained(f, old(tables), anchors, n)
        invariant Integral(tables) && AllIntegral(old(commits), commits)
        invariant CountsTables(byTable, f, old(tables), anchors, n)
      {
        hide Drained;
        ghost var before := commits;
        var deleted: nat;
        deleted, done := DrainTable(f, n, anchors, size, (k: nat) => fails(n, k), old(tables));
        AllIntegralTransitive(old(commits), before, commits);
        if !done {
          return byTable, false;
        }
        CountsGrow(byTable, f, old(tables), anchors, n, deleted);
        byTable := byTable[f.deleteOrder[n] := deleted];
        n := n + 1;
      }
      return byTable, true;
    }

    /**
     * The whole call. Blocked and dry runs change nothing. Every state it commits, however
     * it ends, is referentially intact. If it finishes, exactly the rows keyed to the
     * allowlist are gone, table by table as counted; and without faults it finishes if
     * nothing outside holds the scope, and (children deleted first) only if so.
     */
    method DeleteGraphBatch(sha: seq<Id> -> nat, f: Family, m: Option<Manifest>, q: Request,
        fails: (nat, nat) -> bool) returns (out: Outcome)
      requires Integral(tables) && Distinct(f.deleteOrder)
      modifies this
      ensures out.Blocked? <==> FirstBlock(sha, f, m, q).Some?
      ensures out.Blocked? ==> FirstBlock(sha, f, m, q) == Some(out.reason)
      ensures out.Blocked? <==> !PassesGates(sha, f, m, q, 9)
      ensures out.Blocked? ==> PassesGates(sha, f, m, q, GateOf(out.reason) - 1) && !PassesGates(sha, f, m, q, GateOf(out.reason))
      ensures out == DryRun <==> !out.Blocked? && q.dryRun
      ensures out.Blocked? || out.DryRun? ==> tables == old(tables) && commits == old(commits)
      ensures Integral(tables) && AllIntegral(old(commits), commits)
      ensures out.Deleted? ==> tables == Drained(f, old(tables), q.allowlist, |f.deleteOrder|)
      ensures out.Deleted? ==> CountsTables(out.byTable, f, old(tables), q.allowlist, |f.deleteOrder|)
      ensures out.Deleted? ==> DeletedExactly(f, old(tables), tables, q.allowlist, out.byTable)
      ensures out.Threw? || out.Deleted? ==>
        && (Closed(f, old(tables), q.allowlist) && (forall n, k :: !fails(n, k)) ==> out.Deleted?)
        && (out.Deleted? ==> OutsideFree(f, old(tables), q.allowlist))
        && (SafeOrder(f) && out.Deleted? ==> Closed(f, old(tables), q.allowlist))
    {
      RefusedByFirstGate(sha, f, m, q);
      hide PassesGates;
      var block := FirstBlock(sha, f, m, q);
      if block.Some? {
        return Blocked(block.value);
      }
      if q.dryRun {
        return DryRun;
      }
      hide Drained, Integral, AllIntegral, Closed, OutsideFree, SafeOrder, FirstBlock, CountsTables, DeletedExactly;
      var byTable, done := DrainTables(f, q.allowlist, Clamp(q.batchSize, DEFAULT_BATCH, MAX_BATCH), fails);
      if !done {
        return Threw;
      }
      DrainedIsExact(f, old(tables), q.allowlist, byTable);
      CompletionNeedsOutsideFree(f, old(tables), q.allowlist);
      if SafeOrder(f) {
        CompletionNeedsClosure(f, old(tables), q.allowlist);
      }
      return Deleted(byTable);
    }
  }

  /** The count reported for each of the first `n` tables is the size of its scope before the call. */
  ghost predicate CountsTables(byTable: map<Name, nat>, f: Family, start: Db, anchors: set<Id>, n: nat) {
    && (forall t :: t in byTable <==> Covers(f.deleteOrder, n, t))
    && (forall t :: t in byTable ==> byTable[t] == |Scoped(f, start, t, anchors)|)
  }

  lemma CountsGrow(byTable: map<Name, nat>, f: Family, start: Db, anchors: set<Id>, n: nat, deleted: nat)
    requires n < |f.deleteOrder| && CountsTables(byTable, f, start, anchors, n)
    requires deleted == |Scoped(f, start, f.deleteOrder[n], anchors)|
    ensures CountsTables(byTable[f.deleteOrder[n] := deleted], f, start, anchors, n + 1)
  {
    hide Scoped, Covers;
    forall t
      ensures Covers(f.deleteOrder, n + 1, t) <==> t == f.deleteOrder[n] || Covers(f.deleteOrder, n, t)
    {
      CoversOneMore(f.deleteOrder, n, t);
    }
  }

  /** `after` continues `before` with committed states that are all referentially intact. */
  ghost predicate AllIntegral(before: seq<Db>, after: seq<Db>) {
    && |before| <= |after| && before == after[..|before|]
    && forall i :: |before| <= i < |after| ==> Integral(after[i])
  }

  lemma AllIntegralAppend(before: seq<Db>, more: seq<Db>)
    requires forall db :: db in more ==> Integral(db)
    ensures AllIntegral(before, before + more) && before + [] == before
  {
  }

  lemma AllIntegralTransitive(a: seq<Db>, b: seq<Db>, c: seq<Db>)
    requires AllIntegral(a, b) && AllIntegral(b, c)
    ensures AllIntegral(a, c)
  {
    assert forall i :: |a| <= i < |b| ==> c[i] == b[i];
  }

  lemma DrainStarts(f: Family, start: Db, anchors: set<Id>, n: nat)
    requires n < |f.deleteOrder|
    ensures Above(Scoped(f, start, f.deleteOrder[n], anchors), None) == Scoped(f, start, f.deleteOrder[n], anchors)
    ensures Between(f, start, anchors, n, Scoped(f, start, f.deleteOrder[n], anchors), Drained(f, start, anchors, n))
  {
    var db := Drained(f, start, anchors, n);
    var scope := Scoped(f, start, f.deleteOrder[n], anchors);
    assert scope - scope == {};
    assert Rows(db, f.deleteOrder[n]) - {} == Rows(db, f.deleteOrder[n]);
    assert Without(db, f.deleteOrder[n], {}) == db;
  }

  /** What the next query of this table selects is what is left of the scope. */
  lemma ScopeLeft(f: Family, start: Db, anchors: set<Id>, n: nat, left: set<Id>, db: Db)
    requires n < |f.deleteOrder| && Distinct(f.deleteOrder) && Between(f, start, anchors, n, left, db)
    ensures Scoped(f, db, f.deleteOrder[n], anchors) == left
  {
    var t := f.deleteOrder[n];
    DrainedRows(f, start, anchors, n, t);
    assert !Covers(f.deleteOrder, n, t);
    var scope := Scoped(f, start, t, anchors);
    assert Rows(db, t) == Rows(start, t) - (scope - left);
  }

  /** A page takes the front of what is left; a short page takes all of it. */
  lemma PageOfScope(scope: set<Id>, cursor: Option<Id>, left: set<Id>, size: nat)
    requires left == Above(scope, cursor) && size > 0
    ensures var p := Page(left, cursor, size);
      && Elements(p) <= left && |left - Elements(p)| + |p| == |left|
      && (|p| < size ==> left - Elements(p) == {})
      && (p != [] ==> left - Elements(p) == Above(scope, Some(Last(p))))
  {
    var p := Page(left, cursor, size);
    assert Above(left, cursor) == left;
    PageIsPrefix(left, cursor, size);
    PageSize(left, cursor, size);
    AscendingCardinality(p);
    assert |left| == |left - Elements(p)| + |Elements(p)|;
    if p != [] {
      assert left - Elements(p) == Above(left, Some(Last(p)));
      assert Last(p) in left;
      assert Above(left, Some(Last(p))) == Above(scope, Some(Last(p)));
    }
  }

  /** One batch of the inner loop: what it selects, that nothing points at it, and where it leads. */
  lemma BatchStep(f: Family, start: Db, anchors: set<Id>, n: nat, cursor: Option<Id>, left: set<Id>, db: Db, size: nat)
    requires n < |f.deleteOrder| && Distinct(f.deleteOrder) && size > 0
    requires Between(f, start, anchors, n, left, db)
        && left == Above(Scoped(f, start, f.deleteOrder[n], anchors), cursor)
    ensures var t := f.deleteOrder[n]; var p := Page(left, cursor, size); var ids := Elements(p);
      && Scoped(f, db, t, anchors) == left
      && (Closed(f, start, anchors) ==> !Referenced(db, t, ids))
      && Between(f, start, anchors, n, left - ids, Without(db, t, ids))
      && |left - ids| + |p| == |left|
      && (p != [] ==> left - ids == Above(Scoped(f, start, t, anchors), Some(Last(p))))
      && (|p| < size ==> left - ids == {} && Without(db, t, ids) == Drained(f, start, anchors, n + 1))
  {
    var t := f.deleteOrder[n];
    var scope := Scoped(f, start, t, anchors);
    var ids := Elements(Page(left, cursor, size));
    PageOfScope(scope, cursor, left, size);
    ScopeLeft(f, start, anchors, n, left, db);
    if Closed(f, start, anchors) {
      NothingPointsHere(f, start, anchors, n, left, db, ids);
    }
    BatchStays(f, start, anchors, n, left, db, ids);
    DrainStarts(f, start, anchors, n);
    ScopeLeft(f, start, anchors, n, scope, Drained(f, start, anchors, n));
  }
}
