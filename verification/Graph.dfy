/**
 * Graph retention: a family of tables (an anchor table and its children) is deleted in
 * bounded committed batches, one table after the other in the family's delete order,
 * under the foreign keys the migrations declare.
 */
module Graph {
  import opened Common
  import opened Keyset

  datatype Name =
    | NormalizedBattles | BattleParticipants | BattleTeams | BattleObservations
    | WorkflowRuns | WorkflowSteps | DataFetchRuns | ObservedPlayers | CrawlBatches
    | DetectedChanges | DataIncidents | NormalizedSnapshots | PlayerNameHistory
    | RawApiSnapshots | CanonicalBrawlers | NormalizedPlayers | NormalizedClubs | Patches
    | AggregationRuns | RankingRuns

  datatype Column =
    | IdColumn | BattleId | BattleTeamId | WorkflowRunId | DataFetchRunId | RelatedFetchRunId
    | FirstObservedFetchRunId | LastFetchRunId | RetryOfFetchRunId | TriggeringFetchRunId

  /** A row's reference columns; a NULL reference is an absent key. */
  type Row = map<Column, Id>
  type Table = map<Id, Row>
  type Db = map<Name, Table>

  /** `child.column` references `parent.id`, with MySQL's default of refusing the delete of a referenced row. */
  datatype Edge = Edge(child: Name, column: Column, parent: Name)

  /** The foreign keys of the migrations into the tables that some family deletes from. */
  predicate ForeignKey(e: Edge) {
    match e.child
    case WorkflowSteps | CrawlBatches | AggregationRuns | RankingRuns => e.column == WorkflowRunId
        && e.parent == WorkflowRuns
    case DataFetchRuns =>
      || (e.column == WorkflowRunId && e.parent == WorkflowRuns)
      || (e.column == RetryOfFetchRunId && e.parent == DataFetchRuns)
    case RawApiSnapshots | NormalizedSnapshots | DetectedChanges => e.column == DataFetchRunId
        && e.parent == DataFetchRuns
    case CanonicalBrawlers | NormalizedClubs | NormalizedPlayers => e.column == LastFetchRunId
        && e.parent == DataFetchRuns
    case DataIncidents => e.column == RelatedFetchRunId && e.parent == DataFetchRuns
    case Patches => e.column == TriggeringFetchRunId && e.parent == DataFetchRuns
    case NormalizedBattles => e.column == FirstObservedFetchRunId && e.parent == DataFetchRuns
    case BattleTeams => e.column == BattleId && e.parent == NormalizedBattles
    case BattleObservations =>
      || (e.column == BattleId && e.parent == NormalizedBattles)
      || (e.column == DataFetchRunId && e.parent == DataFetchRuns)
    case BattleParticipants =>
      || (e.column == BattleId && e.parent == NormalizedBattles)
      || (e.column == BattleTeamId && e.parent == BattleTeams)
    case WorkflowRuns | ObservedPlayers | PlayerNameHistory => false
  }

  /** `childTables` lists the keys of `children` in the family's own order. */
  datatype Family = Family(
    anchor: Name, childTables: seq<Name>, children: map<Name, Column>, deleteOrder: seq<Name>, archiveOnly: bool)

  const BATTLE_GRAPH := Family(
    NormalizedBattles, [BattleParticipants, BattleTeams, BattleObservations],
    map[BattleParticipants := BattleId, BattleTeams := BattleId, BattleObservations := BattleId],
    [BattleParticipants, BattleTeams, BattleObservations, NormalizedBattles], false)
  const WORKFLOW_AUDIT := Family(
    WorkflowRuns, [WorkflowSteps], map[WorkflowSteps := WorkflowRunId], [WorkflowSteps, WorkflowRuns], false)

  /** The families of one table: battle_observations, fetch_audit, observed_players and the rest. */
  function SingleTable(t: Name): Family {
    Family(t, [], map[], [t], false)
  }

  /** `computeArchiveKey`: the family and a digest of the sorted anchor ids, as they were given. */
  datatype ArchiveKey = ArchiveKey(family: Family, digest: nat)

  function KeyFor(sha: seq<Id> -> nat, f: Family, given: set<Id>): ArchiveKey {
    ArchiveKey(f, sha(InOrder(given)))
  }

  /** A matching key proves the family and that the allowlist is exactly the archived anchor set. */
  lemma KeyIdentifiesAnchors(sha: seq<Id> -> nat, f: Family, g: Family, a: set<Id>, b: set<Id>)
    requires forall x, y :: sha(x) == sha(y) ==> x == y
    ensures KeyFor(sha, f, a) == KeyFor(sha, g, b) <==> f == g && a == b
  {
    InOrderIsAll(a);
    InOrderIsAll(b);
  }

  // --------------------------------------------------------------- the scope

  function Rows(db: Db, t: Name): Table {
    if t in db then db[t] else map[]
  }

  function Without(db: Db, t: Name, ids: set<Id>): Db {
    if t in db then db[t := db[t] - ids] else db
  }

  /** The column that ties a table to the anchors; a table that is not a child falls back to its id. */
  function KeyColumn(f: Family, t: Name): Column {
    if t == f.anchor then IdColumn else if t in f.children then f.children[t] else IdColumn
  }

  predicate InScope(f: Family, t: Name, id: Id, row: Row, anchors: set<Id>) {
    var c := KeyColumn(f, t);
    if c == IdColumn then id in anchors else c in row && row[c] in anchors
  }

  /** Rows of one table keyed to an anchor: what `WHERE fk IN (...)` selects. */
  function Scoped(f: Family, db: Db, t: Name, anchors: set<Id>): set<Id> {
    set id | id in Rows(db, t) && InScope(f, t, id, Rows(db, t)[id], anchors)
  }

  /** The first `n` tables of the delete order drained, nothing else touched. */
  function Drained(f: Family, db: Db, anchors: set<Id>, n: nat): Db
    requires n <= |f.deleteOrder|
  {
    if n == 0 then db
    else
      var before := Drained(f, db, anchors, n - 1);
      var t := f.deleteOrder[n - 1];
      Without(before, t, Scoped(f, before, t, anchors))
  }

  // ----------------------------------------------------- referential integrity

  predicate PointsInto(row: Row, c: Column, ids: set<Id>) {
    c in row && row[c] in ids
  }

  ghost predicate Integral(db: Db) {
    forall e, id :: ForeignKey(e) && id in Rows(db, e.child) && e.column in Rows(db, e.child)[id] ==>
      Rows(db, e.child)[id][e.column] in Rows(db, e.parent)
  }

  /** The check of the database before a DELETE: does any row still point at these? */
  predicate Referenced(db: Db, t: Name, ids: set<Id>) {
    exists child: Name, column: Column ::
      ForeignKey(Edge(child, column, t)) && exists id :: id in Rows(db, child) && PointsInto(Rows(db, child)[id], column, ids)
  }

  lemma DeleteKeepsIntegrity(db: Db, t: Name, ids: set<Id>)
    requires Integral(db) && !Referenced(db, t, ids)
    ensures Integral(Without(db, t, ids))
  {
    var db' := Without(db, t, ids);
    forall e, id | ForeignKey(e) && id in Rows(db', e.child) && e.column in Rows(db', e.child)[id]
      ensures Rows(db', e.child)[id][e.column] in Rows(db', e.parent)
    {
      assert id in Rows(db, e.child) && Rows(db', e.child)[id] == Rows(db, e.child)[id];
      if e.parent == t {
        assert ForeignKey(Edge(e.child, e.column, t)) && !PointsInto(Rows(db, e.child)[id], e.column, ids);
      }
    }
  }

  // ------------------------------------------------------------- delete order

  predicate Covers(order: seq<Name>, n: nat, t: Name) {
    exists i :: 0 <= i < n && i < |order| && order[i] == t
  }

  lemma CoversOneMore(order: seq<Name>, n: nat, t: Name)
    requires n < |order|
    ensures Covers(order, n + 1, t) <==> t == order[n] || Covers(order, n, t)
  {
  }

  predicate Distinct(order: seq<Name>) {
    forall i, j :: 0 <= i < j < |order| ==> order[i] != order[j]
  }

  /** Children before parents, for every foreign key inside the family. */
  ghost predicate SafeOrder(f: Family) {
    && Distinct(f.deleteOrder)
    && forall e, j :: ForeignKey(e) && 0 <= j < |f.deleteOrder| && f.deleteOrder[j] == e.parent && e.child in f.deleteOrder ==>
         Covers(f.deleteOrder, j, e.child)
  }

  /**
   * Nothing holds the scope from outside: whatever row points at a scoped row of the j-th
   * table is itself scoped, in a table deleted earlier.
   */
  ghost predicate Closed(f: Family, db: Db, anchors: set<Id>) {
    forall e, j, id :: ForeignKey(e) && 0 <= j < |f.deleteOrder| && f.deleteOrder[j] == e.parent && id in Rows(db, e.child) && PointsInto(Rows(db, e.child)[id], e.column, Scoped(f, db, e.parent, anchors)) ==>
      Covers(f.deleteOrder, j, e.child) && id in Scoped(f, db, e.child, anchors)
  }

  lemma WithoutRows(db: Db, t: Name, ids: set<Id>, u: Name)
    ensures Rows(Without(db, t, ids), u) == if u == t then Rows(db, t) - ids else Rows(db, u)
  {
  }

  /** What stays of a table once the first `n` tables are drained. */
  lemma {:induction false} DrainedRows(f: Family, db: Db, anchors: set<Id>, n: nat, t: Name)
    requires n <= |f.deleteOrder|
    ensures Rows(Drained(f, db, anchors, n), t) ==
            if Covers(f.deleteOrder, n, t) then Rows(db, t) - Scoped(f, db, t, anchors) else Rows(db, t)
  {
    if n > 0 {
      var before := Drained(f, db, anchors, n - 1);
      var last := f.deleteOrder[n - 1];
      DrainedRows(f, db, anchors, n - 1, t);
      WithoutRows(before, last, Scoped(f, before, last, anchors), t);
      CoversOneMore(f.deleteOrder, n - 1, t);
      hide Without, Rows, KeyColumn, Covers;
      if t == last {
        TwiceDrained(f, db, before, t, anchors);
      }
    }
  }

  /** Draining a drained table takes nothing more. */
  lemma TwiceDrained(f: Family, db: Db, before: Db, t: Name, anchors: set<Id>)
    requires Rows(before, t) == Rows(db, t) || Rows(before, t) == Rows(db, t) - Scoped(f, db, t, anchors)
    ensures Rows(before, t) - Scoped(f, before, t, anchors) == Rows(db, t) - Scoped(f, db, t, anchors)
  {
    hide InScope;
  }

  /** A finished run leaves no row keyed to an allowlisted anchor, and every other row where it was. */
  lemma FinishedRunIsExact(f: Family, db: Db, anchors: set<Id>, t: Name)
    ensures var end := Drained(f, db, anchors, |f.deleteOrder|);
      && (t in f.deleteOrder ==> Scoped(f, end, t, anchors) == {})
      && (t !in f.deleteOrder ==> Rows(end, t) == Rows(db, t))
      && forall id :: id in Rows(db, t) && !InScope(f, t, id, Rows(db, t)[id], anchors) ==>
           id in Rows(end, t) && Rows(end, t)[id] == Rows(db, t)[id]
  {
    DrainedRows(f, db, anchors, |f.deleteOrder|, t);
    assert Covers(f.deleteOrder, |f.deleteOrder|, t) <==> t in f.deleteOrder;
  }

  /** The state of the call between two batches: earlier tables drained, this one down to `left`. */
  ghost predicate Between(f: Family, start: Db, anchors: set<Id>, n: nat, left: set<Id>, db: Db)
    requires n < |f.deleteOrder|
  {
    var t := f.deleteOrder[n];
    && left <= Scoped(f, start, t, anchors)
    && db == Without(Drained(f, start, anchors, n), t, Scoped(f, start, t, anchors) - left)
  }

  /** The delete order at work: with the scope closed, no batch of any table is ever refused. */
  lemma NothingPointsHere(f: Family, start: Db, anchors: set<Id>, n: nat, left: set<Id>, db: Db, ids: set<Id>)
    requires n < |f.deleteOrder| && Closed(f, start, anchors)
    requires Between(f, start, anchors, n, left, db) && ids <= left
    ensures !Referenced(db, f.deleteOrder[n], ids)
  {
    var t := f.deleteOrder[n];
    forall child, column, id | ForeignKey(Edge(child, column, t)) && id in Rows(db, child)
      ensures !PointsInto(Rows(db, child)[id], column, ids)
    {
      var e := Edge(child, column, t);
      DrainedRows(f, start, anchors, n, e.child);
      assert id in Rows(start, e.child) && Rows(db, e.child)[id] == Rows(start, e.child)[id];
      assert !(Covers(f.deleteOrder, n, e.child) && id in Scoped(f, start, e.child, anchors));
      assert !PointsInto(Rows(start, e.child)[id], e.column, Scoped(f, start, t, anchors));
    }
  }

  /** Deleting part of what is left moves the state on. */
  lemma BatchStays(f: Family, start: Db, anchors: set<Id>, n: nat, left: set<Id>, db: Db, ids: set<Id>)
    requires n < |f.deleteOrder| && Between(f, start, anchors, n, left, db) && ids <= left
    ensures Between(f, start, anchors, n, left - ids, Without(db, f.deleteOrder[n], ids))
    ensures left - ids == {} ==>
      Without(db, f.deleteOrder[n], ids) == Without(Drained(f, start, anchors, n), f.deleteOrder[n],
          Scoped(f, start, f.deleteOrder[n], anchors))
  {
    var t := f.deleteOrder[n];
    var base := Drained(f, start, anchors, n);
    var scope := Scoped(f, start, t, anchors);
    assert scope - (left - ids) == (scope - left) + ids;
    assert (Rows(base, t) - (scope - left)) - ids == Rows(base, t) - ((scope - left) + ids);
    assert Without(db, t, ids) == Without(base, t, scope - (left - ids));
    if left - ids == {} {
      assert scope - (left - ids) == scope;
    }
  }

  /** A call that drained every table cannot have had an outside reference: the rows it points at would be gone. */
  lemma CompletionNeedsClosure(f: Family, db: Db, anchors: set<Id>)
    requires SafeOrder(f) && Integral(db)
    requires Integral(Drained(f, db, anchors, |f.deleteOrder|))
    ensures Closed(f, db, anchors)
  {
    var order := f.deleteOrder;
    var end := Drained(f, db, anchors, |order|);
    forall e, j, id | ForeignKey(e) && 0 <= j < |order| && order[j] == e.parent && id in Rows(db, e.child)
                      && PointsInto(Rows(db, e.child)[id], e.column, Scoped(f, db, e.parent, anchors))
      ensures Covers(order, j, e.child) && id in Scoped(f, db, e.child, anchors)
    {
      DrainedRows(f, db, anchors, |order|, e.parent);
      DrainedRows(f, db, anchors, |order|, e.child);
      assert Covers(order, |order|, e.parent);
      assert Rows(db, e.child)[id][e.column] !in Rows(end, e.parent);
      assert id !in Rows(end, e.child);
    }
  }

  /** No row of a table outside the family points into the scope. */
  ghost predicate OutsideFree(f: Family, db: Db, anchors: set<Id>) {
    forall e, id :: ForeignKey(e) && e.parent in f.deleteOrder && e.child !in f.deleteOrder && id in Rows(db, e.child) ==>
      !PointsInto(Rows(db, e.child)[id], e.column, Scoped(f, db, e.parent, anchors))
  }

  /** In whatever order: a call that drained every table had no reference from outside the family. */
  lemma CompletionNeedsOutsideFree(f: Family, db: Db, anchors: set<Id>)
    requires Integral(Drained(f, db, anchors, |f.deleteOrder|))
    ensures OutsideFree(f, db, anchors)
  {
    var order := f.deleteOrder;
    var end := Drained(f, db, anchors, |order|);
    forall e, id | ForeignKey(e) && e.parent in order && e.child !in order && id in Rows(db, e.child)
      ensures !PointsInto(Rows(db, e.child)[id], e.column, Scoped(f, db, e.parent, anchors))
    {
      DrainedRows(f, db, anchors, |order|, e.parent);
      DrainedRows(f, db, anchors, |order|, e.child);
      assert Covers(order, |order|, e.parent) && !Covers(order, |order|, e.child);
      assert id in Rows(end, e.child) && Rows(end, e.child)[id] == Rows(db, e.child)[id];
    }
  }

  // -------------------------------------------------- the families' foreign keys

  /** Every family but fetch_audit deletes children first; fetch_audit's table references itself. */
  lemma FamiliesDeleteChildrenFirst(t: Name)
    ensures SafeOrder(BATTLE_GRAPH) && SafeOrder(WORKFLOW_AUDIT)
    ensures SafeOrder(SingleTable(t)) <==> t != DataFetchRuns
  {
    BattleOrder();
    WorkflowOrder();
    var f := SingleTable(t);
    if t == DataFetchRuns {
      var e := Edge(DataFetchRuns, RetryOfFetchRunId, DataFetchRuns);
      assert ForeignKey(e) && f.deleteOrder[0] == e.parent && e.child in f.deleteOrder
          && !Covers(f.deleteOrder, 0, e.child);
      assert !SafeOrder(f);
    } else {
      forall e | ForeignKey(e)
        ensures !(e.parent == t && e.child in f.deleteOrder)
      {
        assert f.deleteOrder == [t];
      }
    }
  }

  lemma BattleOrder()
    ensures SafeOrder(BATTLE_GRAPH)
  {
    var order := BATTLE_GRAPH.deleteOrder;
    assert order[0] == BattleParticipants && order[1] == BattleTeams && order[2] == BattleObservations;
    forall e, j | ForeignKey(e) && 0 <= j < |order| && order[j] == e.parent && e.child in order
      ensures Covers(order, j, e.child)
    {
      assert j == 1 || j == 3;
    }
  }

  lemma WorkflowOrder()
    ensures SafeOrder(WORKFLOW_AUDIT)
  {
    var order := WORKFLOW_AUDIT.deleteOrder;
    assert order[0] == WorkflowSteps;
    forall e, j | ForeignKey(e) && 0 <= j < |order| && order[j] == e.parent && e.child in order
      ensures Covers(order, j, e.child)
    {
      assert j == 1 && e.child == order[0];
    }
  }

  /** A participant with a team is in a team of its own battle: ingestion writes both from one battle. */
  ghost predicate TeamsMatch(db: Db) {
    forall id :: id in Rows(db, BattleParticipants) ==>
      var row := Rows(db, BattleParticipants)[id];
      && BattleId in row
      && (BattleTeamId in row && row[BattleTeamId] in Rows(db, BattleTeams) ==>
            var team := Rows(db, BattleTeams)[row[BattleTeamId]];
            BattleId in team && team[BattleId] == row[BattleId])
  }

  /** The foreign keys into the battle graph's own tables. */
  lemma BattleEdges(e: Edge, j: nat)
    requires ForeignKey(e) && j < 4 && BATTLE_GRAPH.deleteOrder[j] == e.parent
    ensures || (e == Edge(BattleParticipants, BattleTeamId, BattleTeams) && j == 1)
            || (e.column == BattleId && e.parent == NormalizedBattles && j == 3
                && e.child in {BattleParticipants, BattleTeams, BattleObservations})
    ensures Covers(BATTLE_GRAPH.deleteOrder, j, e.child)
  {
    var order := BATTLE_GRAPH.deleteOrder;
    assert order[0] == BattleParticipants && order[1] == BattleTeams && order[2] == BattleObservations
        && order[3] == NormalizedBattles;
  }

  lemma BattleScopes(db: Db, anchors: set<Id>, t: Name, id: Id)
    requires t in {BattleParticipants, BattleTeams, BattleObservations} && id in Rows(db, t)
    ensures id in Scoped(BATTLE_GRAPH, db, t, anchors) <==> PointsInto(Rows(db, t)[id], BattleId, anchors)
  {
  }

  lemma AnchorScope(f: Family, db: Db, anchors: set<Id>)
    ensures Scoped(f, db, f.anchor, anchors) <= anchors
  {
  }

  lemma TeamTakesItsParticipants(db: Db, anchors: set<Id>, id: Id)
    requires TeamsMatch(db) && id in Rows(db, BattleParticipants)
    requires PointsInto(Rows(db, BattleParticipants)[id], BattleTeamId, Scoped(BATTLE_GRAPH, db, BattleTeams, anchors))
    ensures id in Scoped(BATTLE_GRAPH, db, BattleParticipants, anchors)
  {
    hide Scoped, Rows;
    var row := Rows(db, BattleParticipants)[id];
    TeamInScope(db, anchors, row[BattleTeamId]);
    BattleScopes(db, anchors, BattleParticipants, id);
  }

  lemma TeamInScope(db: Db, anchors: set<Id>, id: Id)
    requires id in Scoped(BATTLE_GRAPH, db, BattleTeams, anchors)
    ensures id in Rows(db, BattleTeams) && PointsInto(Rows(db, BattleTeams)[id], BattleId, anchors)
  {
    BattleScopes(db, anchors, BattleTeams, id);
  }

  lemma BattleTakesItsRows(db: Db, anchors: set<Id>, t: Name, id: Id)
    requires t in {BattleParticipants, BattleTeams, BattleObservations} && id in Rows(db, t)
    requires PointsInto(Rows(db, t)[id], BattleId, Scoped(BATTLE_GRAPH, db, NormalizedBattles, anchors))
    ensures id in Scoped(BATTLE_GRAPH, db, t, anchors)
  {
    hide Scoped, Rows;
    AnchorScope(BATTLE_GRAPH, db, anchors);
    BattleScopes(db, anchors, t, id);
  }

  /** Battles are always deletable: every foreign key into the battle graph comes from the same battle's rows. */
  lemma BattleScopeIsClosed(db: Db, anchors: set<Id>)
    requires TeamsMatch(db)
    ensures Closed(BATTLE_GRAPH, db, anchors)
  {
    hide Scoped, Covers, ForeignKey, Rows, TeamsMatch, PointsInto;
    var f := BATTLE_GRAPH;
    var order := f.deleteOrder;
    forall e, j, id | ForeignKey(e) && 0 <= j < |order| && order[j] == e.parent && id in Rows(db, e.child)
                      && PointsInto(Rows(db, e.child)[id], e.column, Scoped(f, db, e.parent, anchors))
      ensures Covers(order, j, e.child) && id in Scoped(f, db, e.child, anchors)
    {
      BattleEdges(e, j);
      if j == 1 {
        TeamTakesItsParticipants(db, anchors, id);
      } else {
        BattleTakesItsRows(db, anchors, e.child, id);
      }
    }
  }

  /** The foreign keys into a family's anchor table that the planner's exclusions check. */
  const WORKFLOW_PLAN_CHECKS: set<Name> := {DataFetchRuns}
  const FETCH_PLAN_CHECKS: set<Name> := {
    RawApiSnapshots, BattleObservations, NormalizedBattles, CanonicalBrawlers, NormalizedPlayers, NormalizedClubs,
    DataIncidents, DataFetchRuns}

  ghost predicate NoneFrom(db: Db, tables: set<Name>, parent: Name, anchors: set<Id>) {
    forall e, id :: ForeignKey(e) && e.parent == parent && e.child in tables && id in Rows(db, e.child) ==>
      !PointsInto(Rows(db, e.child)[id], e.column, anchors)
  }

  /**
   * The audit planner excludes runs that a fetch run references and nothing else, so a
   * planned workflow deletion can complete exactly when no crawl batch, aggregation run or
   * ranking run still names one of the runs.
   */
  lemma WorkflowScopeIsClosed(db: Db, anchors: set<Id>)
    requires Integral(db)
    requires NoneFrom(db, WORKFLOW_PLAN_CHECKS, WorkflowRuns, anchors)
    ensures Closed(WORKFLOW_AUDIT, db, anchors) <==>
            NoneFrom(db, {CrawlBatches, AggregationRuns, RankingRuns}, WorkflowRuns, anchors)
  {
    var rest := {CrawlBatches, AggregationRuns, RankingRuns};
    if NoneFrom(db, rest, WorkflowRuns, anchors) {
      WorkflowFree(db, anchors);
    }
    if Closed(WORKFLOW_AUDIT, db, anchors) {
      WorkflowHeld(db, anchors);
    }
  }

  /** With the references intact, pointing at a scoped anchor row is pointing at an allowlisted anchor. */
  lemma AnchorReference(f: Family, db: Db, anchors: set<Id>, e: Edge, id: Id)
    requires Integral(db) && ForeignKey(e) && e.parent == f.anchor && id in Rows(db, e.child)
    ensures PointsInto(Rows(db, e.child)[id], e.column, Scoped(f, db, f.anchor, anchors))
       <==> PointsInto(Rows(db, e.child)[id], e.column, anchors)
  {
  }

  lemma WorkflowFree(db: Db, anchors: set<Id>)
    requires Integral(db)
    requires NoneFrom(db, WORKFLOW_PLAN_CHECKS, WorkflowRuns, anchors)
    requires NoneFrom(db, {CrawlBatches, AggregationRuns, RankingRuns}, WorkflowRuns, anchors)
    ensures Closed(WORKFLOW_AUDIT, db, anchors)
  {
    var f := WORKFLOW_AUDIT;
    var order := f.deleteOrder;
    assert order[0] == WorkflowSteps && order[1] == WorkflowRuns;
    forall e, j, id | ForeignKey(e) && 0 <= j < |order| && order[j] == e.parent && id in Rows(db, e.child)
                      && PointsInto(Rows(db, e.child)[id], e.column, Scoped(f, db, e.parent, anchors))
      ensures Covers(order, j, e.child) && id in Scoped(f, db, e.child, anchors)
    {
      hide Integral;
      assert e.parent == WorkflowRuns && j == 1;
      AnchorReference(f, db, anchors, e, id);
      assert e.child == WorkflowSteps;
    }
  }

  lemma WorkflowHeld(db: Db, anchors: set<Id>)
    requires Integral(db) && Closed(WORKFLOW_AUDIT, db, anchors)
    ensures NoneFrom(db, {CrawlBatches, AggregationRuns, RankingRuns}, WorkflowRuns, anchors)
  {
    var f := WORKFLOW_AUDIT;
    var order := f.deleteOrder;
    assert order[0] == WorkflowSteps;
    forall e, id | ForeignKey(e) && e.parent == WorkflowRuns
        && e.child in {CrawlBatches, AggregationRuns, RankingRuns} && id in Rows(db, e.child)
      ensures !PointsInto(Rows(db, e.child)[id], e.column, anchors)
    {
      hide Integral, Scoped, Rows;
      AnchorReference(f, db, anchors, e, id);
      assert order[1] == e.parent && !Covers(order, 1, e.child);
    }
  }

  /**
   * Likewise for fetch runs: the planner does not look at detected changes, entity snapshots
   * or patches. Given what it does exclude, only those can obstruct, and then they do.
   */
  lemma FetchScopeIsClosed(db: Db, anchors: set<Id>)
    requires Integral(db)
    requires NoneFrom(db, FETCH_PLAN_CHECKS, DataFetchRuns, anchors)
    ensures var f := SingleTable(DataFetchRuns);
      var free := NoneFrom(db, {DetectedChanges, NormalizedSnapshots, Patches}, DataFetchRuns, anchors);
      && (Closed(f, db, anchors) <==> free)
      && (OutsideFree(f, db, anchors) <==> free)
  {
    var f := SingleTable(DataFetchRuns);
    var rest := {DetectedChanges, NormalizedSnapshots, Patches};
    forall e | ForeignKey(e) && e.parent == DataFetchRuns
      ensures e.child in FETCH_PLAN_CHECKS || e.child in rest
    {
    }
    forall e, id | ForeignKey(e) && e.parent == DataFetchRuns && id in Rows(db, e.child)
      ensures PointsInto(Rows(db, e.child)[id], e.column, Scoped(f, db, DataFetchRuns, anchors))
         <==> PointsInto(Rows(db, e.child)[id], e.column, anchors)
    {
      AnchorReference(f, db, anchors, e, id);
    }
    hide Integral, Scoped, Rows;
    if Closed(f, db, anchors) || OutsideFree(f, db, anchors) {
      forall e, id | ForeignKey(e) && e.parent == DataFetchRuns && e.child in rest && id in Rows(db, e.child)
        ensures !PointsInto(Rows(db, e.child)[id], e.column, anchors)
      {
        assert f.deleteOrder[0] == e.parent && !Covers(f.deleteOrder, 0, e.child);
        assert e.parent in f.deleteOrder && e.child !in f.deleteOrder;
      }
    }
  }

  /** A parent row 1 and one child row 2 that names it. */
  function OneChild(e: Edge): Db {
    map[e.parent := map[1 := map[]], e.child := map[2 := map[e.column := 1]]]
  }

  /** An aggregation run that names a workflow run, and a patch and a detected change that name a fetch run. */
  const HELD_WORKFLOW: Edge := Edge(AggregationRuns, WorkflowRunId, WorkflowRuns)
  const HELD_BY_PATCH: Edge := Edge(Patches, TriggeringFetchRunId, DataFetchRuns)
  const HELD_BY_CHANGE: Edge := Edge(DetectedChanges, DataFetchRunId, DataFetchRuns)

  lemma OneChildHolds(e: Edge)
    requires ForeignKey(e) && e.child != e.parent
    ensures Integral(OneChild(e)) && Referenced(OneChild(e), e.parent, {1})
  {
    var db := OneChild(e);
    forall o, id | ForeignKey(o) && id in Rows(db, o.child) && o.column in Rows(db, o.child)[id]
      ensures Rows(db, o.child)[id][o.column] in Rows(db, o.parent)
    {
      assert o == e by {
        OneKeyPerColumn(o, e);
      }
    }
    assert ForeignKey(Edge(e.child, e.column, e.parent)) && 2 in Rows(db, e.child);
    assert PointsInto(Rows(db, e.child)[2], e.column, {1});
  }

  lemma OneChildFrom(e: Edge, tables: set<Name>)
    requires ForeignKey(e) && e.child != e.parent
    ensures NoneFrom(OneChild(e), tables, e.parent, {1}) <==> e.child !in tables
  {
    var db := OneChild(e);
    assert 2 in Rows(db, e.child) && PointsInto(Rows(db, e.child)[2], e.column, {1});
    forall o, id | ForeignKey(o) && o.parent == e.parent && o.child in tables && id in Rows(db, o.child)
        && e.child !in tables
      ensures !PointsInto(Rows(db, o.child)[id], o.column, {1})
    {
    }
  }

  lemma OneKeyPerColumn(e: Edge, o: Edge)
    requires ForeignKey(e) && ForeignKey(o) && e.child == o.child && e.column == o.column
    ensures e == o
  {
  }

  /** The planner's check passes, and the deletion is refused all the same: an aggregation run names the run. */
  lemma PlannedWorkflowIsHeld()
    ensures var db := OneChild(HELD_WORKFLOW);
      && Integral(db) && NoneFrom(db, WORKFLOW_PLAN_CHECKS, WorkflowRuns, {1})
      && !Closed(WORKFLOW_AUDIT, db, {1}) && Referenced(db, WorkflowRuns, {1})
  {
    hide Integral, NoneFrom, Referenced, Closed, OneChild;
    var e := HELD_WORKFLOW;
    OneChildHolds(e);
    OneChildFrom(e, WORKFLOW_PLAN_CHECKS);
    OneChildFrom(e, {CrawlBatches, AggregationRuns, RankingRuns});
    WorkflowScopeIsClosed(OneChild(e), {1});
  }

  /** Likewise a patch, or a detected change, that names the planned fetch run. */
  lemma PlannedFetchIsHeld(e: Edge)
    requires e == HELD_BY_PATCH || e == HELD_BY_CHANGE
    ensures var db := OneChild(e);
      && Integral(db) && NoneFrom(db, FETCH_PLAN_CHECKS, DataFetchRuns, {1})
      && !Closed(SingleTable(DataFetchRuns), db, {1}) && Referenced(db, DataFetchRuns, {1})
  {
    hide Integral, NoneFrom, Referenced, Closed, OneChild;
    OneChildHolds(e);
    OneChildFrom(e, FETCH_PLAN_CHECKS);
    OneChildFrom(e, {DetectedChanges, NormalizedSnapshots, Patches});
    FetchScopeIsClosed(OneChild(e), {1});
  }

  /** One battle with one team and one participant. */
  const SMALL_BATTLE: Db := map[
    NormalizedBattles := map[1 := map[]],
    BattleTeams := map[2 := map[BattleId := 1]],
    BattleParticipants := map[3 := map[BattleId := 1, BattleTeamId := 2]]]

  lemma SmallBattleIsIntegral()
    ensures Integral(SMALL_BATTLE)
  {
    forall e, id | ForeignKey(e) && id in Rows(SMALL_BATTLE, e.child) && e.column in Rows(SMALL_BATTLE, e.child)[id]
      ensures Rows(SMALL_BATTLE, e.child)[id][e.column] in Rows(SMALL_BATTLE, e.parent)
    {
      assert e.child in {NormalizedBattles, BattleTeams, BattleParticipants};
    }
  }

  /** Why the order matters: teams before participants, and the first batch is refused. */
  lemma TeamsFirstIsRefused()
    ensures Integral(SMALL_BATTLE) && TeamsMatch(SMALL_BATTLE)
    ensures Referenced(SMALL_BATTLE, BattleTeams, Scoped(BATTLE_GRAPH, SMALL_BATTLE, BattleTeams, {1}))
  {
    SmallBattleIsIntegral();
    hide Integral;
    SmallBattleIsReferenced();
  }

  lemma SmallBattleIsReferenced()
    ensures Referenced(SMALL_BATTLE, BattleTeams, Scoped(BATTLE_GRAPH, SMALL_BATTLE, BattleTeams, {1}))
  {
    hide Scoped, PointsInto;
    var scope := Scoped(BATTLE_GRAPH, SMALL_BATTLE, BattleTeams, {1});
    var team: Row, row: Row := map[BattleId := 1], map[BattleId := 1, BattleTeamId := 2];
    assert 2 in Rows(SMALL_BATTLE, BattleTeams) && Rows(SMALL_BATTLE, BattleTeams)[2] == team;
    BattleScopes(SMALL_BATTLE, {1}, BattleTeams, 2);
    PointsAt(team, BattleId, 1, {1});
    assert ForeignKey(Edge(BattleParticipants, BattleTeamId, BattleTeams));
    assert 3 in Rows(SMALL_BATTLE, BattleParticipants) && Rows(SMALL_BATTLE, BattleParticipants)[3] == row;
    PointsAt(row, BattleTeamId, 2, scope);
  }

  lemma PointsAt(row: Row, c: Column, id: Id, ids: set<Id>)
    requires c in row && row[c] == id && id in ids
    ensures PointsInto(row, c, ids)
  {
  }
}
