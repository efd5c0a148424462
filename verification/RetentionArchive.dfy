/**
 * Run archives: page every child row of a run into one document, store it compressed with a
 * manifest of counts and checksums, and check stored bytes against the manifest, twice.
 */
module RetentionArchive {
  import opened Common
  import opened Keyset
  import opened Codec
  import Deletion

  const EXPORT_PAGE: nat := 2000

  datatype RunKind = AggregationRun | RankingRun
  datatype TableName = ModeAggregates | OverallAggregates | MatchupAggregates | RankingResults | MatchupResults

  datatype ColumnName =
    | IdName | AggregationRunId | RankingRunId | BrawlerId | OpponentBrawlerId | GameModeId | PatchId
    | Matches | Wins | Losses | Draws | WinRate | PickRate | LatestBattleAt | RankBracketBreakdown | RegionBreakdown
    | DataMaturityStage | ModeCoverageCount | ConfidenceLevel | HighRankWinRate | MatchupCoverage | MetaScore | Tier
    | Confidence | MeetsFloor | Relationship | CreatedAt | OtherName(code: nat)

  datatype Column = Column(name: ColumnName, sqlType: nat, nullable: bool)

  datatype Cell = Absent | Text(value: nat) | Other(value: nat)

  type Row = map<ColumnName, Cell>

  /** The columns the verifier accepts for each table. */
  function TableColumns(t: TableName): set<ColumnName> {
    match t
    case ModeAggregates => {
      IdName, AggregationRunId, BrawlerId, GameModeId, PatchId, Matches, Wins, Losses, Draws, WinRate, LatestBattleAt,
      PickRate, RankBracketBreakdown, RegionBreakdown, DataMaturityStage, CreatedAt}
    case OverallAggregates => {
      IdName, AggregationRunId, BrawlerId, PatchId, Matches, Wins, Losses, Draws, WinRate, LatestBattleAt,
      ModeCoverageCount, CreatedAt}
    case MatchupAggregates => {
      IdName, AggregationRunId, BrawlerId, OpponentBrawlerId, GameModeId, PatchId, Matches, Wins, Losses, WinRate,
      LatestBattleAt, ConfidenceLevel, CreatedAt}
    case RankingResults => {
      IdName, RankingRunId, BrawlerId, GameModeId, Matches, WinRate, PickRate, HighRankWinRate, MatchupCoverage,
      MetaScore, Tier, Confidence, MeetsFloor, CreatedAt}
    case MatchupResults => {
      IdName, RankingRunId, BrawlerId, OpponentBrawlerId, GameModeId, Matches, WinRate, Relationship, ConfidenceLevel,
      MeetsFloor, CreatedAt}
  }

  function FkColumnFor(t: TableName): ColumnName {
    if t == RankingResults || t == MatchupResults then RankingRunId else AggregationRunId
  }

  function FkColumnOfKind(k: RunKind): ColumnName {
    if k == AggregationRun then AggregationRunId else RankingRunId
  }

  /** One child table as it lies in the database. */
  datatype Table = Table(columns: seq<Column>, rows: map<Id, Row>)

  function Names(columns: seq<Column>): set<ColumnName> {
    set c | c in columns :: c.name
  }

  predicate DistinctNames(columns: seq<Column>) {
    forall i, j :: 0 <= i < j < |columns| ==> columns[i].name != columns[j].name
  }

  /**
   * What MySQL guarantees of a table with primary key `id`: distinct columns, every row with all
   * of them and its own id.
   */
  predicate WellFormed(t: Table) {
    && DistinctNames(t.columns) && IdName in Names(t.columns)
    && forall id :: id in t.rows ==> t.rows[id].Keys == Names(t.columns) && t.rows[id][IdName] == Text(id)
  }

  function RunIds(t: Table, fk: ColumnName, runId: Id): set<Id> {
    set id | id in t.rows && fk in t.rows[id] && t.rows[id][fk] == Text(runId)
  }

  // ------------------------------------------------------------------ paging

  /** `readAllChildRows`: a page at a time above the last id, until an empty or a short page. */
  method ReadAllChildRows(t: Table, fk: ColumnName, runId: Id) returns (rows: seq<Row>)
    ensures rows == RowsOf(t, InOrder(RunIds(t, fk, runId)))
  {
    var ids := RunIds(t, fk, runId);
    ghost var read: seq<Id> := [];
    rows := [];
    var after: Option<Id> := None;
    ReadStarts(ids);
    while true
      invariant ReadUpTo(ids, read, after)
      invariant forall x :: x in read ==> x in t.rows
      invariant rows == RowsOf(t, read)
      decreases |Above(ids, after)|
    {
      var page := Page(ids, after, EXPORT_PAGE);
      ReadPage(ids, read, after, EXPORT_PAGE);
      if page == [] {
        ReadAll(ids, read, after);
        break;
      }
      forall x | x in page
        ensures x in t.rows
      {
        assert x in ids;
      }
      RowsJoin(t, read, page);
      rows := rows + RowsOf(t, page);
      read := read + page;
      after := Some(Last(page));
      if |page| < EXPORT_PAGE {
        ReadAll(ids, read, after);
        break;
      }
    }
  }

  function RowsOf(t: Table, ids: seq<Id>): (rows: seq<Row>)
    requires forall x :: x in ids ==> x in t.rows
    ensures |rows| == |ids| && forall i :: 0 <= i < |ids| ==> rows[i] == t.rows[ids[i]]
  {
    seq(|ids|, i requires 0 <= i < |ids| => assert ids[i] in ids; t.rows[ids[i]])
  }

  lemma RowsJoin(t: Table, a: seq<Id>, b: seq<Id>)
    requires (forall x :: x in a ==> x in t.rows) && (forall x :: x in b ==> x in t.rows)
    ensures RowsOf(t, a + b) == RowsOf(t, a) + RowsOf(t, b)
  {
  }

  /** The ids read so far, ascending, are exactly those not above the cursor. */
  ghost predicate ReadUpTo(ids: set<Id>, read: seq<Id>, after: Option<Id>) {
    Ascending(read) && Elements(read) == UpTo(ids, after) && (after.None? ==> read == [])
  }

  lemma ReadStarts(ids: set<Id>)
    ensures ReadUpTo(ids, [], None)
  {
    assert UpTo(ids, None) == {};
  }

  lemma ReadPage(ids: set<Id>, read: seq<Id>, after: Option<Id>, size: nat)
    requires ReadUpTo(ids, read, after) && size > 0
    ensures var p := Page(ids, after, size);
      && (p == [] ==> Above(ids, after) == {})
      && (p != [] ==> ReadUpTo(ids, read + p, Some(Last(p))) && |Above(ids, Some(Last(p)))| < |Above(ids, after)|)
      && (p != [] && |p| < size ==> Above(ids, Some(Last(p))) == {})
  {
    var p := Page(ids, after, size);
    PageIsPrefix(ids, after, size);
    PageSize(ids, after, size);
    if p != [] {
      PageRemainder(ids, after, size);
      assert Last(p) in p;
      forall x, y | x in read && y in p
        ensures x < y
      {
        assert x in Elements(read) && y in Above(ids, after);
      }
      AscendingJoin(read, p);
      assert Elements(read + p) == Elements(read) + Elements(p);
      assert UpTo(ids, Some(Last(p))) == UpTo(ids, after) + Elements(p);
    }
  }

  lemma ReadAll(ids: set<Id>, read: seq<Id>, after: Option<Id>)
    requires ReadUpTo(ids, read, after) && Above(ids, after) == {}
    ensures read == InOrder(ids)
  {
    assert UpTo(ids, after) == ids by {
      forall x | x in ids
        ensures x in UpTo(ids, after)
      {
        assert x !in Above(ids, after);
      }
    }
    InOrderIsAll(ids);
    AscendingIsInOrder(read, InOrder(ids));
  }

  // ------------------------------------------------------ document and manifest

  datatype Document = Document(
    format: nat, schemaVersion: nat, kind: RunKind, runId: Id, table: TableName,
    columns: seq<Column>, rowCount: nat, createdAt: nat, rows: seq<Row>)

  const FORMAT: nat := 1
  const SCHEMA_VERSION: nat := 1

  /** Canonical JSON of a document and its parser; every printer with a left inverse will do. */
  datatype Json = Json(encode: Document -> Bytes, parse: Bytes -> Option<Document>) {
    ghost predicate Sound() {
      forall d :: parse(encode(d)) == Some(d)
    }
  }

  datatype Manifest = Manifest(
    kind: RunKind, runId: Id, table: TableName, schemaVersion: nat, rowCount: nat,
    minId: Option<Id>, maxId: Option<Id>, archiveBytes: nat, originalSha: Digest, archiveSha: Digest)

  function DocumentFor(t: Table, table: TableName, kind: RunKind, runId: Id, now: nat): Document {
    var rows := RowsOf(t, InOrder(RunIds(t, FkColumnFor(table), runId)));
    Document(FORMAT, SCHEMA_VERSION, kind, runId, table, t.columns, |rows|, now, rows)
  }

  function ManifestFor(c: Codec, j: Json, d: Document): Manifest {
    var text := j.encode(d);
    var body := c.gzip(text);
    var n := |d.rows|;
    Manifest(
      d.kind, d.runId, d.table, SCHEMA_VERSION, n,
      if n > 0 then RowId(d.rows[0]) else None, if n > 0 then RowId(d.rows[n - 1]) else None,
      |body|, c.sha(text), c.sha(body))
  }

  function RowId(r: Row): Option<Id> {
    if IdName in r && r[IdName].Text? then Some(r[IdName].value) else None
  }

  // ------------------------------------------------------------ verification

  datatype Failure =
    | ObjectMissing | ObjectSizeMismatch | ArchiveChecksumMismatch | CorruptGzip | ContentChecksumMismatch | InvalidJson
    | UnsupportedArchiveVersion | ManifestMismatch | UnexpectedSchema | RowCountMismatch | DuplicateRowIdentity

  /** The row loop: every row with the document's columns, a fresh id, this run, and an id above the one before. */
  function CheckRows(rows: seq<Row>, names: set<ColumnName>, fk: ColumnName, runId: Id, seen: set<Id>,
      prior: Option<Id>): Option<Failure> {
    if rows == [] then None
    else
      var r := rows[0];
      if r.Keys != names then Some(UnexpectedSchema)
      else
        var id := RowId(r);
        if id.None? || id.value in seen then Some(DuplicateRowIdentity)
        else if fk !in r || r[fk] != Text(runId) || !After(id.value, prior) then Some(ManifestMismatch)
        else CheckRows(rows[1..], names, fk, runId, seen + {id.value}, id)
  }

  function RowIds(rows: seq<Row>): set<Id> {
    set r | r in rows && RowId(r).Some? :: RowId(r).value
  }

  function Smallest(ids: set<Id>): Option<Id> {
    if ids == {} then None else Some(Least(ids))
  }

  function Largest(ids: set<Id>): Option<Id> {
    if ids == {} then None else Some(Last(InOrder(ids)))
  }

  function CheckDocument(d: Document, m: Manifest): Option<Failure> {
    if d.format != FORMAT || d.schemaVersion != SCHEMA_VERSION then Some(UnsupportedArchiveVersion)
    else if d.schemaVersion != m.schemaVersion || d.kind != m.kind || d.runId != m.runId || d.table != m.table
        then Some(ManifestMismatch)
    else if d.columns == [] || !DistinctNames(d.columns) || IdName !in Names(d.columns) then Some(UnexpectedSchema)
    else if d.rowCount != |d.rows| || d.rowCount != m.rowCount then Some(RowCountMismatch)
    else if Names(d.columns) != TableColumns(d.table) then Some(UnexpectedSchema)
    else
      var rows := CheckRows(d.rows, Names(d.columns), FkColumnOfKind(d.kind), d.runId, {}, None);
      if rows.Some? then rows
      else if Smallest(RowIds(d.rows)) != m.minId || Largest(RowIds(d.rows)) != m.maxId then Some(ManifestMismatch)
      else None
  }

  /** `verifyArchiveBytesAgainstManifest`: the first check that fails, in the source's order. */
  function Verify(c: Codec, j: Json, bytes: Bytes, m: Manifest): Option<Failure> {
    if |bytes| != m.archiveBytes then Some(ObjectSizeMismatch)
    else if c.sha(bytes) != m.archiveSha then Some(ArchiveChecksumMismatch)
    else
      var text := c.gunzip(bytes);
      if text.None? then Some(CorruptGzip)
      else if c.sha(text.value) != m.originalSha then Some(ContentChecksumMismatch)
      else
        var d := j.parse(text.value);
        if d.None? then Some(InvalidJson) else CheckDocument(d.value, m)
  }

  // ------------------------------------------------------------ main results

  predicate GoodRow(r: Row, names: set<ColumnName>, fk: ColumnName, runId: Id) {
    r.Keys == names && RowId(r).Some? && fk in r && r[fk] == Text(runId)
  }

  predicate Ordered(a: Row, b: Row) {
    RowId(a).Some? && RowId(b).Some? && RowId(a).value < RowId(b).value
  }

  /** What the row loop accepts: each row of this schema and this run, ids strictly ascending. */
  ghost predicate GoodRows(rows: seq<Row>, names: set<ColumnName>, fk: ColumnName, runId: Id) {
    && (forall i :: 0 <= i < |rows| ==> GoodRow(rows[i], names, fk, runId))
    && (forall i, k :: 0 <= i < k < |rows| ==> Ordered(rows[i], rows[k]))
  }

  lemma GoodRowsStep(rows: seq<Row>, names: set<ColumnName>, fk: ColumnName, runId: Id)
    requires rows != []
    ensures GoodRows(rows, names, fk, runId) <==>
            && GoodRow(rows[0], names, fk, runId)
            && GoodRows(rows[1..], names, fk, runId)
            && (|rows| > 1 ==> Ordered(rows[0], rows[1]))
  {
    hide GoodRow;
    var rest := rows[1..];
    assert forall i :: 0 <= i < |rest| ==> rest[i] == rows[i + 1];
    if GoodRow(rows[0], names, fk, runId) && GoodRows(rest, names, fk, runId)
        && (|rows| > 1 ==> Ordered(rows[0], rows[1])) {
      forall i | 0 <= i < |rows|
        ensures GoodRow(rows[i], names, fk, runId)
      {
        assert i > 0 ==> rows[i] == rest[i - 1];
      }
      forall i, k | 0 <= i < k < |rows|
        ensures Ordered(rows[i], rows[k])
      {
        assert rows[k] == rest[k - 1];
        assert i > 0 ==> rows[i] == rest[i - 1];
        assert k > 1 ==> Ordered(rest[0], rest[k - 1]);
      }
    }
  }

  /** The row loop passes exactly the good row lists; the duplicate check is subsumed by the order. */
  lemma {:induction false} CheckRowsMeansGood(rows: seq<Row>, names: set<ColumnName>, fk: ColumnName, runId: Id,
      seen: set<Id>, prior: Option<Id>)
    requires forall x :: x in seen ==> prior.Some? && x <= prior.value
    ensures CheckRows(rows, names, fk, runId, seen, prior) == None <==>
            GoodRows(rows, names, fk, runId) && (rows != [] ==> After(RowId(rows[0]).value, prior))
  {
    if rows != [] {
      hide GoodRows;
      var id := RowId(rows[0]);
      GoodRowsStep(rows, names, fk, runId);
      if GoodRow(rows[0], names, fk, runId) && After(id.value, prior) {
        CheckRowsMeansGood(rows[1..], names, fk, runId, seen + {id.value}, id);
      }
    }
  }

  /** The exported rows: the run's rows, all of them, in ascending id order. */
  lemma ExportedRows(t: Table, table: TableName, kind: RunKind, runId: Id, now: nat)
    requires WellFormed(t)
    ensures var d := DocumentFor(t, table, kind, runId, now); var ids := RunIds(t, FkColumnFor(table), runId);
      && |d.rows| == |ids| && RowIds(d.rows) == ids
      && (forall i :: 0 <= i < |d.rows| ==> RowId(d.rows[i]) == Some(InOrder(ids)[i]) && d.rows[i].Keys == Names(t.columns))
      && (forall i :: 0 <= i < |d.rows| ==> FkColumnFor(table) in d.rows[i] && d.rows[i][FkColumnFor(table)] == Text(runId))
      && (forall i, k :: 0 <= i < k < |d.rows| ==> Ordered(d.rows[i], d.rows[k]))
  {
    var d := DocumentFor(t, table, kind, runId, now);
    var fk := FkColumnFor(table);
    var ids := RunIds(t, fk, runId);
    InOrderIsAll(ids);
    forall i | 0 <= i < |d.rows|
      ensures RowId(d.rows[i]) == Some(InOrder(ids)[i]) && d.rows[i].Keys == Names(t.columns)
      ensures fk in d.rows[i] && d.rows[i][fk] == Text(runId)
    {
      assert InOrder(ids)[i] in Elements(InOrder(ids));
    }
    forall x | x in ids
      ensures x in RowIds(d.rows)
    {
      assert x in Elements(InOrder(ids));
      var i :| 0 <= i < |InOrder(ids)| && InOrder(ids)[i] == x;
      assert d.rows[i] in d.rows;
    }
  }

  lemma ExportedBounds(t: Table, table: TableName, kind: RunKind, runId: Id, now: nat)
    requires WellFormed(t)
    ensures var d := DocumentFor(t, table, kind, runId, now); var n := |d.rows|;
      && Smallest(RowIds(d.rows)) == (if n > 0 then RowId(d.rows[0]) else None)
      && Largest(RowIds(d.rows)) == (if n > 0 then RowId(d.rows[n - 1]) else None)
  {
    hide DocumentFor, FkColumnFor, RunIds, RowIds, RowId, WellFormed, InOrder, TableColumns, Ordered;
    var ids := RunIds(t, FkColumnFor(table), runId);
    ExportedRows(t, table, kind, runId, now);
    InOrderIsAll(ids);
    if ids != {} {
      InOrderStartsLeast(ids);
    }
  }

  /** The row checks of the export's own rows. */
  lemma ExportedRowsPass(t: Table, table: TableName, kind: RunKind, runId: Id, now: nat)
    requires WellFormed(t) && Names(t.columns) == TableColumns(table)
    ensures var d := DocumentFor(t, table, kind, runId, now); var fk := FkColumnOfKind(kind);
      CheckRows(d.rows, Names(t.columns), fk, runId, {}, None) == None <==> d.rows == [] || FkColumnFor(table) == fk
  {
    hide TableColumns, DocumentFor, CheckRows, RowIds;
    var d := DocumentFor(t, table, kind, runId, now);
    var fk := FkColumnOfKind(kind);
    ExportedRows(t, table, kind, runId, now);
    CheckRowsMeansGood(d.rows, Names(t.columns), fk, runId, {}, None);
    if d.rows != [] && fk != FkColumnFor(table) {
      ColumnsHaveOneKey(table);
      assert fk !in d.rows[0];
      assert !GoodRow(d.rows[0], Names(t.columns), fk, runId);
    }
  }

  lemma ExportedDocumentPasses(c: Codec, j: Json, t: Table, table: TableName, kind: RunKind, runId: Id, now: nat)
    requires WellFormed(t)
    ensures var d := DocumentFor(t, table, kind, runId, now);
      CheckDocument(d, ManifestFor(c, j, d)) == None <==>
      && Names(t.columns) == TableColumns(table)
      && (RunIds(t, FkColumnFor(table), runId) == {} || FkColumnFor(table) == FkColumnOfKind(kind))
  {
    hide TableColumns, CheckRows, RowIds, Smallest, Largest, RunIds, FkColumnFor, FkColumnOfKind, DocumentFor,
        ManifestFor, DistinctNames, Names;
    var d := DocumentFor(t, table, kind, runId, now);
    ExportShape(c, j, t, table, kind, runId, now);
    ExportedBounds(t, table, kind, runId, now);
    if Names(t.columns) == TableColumns(table) {
      ExportedRowsPass(t, table, kind, runId, now);
    }
  }

  /** The fields the document and its manifest share. */
  lemma ExportShape(c: Codec, j: Json, t: Table, table: TableName, kind: RunKind, runId: Id, now: nat)
    requires WellFormed(t)
    ensures var d := DocumentFor(t, table, kind, runId, now); var m := ManifestFor(c, j, d); var n := |d.rows|;
      && d == Document(FORMAT, SCHEMA_VERSION, kind, runId, table, t.columns, n, now, d.rows) && t.columns != []
      && m.kind == kind && m.runId == runId && m.table == table && m.schemaVersion == SCHEMA_VERSION && m.rowCount == n
      && m.minId == (if n > 0 then RowId(d.rows[0]) else None)
          && m.maxId == (if n > 0 then RowId(d.rows[n - 1]) else None)
      && (d.rows == [] <==> RunIds(t, FkColumnFor(table), runId) == {})
  {
    hide RowId, FkColumnFor;
    InOrderIsAll(RunIds(t, FkColumnFor(table), runId));
  }

  /**
   * Export then verify: the bytes written pass every check against the manifest written for
   * them exactly when the live columns are the ones the verifier knows, and (unless the run
   * has no rows) the table belongs to the run's kind.
   */
  lemma ExportThenVerify(c: Codec, j: Json, t: Table, table: TableName, kind: RunKind, runId: Id, now: nat)
    requires c.Sound() && j.Sound() && WellFormed(t)
    ensures var d := DocumentFor(t, table, kind, runId, now);
      Verify(c, j, c.gzip(j.encode(d)), ManifestFor(c, j, d)) == None <==>
      && Names(t.columns) == TableColumns(table)
      && (RunIds(t, FkColumnFor(table), runId) == {} || (table in {RankingResults, MatchupResults} <==> kind == RankingRun))
  {
    ExportedDocumentPasses(c, j, t, table, kind, runId, now);
    hide CheckDocument, DocumentFor, TableColumns;
  }

  /** A well-formed table with other columns than the verifier's: the export is refused at the schema check. */
  lemma OtherColumnsFail(c: Codec, j: Json, t: Table, table: TableName, kind: RunKind, runId: Id, now: nat)
    requires c.Sound() && j.Sound() && WellFormed(t) && Names(t.columns) != TableColumns(table)
    ensures var d := DocumentFor(t, table, kind, runId, now);
      Verify(c, j, c.gzip(j.encode(d)), ManifestFor(c, j, d)) == Some(UnexpectedSchema)
  {
    ExportShape(c, j, t, table, kind, runId, now);
    hide DocumentFor, CheckRows, RowIds, Smallest, Largest, TableColumns;
  }

  /** `ALTER TABLE ... ADD COLUMN`: every row gets the column, with no value. */
  function AddColumn(t: Table, c: Column): Table {
    Table(t.columns + [c], map id | id in t.rows :: t.rows[id][c.name := Absent])
  }

  lemma AddColumnNames(columns: seq<Column>, c: Column)
    requires DistinctNames(columns) && c.name !in Names(columns)
    ensures DistinctNames(columns + [c]) && Names(columns + [c]) == Names(columns) + {c.name}
  {
    var wider := columns + [c];
    assert wider[|columns|] == c;
    assert forall x :: x in wider <==> x in columns || x == c;
    forall i, k | 0 <= i < k < |wider|
      ensures wider[i].name != wider[k].name
    {
      if k == |columns| {
        assert columns[i] in columns;
      }
    }
  }

  lemma AddColumnKeeps(t: Table, c: Column)
    requires WellFormed(t) && c.name !in Names(t.columns)
    ensures WellFormed(AddColumn(t, c)) && Names(AddColumn(t, c).columns) == Names(t.columns) + {c.name}
  {
    AddColumnNames(t.columns, c);
    hide Names, DistinctNames;
  }

  /** So a migration that adds a column leaves every later export of every run unverifiable. */
  lemma AddedColumnBreaksExport(c: Codec, j: Json, t: Table, extra: Column, table: TableName, kind: RunKind,
      runId: Id, now: nat)
    requires c.Sound() && j.Sound() && WellFormed(t) && Names(t.columns) == TableColumns(table)
        && extra.name !in Names(t.columns)
    ensures var wider := AddColumn(t, extra); var d := DocumentFor(wider, table, kind, runId, now);
      && WellFormed(wider)
      && Verify(c, j, c.gzip(j.encode(d)), ManifestFor(c, j, d)) == Some(UnexpectedSchema)
  {
    hide WellFormed, Names, TableColumns, AddColumn, DocumentFor, ManifestFor, Verify;
    AddColumnKeeps(t, extra);
    OtherColumnsFail(c, j, AddColumn(t, extra), table, kind, runId, now);
  }

  /** A table with one row of run 7, before any other column was added. */
  const NARROW_TABLE: Table := Table(
    [Column(IdName, 0, false), Column(RankingRunId, 0, false)],
        map[1 := map[IdName := Text(1), RankingRunId := Text(7)]])

  lemma NarrowExportFails(c: Codec, j: Json, now: nat)
    requires c.Sound() && j.Sound()
    ensures var d := DocumentFor(NARROW_TABLE, MatchupResults, RankingRun, 7, now);
      |d.rows| == 1 && Verify(c, j, c.gzip(j.encode(d)), ManifestFor(c, j, d)) == Some(UnexpectedSchema)
  {
    NarrowIsWellFormed();
    hide WellFormed, Verify, DocumentFor, ManifestFor;
    ManifestCountsTheRun(c, j, NARROW_TABLE, MatchupResults, RankingRun, 7, now);
    OtherColumnsFail(c, j, NARROW_TABLE, MatchupResults, RankingRun, 7, now);
    NarrowRows(now);
  }

  lemma NarrowIsWellFormed()
    ensures WellFormed(NARROW_TABLE) && Names(NARROW_TABLE.columns) != TableColumns(MatchupResults)
  {
    var columns := NARROW_TABLE.columns;
    assert columns[0] in columns && columns[1] in columns;
    assert Names(columns) == {IdName, RankingRunId};
    assert CreatedAt in TableColumns(MatchupResults);
  }

  lemma NarrowRows(now: nat)
    ensures |DocumentFor(NARROW_TABLE, MatchupResults, RankingRun, 7, now).rows| == 1
  {
    assert RunIds(NARROW_TABLE, RankingRunId, 7) == {1};
    InOrderIsAll({1});
  }

  lemma ColumnsHaveOneKey(table: TableName)
    ensures AggregationRunId in TableColumns(table) <==> FkColumnFor(table) == AggregationRunId
    ensures RankingRunId in TableColumns(table) <==> FkColumnFor(table) == RankingRunId
  {
  }

  /** Nothing else passes: bytes that verify against an exported manifest are the exported bytes. */
  lemma VerifiedBytesAreTheExport(c: Codec, j: Json, d: Document, bytes: Bytes)
    requires c.Sound() && j.Sound() && Verify(c, j, bytes, ManifestFor(c, j, d)) == None
    ensures bytes == c.gzip(j.encode(d)) && c.gunzip(bytes) == Some(j.encode(d)) && j.parse(j.encode(d)) == Some(d)
  {
  }

  /**
   * Whatever the manifest says, passing bytes hold exactly `rowCount` rows of the run, ids
   * ascending between the manifest's bounds.
   */
  lemma VerifiedMeansConsistent(c: Codec, j: Json, bytes: Bytes, m: Manifest)
    requires Verify(c, j, bytes, m) == None
    ensures var text := c.gunzip(bytes);
      && text.Some? && j.parse(text.value).Some?
      && var d := j.parse(text.value).value;
      && d.runId == m.runId && d.table == m.table && |d.rows| == m.rowCount
      && GoodRows(d.rows, TableColumns(d.table), if m.kind == RankingRun then RankingRunId else AggregationRunId, m.runId)
      && BoundedBy(d.rows, m.minId, m.maxId)
  {
    var d := j.parse(c.gunzip(bytes).value).value;
    var fk := FkColumnOfKind(d.kind);
    CheckRowsMeansGood(d.rows, Names(d.columns), fk, d.runId, {}, None);
    hide GoodRows, CheckRows, BoundedBy;
    GoodRowsBounds(d.rows, Names(d.columns), fk, d.runId, m.minId, m.maxId);
  }

  /**
   * What deletion relies on: the manifest's row count is the number of the run's rows, and the
   * document holds all of them.
   */
  lemma ManifestCountsTheRun(c: Codec, j: Json, t: Table, table: TableName, kind: RunKind, runId: Id, now: nat)
    requires WellFormed(t)
    ensures var d := DocumentFor(t, table, kind, runId, now); var ids := RunIds(t, FkColumnFor(table), runId);
      ManifestFor(c, j, d).rowCount == |ids| && RowIds(d.rows) == ids
  {
    ExportedRows(t, table, kind, runId, now);
  }

  /** A run nobody touched since its export is where deletion starts: nothing gone, everything archived. */
  lemma ExportIsWhereDeletionStarts(c: Codec, j: Json, t: Table, table: TableName, kind: RunKind, runId: Id, now: nat)
    requires WellFormed(t)
    ensures var d := DocumentFor(t, table, kind, runId, now);
      && Deletion.Inv(Deletion.System(Deletion.Disk(RunIds(t, FkColumnFor(table), runId), map[]), {}, None),
          RowIds(d.rows))
      && ManifestFor(c, j, d).rowCount == |RowIds(d.rows)|
  {
    ManifestCountsTheRun(c, j, t, table, kind, runId, now);
    var log: map<nat, Deletion.Record> := map[];
    assert Deletion.CompletedBatches(log) == {};
  }

  // ---------------------------------------------------------- the first check

  /** The first `n` of the twelve checks of stored bytes, in the order they are made. */
  ghost predicate PassesChecks(c: Codec, j: Json, bytes: Bytes, m: Manifest, n: nat) {
    && (n >= 1 ==> |bytes| == m.archiveBytes)
    && (n >= 2 ==> c.sha(bytes) == m.archiveSha)
    && (n >= 3 ==> c.gunzip(bytes).Some?)
    && (n >= 4 ==> c.sha(c.gunzip(bytes).value) == m.originalSha)
    && (n >= 5 ==> j.parse(c.gunzip(bytes).value).Some?)
    && (n >= 6 ==> DocumentPasses(j.parse(c.gunzip(bytes).value).value, m, n))
  }

  ghost predicate DocumentPasses(d: Document, m: Manifest, n: nat) {
    && (n >= 6 ==> d.format == 1 && d.schemaVersion == 1)
    && (n >= 7 ==> m.schemaVersion == 1 && m.kind == d.kind && m.runId == d.runId && m.table == d.table)
    && (n >= 8 ==> DistinctNames(d.columns) && exists x :: x in d.columns && x.name == IdName)
    && (n >= 9 ==> |d.rows| == d.rowCount == m.rowCount)
    && (n >= 10 ==> Names(d.columns) == TableColumns(d.table))
    && (n >= 11 ==> GoodRows(d.rows, TableColumns(d.table), RunKeyColumn(d), d.runId))
    && (n >= 12 ==> BoundedBy(d.rows, m.minId, m.maxId))
  }

  /** The column that must name the run in every row of a document. */
  function RunKeyColumn(d: Document): ColumnName {
    match d.kind
    case AggregationRun => AggregationRunId
    case RankingRun => RankingRunId
  }

  /** The bounds of ascending rows: the first and the last id, or none. */
  ghost predicate BoundedBy(rows: seq<Row>, minId: Option<Id>, maxId: Option<Id>) {
    if rows == [] then minId == None && maxId == None
    else minId == RowId(rows[0]) && maxId == RowId(rows[|rows| - 1])
  }

  /** The ids of good rows, in row order. */
  lemma GoodRowsIds(rows: seq<Row>, names: set<ColumnName>, fk: ColumnName, runId: Id) returns (ids: seq<Id>)
    requires GoodRows(rows, names, fk, runId)
    ensures |ids| == |rows| && forall i :: 0 <= i < |rows| ==> RowId(rows[i]) == Some(ids[i])
    ensures Ascending(ids)
  {
    ids := seq(|rows|, i requires 0 <= i < |rows| => assert GoodRow(rows[i], names, fk, runId); RowId(rows[i]).value);
    hide GoodRow;
    forall i, k | 0 <= i < k < |ids|
      ensures ids[i] < ids[k]
    {
      assert Ordered(rows[i], rows[k]);
    }
  }

  lemma RowIdsAre(rows: seq<Row>, ids: seq<Id>)
    requires |ids| == |rows| && forall i :: 0 <= i < |rows| ==> RowId(rows[i]) == Some(ids[i])
    ensures RowIds(rows) == Elements(ids)
  {
    hide RowId;
    forall x | x in ids
      ensures x in RowIds(rows)
    {
      var i :| 0 <= i < |ids| && ids[i] == x;
      assert rows[i] in rows;
    }
  }

  lemma GoodRowsBounds(rows: seq<Row>, names: set<ColumnName>, fk: ColumnName, runId: Id, minId: Option<Id>,
      maxId: Option<Id>)
    requires GoodRows(rows, names, fk, runId)
    ensures Smallest(RowIds(rows)) == minId && Largest(RowIds(rows)) == maxId <==> BoundedBy(rows, minId, maxId)
  {
    var ids := GoodRowsIds(rows, names, fk, runId);
    RowIdsAre(rows, ids);
    hide GoodRows, RowIds, RowId, Smallest, Largest, Ascending, Elements;
    AscendingBounds(ids);
  }

  lemma AscendingBounds(ids: seq<Id>)
    requires Ascending(ids)
    ensures Smallest(Elements(ids)) == if ids == [] then None else Some(ids[0])
    ensures Largest(Elements(ids)) == if ids == [] then None else Some(ids[|ids| - 1])
  {
    if ids != [] {
      assert ids[0] in Elements(ids);
      InOrderIsAll(Elements(ids));
      AscendingIsInOrder(ids, InOrder(Elements(ids)));
      InOrderStartsLeast(Elements(ids));
      hide InOrder, Elements, Ascending;
    }
  }

  /** The failure each check names; check 11 looks at the rows one by one. */
  function Refusal(n: nat): Failure {
    match n
    case 1 => ObjectSizeMismatch
    case 2 => ArchiveChecksumMismatch
    case 3 => CorruptGzip
    case 4 => ContentChecksumMismatch
    case 5 => InvalidJson
    case 6 => UnsupportedArchiveVersion
    case 8 => UnexpectedSchema
    case 9 => RowCountMismatch
    case 10 => UnexpectedSchema
    case _ => ManifestMismatch
  }

  /** The failure the first bad row names: other columns, an id that is none or came before, or else its run or order. */
  ghost function RowRefusal(rows: seq<Row>, i: nat, names: set<ColumnName>): Failure
    requires i < |rows|
  {
    if rows[i].Keys != names then UnexpectedSchema
    else if RowId(rows[i]).None? || exists k :: 0 <= k < i && RowId(rows[k]) == RowId(rows[i]) then DuplicateRowIdentity
    else ManifestMismatch
  }

  lemma {:induction false} RefusedAtRow(rows: seq<Row>, names: set<ColumnName>, fk: ColumnName, runId: Id, seen: set<Id>,
      prior: Option<Id>, i: nat)
    requires i < |rows| && CheckRows(rows[..i], names, fk, runId, seen, prior) == None
        && CheckRows(rows[..i + 1], names, fk, runId, seen, prior) != None
    ensures CheckRows(rows, names, fk, runId, seen, prior) == Some(
      if rows[i].Keys != names then UnexpectedSchema
      else if RowId(rows[i]).None? || RowId(rows[i]).value in seen + RowIds(rows[..i]) then DuplicateRowIdentity
      else ManifestMismatch)
  {
    if i > 0 {
      assert rows[..i][1..] == rows[1..][..i - 1] && rows[..i + 1][1..] == rows[1..][..i];
      var id := RowId(rows[0]);
      RefusedAtRow(rows[1..], names, fk, runId, seen + {id.value}, id, i - 1);
      assert rows[..i] == [rows[0]] + rows[1..][..i - 1];
      assert RowIds(rows[..i]) == {id.value} + RowIds(rows[1..][..i - 1]);
    }
  }

  /** The rows before `i` are good, and with row `i` they are not. */
  ghost predicate FirstBadRow(d: Document, i: nat) {
    && i < |d.rows| && GoodRows(d.rows[..i], TableColumns(d.table), RunKeyColumn(d), d.runId)
    && !GoodRows(d.rows[..i + 1], TableColumns(d.table), RunKeyColumn(d), d.runId)
  }

  lemma RefusedByFirstRow(rows: seq<Row>, names: set<ColumnName>, fk: ColumnName, runId: Id, i: nat)
    requires i < |rows| && GoodRows(rows[..i], names, fk, runId) && !GoodRows(rows[..i + 1], names, fk, runId)
    ensures CheckRows(rows, names, fk, runId, {}, None) == Some(RowRefusal(rows, i, names))
  {
    CheckRowsMeansGood(rows[..i], names, fk, runId, {}, None);
    CheckRowsMeansGood(rows[..i + 1], names, fk, runId, {}, None);
    hide CheckRows, GoodRows;
    RefusedAtRow(rows, names, fk, runId, {}, None, i);
    if RowId(rows[i]).Some? {
      assert RowId(rows[i]).value in RowIds(rows[..i]) <==> exists k :: 0 <= k < i && RowId(rows[k]) == RowId(rows[i]) by {
        if k :| 0 <= k < i && RowId(rows[k]) == RowId(rows[i]) {
          assert rows[..i][k] == rows[k];
        }
      }
    }
  }

  lemma FirstBadRowIsNamed(d: Document, i: nat)
    requires FirstBadRow(d, i)
    ensures i < |d.rows| && CheckRows(d.rows, TableColumns(d.table), RunKeyColumn(d), d.runId, {}, None)
      == Some(RowRefusal(d.rows, i, TableColumns(d.table)))
  {
    RefusedByFirstRow(d.rows, TableColumns(d.table), RunKeyColumn(d), d.runId, i);
  }

  lemma DocumentIsRefusedByFirstCheck(d: Document, m: Manifest, n: nat)
    requires 6 <= n <= 12 && DocumentPasses(d, m, n - 1)
    ensures CheckDocument(d, m) == None <==> DocumentPasses(d, m, 12)
    ensures !DocumentPasses(d, m, n) && n != 11 ==> CheckDocument(d, m) == Some(Refusal(n))
    ensures !DocumentPasses(d, m, n) && n == 11 ==>
      CheckDocument(d, m) == CheckRows(d.rows, TableColumns(d.table), RunKeyColumn(d), d.runId, {}, None)
  {
    hide TableColumns, GoodRows, CheckRows, RowIds, Smallest, Largest, BoundedBy, DistinctNames;
    CheckRowsMeansGood(d.rows, TableColumns(d.table), RunKeyColumn(d), d.runId, {}, None);
    if GoodRows(d.rows, TableColumns(d.table), RunKeyColumn(d), d.runId) {
      GoodRowsBounds(d.rows, TableColumns(d.table), RunKeyColumn(d), d.runId, m.minId, m.maxId);
    }
  }

  /** Bytes pass exactly when all twelve checks do. */
  lemma VerifiedIsAllChecks(c: Codec, j: Json, bytes: Bytes, m: Manifest)
    ensures Verify(c, j, bytes, m) == None <==> PassesChecks(c, j, bytes, m, 12)
  {
    if PassesChecks(c, j, bytes, m, 5) {
      var d := j.parse(c.gunzip(bytes).value).value;
      DocumentIsRefusedByFirstCheck(d, m, 6);
      hide DocumentPasses, CheckDocument;
    }
  }

  /** A refusal names the first check that fails, and among the rows the first bad one. */
  lemma RefusedByFirstCheck(c: Codec, j: Json, bytes: Bytes, m: Manifest, n: nat)
    requires 1 <= n <= 12 && PassesChecks(c, j, bytes, m, n - 1) && !PassesChecks(c, j, bytes, m, n)
    ensures n != 11 ==> Verify(c, j, bytes, m) == Some(Refusal(n))
    ensures n == 11 ==>
      var d := j.parse(c.gunzip(bytes).value).value;
      forall i: nat :: FirstBadRow(d, i) ==> Verify(c, j, bytes, m) == Some(RowRefusal(d.rows, i, TableColumns(d.table)))
  {
    if n > 5 {
      var d := j.parse(c.gunzip(bytes).value).value;
      assert DocumentPasses(d, m, n - 1);
      DocumentIsRefusedByFirstCheck(d, m, n);
      hide DocumentPasses, CheckDocument, FirstBadRow, RowRefusal, TableColumns, RunKeyColumn;
      forall i: nat | FirstBadRow(d, i)
        ensures i < |d.rows| && CheckRows(d.rows, TableColumns(d.table), RunKeyColumn(d), d.runId, {}, None)
          == Some(RowRefusal(d.rows, i, TableColumns(d.table)))
      {
        FirstBadRowIsNamed(d, i);
      }
    }
  }

  // ------------------------------------------------------------- as it runs

  datatype RunKey = RunKey(kind: RunKind, runId: Id, table: TableName)

  datatype Status = Pending | Verified | Failed

  datatype Archived = Archived(manifest: Manifest, status: Status, passes: nat)

  datatype Outcome = Exported | Idempotent | ManifestMismatchThrown | HeadMismatchThrown

  /** One row of verification evidence; None means the pass passed. */
  datatype Evidence = Evidence(key: RunKey, pass: nat, failure: Option<Failure>)

  datatype VerifyOutcome = NoArchiveManifest | Checked(verified: bool)

  class ArchiveStore {
    const codec: Codec
    const json: Json
    var manifests: map<RunKey, Archived>
    var objects: map<RunKey, Bytes>
    var evidence: seq<Evidence>

    constructor (codec: Codec, json: Json)
      ensures this.codec == codec && this.json == json && manifests == map[] && objects == map[] && evidence == []
    {
      this.codec, this.json := codec, json;
      manifests, objects, evidence := map[], map[], [];
    }

    /**
     * Write the object, ask for its size (`head`), then write the manifest; with a manifest
     * already there, only check the stored object against it.
     */
    method ExportRunToArchive(t: Table, k: RunKey, now: nat, head: Option<nat>) returns (out: Outcome)
      modifies this`manifests, this`objects
      ensures k in old(manifests) ==>
        && manifests == old(manifests) && objects == old(objects)
        && (out == Idempotent <==> k in objects && Verify(codec, json, objects[k], manifests[k].manifest) == None)
        && out in {Idempotent, ManifestMismatchThrown}
      ensures k !in old(manifests) ==>
        var d := DocumentFor(t, k.table, k.kind, k.runId, now);
        && objects == old(objects)[k := codec.gzip(json.encode(d))]
        && out == (if head == Some(|objects[k]|) then Exported else HeadMismatchThrown)
        && manifests == if out == Exported
            then old(manifests)[k := Archived(ManifestFor(codec, json, d), Pending, 0)] else old(manifests)
    {
      if k in manifests {
        if k !in objects || Verify(codec, json, objects[k], manifests[k].manifest) != None {
          return ManifestMismatchThrown;
        }
        return Idempotent;
      }
      var rows := ReadAllChildRows(t, FkColumnFor(k.table), k.runId);
      var d := Document(FORMAT, SCHEMA_VERSION, k.kind, k.runId, k.table, t.columns, |rows|, now, rows);
      var body := codec.gzip(json.encode(d));
      objects := objects[k := body];
      if head != Some(|body|) {
        return HeadMismatchThrown;
      }
      manifests := manifests[k := Archived(ManifestFor(codec, json, d), Pending, 0)];
      return Exported;
    }

    /**
     * Two passes, each with its own read of the object (`None`: missing or unreadable). The
     * run counts as verified only if both reads returned bytes that pass; each pass leaves
     * its evidence.
     */
    method VerifyArchivedRun(k: RunKey, first: Option<Bytes>, second: Option<Bytes>) returns (out: VerifyOutcome)
      modifies this`manifests, this`evidence
      ensures k !in old(manifests) ==> out == NoArchiveManifest && manifests == old(manifests) && evidence == old(evidence)
      ensures k in old(manifests) ==>
        var m := old(manifests)[k].manifest;
        && out == Checked(Pass(first, m) == None && Pass(second, m) == None)
        && evidence == old(evidence) + [Evidence(k, 1, Pass(first, m)), Evidence(k, 2, Pass(second, m))]
        && manifests == old(manifests)[k := Archived(
             m, if out.verified then Verified else Failed,
             (if Pass(first, m) == None then 1 else 0) + if Pass(second, m) == None then 1 else 0)]
    {
      if k !in manifests {
        return NoArchiveManifest;
      }
      var m := manifests[k].manifest;
      var passes := 0;
      var result := Pass(first, m);
      evidence := evidence + [Evidence(k, 1, result)];
      if result == None {
        passes := passes + 1;
      }
      result := Pass(second, m);
      evidence := evidence + [Evidence(k, 2, result)];
      if result == None {
        passes := passes + 1;
      }
      manifests := manifests[k := Archived(m, if passes == 2 then Verified else Failed, passes)];
      return Checked(passes == 2);
    }

    /** `verifyArchiveObjectPass`. */
    function Pass(read: Option<Bytes>, m: Manifest): Option<Failure> {
      if read.None? then Some(ObjectMissing) else Verify(codec, json, read.value, m)
    }
  }
}
