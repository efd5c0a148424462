/**
 * Graph archives: an explicit set of anchors with every child row keyed to them, stored as
 * one object; the verifier re-checks counts, anchor identity and foreign-key closure.
 */
module GraphArchive {
  import opened Common
  import opened Keyset
  import opened Codec
  import opened Graph

  datatype Entry = Entry(id: Id, row: Row)

  datatype Part = Part(table: Name, rows: seq<Entry>)

  datatype Count = Count(table: Name, rows: nat)

  datatype Document = Document(
    format: nat, schemaVersion: nat, family: Family, archiveKey: ArchiveKey, anchorIds: seq<Id>, counts: seq<Count>,
        parts: seq<Part>)

  datatype Manifest = Manifest(
    family: Family, archiveKey: ArchiveKey, anchorCount: nat, counts: seq<Count>,
    archiveBytes: nat, originalSha: Digest, archiveSha: Digest)

  const FORMAT: nat := 1
  const SCHEMA_VERSION: nat := 1

  datatype Json = Json(encode: Document -> Bytes, parse: Bytes -> Option<Document>) {
    ghost predicate Sound() {
      forall d :: parse(encode(d)) == Some(d)
    }
  }

  /**
   * The id columns compare without letter case: `fold` turns an id as given into the id as
   * stored, and leaves that alone. These are the anchors a given set selects.
   */
  function Meant(given: set<Id>, fold: Id -> Id): set<Id> {
    set g | g in given :: fold(g)
  }

  ghost predicate Folds(fold: Id -> Id) {
    forall x :: fold(fold(x)) == fold(x)
  }

  // ----------------------------------------------------------------- archive

  function Entries(db: Db, t: Name, ids: seq<Id>): (es: seq<Entry>)
    requires forall x :: x in ids ==> x in Rows(db, t)
    ensures |es| == |ids| && forall i :: 0 <= i < |ids| ==> es[i] == Entry(ids[i], Rows(db, t)[ids[i]])
  {
    seq(|ids|, i requires 0 <= i < |ids| => assert ids[i] in ids; Entry(ids[i], Rows(db, t)[ids[i]]))
  }

  /** All rows of one table in the anchors' scope, in id order. */
  function PartFor(f: Family, db: Db, t: Name, anchors: set<Id>): Part {
    InOrderIsAll(Scoped(f, db, t, anchors));
    assert forall x :: x in InOrder(Scoped(f, db, t, anchors)) ==> x in Elements(InOrder(Scoped(f, db, t, anchors)));
    Part(t, Entries(db, t, InOrder(Scoped(f, db, t, anchors))))
  }

  function PartsFor(f: Family, db: Db, tables: seq<Name>, anchors: set<Id>): (ps: seq<Part>)
    ensures |ps| == |tables| && forall i :: 0 <= i < |tables| ==> ps[i] == PartFor(f, db, tables[i], anchors)
  {
    hide PartFor;
    if tables == [] then [] else [PartFor(f, db, tables[0], anchors)] + PartsFor(f, db, tables[1..], anchors)
  }

  function CountsOf(parts: seq<Part>): (cs: seq<Count>)
    ensures |cs| == |parts| && forall i :: 0 <= i < |parts| ==> cs[i] == Count(parts[i].table, |parts[i].rows|)
  {
    if parts == [] then [] else [Count(parts[0].table, |parts[0].rows|)] + CountsOf(parts[1..])
  }

  /** The anchor table first, then the children. */
  function Tables(f: Family): seq<Name> {
    [f.anchor] + f.childTables
  }

  /** What every family constant satisfies: distinct tables, each child with its foreign-key column. */
  predicate WellFormed(f: Family) {
    && Distinct(Tables(f))
    && (forall t :: t in f.childTables <==> t in f.children)
    && forall t :: t in f.children ==> f.children[t] != IdColumn
  }

  function DocumentFor(c: Codec, f: Family, db: Db, given: set<Id>, anchors: set<Id>): Document {
    var parts := PartsFor(f, db, Tables(f), anchors);
    Document(FORMAT, SCHEMA_VERSION, f, KeyFor(c.sha, f, given), InOrder(given), CountsOf(parts), parts)
  }

  function ManifestFor(c: Codec, j: Json, d: Document): Manifest {
    var text := j.encode(d);
    var body := c.gzip(text);
    Manifest(d.family, d.archiveKey, |d.anchorIds|, d.counts, |body|, c.sha(text), c.sha(body))
  }

  datatype ArchiveError = EmptyAnchorSet | AnchorRowCountMismatch

  datatype Result = Archived(document: Document) | Refused(error: ArchiveError)

  /** `archiveGraphBatch` without an earlier manifest: refuses an empty set and missing anchors. */
  function Archive(c: Codec, f: Family, db: Db, given: set<Id>, fold: Id -> Id): Result {
    if given == {} then Refused(EmptyAnchorSet)
    else if |Scoped(f, db, f.anchor, Meant(given, fold))| != |given| then Refused(AnchorRowCountMismatch)
    else Archived(DocumentFor(c, f, db, given, Meant(given, fold)))
  }

  // ------------------------------------------------------------ verification

  datatype Failure =
    | ObjectSizeMismatch | ArchiveChecksumMismatch | CorruptGzip | ContentChecksumMismatch | InvalidJson
    | UnsupportedVersion
    | ManifestMismatch | AnchorSetMismatch | MissingChildTable | RowCountMismatch | FkClosureViolation

  function Find(parts: seq<Part>, t: Name): Option<Part> {
    if parts == [] then None else if parts[0].table == t then Some(parts[0]) else Find(parts[1..], t)
  }

  function EntryIds(es: seq<Entry>): set<Id> {
    set e | e in es :: e.id
  }

  function CheckCounts(parts: seq<Part>, counts: seq<Count>): Option<Failure> {
    if counts == [] then None
    else
      var p := Find(parts, counts[0].table);
      if p.None? then Some(MissingChildTable)
      else if |p.value.rows| != counts[0].rows then Some(RowCountMismatch)
      else CheckCounts(parts, counts[1..])
  }

  /** Every row of the table points at an archived anchor. */
  predicate ClosedPart(p: Part, column: Column, anchors: set<Id>) {
    forall e :: e in p.rows ==> PointsInto(e.row, column, anchors)
  }

  function CheckClosure(f: Family, parts: seq<Part>, tables: seq<Name>, anchors: set<Id>): Option<Failure> {
    if tables == [] then None
    else
      var p := Find(parts, tables[0]);
      if p.None? then Some(MissingChildTable)
      else if !ClosedPart(p.value, KeyColumn(f, tables[0]), anchors) then Some(FkClosureViolation)
      else CheckClosure(f, parts, tables[1..], anchors)
  }

  function CheckDocument(d: Document, m: Manifest): Option<Failure> {
    if d.format != FORMAT || d.schemaVersion != SCHEMA_VERSION then Some(UnsupportedVersion)
    else if d.family != m.family || d.archiveKey != m.archiveKey then Some(ManifestMismatch)
    else if |Elements(d.anchorIds)| != |d.anchorIds| || |d.anchorIds| != m.anchorCount then Some(AnchorSetMismatch)
    else
      var anchorPart := Find(d.parts, d.family.anchor);
      if anchorPart.None? then Some(MissingChildTable)
      else
        var counts := CheckCounts(d.parts, m.counts);
        if counts.Some? then counts
        else if EntryIds(anchorPart.value.rows) != Elements(d.anchorIds) then Some(AnchorSetMismatch)
        else CheckClosure(d.family, d.parts, d.family.childTables, Elements(d.anchorIds))
  }

  /** `verifyGraphBytesAgainstManifest`. */
  function Verify(c: Codec, j: Json, bytes: Bytes, m: Manifest): Option<Failure> {
    if |bytes| != m.archiveBytes then Some(ObjectSizeMismatch)
    else if c.sha(bytes) != m.archiveSha then Some(ArchiveChecksumMismatch)
    else
      var text := c.gunzip(bytes);
      if text.None? then Some(CorruptGzip)
      else if c.sha(text.value) != m.originalSha then Some(ContentChecksumMismatch)
      else
        var d := j.parse(text.value);
        if d.None? then Some(InvalidJson) else CheckDocument(d.value, m)
  }

  // ---------------------------------------------------------- meaning of checks

  lemma {:induction false} CheckCountsMeans(parts: seq<Part>, counts: seq<Count>)
    ensures CheckCounts(parts, counts) == None <==>
            forall i :: 0 <= i < |counts| ==> Find(parts, counts[i].table).Some? && |Find(parts, counts[i].table).value.rows| == counts[i].rows
  {
    if counts != [] {
      CheckCountsMeans(parts, counts[1..]);
      assert forall i :: 0 < i < |counts| ==> counts[i] == counts[1..][i - 1];
    }
  }

  lemma {:induction false} CheckClosureMeans(f: Family, parts: seq<Part>, tables: seq<Name>, anchors: set<Id>)
    ensures CheckClosure(f, parts, tables, anchors) == None <==>
            forall i :: 0 <= i < |tables| ==> Find(parts, tables[i]).Some? && ClosedPart(Find(parts, tables[i]).value, KeyColumn(f, tables[i]), anchors)
  {
    if tables != [] {
      hide ClosedPart, KeyColumn;
      CheckClosureMeans(f, parts, tables[1..], anchors);
      assert forall i :: 0 < i < |tables| ==> tables[i] == tables[1..][i - 1];
    }
  }

  lemma {:induction false} FindPart(f: Family, db: Db, tables: seq<Name>, anchors: set<Id>, i: nat)
    requires i < |tables| && Distinct(tables)
    ensures Find(PartsFor(f, db, tables, anchors), tables[i]) == Some(PartFor(f, db, tables[i], anchors))
  {
    if i > 0 {
      FindPart(f, db, tables[1..], anchors, i - 1);
    }
  }

  lemma PartIsTheScope(f: Family, db: Db, t: Name, anchors: set<Id>)
    ensures var p := PartFor(f, db, t, anchors);
      && EntryIds(p.rows) == Scoped(f, db, t, anchors) && |p.rows| == |Scoped(f, db, t, anchors)|
      && (KeyColumn(f, t) != IdColumn ==> ClosedPart(p, KeyColumn(f, t), anchors))
  {
    var scope := Scoped(f, db, t, anchors);
    InOrderIsAll(scope);
    var p := PartFor(f, db, t, anchors);
    forall i | 0 <= i < |p.rows|
      ensures p.rows[i].id in scope && p.rows[i].row == Rows(db, t)[p.rows[i].id]
    {
      assert InOrder(scope)[i] in Elements(InOrder(scope));
    }
    forall x | x in scope
      ensures x in EntryIds(p.rows)
    {
      assert x in Elements(InOrder(scope));
      var i :| 0 <= i < |InOrder(scope)| && InOrder(scope)[i] == x;
      assert p.rows[i] in p.rows;
    }
  }

  // ------------------------------------------------------------ main results

  /**
   * Archive then verify, whatever the database holds: a written archive passes every check
   * exactly when the anchors were given in the letter case they are stored in; otherwise the
   * anchor check refuses it.
   */
  lemma ArchiveThenVerify(c: Codec, j: Json, f: Family, db: Db, given: set<Id>, fold: Id -> Id)
    requires c.Sound() && j.Sound() && WellFormed(f) && Folds(fold)
    requires Archive(c, f, db, given, fold).Archived?
    ensures var d := Archive(c, f, db, given, fold).document;
      Verify(c, j, c.gzip(j.encode(d)), ManifestFor(c, j, d))
        == if forall g :: g in given ==> fold(g) == g then None else Some(AnchorSetMismatch)
  {
    var anchors := Meant(given, fold);
    var d := DocumentFor(c, f, db, given, anchors);
    InOrderIsAll(given);
    ArchiveClosed(f, db, anchors);
    ArchiveCounts(f, db, anchors);
    MeantSize(given, fold);
    AnchorsArchived(f, db, anchors, |given|);
    OwnSpelling(given, fold);
    hide CheckCounts, CheckClosure, Scoped, PartsFor, Find, Elements, EntryIds, WellFormed, Meant, Folds;
    assert CheckDocument(d, ManifestFor(c, j, d)) == if anchors == given then None else Some(AnchorSetMismatch);
  }

  lemma {:induction false} MeantSize(given: set<Id>, fold: Id -> Id)
    ensures |Meant(given, fold)| <= |given|
  {
    if given != {} {
      var g :| g in given;
      var rest := given - {g};
      MeantSize(rest, fold);
      assert Meant(given, fold) == Meant(rest, fold) + {fold(g)};
    }
  }

  /** The selected anchors are the given ids exactly when each is spelled as stored. */
  lemma OwnSpelling(given: set<Id>, fold: Id -> Id)
    requires Folds(fold)
    ensures Meant(given, fold) == given <==> forall g :: g in given ==> fold(g) == g
  {
    if forall g :: g in given ==> fold(g) == g {
      forall x
        ensures x in Meant(given, fold) <==> x in given
      {
        assert x in given ==> fold(x) == x;
      }
    }
  }

  lemma AnchorsArchived(f: Family, db: Db, anchors: set<Id>, n: nat)
    requires WellFormed(f) && |Scoped(f, db, f.anchor, anchors)| == n && |anchors| <= n
    ensures var p := Find(PartsFor(f, db, Tables(f), anchors), f.anchor);
      p.Some? && EntryIds(p.value.rows) == anchors
  {
    FindPart(f, db, Tables(f), anchors, 0);
    PartIsTheScope(f, db, f.anchor, anchors);
    var scope := Scoped(f, db, f.anchor, anchors);
    assert anchors == scope + (anchors - scope);
    assert |anchors - scope| == 0;
  }

  lemma ArchiveCounts(f: Family, db: Db, anchors: set<Id>)
    requires WellFormed(f)
    ensures var parts := PartsFor(f, db, Tables(f), anchors); CheckCounts(parts, CountsOf(parts)) == None
  {
    var parts := PartsFor(f, db, Tables(f), anchors);
    CheckCountsMeans(parts, CountsOf(parts));
    forall i | 0 <= i < |parts|
      ensures Find(parts, parts[i].table) == Some(parts[i])
    {
      FindPart(f, db, Tables(f), anchors, i);
    }
  }

  lemma ArchiveClosed(f: Family, db: Db, anchors: set<Id>)
    requires WellFormed(f)
    ensures CheckClosure(f, PartsFor(f, db, Tables(f), anchors), f.childTables, anchors) == None
  {
    var parts := PartsFor(f, db, Tables(f), anchors);
    CheckClosureMeans(f, parts, f.childTables, anchors);
    forall i | 0 <= i < |f.childTables|
      ensures Find(parts, f.childTables[i]).Some?
          && ClosedPart(Find(parts, f.childTables[i]).value, KeyColumn(f, f.childTables[i]), anchors)
    {
      var t := f.childTables[i];
      assert Tables(f)[i + 1] == t;
      FindPart(f, db, Tables(f), anchors, i + 1);
      assert t in f.children && t != f.anchor;
      PartIsTheScope(f, db, t, anchors);
    }
  }

  /** Bytes that verify against an archive's manifest are the archive's bytes. */
  lemma VerifiedBytesAreTheArchive(c: Codec, j: Json, d: Document, bytes: Bytes)
    requires c.Sound() && j.Sound() && Verify(c, j, bytes, ManifestFor(c, j, d)) == None
    ensures bytes == c.gzip(j.encode(d)) && c.gunzip(bytes) == Some(j.encode(d)) && j.parse(j.encode(d)) == Some(d)
  {
    hide CheckDocument;
  }

  /**
   * Passing bytes, whatever the manifest: the anchor rows are exactly the anchor ids, and no
   * child row points outside them.
   */
  lemma VerifiedMeansClosed(c: Codec, j: Json, bytes: Bytes, m: Manifest)
    requires Verify(c, j, bytes, m) == None
    ensures c.gunzip(bytes).Some? && j.parse(c.gunzip(bytes).value).Some?
    ensures var d := j.parse(c.gunzip(bytes).value).value; var anchors := Elements(d.anchorIds);
      && d.family == m.family && |anchors| == m.anchorCount
      && Find(d.parts, d.family.anchor).Some? && EntryIds(Find(d.parts, d.family.anchor).value.rows) == anchors
      && (forall i :: 0 <= i < |m.counts| ==>
            Find(d.parts, m.counts[i].table).Some? && |Find(d.parts, m.counts[i].table).value.rows| == m.counts[i].rows)
      && (forall t :: t in d.family.childTables ==>
            Find(d.parts, t).Some? && ClosedPart(Find(d.parts, t).value, KeyColumn(d.family, t), anchors))
  {
    hide Find, ClosedPart, KeyColumn, EntryIds, Elements;
    var d := j.parse(c.gunzip(bytes).value).value;
    CheckCountsMeans(d.parts, m.counts);
    CheckClosureMeans(d.family, d.parts, d.family.childTables, Elements(d.anchorIds));
  }

  // ---------------------------------------------------------- the first check

  /** The first `n` of the twelve checks of stored bytes, in the order they are made. */
  ghost predicate PassesChecks(c: Codec, j: Json, bytes: Bytes, m: Manifest, n: nat) {
    && (n >= 1 ==> |bytes| == m.archiveBytes)
    && (n >= 2 ==> c.sha(bytes) == m.archiveSha)
    && (n >= 3 ==> c.gunzip(bytes).Some?)
    && (n >= 4 ==> c.sha(c.gunzip(bytes).value) == m.originalSha)
    && (n >= 5 ==> j.parse(c.gunzip(bytes).value).Some?)
    && (n >= 6 ==> DocumentPasses(j.parse(c.gunzip(bytes).value).value, m, n))
  }

  ghost predicate DocumentPasses(d: Document, m: Manifest, n: nat) {
    && (n >= 6 ==> d.format == 1 && d.schemaVersion == 1)
    && (n >= 7 ==> m.family == d.family && m.archiveKey == d.archiveKey)
    && (n >= 8 ==> DistinctIds(d.anchorIds) && |d.anchorIds| == m.anchorCount)
    && (n >= 9 ==> Find(d.parts, d.family.anchor).Some?)
    && (n >= 10 ==> forall i :: 0 <= i < |m.counts| ==> Counted(d.parts, m.counts[i]))
    && (n >= 11 ==> RowsAreOf(Find(d.parts, d.family.anchor).value, d.anchorIds))
    && (n >= 12 ==> forall i :: 0 <= i < |d.family.childTables| ==> Closed(d, d.family.childTables[i]))
  }

  predicate DistinctIds(ids: seq<Id>) {
    forall i, k :: 0 <= i < k < |ids| ==> ids[i] != ids[k]
  }

  predicate Counted(parts: seq<Part>, count: Count) {
    var p := Find(parts, count.table);
    p.Some? && |p.value.rows| == count.rows
  }

  /** The ids of the rows are exactly these. */
  ghost predicate RowsAreOf(p: Part, ids: seq<Id>) {
    && (forall e :: e in p.rows ==> e.id in ids)
    && forall x :: x in ids ==> exists e :: e in p.rows && e.id == x
  }

  /** The table is there, and every row of it points at an anchor. */
  predicate Closed(d: Document, t: Name) {
    var p := Find(d.parts, t);
    p.Some? && forall e :: e in p.value.rows ==> PointsInto(e.row, KeyColumn(d.family, t), Elements(d.anchorIds))
  }

  /** The failure each check names; checks 10 and 12 name that of their first table at fault. */
  function Refusal(n: nat): Failure {
    match n
    case 1 => ObjectSizeMismatch
    case 2 => ArchiveChecksumMismatch
    case 3 => CorruptGzip
    case 4 => ContentChecksumMismatch
    case 5 => InvalidJson
    case 6 => UnsupportedVersion
    case 7 => ManifestMismatch
    case 9 => MissingChildTable
    case _ => AnchorSetMismatch
  }

  lemma {:induction false} RefusedAtCount(parts: seq<Part>, counts: seq<Count>, i: nat)
    requires i < |counts| && (forall k :: 0 <= k < i ==> Counted(parts, counts[k])) && !Counted(parts, counts[i])
    ensures CheckCounts(parts, counts)
      == Some(if Find(parts, counts[i].table).None? then MissingChildTable else RowCountMismatch)
  {
    if i > 0 {
      assert Counted(parts, counts[0]);
      assert forall k :: 0 <= k < i - 1 ==> counts[1..][k] == counts[k + 1];
      RefusedAtCount(parts, counts[1..], i - 1);
    }
  }

  lemma {:induction false} RefusedAtTable(d: Document, tables: seq<Name>, i: nat)
    requires i < |tables| && (forall k :: 0 <= k < i ==> Closed(d, tables[k])) && !Closed(d, tables[i])
    ensures CheckClosure(d.family, d.parts, tables, Elements(d.anchorIds))
      == Some(if Find(d.parts, tables[i]).None? then MissingChildTable else FkClosureViolation)
  {
    if i > 0 {
      assert Closed(d, tables[0]);
      assert forall k :: 0 <= k < i - 1 ==> tables[1..][k] == tables[k + 1];
      RefusedAtTable(d, tables[1..], i - 1);
    }
  }

  lemma {:induction false} DistinctIsFull(ids: seq<Id>)
    ensures |Elements(ids)| <= |ids| && (|Elements(ids)| == |ids| <==> DistinctIds(ids))
  {
    if ids != [] {
      var rest := ids[1..];
      DistinctIsFull(rest);
      assert Elements(ids) == {ids[0]} + Elements(rest);
      if DistinctIds(rest) && ids[0] !in rest {
        assert forall i, k :: 0 <= i < k < |ids| ==> (i > 0 ==> ids[i] == rest[i - 1]) && ids[k] == rest[k - 1];
      }
    }
  }

  lemma SameRows(p: Part, ids: seq<Id>)
    ensures EntryIds(p.rows) == Elements(ids) <==> RowsAreOf(p, ids)
  {
    if EntryIds(p.rows) == Elements(ids) {
      forall x | x in ids
        ensures exists e :: e in p.rows && e.id == x
      {
        assert x in EntryIds(p.rows);
      }
      forall e | e in p.rows
        ensures e.id in ids
      {
        assert e.id in EntryIds(p.rows);
      }
    }
  }

  lemma DocumentIsRefusedByFirstCheck(d: Document, m: Manifest, n: nat)
    requires 6 <= n <= 12 && DocumentPasses(d, m, n - 1)
    ensures CheckDocument(d, m) == None <==> DocumentPasses(d, m, 12)
    ensures !DocumentPasses(d, m, n) && n !in {10, 12} ==> CheckDocument(d, m) == Some(Refusal(n))
    ensures !DocumentPasses(d, m, n) && n == 10 ==> CheckDocument(d, m) == CheckCounts(d.parts, m.counts)
    ensures !DocumentPasses(d, m, n) && n == 12 ==>
      CheckDocument(d, m) == CheckClosure(d.family, d.parts, d.family.childTables, Elements(d.anchorIds))
  {
    var tables := d.family.childTables;
    CheckCountsMeans(d.parts, m.counts);
    CheckClosureMeans(d.family, d.parts, tables, Elements(d.anchorIds));
    DistinctIsFull(d.anchorIds);
    assert forall i :: 0 <= i < |tables| ==> (Closed(d, tables[i]) <==>
      Find(d.parts, tables[i]).Some? && ClosedPart(Find(d.parts, tables[i]).value, KeyColumn(d.family, tables[i]), Elements(d.anchorIds)));
    if Find(d.parts, d.family.anchor).Some? {
      SameRows(Find(d.parts, d.family.anchor).value, d.anchorIds);
    }
    hide Find, ClosedPart, Closed, RowsAreOf, EntryIds, Elements, CheckCounts, CheckClosure, DistinctIds;
  }

  /** Bytes pass exactly when all twelve checks do. */
  lemma VerifiedIsAllChecks(c: Codec, j: Json, bytes: Bytes, m: Manifest)
    ensures Verify(c, j, bytes, m) == None <==> PassesChecks(c, j, bytes, m, 12)
  {
    if PassesChecks(c, j, bytes, m, 5) {
      var d := j.parse(c.gunzip(bytes).value).value;
      DocumentIsRefusedByFirstCheck(d, m, 6);
      hide DocumentPasses, CheckDocument;
    }
  }

  /** The tables before the i-th are as counted, or closed, and it is not. */
  ghost predicate FirstMiscount(d: Document, m: Manifest, i: nat) {
    i < |m.counts| && (forall k :: 0 <= k < i ==> Counted(d.parts, m.counts[k])) && !Counted(d.parts, m.counts[i])
  }

  ghost predicate FirstOpen(d: Document, i: nat) {
    var tables := d.family.childTables;
    i < |tables| && (forall k :: 0 <= k < i ==> Closed(d, tables[k])) && !Closed(d, tables[i])
  }

  /** A refusal names the first check that fails, and of the tables the first at fault. */
  lemma RefusedByFirstCheck(c: Codec, j: Json, bytes: Bytes, m: Manifest, n: nat)
    requires 1 <= n <= 12 && PassesChecks(c, j, bytes, m, n - 1) && !PassesChecks(c, j, bytes, m, n)
    ensures n !in {10, 12} ==> Verify(c, j, bytes, m) == Some(Refusal(n))
    ensures n == 10 ==>
      var d := j.parse(c.gunzip(bytes).value).value;
      forall i: nat :: FirstMiscount(d, m, i) ==>
        var missing := Find(d.parts, m.counts[i].table).None?;
        Verify(c, j, bytes, m) == Some(if missing then MissingChildTable else RowCountMismatch)
    ensures n == 12 ==>
      var d := j.parse(c.gunzip(bytes).value).value;
      forall i: nat :: FirstOpen(d, i) ==>
        var missing := Find(d.parts, d.family.childTables[i]).None?;
        Verify(c, j, bytes, m) == Some(if missing then MissingChildTable else FkClosureViolation)
  {
    if n > 5 {
      var d := j.parse(c.gunzip(bytes).value).value;
      assert DocumentPasses(d, m, n - 1);
      DocumentIsRefusedByFirstCheck(d, m, n);
      hide DocumentPasses, CheckDocument, Find, Counted, Closed, CheckCounts, CheckClosure;
      forall i: nat | FirstMiscount(d, m, i)
        ensures CheckCounts(d.parts, m.counts)
          == Some(if Find(d.parts, m.counts[i].table).None? then MissingChildTable else RowCountMismatch)
      {
        RefusedAtCount(d.parts, m.counts, i);
      }
      forall i: nat | FirstOpen(d, i)
        ensures CheckClosure(d.family, d.parts, d.family.childTables, Elements(d.anchorIds))
          == Some(if Find(d.parts, d.family.childTables[i]).None? then MissingChildTable else FkClosureViolation)
      {
        RefusedAtTable(d, d.family.childTables, i);
      }
    }
  }

  /**
   * What deletion relies on: with the allowlist equal to the archived anchors, every row it will
   * delete is in the archive.
   */
  lemma ArchiveHoldsTheDeletionScope(c: Codec, f: Family, db: Db, given: set<Id>, fold: Id -> Id, t: Name)
    requires WellFormed(f) && Archive(c, f, db, given, fold).Archived? && t in Tables(f)
    ensures var p := Find(Archive(c, f, db, given, fold).document.parts, t);
      && p.Some? && EntryIds(p.value.rows) == Scoped(f, db, t, Meant(given, fold))
      && forall e :: e in p.value.rows ==> e.id in Rows(db, t) && Rows(db, t)[e.id] == e.row
  {
    var anchors := Meant(given, fold);
    hide Scoped, PartFor, InOrder, Find, WellFormed;
    var i :| 0 <= i < |Tables(f)| && Tables(f)[i] == t;
    DistinctTables(f);
    FindPart(f, db, Tables(f), anchors, i);
    PartIsTheScope(f, db, t, anchors);
    PartRowsAreLive(f, db, t, anchors);
  }

  lemma DistinctTables(f: Family)
    requires WellFormed(f)
    ensures Distinct(Tables(f))
  {
  }

  lemma PartRowsAreLive(f: Family, db: Db, t: Name, anchors: set<Id>)
    ensures forall e :: e in PartFor(f, db, t, anchors).rows ==> e.id in Rows(db, t) && Rows(db, t)[e.id] == e.row
  {
    var scope := Scoped(f, db, t, anchors);
    InOrderIsAll(scope);
    forall k | 0 <= k < |scope|
      ensures InOrder(scope)[k] in Rows(db, t)
    {
      assert InOrder(scope)[k] in Elements(InOrder(scope));
    }
  }

  /** The tables a family deletes from are the tables it archives. */
  lemma DeletedTablesAreArchived(t: Name)
    ensures WellFormed(BATTLE_GRAPH) && (t in BATTLE_GRAPH.deleteOrder <==> t in Tables(BATTLE_GRAPH))
    ensures WellFormed(WORKFLOW_AUDIT) && (t in WORKFLOW_AUDIT.deleteOrder <==> t in Tables(WORKFLOW_AUDIT))
    ensures forall only :: WellFormed(SingleTable(only)) && SingleTable(only).deleteOrder == Tables(SingleTable(only))
  {
    BattleTablesAreArchived(t);
    WorkflowTablesAreArchived(t);
    hide WellFormed, Tables;
    forall only
      ensures WellFormed(SingleTable(only)) && SingleTable(only).deleteOrder == Tables(SingleTable(only))
    {
      SingleTableIsArchived(only);
    }
  }

  lemma BattleTablesAreArchived(t: Name)
    ensures WellFormed(BATTLE_GRAPH) && (t in BATTLE_GRAPH.deleteOrder <==> t in Tables(BATTLE_GRAPH))
  {
    assert Tables(BATTLE_GRAPH) == [NormalizedBattles, BattleParticipants, BattleTeams, BattleObservations];
  }

  lemma WorkflowTablesAreArchived(t: Name)
    ensures WellFormed(WORKFLOW_AUDIT) && (t in WORKFLOW_AUDIT.deleteOrder <==> t in Tables(WORKFLOW_AUDIT))
  {
    assert Tables(WORKFLOW_AUDIT) == [WorkflowRuns, WorkflowSteps];
  }

  lemma SingleTableIsArchived(only: Name)
    ensures WellFormed(SingleTable(only)) && SingleTable(only).deleteOrder == Tables(SingleTable(only))
  {
  }

  /** One stored player and its id given in another letter case. */
  const PLAYERS: Db := map[ObservedPlayers := map[1 := map[]]]

  /** The archive is written, and its own verification refuses it. */
  lemma OtherCaseIsRefused(c: Codec, j: Json)
    requires c.Sound() && j.Sound()
    ensures var fold := (x: Id) => if x == 2 then 1 else x;
      var r := Archive(c, SingleTable(ObservedPlayers), PLAYERS, {2}, fold);
      && r.Archived?
      && Verify(c, j, c.gzip(j.encode(r.document)), ManifestFor(c, j, r.document)) == Some(AnchorSetMismatch)
  {
    var fold := (x: Id) => if x == 2 then 1 else x;
    var f := SingleTable(ObservedPlayers);
    assert Meant({2}, fold) == {1};
    assert Scoped(f, PLAYERS, ObservedPlayers, {1}) == {1};
    hide Verify, ManifestFor, DocumentFor, Scoped;
    ArchiveThenVerify(c, j, f, PLAYERS, {2}, fold);
  }
}
