/**
 * Archive-gated deletion of a run's child rows: bounded batches, each committed together
 * with its checkpoint, resumable after any failure or crash. One executor at a time per
 * (run, table); other sessions may insert rows, only the executor deletes them.
 */
module Deletion {
  import opened Common
  import opened Keyset

  datatype RecordStatus = Planned | Completed | FailedBatch

  /** A row of retention_deletion_manifests; batch number 0 is the intent record. */
  datatype Record = Record(status: RecordStatus, cursor: Option<Id>, rowsDeleted: nat)

  datatype Disk = Disk(rows: set<Id>, log: map<nat, Record>)

  // ------------------------------------------------------------- checkpoints

  function CompletedBatches(log: map<nat, Record>): set<nat> {
    set n | n in log && n > 0 && log[n].status == Completed
  }

  ghost function SumDeleted(log: map<nat, Record>, batches: set<nat>): nat
    requires batches <= log.Keys
  {
    if batches == {} then 0
    else
      var n :| n in batches;
      log[n].rowsDeleted + SumDeleted(log, batches - {n})
  }

  lemma {:induction false} SumTakesOut(log: map<nat, Record>, batches: set<nat>, n: nat)
    requires batches <= log.Keys && n in batches
    ensures SumDeleted(log, batches) == log[n].rowsDeleted + SumDeleted(log, batches - {n})
  {
    var m :| m in batches && SumDeleted(log, batches) == log[m].rowsDeleted + SumDeleted(log, batches - {m});
    if m != n {
      SumTakesOut(log, batches - {m}, n);
      SumTakesOut(log, batches - {n}, m);
      assert batches - {m} - {n} == batches - {n} - {m};
    }
  }

  lemma {:induction false} SumIgnoresOthers(log: map<nat, Record>, log': map<nat, Record>, batches: set<nat>)
    requires batches <= log.Keys && batches <= log'.Keys
    requires forall n :: n in batches ==> log'[n] == log[n]
    ensures SumDeleted(log', batches) == SumDeleted(log, batches)
  {
    if batches != {} {
      var n :| n in batches;
      SumTakesOut(log, batches, n);
      SumTakesOut(log', batches, n);
      SumIgnoresOthers(log, log', batches - {n});
    }
  }

  /** `deleted_rows` of the checkpoint query: the sum over completed batches. */
  ghost function DeletedSoFar(log: map<nat, Record>): nat {
    SumDeleted(log, CompletedBatches(log))
  }

  /** The newest completed batch, 0 when there is none. */
  function LastBatch(log: map<nat, Record>): (m: nat)
    ensures CompletedBatches(log) == {} ==> m == 0
    ensures CompletedBatches(log) != {} ==> m in CompletedBatches(log) && forall n :: n in CompletedBatches(log) ==>
        n <= m
  {
    Highest(CompletedBatches(log))
  }

  function Highest(s: set<nat>): (m: nat)
    ensures s == {} ==> m == 0
    ensures s != {} ==> m in s && forall n :: n in s ==> n <= m
  {
    if s == {} then 0
    else
      var l := Least(s);
      if s == {l} then l
      else
        var rest := Highest(s - {l});
        assert s == (s - {l}) + {l};
        rest
  }

  function LastCursor(log: map<nat, Record>): Option<Id> {
    var n := LastBatch(log);
    if n == 0 || n !in log then None else log[n].cursor
  }

  // ------------------------------------------------------------ transactions

  /** What the executor keeps in memory between batches. */
  datatype Executor = Executor(cursor: Option<Id>, batchNumber: nat, alreadyDeleted: nat, totalDeleted: nat)

  datatype BatchResult = Committed(disk: Disk, executor: Executor, deleted: nat) | Refused

  /** One iteration of the batch loop: re-check the count, delete a page above the cursor, record it, commit. */
  function BatchTxn(d: Disk, x: Executor, rowCount: nat, batchSize: nat, eligible: bool): BatchResult {
    if !eligible then Refused
    else if |d.rows| + x.alreadyDeleted + x.totalDeleted != rowCount then Refused
    else
      var page := Page(d.rows, x.cursor, batchSize);
      if page == [] then Committed(d, x, 0)
      else
        var n := x.batchNumber + 1;
        Committed(
          Disk(d.rows - Elements(page), d.log[n := Record(Completed, Some(Last(page)), |page|)]),
          Executor(Some(Last(page)), n, x.alreadyDeleted, x.totalDeleted + |page|),
          |page|)
  }

  // ------------------------------------------------------------------ system

  /** `gone`: the rows deleted so far, a history of the committed batches. */
  datatype System = System(disk: Disk, gone: set<Id>, executor: Option<Executor>)

  datatype Action =
    | Resume
    | Batch(batchSize: nat, eligible: bool)
    | RecordFailure(offset: nat)
    | RecordIntent(status: RecordStatus)
    | Crash
    | InsertElsewhere(ids: set<Id>)

  ghost predicate Enabled(s: System, a: Action) {
    match a
    case Resume => s.executor.None?
    case Batch(size, _) => s.executor.Some? && size > 0
    case RecordFailure(offset) => s.executor.Some? && offset in {1, 2}
    case RecordIntent(_) => s.executor.Some?
    case Crash => s.executor.Some?
    case InsertElsewhere(ids) => ids !! s.disk.rows && ids !! s.gone
  }

  ghost function Next(s: System, a: Action, rowCount: nat): System
    requires Enabled(s, a)
  {
    var d := s.disk;
    match a
    case Resume => s.(executor := Some(Executor(LastCursor(d.log), LastBatch(d.log), DeletedSoFar(d.log), 0)))
    case Batch(size, eligible) =>
      (match BatchTxn(d, s.executor.value, rowCount, size, eligible)
       case Committed(d', x', _) => System(d', s.gone + (d.rows - d'.rows), Some(x'))
       case Refused => s)
    case RecordFailure(offset) =>
      var x := s.executor.value;
      System(d.(log := d.log[x.batchNumber + offset := Record(FailedBatch, x.cursor, 0)]), s.gone, None)
    case RecordIntent(status) => s.(disk := d.(log := d.log[0 := Record(status, s.executor.value.cursor, 0)]))
    case Crash => s.(executor := None)
    case InsertElsewhere(ids) => s.(disk := d.(rows := d.rows + ids))
  }

  /** `archived`: the ids in the run's verified archive, as many as the manifest's row count. */
  ghost predicate Inv(s: System, archived: set<Id>) {
    && s.gone <= archived && s.gone !! s.disk.rows
    && archived <= s.disk.rows + s.gone
    && |s.gone| == DeletedSoFar(s.disk.log)
    && (forall x :: x in s.disk.rows && x in archived ==> After(x, LastCursor(s.disk.log)))
    && (s.executor.Some? ==>
          var x := s.executor.value;
          && x.alreadyDeleted + x.totalDeleted == DeletedSoFar(s.disk.log)
          && x.batchNumber == LastBatch(s.disk.log) && x.cursor == LastCursor(s.disk.log))
  }

  lemma LogUpdateBelow(log: map<nat, Record>, n: nat, r: Record)
    requires n !in CompletedBatches(log) && (n == 0 || r.status != Completed)
    ensures var log' := log[n := r];
      && CompletedBatches(log') == CompletedBatches(log)
      && DeletedSoFar(log') == DeletedSoFar(log)
      && LastBatch(log') == LastBatch(log) && LastCursor(log') == LastCursor(log)
  {
    var log' := log[n := r];
    assert CompletedBatches(log') == CompletedBatches(log);
    SumIgnoresOthers(log, log', CompletedBatches(log));
  }

  lemma LogAppend(log: map<nat, Record>, r: Record)
    requires r.status == Completed
    ensures var n := LastBatch(log) + 1; var log' := log[n := r];
      && DeletedSoFar(log') == DeletedSoFar(log) + r.rowsDeleted
      && LastBatch(log') == n && LastCursor(log') == r.cursor
  {
    var n := LastBatch(log) + 1;
    var log' := log[n := r];
    assert n !in CompletedBatches(log);
    assert CompletedBatches(log') == CompletedBatches(log) + {n};
    SumTakesOut(log', CompletedBatches(log'), n);
    assert CompletedBatches(log') - {n} == CompletedBatches(log);
    SumIgnoresOthers(log, log', CompletedBatches(log));
  }

  /**
   * The count check leaves no room for a stranger: when it passes, the rows still there plus the
   * rows gone are exactly the archived set.
   */
  lemma CountCheckIsIdentity(s: System, archived: set<Id>)
    requires Inv(s, archived) && |s.disk.rows| + |s.gone| == |archived|
    ensures s.disk.rows + s.gone == archived
  {
    var all := s.disk.rows + s.gone;
    assert |all| == |archived|;
    if all != archived {
      var x :| x in all && x !in archived;
      SubsetSize(archived, all - {x});
    }
  }

  /** The page deleted and what it leaves: nothing of the archive is left at or below the new checkpoint. */
  lemma PageDeleted(rows: set<Id>, cursor: Option<Id>, size: nat, archived: set<Id>)
    requires Page(rows, cursor, size) != []
    requires forall x :: x in rows && x in archived ==> After(x, cursor)
    ensures var page := Page(rows, cursor, size);
      && Elements(page) <= rows && |Elements(page)| == |page|
      && forall y :: y in rows - Elements(page) && y in archived ==> After(y, Some(Last(page)))
  {
    var page := Page(rows, cursor, size);
    PageIsPrefix(rows, cursor, size);
    AscendingCardinality(page);
    forall y | y in rows - Elements(page) && y in archived
      ensures After(y, Some(Last(page)))
    {
      assert y in Above(rows, cursor);
    }
  }

  /** The invariant after one page went, with the log seen only through its checkpoint. */
  lemma PageKeeps(s: System, archived: set<Id>, size: nat)
    requires Inv(s, archived) && s.executor.Some? && Page(s.disk.rows, s.executor.value.cursor, size) != []
    requires |s.disk.rows| + |s.gone| == |archived|
    ensures var x := s.executor.value; var page := Page(s.disk.rows, x.cursor, size); var n := x.batchNumber + 1;
      Inv(System(
            Disk(s.disk.rows - Elements(page), s.disk.log[n := Record(Completed, Some(Last(page)), |page|)]),
            s.gone + Elements(page),
            Some(Executor(Some(Last(page)), n, x.alreadyDeleted, x.totalDeleted + |page|))), archived)
  {
    hide Page, DeletedSoFar, LastBatch, LastCursor, CompletedBatches, Last, Elements;
    var x := s.executor.value;
    var page := Page(s.disk.rows, x.cursor, size);
    CountCheckIsIdentity(s, archived);
    PageDeleted(s.disk.rows, x.cursor, size, archived);
    LogAppend(s.disk.log, Record(Completed, Some(Last(page)), |page|));
    assert |s.gone + Elements(page)| == |s.gone| + |Elements(page)|;
  }

  lemma GoneIsCounted(s: System, archived: set<Id>)
    requires Inv(s, archived) && s.executor.Some?
    ensures s.executor.value.alreadyDeleted + s.executor.value.totalDeleted == |s.gone|
  {
  }

  /** The three things a batch can do: nothing, delete a page, or refuse. */
  lemma BatchNext(s: System, size: nat, eligible: bool, rowCount: nat)
    requires Enabled(s, Batch(size, eligible))
    ensures var x := s.executor.value; var page := Page(s.disk.rows, x.cursor, size); var n := x.batchNumber + 1;
      var s' := Next(s, Batch(size, eligible), rowCount);
      if eligible && |s.disk.rows| + x.alreadyDeleted + x.totalDeleted == rowCount && page != [] then
        s' == System(
          Disk(s.disk.rows - Elements(page), s.disk.log[n := Record(Completed, Some(Last(page)), |page|)]),
          s.gone + Elements(page),
          Some(Executor(Some(Last(page)), n, x.alreadyDeleted, x.totalDeleted + |page|)))
      else s' == s
  {
    hide Page, Last;
    var page := Page(s.disk.rows, s.executor.value.cursor, size);
    var rows := s.disk.rows;
    assert forall y :: y in page ==> y in Above(rows, s.executor.value.cursor);
    assert rows - (rows - Elements(page)) == Elements(page);
    assert rows - rows == {} && s.gone + {} == s.gone;
  }

  lemma BatchKeeps(s: System, archived: set<Id>, size: nat, eligible: bool)
    requires Inv(s, archived) && Enabled(s, Batch(size, eligible))
    ensures Inv(Next(s, Batch(size, eligible), |archived|), archived)
  {
    GoneIsCounted(s, archived);
    BatchNext(s, size, eligible, |archived|);
    hide Inv, Page, Next, Last, Elements;
    var x := s.executor.value;
    if eligible && |s.disk.rows| + x.alreadyDeleted + x.totalDeleted == |archived|
        && Page(s.disk.rows, x.cursor, size) != [] {
      PageKeeps(s, archived, size);
    }
  }

  lemma NextKeeps(s: System, a: Action, archived: set<Id>)
    requires Inv(s, archived) && Enabled(s, a)
    ensures Inv(Next(s, a, |archived|), archived)
  {
    match a
    case Batch(size, eligible) => BatchKeeps(s, archived, size, eligible);
    case RecordFailure(offset) =>
      LogUpdateBelow(s.disk.log, s.executor.value.batchNumber + offset,
          Record(FailedBatch, s.executor.value.cursor, 0));
    case RecordIntent(status) => LogUpdateBelow(s.disk.log, 0, Record(status, s.executor.value.cursor, 0));
    case _ =>
  }

  ghost predicate Path(states: seq<System>, actions: seq<Action>, rowCount: nat) {
    && |states| == |actions| + 1
    && forall i :: 0 <= i < |actions| ==> Enabled(states[i], actions[i]) && states[i + 1] == Next(states[i], actions[i], rowCount)
  }

  // ------------------------------------------------------------ main results

  /**
   * In every committed state of every run of batches, failures, crashes, resumes and
   * foreign inserts: archived rows still there plus the completed rows_deleted equal the
   * manifest's row count, only archived rows were ever deleted, and every archived row
   * still there lies above the last checkpoint.
   */
  lemma {:induction false} DeletionConserves(states: seq<System>, actions: seq<Action>, archived: set<Id>)
    requires Path(states, actions, |archived|) && Inv(states[0], archived)
    ensures forall i :: 0 <= i < |states| ==>
      var s := states[i];
      && |s.disk.rows * archived| + DeletedSoFar(s.disk.log) == |archived|
      && s.gone <= archived
      && forall x :: x in s.disk.rows * archived ==> After(x, LastCursor(s.disk.log))
  {
    var i := 0;
    while i < |actions|
      invariant 0 <= i <= |actions|
      invariant forall k :: 0 <= k <= i ==> Inv(states[k], archived)
    {
      NextKeeps(states[i], actions[i], archived);
      i := i + 1;
    }
    forall k | 0 <= k < |states|
      ensures |states[k].disk.rows * archived| + DeletedSoFar(states[k].disk.log) == |archived|
    {
      var s := states[k];
      assert archived == (s.disk.rows * archived) + s.gone;
      assert (s.disk.rows * archived) !! s.gone;
    }
  }

  /**
   * The executor's final check: with nothing left and the counts adding up, the deleted rows are
   * exactly the archived ones.
   */
  lemma SuccessMeansExactlyTheArchive(s: System, archived: set<Id>)
    requires Inv(s, archived) && s.disk.rows == {}
    ensures s.gone == archived && DeletedSoFar(s.disk.log) == |archived|
  {
    assert archived <= s.gone;
  }
}
