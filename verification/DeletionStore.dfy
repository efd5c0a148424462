/** `deleteRunChildRows` as it runs: the gates in order, then the batch loop over the mutable tables. */
module DeletionStore {
  import opened Common
  import opened Keyset
  import opened Deletion

  const DEFAULT_BATCH: int := 500
  const MAX_BATCH: nat := 2000

  /** The parts of an archived_run_manifests row (and its evidence rows) the gates read. */
  datatype Manifest = Manifest(rowCount: nat, verified: bool, verificationCount: nat, passedEvidence: nat,
      reimportPassed: bool)

  datatype Request = Request(
    allowlisted: bool, targetMatches: bool, eligible: bool, manifest: Option<Manifest>,
    dryRun: bool, destructiveEnabled: bool, keepsTrend: bool, trendRows: nat, batchSize: Option<int>)

  datatype Block =
    | NotInAllowlist | InvalidTarget | NotEligible | ArchiveNotVerified | EvidenceMissing | ReimportNotPassed
    | SourceCountMismatch | DestructiveDisabled | TrendPreservationFailed

  /** What befalls the i-th batch transaction. */
  datatype Fate = Commits | LosesEligibility | Errors | Dies

  datatype Outcome = Blocked(reason: Block) | DryRun | Deleted(rows: nat, batches: nat) | Threw | ProcessDied

  /** The first gate that blocks, in the source's order; a dry run stops before the destructive switch. */
  function FirstBlock(q: Request, matched: nat, alreadyDeleted: nat): Option<Block> {
    if !q.allowlisted then Some(NotInAllowlist)
    else if !q.targetMatches then Some(InvalidTarget)
    else if !q.eligible then Some(NotEligible)
    else if q.manifest.None? || !q.manifest.value.verified || q.manifest.value.verificationCount < 2
        then Some(ArchiveNotVerified)
    else if q.manifest.value.passedEvidence < 2 then Some(EvidenceMissing)
    else if !q.manifest.value.reimportPassed then Some(ReimportNotPassed)
    else if matched + alreadyDeleted != q.manifest.value.rowCount then Some(SourceCountMismatch)
    else if q.dryRun then None
    else if !q.destructiveEnabled then Some(DestructiveDisabled)
    else if q.keepsTrend && matched > 0 && q.trendRows == 0 then Some(TrendPreservationFailed)
    else None
  }

  /** The first `n` of the nine gates, in the order they are asked; the last two only when it is no dry run. */
  ghost predicate PassesGates(q: Request, rowsLeft: nat, rowsGone: nat, n: nat) {
    && (n >= 1 ==> q.allowlisted)
    && (n >= 2 ==> q.targetMatches)
    && (n >= 3 ==> q.eligible)
    && (n >= 4 ==> q.manifest.Some? && q.manifest.value.verified && q.manifest.value.verificationCount >= 2)
    && (n >= 5 ==> q.manifest.value.passedEvidence >= 2)
    && (n >= 6 ==> q.manifest.value.reimportPassed)
    && (n >= 7 ==> rowsLeft + rowsGone == q.manifest.value.rowCount)
    && (n >= 8 ==> q.dryRun || q.destructiveEnabled)
    && (n >= 9 ==> q.dryRun || !q.keepsTrend || rowsLeft == 0 || q.trendRows > 0)
  }

  /** The gate that a refusal names. */
  function GateOf(reason: Block): nat {
    match reason
    case NotInAllowlist => 1
    case InvalidTarget => 2
    case NotEligible => 3
    case ArchiveNotVerified => 4
    case EvidenceMissing => 5
    case ReimportNotPassed => 6
    case SourceCountMismatch => 7
    case DestructiveDisabled => 8
    case TrendPreservationFailed => 9
  }

  /** A call goes ahead when all nine gates pass, and a refusal names the first that fails. */
  lemma RefusedByFirstGate(q: Request, rowsLeft: nat, rowsGone: nat)
    ensures var r := FirstBlock(q, rowsLeft, rowsGone);
      && (r.None? <==> PassesGates(q, rowsLeft, rowsGone, 9))
      && (r.Some? ==> PassesGates(q, rowsLeft, rowsGone, GateOf(r.value) - 1) && !PassesGates(q, rowsLeft, rowsGone, GateOf(r.value)))
  {
  }

  class Table {
    var disk: Disk
    ghost var gone: set<Id>
    ghost var commits: seq<Disk>

    constructor (rows: set<Id>)
      ensures disk == Disk(rows, map[]) && gone == {} && commits == []
    {
      disk := Disk(rows, map[]);
      gone, commits := {}, [];
    }

    ghost function AtRest(): System
      reads this
    {
      System(disk, gone, None)
    }

    /** `lastCompletedDeletionCheckpoint`. */
    method Checkpoint() returns (number: nat, cursor: Option<Id>, deletedRows: nat)
      ensures number == LastBatch(disk.log) && cursor == LastCursor(disk.log) && deletedRows == DeletedSoFar(disk.log)
    {
      number, cursor := LastBatch(disk.log), LastCursor(disk.log);
      var pending := CompletedBatches(disk.log);
      deletedRows := 0;
      while pending != {}
        invariant pending <= CompletedBatches(disk.log)
        invariant deletedRows + SumDeleted(disk.log, pending) == DeletedSoFar(disk.log)
        decreases pending
      {
        var n :| n in pending;
        SumTakesOut(disk.log, pending, n);
        deletedRows := deletedRows + disk.log[n].rowsDeleted;
        pending := pending - {n};
      }
    }

    /** One committed write of the deletion log outside a batch. */
    method WriteLog(number: nat, r: Record, ghost archived: set<Id>)
      requires number == 0 || (r.status != Completed && number !in CompletedBatches(disk.log))
      requires Inv(AtRest(), archived) && disk.rows <= archived
      modifies this`disk, this`commits
      ensures disk == old(disk).(log := old(disk).log[number := r])
      ensures LastBatch(disk.log) == old(LastBatch(disk.log)) && LastCursor(disk.log) == old(LastCursor(disk.log))
      ensures DeletedSoFar(disk.log) == old(DeletedSoFar(disk.log))
      ensures Inv(AtRest(), archived) && disk.rows <= archived
      ensures Grown(old(commits), commits, |archived|)
    {
      LogUpdateBelow(disk.log, number, r);
      disk := disk.(log := disk.log[number := r]);
      Conserved(AtRest(), archived);
      commits := commits + [disk];
    }

    /** One iteration of the batch loop. A batch that does not commit leaves the rows alone. */
    method RunBatch(x: Executor, rowCount: nat, size: nat, fate: Fate, ghost archived: set<Id>)
      returns (next: Option<Executor>, deleted: nat)
      requires Inv(System(disk, gone, Some(x)), archived) && disk.rows <= archived
      requires rowCount == |archived| && size > 0
      modifies this
      ensures Inv(AtRest(), archived) && disk.rows <= archived
      ensures Grown(old(commits), commits, |archived|)
      ensures next.Some? <==> fate == Commits
      ensures next.None? ==> disk.rows == old(disk).rows
      ensures next.Some? ==> Inv(System(disk, gone, next), archived)
      ensures next.Some? ==> |disk.rows| + deleted == |old(disk).rows|
      ensures next.Some? ==> next.value.totalDeleted == x.totalDeleted + deleted && next.value.batchNumber >= x.batchNumber
      ensures next.Some? ==> (deleted == 0 <==> old(disk).rows == {})
    {
      hide Inv, Grown, BatchTxn, CompletedBatches, DeletedSoFar, LastBatch, LastCursor;
      AtRestKeeps(disk, gone, x, archived);
      if fate == Dies {
        GrownAppend(commits, [], |archived|);
        return None, 0;
      }
      BatchCommits(disk, gone, x, size, archived);
      var r := BatchTxn(disk, x, rowCount, size, fate != LosesEligibility);
      if r.Refused? || fate == Errors {
        WriteLog(x.batchNumber + 1, Record(FailedBatch, x.cursor, 0), archived);
        return None, 0;
      }
      gone := gone + (disk.rows - r.disk.rows);
      disk := r.disk;
      GrownAppend(commits, [disk], |archived|);
      commits := commits + [disk];
      return Some(r.executor), r.deleted;
    }

    /** The batch loop, until an empty page; no executor when a batch did not commit. */
    method RunBatches(start: Executor, rowCount: nat, size: nat, fates: seq<Fate>, ghost archived: set<Id>)
      returns (end: Option<Executor>, died: bool)
      requires Inv(System(disk, gone, Some(start)), archived) && disk.rows <= archived
      requires rowCount == |archived| && size > 0
      modifies this
      ensures Inv(AtRest(), archived) && Grown(old(commits), commits, |archived|)
      ensures end.Some? ==> Inv(System(disk, gone, end), archived) && disk.rows == {}
      ensures end.Some? ==> end.value.totalDeleted == start.totalDeleted + |old(disk).rows| && end.value.batchNumber >= start.batchNumber
      ensures (forall i :: 0 <= i < |fates| ==> fates[i] == Commits) ==> end.Some?
    {
      hide Inv, Grown, DeletedSoFar, LastBatch, LastCursor;
      GrownAppend(commits, [], |archived|);
      var x := start;
      var i := 0;
      while true
        invariant 0 <= i
        invariant Inv(System(disk, gone, Some(x)), archived) && disk.rows <= archived
        invariant x.totalDeleted + |disk.rows| == start.totalDeleted + |old(disk).rows|
            && x.batchNumber >= start.batchNumber
        invariant Grown(old(commits), commits, |archived|)
        decreases |disk.rows|
      {
        var fate := if i < |fates| then fates[i] else Commits;
        i := i + 1;
        ghost var before := commits;
        var next, deleted := RunBatch(x, rowCount, size, fate, archived);
        GrownTransitive(old(commits), before, commits, |archived|);
        if next.None? {
          return None, fate == Dies;
        }
        x := next.value;
        if deleted == 0 {
          return Some(x), false;
        }
      }
    }

    /** The count after the last batch, and the record of the completed run. */
    method FinalCount(x: Executor, rowCount: nat, number: nat, late: set<Id>, ghost archived: set<Id>)
        returns (out: Outcome)
      requires Inv(System(disk, gone, Some(x)), archived) && disk.rows == {} && late !! archived
      requires rowCount == |archived| && x.batchNumber >= number
      modifies this`disk, this`commits
      ensures Inv(AtRest(), archived) && Grown(old(commits), commits, |archived|)
      ensures out == if late == {} then Deleted(x.totalDeleted, x.batchNumber - number) else Threw
      ensures late == {} ==> disk.rows == {} && gone == archived
    {
      AtRestKeeps(disk, gone, x, archived);
      LateKeeps(disk, gone, late, archived);
      GrownAppend(commits, [], |archived|);
      disk := disk.(rows := disk.rows + late);
      if |disk.rows| != 0 || x.alreadyDeleted + x.totalDeleted != rowCount {
        return Threw;
      }
      hide Inv, Grown, DeletedSoFar, LastBatch, LastCursor;
      assert late == {} && disk.rows <= archived;
      WriteLog(0, Record(Completed, x.cursor, 0), archived);
      SuccessMeansExactlyTheArchive(AtRest(), archived);
      return Deleted(x.totalDeleted, x.batchNumber - number);
    }

    /**
     * The whole call. Blocked and dry runs write nothing. Otherwise every state it ever
     * commits, however the call ends, still conserves the archived rows; and it reports
     * success only when exactly the archived rows are gone. `late` are rows another session
     * inserts after the last batch: the final count finds them and throws.
     */
    method DeleteRunChildRows(q: Request, fates: seq<Fate>, late: set<Id>, ghost archived: set<Id>)
        returns (out: Outcome)
      requires Inv(AtRest(), archived) && late !! archived
      requires q.manifest.Some? ==> q.manifest.value.rowCount == |archived|
      modifies this
      ensures Inv(AtRest(), archived)
      ensures out.Blocked? <==> FirstBlock(q, |old(disk).rows|, DeletedSoFar(old(disk).log)).Some?
      ensures out.Blocked? ==> FirstBlock(q, |old(disk).rows|, DeletedSoFar(old(disk).log)) == Some(out.reason)
      ensures out.Blocked? <==> !PassesGates(q, |old(disk).rows|, |old(gone)|, 9)
      ensures out.Blocked? ==> PassesGates(q, |old(disk).rows|, |old(gone)|, GateOf(out.reason) - 1)
      ensures out.Blocked? ==> !PassesGates(q, |old(disk).rows|, |old(gone)|, GateOf(out.reason))
      ensures out == DryRun <==> !out.Blocked? && q.dryRun
      ensures out.Blocked? || q.dryRun ==> disk == old(disk) && commits == old(commits)
      ensures out.Deleted? ==> disk.rows == {} && gone == archived && out.rows == |old(disk).rows|
      ensures Grown(old(commits), commits, |archived|)
      ensures (forall i :: 0 <= i < |fates| ==> fates[i] == Commits) && !out.Blocked? && !q.dryRun ==>
        (out.Deleted? <==> late == {}) && (out == Threw <==> late != {})
    {
      assert |gone| == DeletedSoFar(disk.log);
      RefusedByFirstGate(q, |disk.rows|, |gone|);
      hide Inv, Grown, DeletedSoFar, LastBatch, LastCursor, PassesGates;
      GrownAppend(commits, [], |archived|);
      var number, cursor, alreadyDeleted := Checkpoint();
      var matched := |disk.rows|;
      var block := FirstBlock(q, matched, alreadyDeleted);
      if block.Some? {
        return Blocked(block.value);
      }
      if q.dryRun {
        return DryRun;
      }
      CountCheckAtRest(disk, gone, archived);
      WriteLog(0, Record(Planned, cursor, 0), archived);
      var size := Clamp(q.batchSize, DEFAULT_BATCH, MAX_BATCH);
      Resumes(disk, gone, archived);
      ghost var planned := commits;
      var end, died := RunBatches(Executor(cursor, number, alreadyDeleted, 0), q.manifest.value.rowCount, size,
          fates, archived);
      GrownTransitive(old(commits), planned, commits, |archived|);
      if end.None? {
        return if died then ProcessDied else Threw;
      }
      ghost var drained := commits;
      out := FinalCount(end.value, q.manifest.value.rowCount, number, late, archived);
      GrownTransitive(old(commits), drained, commits, |archived|);
    }
  }

  /**
   * `after` continues `before` with states that all satisfy: rows left plus completed
   * rows_deleted equal the row count.
   */
  ghost predicate Grown(before: seq<Disk>, after: seq<Disk>, rowCount: nat) {
    && |before| <= |after| && before == after[..|before|]
    && forall i :: |before| <= i < |after| ==> |after[i].rows| + DeletedSoFar(after[i].log) == rowCount
  }

  /** Without foreign rows the conservation law reads: rows left plus rows deleted equal the row count. */
  lemma Conserved(s: System, archived: set<Id>)
    requires Inv(s, archived) && s.disk.rows <= archived
    ensures |s.disk.rows| + DeletedSoFar(s.disk.log) == |archived|
  {
    assert archived == s.disk.rows + s.gone;
  }

  lemma GrownAppend(a: seq<Disk>, more: seq<Disk>, rowCount: nat)
    requires forall d :: d in more ==> |d.rows| + DeletedSoFar(d.log) == rowCount
    ensures Grown(a, a + more, rowCount)
    ensures a + [] == a
  {
  }

  lemma GrownTransitive(a: seq<Disk>, b: seq<Disk>, c: seq<Disk>, rowCount: nat)
    requires Grown(a, b, rowCount) && Grown(b, c, rowCount)
    ensures Grown(a, c, rowCount)
  {
    assert forall i :: |a| <= i < |b| ==> c[i] == b[i];
  }

  /** Rows inserted by others are none of the archived ones. */
  lemma LateKeeps(d: Disk, gone: set<Id>, late: set<Id>, archived: set<Id>)
    requires Inv(System(d, gone, None), archived) && late !! archived
    ensures Inv(System(d.(rows := d.rows + late), gone, None), archived)
  {
  }

  /** An executor that starts from the checkpoint continues the history on disk. */
  lemma Resumes(d: Disk, gone: set<Id>, archived: set<Id>)
    requires Inv(System(d, gone, None), archived)
    ensures Inv(System(d, gone, Some(Executor(LastCursor(d.log), LastBatch(d.log), DeletedSoFar(d.log), 0))), archived)
  {
  }

  lemma CountCheckAtRest(d: Disk, gone: set<Id>, archived: set<Id>)
    requires Inv(System(d, gone, None), archived) && |d.rows| + DeletedSoFar(d.log) == |archived|
    ensures d.rows <= archived
  {
    CountCheckIsIdentity(System(d, gone, None), archived);
  }

  lemma AtRestKeeps(d: Disk, gone: set<Id>, x: Executor, archived: set<Id>)
    requires Inv(System(d, gone, Some(x)), archived) && d.rows <= archived
    ensures Inv(System(d, gone, None), archived)
    ensures x.batchNumber + 1 !in CompletedBatches(d.log)
    ensures |d.rows| + DeletedSoFar(d.log) == |archived|
  {
    Conserved(System(d, gone, None), archived);
  }

  /**
   * While only the executor touches the rows its count check passes, and the batch commits a
   * state with every invariant.
   */
  lemma BatchCommits(d: Disk, gone: set<Id>, x: Executor, size: nat, archived: set<Id>)
    requires Inv(System(d, gone, Some(x)), archived) && d.rows <= archived && size > 0
    ensures var r := BatchTxn(d, x, |archived|, size, true);
      && r.Committed? && BatchTxn(d, x, |archived|, size, false) == Refused
      && Inv(System(r.disk, gone + (d.rows - r.disk.rows), Some(r.executor)), archived)
      && Inv(System(r.disk, gone + (d.rows - r.disk.rows), None), archived)
      && r.disk.rows <= archived
      && |r.disk.rows| + r.deleted == |d.rows|
      && |r.disk.rows| + DeletedSoFar(r.disk.log) == |archived|
      && (r.deleted == 0 <==> d.rows == {})
      && r.executor.totalDeleted == x.totalDeleted + r.deleted && r.executor.batchNumber >= x.batchNumber
  {
    var s := System(d, gone, Some(x));
    Conserved(s, archived);
    BatchKeeps(s, archived, size, true);
    BatchShrinks(d, x, |archived|, size, archived, gone);
    var r := BatchTxn(d, x, |archived|, size, true);
    Conserved(System(r.disk, gone + (d.rows - r.disk.rows), Some(r.executor)), archived);
  }

  /** A committed batch deletes what it says; it deletes nothing exactly when nothing is left. */
  lemma BatchShrinks(d: Disk, x: Executor, rowCount: nat, size: nat, archived: set<Id>, gone: set<Id>)
    requires Inv(System(d, gone, Some(x)), archived) && d.rows <= archived && size > 0
    requires BatchTxn(d, x, rowCount, size, true).Committed?
    ensures var r := BatchTxn(d, x, rowCount, size, true);
      && r.disk.rows <= d.rows
      && |r.disk.rows| == |d.rows| - r.deleted
      && (r.deleted == 0 <==> d.rows == {})
      && r.executor.totalDeleted == x.totalDeleted + r.deleted && r.executor.batchNumber >= x.batchNumber
  {
    var page := Page(d.rows, x.cursor, size);
    if page != [] {
      PageDeleted(d.rows, x.cursor, size, archived);
    } else {
      forall y | y in d.rows
        ensures y in Above(d.rows, x.cursor)
      {
      }
    }
  }
}
