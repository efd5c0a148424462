/**
 * Publication under interleaving. Any number of processes may be inside the publish phase
 * or inside an operator approval of the same run; each reads, then later commits what it
 * decided, and may die in between. The outcome commit and the cursor commit are separate
 * transactions. The database enforces one snapshot per ranking run and one current flag.
 */
module Publication {
  import opened Common
  import opened Keyset
  import opened Ranking
  import Tiers

  datatype Status = Running | Succeeded | Held

  datatype Reason = NoReason | MassMovement | NoSignificantChange

  /** Where the job's persisted cursor stands; before `Ready` the candidate rows are still being computed. */
  datatype Stage = Computing | Ready | Publish | Finished

  datatype Run = Run(
    stage: Stage, jobRunning: bool, rows: seq<Candidate>, modes: seq<ModeCandidate>, matchups: seq<MatchupRow>,
    status: Status, reason: Reason, ratio: real, evaluated: nat, published: nat)

  /** What a publication writes: its items and its matchup pairs. */
  datatype Body = Body(items: seq<Item>, pairs: seq<MatchupRow>)

  datatype Snapshot = Snapshot(run: Id, current: bool, body: Body)

  datatype Db = Db(snapshots: seq<Snapshot>, runs: map<Id, Run>, active: set<Id>, goodAggregation: set<Id>)

  predicate HasSnapshot(snaps: seq<Snapshot>, run: Id) {
    exists i :: 0 <= i < |snaps| && snaps[i].run == run
  }

  function CurrentItems(snaps: seq<Snapshot>): seq<Item> {
    if snaps == [] then []
    else (if snaps[0].current then snaps[0].body.items else []) + CurrentItems(snaps[1..])
  }

  function Superseded(snaps: seq<Snapshot>): seq<Snapshot> {
    seq(|snaps|, i requires 0 <= i < |snaps| => snaps[i].(current := false))
  }

  // ---------------------------------------------------------- transactions

  datatype Decision = Hold(ratio: real) | NoChange(ratio: real) | PublishIt(ratio: real)

  /**
   * The comparison of `publishPhase` with a current snapshot: hold above a quarter of tiers
   * moved, skip when nothing changed.
   */
  ghost function Against(items: seq<Item>, rows: seq<Candidate>): Decision
    requires TieredIffPublishable(rows)
  {
    var tiered := Tiered(rows);
    TieredRows(rows);
    var prev := ByBrawler(items);
    var ratio := TierMoveRatio(prev, tiered);
    if ExceedsGuard(ratio, false) then Hold(ratio)
    else if forall i :: 0 <= i < |tiered| ==> !Changed(prev, tiered[i]) then NoChange(ratio)
    else PublishIt(ratio)
  }

  /** The first run publishes; later ones are compared. */
  ghost function DecideOn(snaps: seq<Snapshot>, rows: seq<Candidate>): Decision
    requires TieredIffPublishable(rows)
  {
    if snaps == [] then PublishIt(0.0) else Against(CurrentItems(snaps), rows)
  }

  ghost function Decide(db: Db, run: Id): Decision
    requires run in db.runs && TieredIffPublishable(db.runs[run].rows)
  {
    DecideOn(db.snapshots, db.runs[run].rows)
  }

  function Complete(db: Db, run: Id, status: Status, reason: Reason, ratio: real, evaluated: nat, published: nat): Db
    requires run in db.runs
  {
    db.(runs := db.runs[run := db.runs[run].(
      status := status, reason := reason, ratio := ratio, evaluated := evaluated, published := published)])
  }

  /**
   * The publication transaction: supersede, create, insert items and pairs, complete the run; a second
   * snapshot of the run violates its unique key and rolls everything back.
   */
  function PublishTxn(db: Db, run: Id, body: Body, reason: Reason, ratio: real, evaluated: nat): (r: (Db, bool))
    requires run in db.runs
  {
    if HasSnapshot(db.snapshots, run) then (db, false)
    else
      (Complete(db.(snapshots := Superseded(db.snapshots) + [Snapshot(run, true, body)]),
                run, Succeeded, reason, ratio, evaluated, |body.items|), true)
  }

  /** The cursor commit that ends the job. */
  function CursorTxn(db: Db, run: Id): Db
    requires run in db.runs
  {
    db.(runs := db.runs[run := db.runs[run].(stage := Finished, jobRunning := false)])
  }

  /** The gates of `approveHeldRanking`, past the check that the run is not published yet. */
  ghost predicate MayApprove(db: Db, run: Id) {
    && run in db.runs
    && !HasSnapshot(db.snapshots, run)
    && var r := db.runs[run];
    && r.status == Held && r.reason == MassMovement
    && run in db.goodAggregation
    && r.stage != Computing
    && db.active != {}
    && (set i | 0 <= i < |r.rows| :: r.rows[i].brawler) == db.active
    && |r.rows| == |db.active| == r.evaluated
    && r.matchups != []
    && Contents(r.rows, r.modes) != []
  }

  // ------------------------------------------------------------------ system

  /** What a process that has finished reading is about to commit. */
  datatype Pending =
    | Outcome(run: Id, decision: Decision, body: Body, evaluated: nat)
    | Approval(run: Id, body: Body, ratio: real, evaluated: nat)
    | CursorDue(run: Id)

  datatype System = System(db: Db, pending: map<Id, Pending>)

  datatype Action =
    | Compute(run: Id, candidate: Run)
    | Finalize(run: Id)
    | ReadPublish(proc: Id, run: Id)
    | ReadApproval(proc: Id, run: Id)
    | CommitOutcome(proc: Id)
    | CommitCursor(proc: Id)
    | Crash(proc: Id)
    | Reclaim(run: Id)
    | Catalogue(active: set<Id>, goodAggregation: set<Id>)

  function RunBody(r: Run): Body {
    Body(Contents(r.rows, r.modes), QualifyingPairs(r.matchups))
  }

  ghost predicate Enabled(s: System, a: Action) {
    match a
    case Compute(run, c) =>
      && c.stage in {Computing, Ready} && c.jobRunning && c.status == Running && DistinctBrawlers(c.rows)
      && (run in s.db.runs ==> s.db.runs[run].stage == Computing && s.db.runs[run].status == Running)
    case Finalize(run) => run in s.db.runs && s.db.runs[run].stage == Ready && s.db.runs[run].jobRunning
    case ReadPublish(proc, run) =>
      && proc !in s.pending && run in s.db.runs && s.db.runs[run].stage in {Publish, Finished}
      && s.db.runs[run].jobRunning && TieredIffPublishable(s.db.runs[run].rows)
    case ReadApproval(proc, run) => proc !in s.pending && MayApprove(s.db, run)
    case CommitOutcome(proc) => proc in s.pending && !s.pending[proc].CursorDue? && s.pending[proc].run in s.db.runs
    case CommitCursor(proc) => proc in s.pending && s.pending[proc].CursorDue? && s.pending[proc].run in s.db.runs
    case Crash(proc) => proc in s.pending
    case Reclaim(run) => run in s.db.runs
    case Catalogue(active, good) => true
  }

  function Without(pending: map<Id, Pending>, proc: Id): map<Id, Pending> {
    map q | q in pending && q != proc :: pending[q]
  }

  /** A process commits its outcome; a refused publication throws, and the process is gone. */
  function Settle(s: System, proc: Id): System
    requires proc in s.pending && !s.pending[proc].CursorDue? && s.pending[proc].run in s.db.runs
  {
    var p := s.pending[proc];
    match p
    case Approval(run, body, ratio, evaluated) =>
      System(PublishTxn(s.db, run, body, MassMovement, ratio, evaluated).0, Without(s.pending, proc))
    case Outcome(run, Hold(ratio), _, evaluated) =>
      System(Complete(s.db, run, Held, MassMovement, ratio, evaluated, 0), s.pending[proc := CursorDue(run)])
    case Outcome(run, NoChange(ratio), _, evaluated) =>
      System(Complete(s.db, run, Succeeded, NoSignificantChange, ratio, evaluated, 0),
          s.pending[proc := CursorDue(run)])
    case Outcome(run, PublishIt(ratio), body, evaluated) =>
      var r := PublishTxn(s.db, run, body, NoReason, ratio, evaluated);
      System(r.0, if r.1 then s.pending[proc := CursorDue(run)] else Without(s.pending, proc))
  }

  ghost function Next(s: System, a: Action): System
    requires Enabled(s, a)
  {
    match a
    case Compute(run, c) => s.(db := s.db.(runs := s.db.runs[run := c]))
    case Finalize(run) =>
      var r := s.db.runs[run];
      s.(db := s.db.(runs := s.db.runs[run := r.(stage := Publish, rows := FinalizedRows(r.rows),
          modes := FinalizedModes(r.modes))]))
    case ReadPublish(proc, run) =>
      var r := s.db.runs[run];
      s.(pending := s.pending[proc := Outcome(run, Decide(s.db, run), RunBody(r), |r.rows|)])
    case ReadApproval(proc, run) =>
      var r := s.db.runs[run];
      s.(pending := s.pending[proc := Approval(run, RunBody(r), r.ratio, |s.db.active|)])
    case CommitOutcome(proc) => Settle(s, proc)
    case CommitCursor(proc) => System(CursorTxn(s.db, s.pending[proc].run), Without(s.pending, proc))
    case Crash(proc) => s.(pending := Without(s.pending, proc))
    case Reclaim(run) => s.(db := s.db.(runs := s.db.runs[run := s.db.runs[run].(jobRunning := false)]))
    case Catalogue(active, good) => s.(db := s.db.(active := active, goodAggregation := good))
  }

  ghost predicate Path(states: seq<System>, actions: seq<Action>) {
    && |states| == |actions| + 1
    && forall i :: 0 <= i < |actions| ==> Enabled(states[i], actions[i]) && states[i + 1] == Next(states[i], actions[i])
  }

  // --------------------------------------------------------------- invariant

  ghost predicate OnePerRun(snaps: seq<Snapshot>) {
    forall i, j :: 0 <= i < j < |snaps| ==> snaps[i].run != snaps[j].run
  }

  /** Exactly one snapshot is current once any exists; it is the newest. */
  ghost predicate ExactlyOneCurrent(snaps: seq<Snapshot>) {
    forall i :: 0 <= i < |snaps| ==> (snaps[i].current <==> i == |snaps| - 1)
  }

  /** From the publish stage on, a run's candidate rows are final: what finalize makes of them, and no more. */
  ghost predicate Settled(db: Db, run: Id) {
    && run in db.runs && db.runs[run].stage in {Publish, Finished}
    && DistinctBrawlers(db.runs[run].rows) && TieredIffPublishable(db.runs[run].rows)
    && db.runs[run].rows == FinalizedRows(db.runs[run].rows)
  }

  ghost predicate DbInv(db: Db) {
    && OnePerRun(db.snapshots)
    && ExactlyOneCurrent(db.snapshots)
    && (forall i :: 0 <= i < |db.snapshots| ==>
          Settled(db, db.snapshots[i].run) && db.snapshots[i].body == RunBody(db.runs[db.snapshots[i].run]))
    && (forall run :: run in db.runs ==>
          && DistinctBrawlers(db.runs[run].rows)
          && (db.runs[run].stage in {Publish, Finished} ==> Settled(db, run))
          && (db.runs[run].status != Running ==> Settled(db, run)))
  }

  ghost predicate PendingInv(db: Db, p: Pending) {
    && Settled(db, p.run)
    && (p.Outcome? || p.Approval? ==> p.body == RunBody(db.runs[p.run]))
  }

  ghost predicate Inv(s: System) {
    && DbInv(s.db)
    && forall q :: q in s.pending ==> PendingInv(s.db, s.pending[q])
  }

  /** A step that leaves the rows, modes and stage order of settled runs alone keeps what pending processes know. */
  ghost predicate KeepsRows(db: Db, db': Db) {
    forall run :: Settled(db, run) ==> Settled(db', run) && RunBody(db'.runs[run]) == RunBody(db.runs[run])
  }

  lemma CompleteKeeps(db: Db, run: Id, status: Status, reason: Reason, ratio: real, evaluated: nat, published: nat)
    requires DbInv(db) && Settled(db, run)
    ensures var db' := Complete(db, run, status, reason, ratio, evaluated, published);
      DbInv(db') && KeepsRows(db, db')
  {
  }

  lemma PublishTxnKeeps(db: Db, run: Id, body: Body, reason: Reason, ratio: real, evaluated: nat)
    requires DbInv(db) && Settled(db, run) && body == RunBody(db.runs[run])
    ensures var (db', ok) := PublishTxn(db, run, body, reason, ratio, evaluated);
      && DbInv(db') && KeepsRows(db, db')
      && (ok <==> !HasSnapshot(db.snapshots, run))
      && (ok ==> HasSnapshot(db'.snapshots, run) && CurrentIs(db', run))
      && (!ok ==> db' == db)
  {
    if !HasSnapshot(db.snapshots, run) {
      var mid := db.(snapshots := Superseded(db.snapshots) + [Snapshot(run, true, body)]);
      NewSnapshotKeeps(db, run, body);
      hide DbInv, RunBody, Settled;
      CompleteKeeps(mid, run, Succeeded, reason, ratio, evaluated, |body.items|);
      assert mid.snapshots[|db.snapshots|].run == run;
    }
  }

  lemma NewSnapshotKeeps(db: Db, run: Id, body: Body)
    requires DbInv(db) && Settled(db, run) && body == RunBody(db.runs[run]) && !HasSnapshot(db.snapshots, run)
    ensures var mid := db.(snapshots := Superseded(db.snapshots) + [Snapshot(run, true, body)]);
      DbInv(mid) && Settled(mid, run) && KeepsRows(db, mid)
  {
    hide RunBody, FinalizedRows, DistinctBrawlers, TieredIffPublishable;
    var mid := db.(snapshots := Superseded(db.snapshots) + [Snapshot(run, true, body)]);
    assert forall i :: 0 <= i < |db.snapshots| ==> mid.snapshots[i] == db.snapshots[i].(current := false);
  }

  ghost predicate CurrentIs(db: Db, run: Id) {
    db.snapshots != [] && db.snapshots[|db.snapshots| - 1].run == run
  }

  lemma InvHolds(s: System, db': Db, pending': map<Id, Pending>)
    requires Inv(s) && DbInv(db') && KeepsRows(s.db, db')
    requires forall q :: q in pending' ==>
               (q in s.pending && pending'[q] == s.pending[q]) || PendingInv(db', pending'[q])
    ensures Inv(System(db', pending'))
  {
    forall q | q in pending'
      ensures PendingInv(db', pending'[q])
    {
      if q in s.pending && pending'[q] == s.pending[q] {
        assert PendingInv(s.db, s.pending[q]);
      }
    }
  }

  lemma PendingIsSettled(s: System, proc: Id)
    requires Inv(s) && proc in s.pending
    ensures PendingInv(s.db, s.pending[proc]) && s.pending[proc].run in s.db.runs && DbInv(s.db)
  {
  }

  lemma StillSettled(db: Db, db': Db, run: Id)
    requires Settled(db, run) && KeepsRows(db, db')
    ensures PendingInv(db', CursorDue(run))
  {
  }

  lemma SettleKeeps(s: System, proc: Id)
    requires Inv(s) && proc in s.pending && !s.pending[proc].CursorDue?
    ensures s.pending[proc].run in s.db.runs && Inv(Settle(s, proc))
  {
    hide Inv, DbInv, Settled, KeepsRows, RunBody, PublishTxn, Complete;
    var p := s.pending[proc];
    PendingIsSettled(s, proc);
    var t := Settle(s, proc);
    if p.Approval? {
      PublishTxnKeeps(s.db, p.run, p.body, MassMovement, p.ratio, p.evaluated);
    } else {
      match p.decision {
        case Hold(ratio) => CompleteKeeps(s.db, p.run, Held, MassMovement, ratio, p.evaluated, 0);
        case NoChange(ratio) => CompleteKeeps(s.db, p.run, Succeeded, NoSignificantChange, ratio, p.evaluated, 0);
        case PublishIt(ratio) => PublishTxnKeeps(s.db, p.run, p.body, NoReason, ratio, p.evaluated);
      }
      StillSettled(s.db, t.db, p.run);
    }
    InvHolds(s, t.db, t.pending);
  }

  lemma FinalizeKeeps(s: System, run: Id)
    requires Inv(s) && Enabled(s, Finalize(run))
    ensures Inv(Next(s, Finalize(run)))
  {
    var r := s.db.runs[run];
    FinalizeTiersExactlyThePublishable(r.rows);
    FinalizeIsIdempotent(r.rows);
    var rows := FinalizedRows(r.rows);
    assert forall i :: 0 <= i < |rows| ==> rows[i].brawler == r.rows[i].brawler;
    var db' := Next(s, Finalize(run)).db;
    assert !Settled(s.db, run);
    InvHolds(s, db', s.pending);
  }

  lemma ReadsKeep(s: System, a: Action)
    requires Inv(s) && Enabled(s, a) && (a.ReadPublish? || a.ReadApproval?)
    ensures Inv(Next(s, a))
  {
    assert Settled(s.db, a.run);
    var t := Next(s, a);
    InvHolds(s, t.db, t.pending);
  }

  lemma CursorTxnKeeps(db: Db, run: Id)
    requires DbInv(db) && Settled(db, run)
    ensures DbInv(CursorTxn(db, run)) && KeepsRows(db, CursorTxn(db, run))
  {
  }

  lemma CursorKeeps(s: System, proc: Id)
    requires Inv(s) && Enabled(s, CommitCursor(proc))
    ensures Inv(Next(s, CommitCursor(proc)))
  {
    PendingIsSettled(s, proc);
    CursorTxnKeeps(s.db, s.pending[proc].run);
    var t := Next(s, CommitCursor(proc));
    hide Inv, DbInv, KeepsRows, Settled, PendingInv;
    InvHolds(s, t.db, t.pending);
  }

  lemma ComputeKeeps(s: System, run: Id, candidate: Run)
    requires Inv(s) && Enabled(s, Compute(run, candidate))
    ensures Inv(Next(s, Compute(run, candidate)))
  {
    var t := Next(s, Compute(run, candidate));
    assert !Settled(s.db, run);
    InvHolds(s, t.db, t.pending);
  }

  lemma QuietKeeps(s: System, a: Action)
    requires Inv(s) && Enabled(s, a) && (a.Crash? || a.Reclaim? || a.Catalogue?)
    ensures Inv(Next(s, a))
  {
    hide Contents, QualifyingPairs, FinalizedRows, DistinctBrawlers, TieredIffPublishable;
    InvHolds(s, Next(s, a).db, Next(s, a).pending);
  }

  lemma NextKeeps(s: System, a: Action)
    requires Inv(s) && Enabled(s, a)
    ensures Inv(Next(s, a))
  {
    hide DbInv, PendingInv, MayApprove, Settled, Settle;
    match a
    case Compute(run, candidate) => ComputeKeeps(s, run, candidate);
    case CommitOutcome(proc) => SettleKeeps(s, proc);
    case Finalize(run) => FinalizeKeeps(s, run);
    case CommitCursor(proc) => CursorKeeps(s, proc);
    case ReadPublish(_, _) => ReadsKeep(s, a);
    case ReadApproval(_, _) => ReadsKeep(s, a);
    case _ => QuietKeeps(s, a);
  }

  // ------------------------------------------------------------ main results

  /**
   * In every reachable state, whatever crashed or interleaved: at most one snapshot per run,
   * exactly one current once any exists, and each snapshot still holds exactly its run's
   * publishable rows.
   */
  lemma {:induction false} SafeOnEveryPath(states: seq<System>, actions: seq<Action>)
    requires Path(states, actions) && Inv(states[0])
    ensures forall i :: 0 <= i < |states| ==>
      && OnePerRun(states[i].db.snapshots) && ExactlyOneCurrent(states[i].db.snapshots)
      && Inv(states[i])
  {
    var i := 0;
    while i < |actions|
      invariant 0 <= i <= |actions|
      invariant forall k :: 0 <= k <= i ==> Inv(states[k])
    {
      NextKeeps(states[i], actions[i]);
      i := i + 1;
    }
  }

  /** So it is from an empty database on. */
  lemma SafeFromTheStart(states: seq<System>, actions: seq<Action>)
    requires Path(states, actions)
    requires states[0].db.snapshots == [] && states[0].db.runs == map[] && states[0].pending == map[]
    ensures forall i :: 0 <= i < |states| ==> OnePerRun(states[i].db.snapshots) && ExactlyOneCurrent(states[i].db.snapshots)
    ensures forall i, a, b :: 0 <= i < |states| && 0 <= a < b < |states[i].db.snapshots| ==>
        states[i].db.snapshots[a].run != states[i].db.snapshots[b].run
    ensures forall i, a :: 0 <= i < |states| && 0 <= a < |states[i].db.snapshots| ==>
        (states[i].db.snapshots[a].current <==> a == |states[i].db.snapshots| - 1)
  {
    SafeOnEveryPath(states, actions);
  }

  lemma {:induction false} OnlyNewestIsCurrent(snaps: seq<Snapshot>)
    requires snaps != [] && ExactlyOneCurrent(snaps)
    ensures CurrentItems(snaps) == snaps[|snaps| - 1].body.items
  {
    if |snaps| == 1 {
      assert CurrentItems(snaps[1..]) == [];
    } else {
      var rest := snaps[1..];
      assert forall i :: 0 <= i < |rest| ==> rest[i] == snaps[i + 1];
      OnlyNewestIsCurrent(rest);
    }
  }

  lemma SameContentsNoChange(snaps: seq<Snapshot>, rows: seq<Candidate>, modes: seq<ModeCandidate>)
    requires snaps != [] && ExactlyOneCurrent(snaps) && snaps[|snaps| - 1].body.items == Contents(rows, modes)
    requires DistinctBrawlers(rows) && TieredIffPublishable(rows)
    ensures DecideOn(snaps, rows) == NoChange(0.0)
  {
    OnlyNewestIsCurrent(snaps);
    OwnContentsAreUnchanged(rows, modes);
  }

  /**
   * A worker re-entering publish while its own snapshot is current compares it with itself: no
   * hold, no publication.
   */
  lemma ReentryIsNoChange(db: Db, run: Id)
    requires DbInv(db) && CurrentIs(db, run)
    ensures run in db.runs && TieredIffPublishable(db.runs[run].rows) && Decide(db, run) == NoChange(0.0)
  {
    var r := db.runs[run];
    assert db.snapshots[|db.snapshots| - 1].body == RunBody(r);
    SameContentsNoChange(db.snapshots, r.rows, r.modes);
  }

  /** An operator approval is a no-op on a run that already has its snapshot, however it got it. */
  lemma ApprovalNeverRepublishes(s: System, proc: Id)
    requires Inv(s) && proc in s.pending && s.pending[proc].Approval?
    requires HasSnapshot(s.db.snapshots, s.pending[proc].run)
    ensures s.pending[proc].run in s.db.runs && Settle(s, proc).db == s.db
  {
    assert PendingInv(s.db, s.pending[proc]);
  }

  // ------------------------------------------- decision and contents, read off

  /**
   * The decision for rows against the items now shown: held when more than a quarter of the ranked
   * rows are shown with another tier, unchanged when every ranked row is shown as it is.
   */
  ghost predicate Decided(d: Decision, items: seq<Item>, rows: seq<Candidate>) {
    var ranked, anew := |Ranked(rows)|, |RankedAnew(items, rows)|;
    && d.ratio == (if ranked == 0 then 0.0 else anew as real / ranked as real)
    && (d.Hold? <==> 4 * anew > ranked)
    && (d.NoChange? <==> 4 * anew <= ranked && AllShown(items, rows))
  }

  ghost predicate AllShown(items: seq<Item>, rows: seq<Candidate>) {
    forall i :: i in Ranked(rows) ==> exists k :: 0 <= k < |items| && Shows(items[k], rows[i])
  }

  /** What the current snapshot shows, given the two unique keys of the schema. */
  ghost predicate ShownBy(snaps: seq<Snapshot>, items: seq<Item>) {
    && snaps != [] && ExactlyOneCurrent(snaps)
    && items == snaps[|snaps| - 1].body.items && DistinctItems(items)
  }

  lemma ShownIffUnchanged(items: seq<Item>, rows: seq<Candidate>)
    requires DistinctItems(items) && TieredIffPublishable(rows)
    ensures (forall i :: 0 <= i < |Tiered(rows)| ==> Tiered(rows)[i] in rows && Publishable(Tiered(rows)[i]))
    ensures (forall i :: 0 <= i < |Tiered(rows)| ==> !Changed(ByBrawler(items), Tiered(rows)[i])) <==> AllShown(items, rows)
  {
    TieredRows(rows);
    var tiered := Tiered(rows);
    forall r | r in rows && Publishable(r)
      ensures r in tiered
      ensures !Changed(ByBrawler(items), r) <==> exists k :: 0 <= k < |items| && Shows(items[k], r)
    {
      InTiered(rows, r);
      LookupIsItem(items, r.brawler);
    }
    hide ByBrawler, Tiered, Changed;
    forall i | i in Ranked(rows)
      ensures rows[i] in rows && Publishable(rows[i])
    {
    }
  }

  lemma {:induction false} InTiered(rows: seq<Candidate>, r: Candidate)
    requires r in rows && r.tier.Some?
    ensures r in Tiered(rows)
  {
    if rows[0] != r {
      InTiered(rows[1..], r);
    }
  }

  lemma QuarterIsCounted(q: real, moved: nat, n: nat)
    requires n > 0 && q == moved as real / n as real
    ensures q > 0.25 <==> 4 * moved > n
  {
    assert q * n as real == moved as real;
    Tiers.ScalingKeepsOrder(0.25, q, n as real);
    assert 0.25 * n as real < moved as real <==> n as real < (4 * moved) as real;
  }

  lemma AgainstMeans(items: seq<Item>, rows: seq<Candidate>)
    requires TieredIffPublishable(rows) && DistinctItems(items)
    ensures Decided(Against(items, rows), items, rows)
  {
    MovesAreCounted(items, rows);
    ShownIffUnchanged(items, rows);
    hide Ranked, RankedAnew, Tiered, Changed, ByBrawler, DistinctItems, AllShown, TieredIffPublishable;
    if Tiered(rows) != [] {
      QuarterIsCounted(TierMoveRatio(ByBrawler(items), Tiered(rows)), |RankedAnew(items, rows)|, |Ranked(rows)|);
    }
  }

  lemma DecisionMeans(snaps: seq<Snapshot>, rows: seq<Candidate>, items: seq<Item>)
    requires TieredIffPublishable(rows) && ShownBy(snaps, items)
    ensures Decided(DecideOn(snaps, rows), items, rows)
  {
    OnlyNewestIsCurrent(snaps);
    AgainstMeans(items, rows);
    hide Decided, Against;
  }

  lemma {:induction false} DistinctContents(rows: seq<Candidate>, modes: seq<ModeCandidate>)
    requires DistinctBrawlers(rows)
    ensures DistinctItems(Contents(rows, modes))
  {
    hide ModesOf;
    var at := ContentsRows(rows, modes);
  }

  /**
   * In every reachable state, read off the tables alone: each snapshot shows one item per
   * publishable row of its run, with that row's values and mode tiers, and its qualifying pairs;
   * and the decision of a worker that reads now is the right one.
   */
  lemma SnapshotsShowTheirRows(states: seq<System>, actions: seq<Action>, n: nat)
    requires Path(states, actions) && Inv(states[0]) && n < |states|
    ensures var db := states[n].db;
      forall i :: 0 <= i < |db.snapshots| ==>
        && db.snapshots[i].run in db.runs
        && var r, body := db.runs[db.snapshots[i].run], db.snapshots[i].body;
        && DistinctItems(body.items)
        && (exists at :: ItemsAt(body.items, r.rows, r.modes, at))
        && (exists at :: PairsAt(body.pairs, r.matchups, at))
    ensures var db := states[n].db;
      forall run :: run in db.runs && TieredIffPublishable(db.runs[run].rows) && db.snapshots != [] ==>
        Decided(Decide(db, run), db.snapshots[|db.snapshots| - 1].body.items, db.runs[run].rows)
  {
    SafeOnEveryPath(states, actions);
    var db := states[n].db;
    forall i | 0 <= i < |db.snapshots|
      ensures db.snapshots[i].run in db.runs
      ensures var r, body := db.runs[db.snapshots[i].run], db.snapshots[i].body;
        && DistinctItems(body.items)
        && (exists at :: ItemsAt(body.items, r.rows, r.modes, at))
        && (exists at :: PairsAt(body.pairs, r.matchups, at))
    {
      assert Settled(db, db.snapshots[i].run);
      var r := db.runs[db.snapshots[i].run];
      DistinctContents(r.rows, r.modes);
      ContentsAt(r.rows, r.modes);
      QualifyingAt(r.matchups);
    }
    forall run | run in db.runs && TieredIffPublishable(db.runs[run].rows) && db.snapshots != []
      ensures Decided(Decide(db, run), db.snapshots[|db.snapshots| - 1].body.items, db.runs[run].rows)
    {
      DecisionMeans(db.snapshots, db.runs[run].rows, db.snapshots[|db.snapshots| - 1].body.items);
    }
  }

  // ------------------------------------------ the record of a published run

  /** The record says what the snapshot shows: succeeded, published, with this many brawlers. */
  ghost predicate Truthful(db: Db, run: Id) {
    && run in db.runs
    && var r := db.runs[run];
    r.status == Succeeded && r.reason != NoSignificantChange && r.published == |RunBody(r).items|
  }

  /** What committing an outcome does to a run that already has its snapshot; the snapshots stay as they are. */
  lemma OutcomeOfPublishedRun(s: System, proc: Id)
    requires Inv(s) && proc in s.pending && s.pending[proc].Outcome? && HasSnapshot(s.db.snapshots, s.pending[proc].run)
    ensures s.pending[proc].run in s.db.runs && Settle(s, proc).db.snapshots == s.db.snapshots
    ensures var d, t := s.pending[proc].decision, Settle(s, proc); var r := t.db.runs[s.pending[proc].run];
      && (d.PublishIt? ==> t.db == s.db && proc !in t.pending)
      && (d.Hold? ==> r.status == Held && r.published == 0)
      && (d.NoChange? ==> r.status == Succeeded && r.reason == NoSignificantChange && r.published == 0)
  {
    PendingIsSettled(s, proc);
  }

  /** The retry of a run whose snapshot is current, up to the commit of its outcome. */
  lemma RetryRewrites(s: System, q: Id, run: Id)
    requires Inv(s) && CurrentIs(s.db, run) && run in s.db.runs && s.db.runs[run].jobRunning && q !in s.pending
    ensures Enabled(s, ReadPublish(q, run))
    ensures var t := Next(s, ReadPublish(q, run));
      && Enabled(t, CommitOutcome(q))
      && var u := Next(t, CommitOutcome(q));
      && u.db.snapshots == s.db.snapshots && run in u.db.runs && !Truthful(u.db, run)
      && u.db.runs[run].published == 0 && u.db.runs[run].reason == NoSignificantChange
  {
    InvGivesDb(s);
    ReentryIsNoChange(s.db, run);
    assert s.db.snapshots[|s.db.snapshots| - 1].run == run;
    var t := Next(s, ReadPublish(q, run));
    NextKeeps(s, ReadPublish(q, run));
    hide Inv, DbInv, Decide, RunBody;
    OutcomeOfPublishedRun(t, q);
  }

  lemma PublicationIsTruthful(s: System, p: Id, run: Id)
    requires Inv(s) && p in s.pending && s.pending[p].Outcome? && s.pending[p].run == run
        && s.pending[p].decision.PublishIt?
    requires !HasSnapshot(s.db.snapshots, run)
    ensures Enabled(s, CommitOutcome(p))
    ensures var t := Next(s, CommitOutcome(p));
      && run in t.db.runs && Truthful(t.db, run) && CurrentIs(t.db, run) && p in t.pending
          && t.pending.Keys == s.pending.Keys
      && run in s.db.runs && t.db.runs[run].jobRunning == s.db.runs[run].jobRunning
  {
    PendingIsSettled(s, p);
    hide Inv, DbInv, FinalizedRows, DistinctBrawlers, TieredIffPublishable;
    PublishTxnKeeps(s.db, run, s.pending[p].body, NoReason, s.pending[p].decision.ratio, s.pending[p].evaluated);
  }

  lemma CrashLeavesDb(s: System, p: Id)
    requires p in s.pending
    ensures Enabled(s, Crash(p)) && Next(s, Crash(p)).db == s.db
    ensures forall q :: q in Next(s, Crash(p)).pending ==> q in s.pending
  {
  }

  /**
   * The crash between the publish commit and the cursor commit, as four steps of the
   * machine: the retry finds its own snapshot current, skips, and leaves the snapshots
   * alone, but rewrites the record as an unpublished no-change.
   */
  lemma RetryAfterCommittedPublish(s: System, p: Id, q: Id, run: Id) returns (states: seq<System>)
    requires Inv(s) && p in s.pending && s.pending[p].Outcome? && s.pending[p].run == run
        && s.pending[p].decision.PublishIt?
    requires !HasSnapshot(s.db.snapshots, run) && run in s.db.runs && s.db.runs[run].jobRunning && q !in s.pending
    ensures Path(states, [CommitOutcome(p), Crash(p), ReadPublish(q, run), CommitOutcome(q)]) && states[0] == s
    ensures Truthful(states[1].db, run) && CurrentIs(states[1].db, run)
    ensures states[4].db.snapshots == states[1].db.snapshots && !Truthful(states[4].db, run)
    ensures run in states[4].db.runs && states[4].db.runs[run].published == 0
        && states[4].db.runs[run].reason == NoSignificantChange
  {
    hide Inv, Enabled, Next, Truthful, CurrentIs;
    PublicationIsTruthful(s, p, run);
    var s1 := Next(s, CommitOutcome(p));
    NextKeeps(s, CommitOutcome(p));
    CrashLeavesDb(s1, p);
    var s2 := Next(s1, Crash(p));
    NextKeeps(s1, Crash(p));
    RetryRewrites(s2, q, run);
    var s3 := Next(s2, ReadPublish(q, run));
    states := [s, s1, s2, s3, Next(s3, CommitOutcome(q))];
  }

  lemma InvGivesDb(s: System)
    requires Inv(s)
    ensures DbInv(s.db) && ExactlyOneCurrent(s.db.snapshots)
  {
  }

  /** The workflow lock admits one running ranking job at a time. */
  ghost predicate OneJob(db: Db) {
    forall a, b :: a in db.runs && b in db.runs && db.runs[a].jobRunning && db.runs[b].jobRunning ==> a == b
  }

  ghost predicate SerialPath(states: seq<System>, actions: seq<Action>) {
    Path(states, actions) && forall i :: 0 <= i < |states| ==> OneJob(states[i].db)
  }

  ghost predicate StaysTruthful(s: System, run: Id) {
    forall states: seq<System>, actions: seq<Action> :: SerialPath(states, actions) && states[0] == s ==>
      forall i :: 0 <= i < |states| ==> Truthful(states[i].db, run)
  }

  ghost predicate PublishPending(s: System, run: Id) {
    exists q :: q in s.pending && s.pending[q].run == run
                && (s.pending[q].Approval? || (s.pending[q].Outcome? && s.pending[q].decision.PublishIt?))
  }

  ghost predicate HoldPending(s: System, run: Id)
    requires run in s.db.runs
  {
    exists q :: q in s.pending && s.pending[q].Outcome? && s.pending[q].run == run
                && s.pending[q].decision.Hold? && s.pending[q].evaluated == |s.db.runs[run].rows|
  }

  predicate HeldForApproval(r: Run) {
    r.status == Held && r.reason == MassMovement && r.evaluated == |r.rows|
  }

  predicate Approvable(r: Run) {
    r.matchups != [] && RunBody(r).items != []
  }

  /**
   * Another run that some process is about to publish, or that an operator may approve, now or
   * once its hold is committed.
   */
  ghost predicate MayBePublished(s: System, run: Id) {
    && run in s.db.runs && !HasSnapshot(s.db.snapshots, run)
    && (PublishPending(s, run) || (Approvable(s.db.runs[run])
        && (HeldForApproval(s.db.runs[run]) || HoldPending(s, run))))
  }

  /** A retry of `run` would not try to publish against the snapshot that `other` would make current. */
  ghost predicate Overtakes(s: System, other: Id, run: Id)
    requires run in s.db.runs && TieredIffPublishable(s.db.runs[run].rows)
  {
    MayBePublished(s, other) && !Against(RunBody(s.db.runs[other]).items, s.db.runs[run].rows).PublishIt?
  }

  /**
   * Nothing can rewrite the record: no process is about to mark the run held or unchanged,
   * and if its job still runs, a retry would be refused, now and after any other publication.
   */
  ghost predicate RecordIsFinal(s: System, run: Id)
    requires run in s.db.runs && TieredIffPublishable(s.db.runs[run].rows)
  {
    && (forall q :: q in s.pending && s.pending[q].Outcome? && s.pending[q].run == run ==>
        s.pending[q].decision.PublishIt?)
    && (s.db.runs[run].jobRunning ==> Decide(s.db, run).PublishIt? && forall other :: !Overtakes(s, other, run))
  }

  // Necessity: each threat is carried out by a serial path.

  lemma Earlier(s: System, a: Action, run: Id)
    requires Enabled(s, a) && OneJob(s.db) && !StaysTruthful(Next(s, a), run)
    ensures !StaysTruthful(s, run)
  {
    hide Enabled, Next, Truthful, OneJob;
    var states: seq<System>, actions: seq<Action> :|
      SerialPath(states, actions) && states[0] == Next(s, a) && exists i :: 0 <= i < |states| && !Truthful(states[i].db, run);
    var i :| 0 <= i < |states| && !Truthful(states[i].db, run);
    var longer, acts := [s] + states, [a] + actions;
    forall k | 0 <= k < |acts|
      ensures Enabled(longer[k], acts[k]) && longer[k + 1] == Next(longer[k], acts[k])
    {
      assert k > 0 ==> longer[k] == states[k - 1] && acts[k] == actions[k - 1];
    }
    assert forall k :: 0 <= k < |longer| ==> OneJob(longer[k].db);
    assert SerialPath(longer, acts) && longer[i + 1] == states[i];
  }

  lemma AlreadyUntrue(s: System, run: Id)
    requires OneJob(s.db) && !Truthful(s.db, run)
    ensures !StaysTruthful(s, run)
  {
    hide Truthful, OneJob;
    assert SerialPath([s], []);
  }

  lemma FreshProc(pending: map<Id, Pending>) returns (q: Id)
    ensures q !in pending
  {
    q := Unused(pending.Keys);
  }

  /** A step that neither starts nor ends a job. */
  lemma SameJobs(db: Db, db': Db)
    requires OneJob(db) && db'.runs.Keys == db.runs.Keys
    requires forall r :: r in db.runs ==> db'.runs[r].jobRunning == db.runs[r].jobRunning
    ensures OneJob(db')
  {
  }

  lemma CommitBreaks(s: System, q: Id, run: Id)
    requires Inv(s) && OneJob(s.db) && HasSnapshot(s.db.snapshots, run)
    requires q in s.pending && s.pending[q].Outcome? && s.pending[q].run == run && !s.pending[q].decision.PublishIt?
    ensures !StaysTruthful(s, run)
  {
    OutcomeOfPublishedRun(s, q);
    var t := Next(s, CommitOutcome(q));
    hide Inv, HasSnapshot;
    SameJobs(s.db, t.db);
    AlreadyUntrue(t, run);
    Earlier(s, CommitOutcome(q), run);
  }

  lemma RetryBreaks(s: System, run: Id)
    requires Inv(s) && OneJob(s.db) && HasSnapshot(s.db.snapshots, run) && Settled(s.db, run)
    requires s.db.runs[run].jobRunning && !Decide(s.db, run).PublishIt?
    ensures !StaysTruthful(s, run)
  {
    hide Inv, HasSnapshot, Decide;
    var q := FreshProc(s.pending);
    var t := Next(s, ReadPublish(q, run));
    NextKeeps(s, ReadPublish(q, run));
    CommitBreaks(t, q, run);
    Earlier(s, ReadPublish(q, run), run);
  }

  /** The publication of one run, seen by another. */
  lemma PublicationCommits(s: System, q: Id, other: Id)
    requires Inv(s) && q in s.pending && s.pending[q].run == other && other in s.db.runs
        && !HasSnapshot(s.db.snapshots, other)
    requires s.pending[q].Approval? || (s.pending[q].Outcome? && s.pending[q].decision.PublishIt?)
    ensures var db' := Next(s, CommitOutcome(q)).db;
      && db'.snapshots == Superseded(s.db.snapshots) + [Snapshot(other, true, RunBody(s.db.runs[other]))]
      && db'.runs.Keys == s.db.runs.Keys
      && (forall r :: r in s.db.runs ==> db'.runs[r].jobRunning == s.db.runs[r].jobRunning)
      && forall r :: r in s.db.runs && r != other ==> db'.runs[r] == s.db.runs[r]
  {
    assert PendingInv(s.db, s.pending[q]);
  }

  lemma StillThere(snaps: seq<Snapshot>, more: Snapshot, run: Id)
    requires HasSnapshot(snaps, run)
    ensures HasSnapshot(Superseded(snaps) + [more], run)
  {
    var i :| 0 <= i < |snaps| && snaps[i].run == run;
    assert (Superseded(snaps) + [more])[i].run == run;
  }

  lemma PublishThenRetry(s: System, q: Id, other: Id, run: Id)
    requires Inv(s) && OneJob(s.db) && HasSnapshot(s.db.snapshots, run) && Settled(s.db, run)
        && s.db.runs[run].jobRunning
    requires q in s.pending && s.pending[q].run == other && other in s.db.runs && !HasSnapshot(s.db.snapshots, other)
    requires s.pending[q].Approval? || (s.pending[q].Outcome? && s.pending[q].decision.PublishIt?)
    requires !Against(RunBody(s.db.runs[other]).items, s.db.runs[run].rows).PublishIt?
    ensures !StaysTruthful(s, run)
  {
    hide Against, RunBody, TieredIffPublishable, HasSnapshot, Next, DistinctBrawlers, FinalizedRows, Superseded;
    var a := CommitOutcome(q);
    var t := Next(s, a);
    PublicationCommits(s, q, other);
    NextKeeps(s, a);
    InvGivesDb(t);
    hide Inv, DbInv;
    StillThere(s.db.snapshots, Snapshot(other, true, RunBody(s.db.runs[other])), run);
    OnlyNewestIsCurrent(t.db.snapshots);
    assert !Decide(t.db, run).PublishIt?;
    SameJobs(s.db, t.db);
    RetryBreaks(t, run);
    Earlier(s, a, run);
  }

  lemma ApproveThenRetry(s: System, other: Id, run: Id)
    requires Inv(s) && OneJob(s.db) && HasSnapshot(s.db.snapshots, run) && Settled(s.db, run)
        && s.db.runs[run].jobRunning
    requires other in s.db.runs && !HasSnapshot(s.db.snapshots, other)
    requires Approvable(s.db.runs[other]) && HeldForApproval(s.db.runs[other])
    requires !Against(RunBody(s.db.runs[other]).items, s.db.runs[run].rows).PublishIt?
    ensures !StaysTruthful(s, run)
  {
    hide Against, HasSnapshot, TieredIffPublishable;
    var r := s.db.runs[other];
    var active := set i | 0 <= i < |r.rows| :: r.rows[i].brawler;
    assert Settled(s.db, other);
    ActiveCount(r.rows);
    var open := Catalogue(active, {other});
    var t := Next(s, open);
    NextKeeps(s, open);
    var q := FreshProc(t.pending);
    assert r.rows != [];
    assert r.rows[0].brawler in active;
    assert MayApprove(t.db, other);
    var u := Next(t, ReadApproval(q, other));
    NextKeeps(t, ReadApproval(q, other));
    PublishThenRetry(u, q, other, run);
    Earlier(t, ReadApproval(q, other), run);
    Earlier(s, open, run);
  }

  lemma {:induction false} ActiveCount(rows: seq<Candidate>)
    requires DistinctBrawlers(rows)
    ensures |set i | 0 <= i < |rows| :: rows[i].brawler| == |rows|
  {
    if rows != [] {
      var front, last := rows[..|rows| - 1], rows[|rows| - 1];
      ActiveCount(front);
      var before, after := (set i | 0 <= i < |front| :: front[i].brawler), (set i | 0 <= i < |rows| :: rows[i].brawler);
      assert forall i :: 0 <= i < |front| ==> front[i] == rows[i];
      forall x
        ensures x in after <==> x in before + {last.brawler}
      {
        if x in after {
          var i :| 0 <= i < |rows| && rows[i].brawler == x;
          assert i < |front| ==> front[i].brawler == x;
        }
        if x in before {
          var i :| 0 <= i < |front| && front[i].brawler == x;
          assert rows[i].brawler == x;
        }
      }
      assert after == before + {last.brawler};
    }
  }

  lemma OvertakenBreaks(s: System, other: Id, run: Id)
    requires Inv(s) && OneJob(s.db) && HasSnapshot(s.db.snapshots, run) && Settled(s.db, run)
        && s.db.runs[run].jobRunning
    requires Overtakes(s, other, run)
    ensures !StaysTruthful(s, run)
  {
    hide Inv, HasSnapshot, Against, Approvable, RunBody;
    if PublishPending(s, other) {
      var q :| q in s.pending && s.pending[q].run == other
        && (s.pending[q].Approval? || (s.pending[q].Outcome? && s.pending[q].decision.PublishIt?));
      PublishThenRetry(s, q, other, run);
    } else if HeldForApproval(s.db.runs[other]) {
      ApproveThenRetry(s, other, run);
    } else {
      var q :| q in s.pending && s.pending[q].Outcome? && s.pending[q].run == other
        && s.pending[q].decision.Hold? && s.pending[q].evaluated == |s.db.runs[other].rows|;
      var t := Next(s, CommitOutcome(q));
      NextKeeps(s, CommitOutcome(q));
      SameJobs(s.db, t.db);
      BodyOnlyOfRows(s.db.runs[other], t.db.runs[other]);
      ApproveThenRetry(t, other, run);
      Earlier(s, CommitOutcome(q), run);
    }
  }

  lemma BodyOnlyOfRows(r: Run, r': Run)
    requires r'.rows == r.rows && r'.modes == r.modes && r'.matchups == r.matchups
    ensures RunBody(r') == RunBody(r) && Approvable(r') == Approvable(r)
  {
  }

  // Sufficiency: no step of a serial path makes a threat.

  /** A run whose record is final, with all that this rests on. */
  ghost predicate Final(s: System, run: Id) {
    Settled(s.db, run) && HasSnapshot(s.db.snapshots, run) && Truthful(s.db, run) && RecordIsFinal(s, run)
  }

  /** Only publications touch the snapshots. */
  lemma SnapshotsMove(s: System, a: Action)
    requires Inv(s) && Enabled(s, a)
    ensures var snaps, snaps' := s.db.snapshots, Next(s, a).db.snapshots;
      || snaps' == snaps
      || (&& a.CommitOutcome? && PublishPending(s, s.pending[a.proc].run) && !HasSnapshot(snaps, s.pending[a.proc].run)
          && s.pending[a.proc].run in s.db.runs
          && snaps' == Superseded(snaps) + [Snapshot(s.pending[a.proc].run, true,
              RunBody(s.db.runs[s.pending[a.proc].run]))])
  {
    if a.CommitOutcome? {
      assert PendingInv(s.db, s.pending[a.proc]);
    }
  }

  /** The record of the published run, and what processes are about to do to it. */
  lemma RecordKept(s: System, a: Action, run: Id)
    requires Inv(s) && Enabled(s, a) && Final(s, run)
    ensures var t := Next(s, a);
      && run in t.db.runs && t.db.runs[run].rows == s.db.runs[run].rows && Truthful(t.db, run)
      && (t.db.runs[run].jobRunning ==> s.db.runs[run].jobRunning)
      && forall q :: q in t.pending && t.pending[q].Outcome? && t.pending[q].run == run ==>
          t.pending[q].decision.PublishIt?
  {
    hide MayBePublished, Against, FinalizedRows, DistinctBrawlers, TieredIffPublishable;
    if a.CommitOutcome? && s.pending[a.proc].run == run {
      assert PendingInv(s.db, s.pending[a.proc]);
    }
  }

  lemma RunAfterCommit(s: System, q: Id, other: Id)
    requires Inv(s) && Enabled(s, CommitOutcome(q)) && other in Next(s, CommitOutcome(q)).db.runs
    requires !HasSnapshot(Next(s, CommitOutcome(q)).db.snapshots, other)
    ensures var t := Next(s, CommitOutcome(q));
      && other in s.db.runs && !HasSnapshot(s.db.snapshots, other)
      && var r, r' := s.db.runs[other], t.db.runs[other];
      && r'.rows == r.rows && r'.modes == r.modes && r'.matchups == r.matchups
      && (HeldForApproval(r') ==> HeldForApproval(r) || HoldPending(s, other))
  {
    hide FinalizedRows, DistinctBrawlers, TieredIffPublishable, RunBody;
    PendingIsSettled(s, q);
    SnapshotsMove(s, CommitOutcome(q));
    var snaps := Next(s, CommitOutcome(q)).db.snapshots;
    if HasSnapshot(s.db.snapshots, other) && snaps != s.db.snapshots {
      StillThere(s.db.snapshots, snaps[|s.db.snapshots|], other);
    }
  }

  lemma RivalAfterCommit(s: System, q: Id, other: Id)
    requires Inv(s) && Enabled(s, CommitOutcome(q)) && MayBePublished(Next(s, CommitOutcome(q)), other)
    ensures MayBePublished(s, other) && RunBody(Next(s, CommitOutcome(q)).db.runs[other]) == RunBody(s.db.runs[other])
  {
    hide Approvable, HeldForApproval, RunBody, HasSnapshot, Inv;
    var t := Next(s, CommitOutcome(q));
    RunAfterCommit(s, q, other);
    BodyOnlyOfRows(s.db.runs[other], t.db.runs[other]);
    hide PublishTxn, Complete;
    assert forall p :: p in t.pending && !t.pending[p].CursorDue? ==> p in s.pending && t.pending[p] == s.pending[p];
  }

  lemma RivalAfterRead(s: System, a: Action, run: Id, other: Id)
    requires Enabled(s, a) && (a.ReadPublish? || a.ReadApproval?) && HasSnapshot(s.db.snapshots, run)
    requires a.ReadPublish? ==> a.run == run
    requires MayBePublished(Next(s, a), other)
    ensures MayBePublished(s, other) && RunBody(Next(s, a).db.runs[other]) == RunBody(s.db.runs[other])
  {
    hide HasSnapshot, Decide, TieredIffPublishable, FinalizedRows;
    var t := Next(s, a);
    assert t.db == s.db;
    assert a.ReadApproval? ==> HeldForApproval(s.db.runs[a.run]) && Approvable(s.db.runs[a.run]);
    hide RunBody, MayApprove, Approvable, HeldForApproval;
    assert forall p :: p in t.pending && p != a.proc ==> p in s.pending && t.pending[p] == s.pending[p];
  }

  lemma RivalAfterQuiet(s: System, a: Action, other: Id)
    requires Inv(s) && Enabled(s, a) && (a.Crash? || a.Reclaim? || a.Catalogue? || a.CommitCursor?)
    requires MayBePublished(Next(s, a), other)
    ensures MayBePublished(s, other) && RunBody(Next(s, a).db.runs[other]) == RunBody(s.db.runs[other])
  {
    hide HasSnapshot, Inv, Approvable;
    var t := Next(s, a);
    BodyOnlyOfRows(s.db.runs[other], t.db.runs[other]);
    hide RunBody;
    assert forall p :: p in t.pending ==> p in s.pending && t.pending[p] == s.pending[p];
  }

  /** Whoever computes, finalizes or reads for publication works for the running job. */
  lemma WorkIsForTheJob(s: System, a: Action, run: Id)
    requires Enabled(s, a) && OneJob(s.db) && OneJob(Next(s, a).db)
    requires run in s.db.runs && s.db.runs[run].jobRunning && run in Next(s, a).db.runs
        && Next(s, a).db.runs[run].jobRunning
    ensures a.Compute? || a.Finalize? || a.ReadPublish? ==> a.run == run
  {
    assert a.Compute? ==> a.run in Next(s, a).db.runs && Next(s, a).db.runs[a.run].jobRunning;
  }

  /** While its job is the one that runs, no run becomes publishable that was not so before. */
  lemma NoNewRival(s: System, a: Action, run: Id, other: Id)
    requires Inv(s) && Enabled(s, a) && Final(s, run) && OneJob(s.db) && OneJob(Next(s, a).db)
    requires s.db.runs[run].jobRunning && run in Next(s, a).db.runs && Next(s, a).db.runs[run].jobRunning
    requires MayBePublished(Next(s, a), other)
    ensures MayBePublished(s, other) && RunBody(Next(s, a).db.runs[other]) == RunBody(s.db.runs[other])
  {
    WorkIsForTheJob(s, a, run);
    assert !a.Compute? && !a.Finalize?;
    hide MayBePublished, RunBody, Against, Truthful, HasSnapshot, Inv, OneJob, Enabled, Next;
    match a
    case CommitOutcome(q) => RivalAfterCommit(s, q, other);
    case ReadPublish(q, r) => RivalAfterRead(s, a, run, other);
    case ReadApproval(q, r) => RivalAfterRead(s, a, run, other);
    case _ => RivalAfterQuiet(s, a, other);
  }

  /** The retry's decision can only change to one an overtaking publication would bring. */
  lemma DecisionKept(s: System, a: Action, run: Id)
    requires Inv(s) && Enabled(s, a) && Final(s, run) && s.db.runs[run].jobRunning
    requires run in Next(s, a).db.runs && Next(s, a).db.runs[run].rows == s.db.runs[run].rows
    requires Inv(Next(s, a))
    ensures Decide(Next(s, a).db, run).PublishIt?
  {
    var t := Next(s, a);
    SnapshotsMove(s, a);
    if t.db.snapshots != s.db.snapshots {
      var other := s.pending[a.proc].run;
      assert !Overtakes(s, other, run);
      InvGivesDb(t);
      OnlyNewestIsCurrent(t.db.snapshots);
    }
  }

  lemma FinalStep(s: System, a: Action, run: Id)
    requires Inv(s) && Enabled(s, a) && Final(s, run) && OneJob(s.db) && OneJob(Next(s, a).db)
    ensures Final(Next(s, a), run)
  {
    var t := Next(s, a);
    NextKeeps(s, a);
    RecordKept(s, a, run);
    SnapshotsMove(s, a);
    if t.db.snapshots != s.db.snapshots {
      StillThere(s.db.snapshots, t.db.snapshots[|s.db.snapshots|], run);
    }
    hide Next, Enabled, MayBePublished, RunBody, Against, OneJob, HasSnapshot, Truthful, Decide;
    assert Settled(t.db, run);
    if t.db.runs[run].jobRunning {
      DecisionKept(s, a, run);
      forall other
        ensures !Overtakes(t, other, run)
      {
        if MayBePublished(t, other) {
          NoNewRival(s, a, run, other);
          assert !Overtakes(s, other, run);
        }
      }
    }
  }

  lemma {:induction false} FinalAlong(states: seq<System>, actions: seq<Action>, run: Id)
    requires SerialPath(states, actions) && Inv(states[0]) && Final(states[0], run)
    ensures forall i :: 0 <= i < |states| ==> Truthful(states[i].db, run)
  {
    hide Inv, Enabled, Next, RecordIsFinal, Truthful, Settled, HasSnapshot, OneJob;
    var i := 0;
    while i < |actions|
      invariant 0 <= i <= |actions|
      invariant Inv(states[i]) && Final(states[i], run)
      invariant forall k :: 0 <= k <= i ==> Truthful(states[k].db, run)
    {
      NextKeeps(states[i], actions[i]);
      assert OneJob(states[i + 1].db);
      FinalStep(states[i], actions[i], run);
      i := i + 1;
    }
  }

  /**
   * Exactly when the record of a published run stays true, whatever crashes, retries,
   * approvals and other publications follow: no process is about to mark the run held or
   * unchanged, and, while its own job still runs, a retry would try to publish again (and
   * be refused by the unique key), against the current snapshot and against every snapshot
   * that a pending publication or an approval of a held run can still bring.
   */
  lemma PublishedRecordStaysTruthfulIff(s: System, run: Id)
    requires Inv(s) && OneJob(s.db) && HasSnapshot(s.db.snapshots, run) && Truthful(s.db, run)
    ensures Settled(s.db, run)
    ensures StaysTruthful(s, run) <==> RecordIsFinal(s, run)
  {
    hide RecordIsFinal, Truthful;
    assert Settled(s.db, run);
    hide Inv, HasSnapshot, OneJob;
    if RecordIsFinal(s, run) {
      forall states: seq<System>, actions: seq<Action> | SerialPath(states, actions) && states[0] == s
        ensures forall i :: 0 <= i < |states| ==> Truthful(states[i].db, run)
      {
        FinalAlong(states, actions, run);
      }
    } else {
      NotFinalBreaks(s, run);
    }
  }

  lemma NotFinalBreaks(s: System, run: Id)
    requires Inv(s) && OneJob(s.db) && HasSnapshot(s.db.snapshots, run) && Settled(s.db, run) && !RecordIsFinal(s, run)
    ensures !StaysTruthful(s, run)
  {
    hide Inv, HasSnapshot, OneJob, StaysTruthful, Overtakes, Decide;
    if q :| q in s.pending && s.pending[q].Outcome? && s.pending[q].run == run && !s.pending[q].decision.PublishIt? {
      CommitBreaks(s, q, run);
    } else if !Decide(s.db, run).PublishIt? {
      RetryBreaks(s, run);
    } else {
      var other :| Overtakes(s, other, run);
      OvertakenBreaks(s, other, run);
    }
  }
}
