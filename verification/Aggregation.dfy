/**
 * The resumable aggregation job: mode -> overall -> matchup -> finalize -> done.
 *
 * Each committed transaction is one step on an immutable `Job`; the class at the end is
 * the orchestrator that drives those steps. A slice and its cursor commit together, so a
 * slice that is rolled back leaves the job as it was.
 */
module Aggregation {
  import opened Common
  import opened Keyset
  import opened GroupBy

  const MAX_DRIVER_SLICES: nat := 1_000_000

  datatype Phase = Batches(scope: Scope) | Finalize | Done

  /** One value per aggregate table. */
  datatype Scoped<T> = Scoped(mode: T, overall: T, matchup: T) {
    function At(s: Scope): T {
      match s case PerMode => mode case Overall => overall case Matchup => matchup
    }
    function Put(s: Scope, t: T): (r: Scoped<T>)
      ensures forall u :: r.At(u) == if u == s then t else At(u)
    {
      match s
      case PerMode => this.(mode := t)
      case Overall => this.(overall := t)
      case Matchup => this.(matchup := t)
    }
  }

  /**
   * `rows` are the append-only tables; `aggregated` records, per scope, the brawlers of the
   * committed batches in order.
   */
  datatype Job = Job(phase: Phase, cursor: Option<Id>, rows: Scoped<multiset<Row>>, aggregated: Scoped<seq<Id>>)

  function Fresh(): Job {
    var none := multiset{};
    Job(Batches(PerMode), None, Scoped(none, none, none), Scoped([], [], []))
  }

  function NextPhase(s: Scope): Phase {
    match s case PerMode => Batches(Overall) case Overall => Batches(Matchup) case Matchup => Finalize
  }

  /** `runOneBatchOrAdvance`, committed. */
  function Slice(job: Job, active: set<Id>, d: Data, b: nat): Job
    requires job.phase.Batches?
  {
    var scope := job.phase.scope;
    var batch := Page(active, job.cursor, b);
    if batch == [] then job.(phase := NextPhase(scope), cursor := None)
    else job.(
      cursor := Some(Last(batch)),
      rows := job.rows.Put(scope, job.rows.At(scope) + multiset(Aggregate(scope, d, Elements(batch)))),
      aggregated := job.aggregated.Put(scope, job.aggregated.At(scope) + batch))
  }

  function Rank(p: Phase): nat {
    match p
    case Batches(PerMode) => 0
    case Batches(Overall) => 1
    case Batches(Matchup) => 2
    case Finalize => 3
    case Done => 4
  }

  /**
   * The brawlers of `active` that scope `s` must already hold: all of them once its phase is
   * over, none before it starts.
   */
  function Covered(job: Job, active: set<Id>, s: Scope): set<Id> {
    if Rank(job.phase) > Rank(Batches(s)) then active
    else if job.phase == Batches(s) then UpTo(active, job.cursor)
    else {}
  }

  // ------------------------------------------- refinement of the one-shot form

  /** The tables hold exactly what one monolithic statement over the covered brawlers would have written. */
  ghost predicate Refines(job: Job, active: set<Id>, d: Data) {
    && (!job.phase.Batches? ==> job.cursor.None?)
    && forall s :: job.rows.At(s) == multiset(Aggregate(s, d, Covered(job, active, s)))
  }

  lemma FreshRefines(active: set<Id>, d: Data)
    ensures Refines(Fresh(), active, d)
  {
    forall s: Scope
      ensures Fresh().rows.At(s) == multiset(Aggregate(s, d, Covered(Fresh(), active, s)))
    {
      assert Covered(Fresh(), active, s) == {};
      AggregateByKey(s, d, {});
    }
  }

  lemma SliceRefines(job: Job, active: set<Id>, d: Data, b: nat)
    requires b > 0 && job.phase.Batches? && Refines(job, active, d)
    ensures Refines(Slice(job, active, d, b), active, d)
  {
    var scope := job.phase.scope;
    var batch := Page(active, job.cursor, b);
    var next := Slice(job, active, d, b);
    PageIsPrefix(active, job.cursor, b);
    forall s: Scope
      ensures next.rows.At(s) == multiset(Aggregate(s, d, Covered(next, active, s)))
    {
      if s != scope || batch == [] {
        if batch == [] && s == scope {
          PassedAll(active, job.cursor);
        } else if next.phase == Batches(s) {
          assert UpTo(active, None) == {};
        }
        assert Covered(next, active, s) == Covered(job, active, s);
      } else {
        PageAdvances(active, job.cursor, b);
        AggregateSplits(s, d, UpTo(active, job.cursor), Elements(batch));
      }
    }
  }

  // -------------------------------------------------------------- whole runs

  /**
   * What can happen to a running job: a slice commits (with the catalogue and the battles as
   * they are then), or a slice rolls back or its process dies.
   */
  datatype Event = Commit(active: set<Id>, data: Data, batch: nat) | Lost

  ghost predicate Legal(e: Event) {
    e.Commit? ==> e.batch > 0
  }

  function Step(job: Job, e: Event): Job {
    if e.Commit? && job.phase.Batches? then Slice(job, e.active, e.data, e.batch) else job
  }

  function Run(job: Job, events: seq<Event>): Job
    decreases |events|
  {
    if events == [] then job else Run(Step(job, events[0]), events[1..])
  }

  /**
   * Over fixed data, any schedule of batch sizes, rollbacks and resumes that reaches finalize
   * leaves, in every table, the rows of the single GROUP BY.
   */
  lemma BatchedEqualsMonolithic(job: Job, events: seq<Event>, active: set<Id>, d: Data)
    requires forall e :: e in events ==> Legal(e) && (e.Commit? ==> e.active == active && e.data == d)
    requires Refines(job, active, d)
    ensures Refines(Run(job, events), active, d)
    ensures Run(job, events).phase == Finalize ==>
              forall s :: Run(job, events).rows.At(s) == multiset(Aggregate(s, d, active))
    decreases |events|
  {
    if events != [] {
      var e := events[0];
      assert e in events;
      if e.Commit? && job.phase.Batches? {
        SliceRefines(job, active, d, e.batch);
      }
      BatchedEqualsMonolithic(Step(job, e), events[1..], active, d);
    }
  }

  /** With a changing catalogue: nobody is aggregated twice, nobody always active is passed over. */
  ghost predicate Fair(job: Job, always: set<Id>) {
    && (forall s :: Ascending(job.aggregated.At(s)))
    && (forall s :: Covered(job, always, s) <= Elements(job.aggregated.At(s)))
    && (job.phase.Batches? ==>
          forall x :: x in job.aggregated.At(job.phase.scope) ==> !After(x, job.cursor))
    && (forall s :: Rank(Batches(s)) > Rank(job.phase) ==> job.aggregated.At(s) == [])
  }

  lemma SliceFair(job: Job, always: set<Id>, active: set<Id>, d: Data, b: nat)
    requires b > 0 && job.phase.Batches? && Fair(job, always) && always <= active
    ensures Fair(Slice(job, active, d, b), always)
  {
    var scope := job.phase.scope;
    var batch := Page(active, job.cursor, b);
    var next := Slice(job, active, d, b);
    PageIsPrefix(active, job.cursor, b);
    if batch != [] {
      AscendingJoin(job.aggregated.At(scope), batch);
      assert Last(batch) in batch;
      forall x | x in Covered(next, always, scope)
        ensures x in next.aggregated.At(scope)
      {
        if After(x, job.cursor) {
          assert x in Elements(batch);
        } else {
          assert x in Covered(job, always, scope);
        }
      }
      forall x | x in next.aggregated.At(scope)
        ensures !After(x, next.cursor)
      {
        assert x in job.aggregated.At(scope) || x in batch;
        if x in batch {
          assert x in Elements(batch);
        }
      }
    } else {
      assert Above(always, job.cursor) <= Above(active, job.cursor);
      PassedAll(always, job.cursor);
    }
    forall s: Scope | s != scope
      ensures Covered(next, always, s) <= Elements(next.aggregated.At(s))
    {
      if next.phase == Batches(s) {
        assert UpTo(always, None) == {};
      }
    }
  }

  /**
   * In every run, each scope's brawlers are pairwise distinct, and whoever was active at every
   * committed slice has been aggregated in each finished phase: with distinctness, exactly once.
   */
  lemma ExactlyOnce(job: Job, events: seq<Event>, always: set<Id>)
    requires forall e :: e in events ==> Legal(e) && (e.Commit? ==> always <= e.active)
    requires Fair(job, always)
    ensures Fair(Run(job, events), always)
    ensures var end := Run(job, events);
      forall s :: Ascending(end.aggregated.At(s))
        && (Rank(end.phase) > Rank(Batches(s)) ==> always <= Elements(end.aggregated.At(s)))
    decreases |events|
  {
    if events != [] {
      var e := events[0];
      assert e in events;
      if e.Commit? && job.phase.Batches? {
        SliceFair(job, always, e.active, e.data, e.batch);
      }
      ExactlyOnce(Step(job, e), events[1..], always);
    }
  }

  // ---------------------------------------------------------------- finalize

  datatype Status = Succeeded | SucceededWithWarnings

  function Warnings(rows: multiset<Row>): nat {
    |FailingRows(rows)|
  }

  /** The rows that break reconciliation, as often as the table holds them. */
  function FailingRows(rows: multiset<Row>): (f: multiset<Row>)
    ensures forall r :: f[r] == if Reconciles(r) then 0 else rows[r]
    decreases |rows|
  {
    hide Reconciles;
    if rows == multiset{} then multiset{}
    else
      var r: Row :| r in rows;
      var others := rows[r := 0];
      assert |others| == |rows| - rows[r];
      FailingRows(others)[r := if Reconciles(r) then 0 else rows[r]]
  }

  ghost predicate AllReconcile(job: Job) {
    forall s, r :: r in job.rows.At(s) ==> Reconciles(r)
  }

  function FinalStatus(job: Job): Status {
    if Warnings(job.rows.mode) + Warnings(job.rows.overall) + Warnings(job.rows.matchup) > 0
    then SucceededWithWarnings else Succeeded
  }

  lemma SliceReconciles(job: Job, active: set<Id>, d: Data, b: nat)
    requires AllReconcile(job) && job.phase.Batches?
    ensures AllReconcile(Slice(job, active, d, b))
  {
    hide Reconciles, Aggregate;
    var batch := Page(active, job.cursor, b);
    EveryRowReconciles(job.phase.scope, d, Elements(batch));
  }

  /** Whatever the schedule and the data, a job that started fresh finalizes without a single warning. */
  lemma AlwaysSucceeds(job: Job, events: seq<Event>)
    requires AllReconcile(job)
    ensures AllReconcile(Run(job, events))
    ensures FinalStatus(Run(job, events)) == Succeeded
    decreases |events|
  {
    hide Reconciles;
    if events != [] {
      var e := events[0];
      if e.Commit? && job.phase.Batches? {
        SliceReconciles(job, e.active, e.data, e.batch);
      }
      AlwaysSucceeds(Step(job, e), events[1..]);
    } else {
      NothingToWarn(job, PerMode);
      NothingToWarn(job, Overall);
      NothingToWarn(job, Matchup);
    }
  }

  lemma NothingToWarn(job: Job, s: Scope)
    requires AllReconcile(job)
    ensures Warnings(job.rows.At(s)) == 0
  {
    hide Reconciles;
    assert FailingRows(job.rows.At(s)) == multiset{};
  }

  // ------------------------------------------------------------- convergence

  /** Slices a job still needs, finalize included. */
  function SlicesLeft(job: Job, active: set<Id>, b: nat): nat
    requires b > 0
  {
    var wholePhase := Ceil(|active|, b) + 1;
    match job.phase
    case Batches(s) => (2 - Rank(job.phase)) * wholePhase + Ceil(|Above(active, job.cursor)|, b) + 1 + 1
    case Finalize => 1
    case Done => 1
  }

  lemma SliceProgress(job: Job, active: set<Id>, d: Data, b: nat)
    requires b > 0 && job.phase.Batches?
    ensures SlicesLeft(Slice(job, active, d, b), active, b) == SlicesLeft(job, active, b) - 1
  {
    var batch := Page(active, job.cursor, b);
    PageSize(active, job.cursor, b);
    if batch == [] {
      assert Above(active, None) == active;
    } else {
      PageRemainder(active, job.cursor, b);
    }
  }

  lemma FreshSlices(active: set<Id>, b: nat)
    requires b > 0
    ensures SlicesLeft(Fresh(), active, b) == 3 * (Ceil(|active|, b) + 1) + 1
  {
    assert Above(active, None) == active;
  }

  /**
   * The whole story of a fresh job over fixed data: every schedule that reaches finalize is the
   * monolithic statement, and it succeeds.
   */
  lemma FreshJobIsMonolithic(events: seq<Event>, active: set<Id>, d: Data)
    requires forall e :: e in events ==> Legal(e) && (e.Commit? ==> e.active == active && e.data == d)
    ensures var end := Run(Fresh(), events);
      end.phase == Finalize ==>
        && FinalStatus(end) == Succeeded
        && forall s :: end.rows.At(s) == multiset(Aggregate(s, d, active))
                       && Ascending(end.aggregated.At(s)) && active <= Elements(end.aggregated.At(s))
  {
    hide *;
    FreshRefines(active, d);
    FreshReconciles();
    FreshFair(active);
    BatchedEqualsMonolithic(Fresh(), events, active, d);
    AlwaysSucceeds(Fresh(), events);
    ExactlyOnce(Fresh(), events, active);
    AllPhasesOver();
  }

  lemma FreshReconciles()
    ensures AllReconcile(Fresh())
  {
  }

  lemma AllPhasesOver()
    ensures forall s :: Rank(Finalize) > Rank(Batches(s))
  {
  }

  lemma FreshFair(always: set<Id>)
    ensures Fair(Fresh(), always)
  {
    assert UpTo(always, None) == {};
  }

  // ------------------------------------------------------------ orchestrator

  /** What `workflow_runs` and the job-cursor step say about the definition's newest running run. */
  datatype Running = NoRun | CursorMissing | InFlight(job: Job)

  datatype SliceOutcome = SliceOutcome(freshStart: bool, done: bool, phase: Phase)

  /** A completed run: its job, with the cursor at `done`, and its status. */
  datatype Completed = Completed(job: Job, status: Status)

  datatype DriverResult = Converged(completed: Completed) | DidNotConverge

  function Left(r: Running, active: set<Id>, b: nat): nat
    requires b > 0
  {
    match r
    case NoRun => 1 + SlicesLeft(Fresh(), active, b)
    case CursorMissing => 2 + SlicesLeft(Fresh(), active, b)
    case InFlight(job) => SlicesLeft(job, active, b)
  }

  /** The job the driver resumes, or the one it will start. */
  function Current(r: Running): Job {
    if r.InFlight? then r.job else Fresh()
  }

  /** One slice that does not finish the run. */
  function Advance(r: Running, active: set<Id>, d: Data, b: nat): Running {
    match r
    case NoRun => InFlight(Fresh())
    case CursorMissing => NoRun
    case InFlight(job) => if job.phase.Batches? then InFlight(Slice(job, active, d, b)) else r
  }

  predicate Finishing(r: Running) {
    r.InFlight? && !r.job.phase.Batches?
  }

  lemma AdvanceKeeps(r: Running, active: set<Id>, d: Data, b: nat)
    requires b > 0 && !Finishing(r)
    ensures Left(Advance(r, active, d, b), active, b) == Left(r, active, b) - 1
    ensures Refines(Current(r), active, d) ==> Refines(Current(Advance(r, active, d, b)), active, d)
    ensures AllReconcile(Current(r)) ==> AllReconcile(Current(Advance(r, active, d, b)))
  {
    if r.InFlight? {
      SliceProgress(r.job, active, d, b);
      if AllReconcile(r.job) {
        SliceReconciles(r.job, active, d, b);
      }
      if Refines(r.job, active, d) {
        SliceRefines(r.job, active, d, b);
      }
    }
  }

  lemma FinishingKeeps(r: Running, active: set<Id>, d: Data)
    requires Finishing(r)
    ensures forall b: nat :: b > 0 ==> Left(r, active, b) == 1
    ensures AllReconcile(r.job) ==> FinalStatus(r.job) == Succeeded
    ensures Refines(r.job, active, d) ==> forall s :: r.job.rows.At(s) == multiset(Aggregate(s, d, active))
  {
    hide Refines, AllReconcile, FinalStatus;
    if AllReconcile(r.job) {
      AlwaysSucceeds(r.job, []);
    }
    if Refines(r.job, active, d) {
      FinishedTables(r.job, active, d);
    }
  }

  lemma FinishedTables(job: Job, active: set<Id>, d: Data)
    requires Refines(job, active, d) && !job.phase.Batches?
    ensures forall s :: job.rows.At(s) == multiset(Aggregate(s, d, active))
  {
    hide Aggregate;
    assert forall s :: Covered(job, active, s) == active;
  }

  lemma SomethingLeft(r: Running, active: set<Id>, b: nat)
    requires b > 0
    ensures Left(r, active, b) >= 1
  {
  }

  class Orchestrator {
    var active: set<Id>
    var data: Data
    var running: Running
    var completed: seq<Completed>

    constructor (active: set<Id>, data: Data)
      ensures this.active == active && this.data == data && running == NoRun && completed == []
    {
      this.active, this.data, running, completed := active, data, NoRun, [];
    }

    /** `finalizeAggregation`: the status of the run, its three scoped runs and the cursor commit together. */
    method FinalizeAggregation()
      requires running.InFlight? && !running.job.phase.Batches?
      modifies this`running, this`completed
      ensures running == NoRun
      ensures completed == old(completed)
                        + [Completed(old(running).job.(phase := Done), FinalStatus(old(running).job))]
    {
      var job := running.job;
      var warnings := Warnings(job.rows.mode) + Warnings(job.rows.overall) + Warnings(job.rows.matchup);
      var status := if warnings > 0 then SucceededWithWarnings else Succeeded;
      completed := completed + [Completed(job.(phase := Done), status)];
      running := NoRun;
    }

    /** `runOneBatchOrAdvance`. */
    method RunOneBatchOrAdvance(b: nat)
      requires running.InFlight? && running.job.phase.Batches?
      modifies this`running
      ensures running == InFlight(Slice(old(running).job, active, data, b))
    {
      var job := running.job;
      var scope := job.phase.scope;
      var batch := Page(active, job.cursor, b);
      if |batch| == 0 {
        running := InFlight(job.(phase := NextPhase(scope), cursor := None));
        return;
      }
      var inserted := Aggregate(scope, data, Elements(batch));
      var rows := job.rows.Put(scope, job.rows.At(scope) + multiset(inserted));
      var aggregated := job.aggregated.Put(scope, job.aggregated.At(scope) + batch);
      running := InFlight(job.(cursor := Some(Last(batch)), rows := rows, aggregated := aggregated));
    }

    /** `executeNextAggregationSlice`: claim, discard, finalize or process one batch. */
    method ExecuteNextSlice(b: nat) returns (out: SliceOutcome)
      modifies this`running, this`completed
      ensures out.freshStart <==> old(running).NoRun?
      ensures out.done <==> Finishing(old(running))
      ensures !out.done ==> completed == old(completed) && running == Advance(old(running), active, data, b)
      ensures out.phase ==
        if !old(running).InFlight? then Batches(PerMode) else if out.done then Done
        else Slice(old(running).job, active, data, b).phase
      ensures out.done ==>
        (&& running == NoRun
         && completed == old(completed)
                         + [Completed(old(running).job.(phase := Done), FinalStatus(old(running).job))])
    {
      if running.NoRun? {
        running := InFlight(Fresh());
        return SliceOutcome(true, false, Batches(PerMode));
      }
      if running.CursorMissing? {
        running := NoRun;
        return SliceOutcome(false, false, Batches(PerMode));
      }
      if !running.job.phase.Batches? {
        FinalizeAggregation();
        return SliceOutcome(false, true, Done);
      }
      RunOneBatchOrAdvance(b);
      return SliceOutcome(false, false, running.job.phase);
    }

    /**
     * `runAggregation` with the lock held: it converges exactly when the slices left fit
     * the driver's cap, and then a job whose tables were a faithful prefix (a fresh one
     * always is) ends with the monolithic tables.
     */
    method RunAggregation(batchSize: int) returns (r: DriverResult)
      modifies this`running, this`completed
      ensures r.Converged? <==> Left(old(running), active,
          ClampBatch(batchSize, 8, 50)) <= 1_000_000
      ensures r.Converged? ==> running == NoRun && completed == old(completed) + [r.completed]
      ensures r.DidNotConverge? ==> completed == old(completed)
      ensures r.Converged? ==> r.completed.job.phase == Done
      ensures r.Converged? && Refines(Current(old(running)), active, data) ==>
                forall s :: r.completed.job.rows.At(s) == multiset(Aggregate(s, data, active))
      ensures r.Converged? && AllReconcile(Current(old(running))) ==> r.completed.status == Succeeded
    {
      hide Left, Refines, AllReconcile, Advance, FinalStatus, Aggregate;
      var b := ClampBatch(batchSize, JOB_BATCH, MAX_JOB_BATCH);
      var i := 0;
      SomethingLeft(running, active, b);
      while i < MAX_DRIVER_SLICES
        invariant 0 <= i <= MAX_DRIVER_SLICES
        invariant completed == old(completed)
        invariant 1 <= Left(running, active, b) == Left(old(running), active, b) - i
        invariant Refines(Current(old(running)), active, data) ==> Refines(Current(running), active, data)
        invariant AllReconcile(Current(old(running))) ==> AllReconcile(Current(running))
      {
        if Finishing(running) {
          FinishingKeeps(running, active, data);
        } else {
          AdvanceKeeps(running, active, data, b);
        }
        var last := ExecuteNextSlice(b);
        SomethingLeft(running, active, b);
        if last.done {
          return Converged(completed[|completed| - 1]);
        }
        i := i + 1;
      }
      return DidNotConverge;
    }
  }

  /** From a fresh start over n active brawlers the driver needs exactly 3 * (ceil(n / b) + 1) + 2 slices. */
  lemma FreshStartSlices(active: set<Id>, b: nat)
    requires b > 0
    ensures Left(NoRun, active, b) == 3 * (Ceil(|active|, b) + 1) + 2
  {
    FreshSlices(active, b);
  }
}
