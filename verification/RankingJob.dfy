/**
 * The resumable ranking job up to publication: brawlers -> matchups -> finalize -> publish.
 * Each committed transaction is one step; the calculation time is fixed when the job
 * starts, so a brawler's signals are a function of the brawler.
 */
module RankingJob {
  import opened Common
  import opened Keyset
  import opened Ranking
  import Publication
  import RankingStore
  import opened Signals
  import PlayerCap

  const MAX_DRIVER_SLICES: nat := 1_000_000

  datatype Pooled = Pooled(opponent: Id, matches: nat, wins: nat, losses: nat)

  /** What the queries and the rule set yield for this run. */
  datatype Source = Source(
    raw: Id -> seq<PlayerCap.Row>, pooled: Id -> seq<Pooled>, patch: Option<Id>, now: int,
    highRankFloor: nat, overallFloor: nat, modeFloor: nat)

  function PooledRate(p: Pooled): Option<real> {
    WinRate(p.wins as real, p.losses as real)
  }

  function ClassifyMatchup(winRate: Option<real>, matches: nat): Option<Relationship> {
    if matches < 20 || winRate.None? then None
    else if winRate.value <= 0.35 then Some(HardCounter)
    else if winRate.value < 0.45 then Some(Counter)
    else if winRate.value <= 0.55 then Some(Neutral)
    else if winRate.value < 0.65 then Some(Strong)
    else Some(HardAdvantage)
  }

  /** Rows are pooled over the strata, so the top level is never reached. */
  function PooledConfidence(matches: nat): MatchupConfidence {
    if matches < 20 then NoSignal else if matches < 40 then WeakSignal else ProbableCounter
  }

  function Relation(p: Pooled): Option<Relationship> {
    ClassifyMatchup(PooledRate(p), p.matches)
  }

  /** A published pair is exactly one with at least forty matches, some of them decided. */
  lemma PublishedPairs(src: Source, b: Id, i: nat)
    requires i < |src.pooled(b)|
    ensures var p := src.pooled(b)[i];
      Qualifies(MatchupsFor(src, b)[i]) <==> p.matches >= 40 && p.wins + p.losses > 0
  {
  }

  function Qualifying(ps: seq<Pooled>): nat {
    if ps == [] then 0 else (if Relation(ps[0]).Some? then 1 else 0) + Qualifying(ps[1..])
  }

  function Coverage(ps: seq<Pooled>): real {
    if ps == [] then 0.0 else Qualifying(ps) as real / |ps| as real
  }

  // ------------------------------------------------------ rows of one brawler

  function SignalFor(src: Source, b: Id): Signal {
    SignalOf(src.raw(b), src.patch, src.now, src.highRankFloor)
  }

  function CandidateOf(src: Source, b: Id, s: Signal, covered: bool): Candidate {
    var meets := s.overall.matches >= src.overallFloor && s.overall.winRate.Some?;
    Candidate(b, s.overall.matches, meets, s.overall.winRate, s.highRank,
              if covered then Some(Coverage(src.pooled(b))) else None,
              if meets then OverallConfidence(s) else Insufficient, None, None)
  }

  function ModeRowsOf(src: Source, b: Id, s: Signal): seq<ModeCandidate> {
    seq(|s.modes|, i requires 0 <= i < |s.modes| =>
      var r := s.modes[i].rated;
      var meets := r.matches >= src.modeFloor && r.winRate.Some?;
      ModeCandidate(b, s.modes[i].mode, r.matches, meets, r.winRate,
                    if meets then ModeConfidence(r.matches, s) else Insufficient, None, None))
  }

  function CandidateFor(src: Source, b: Id, covered: bool): Candidate {
    CandidateOf(src, b, SignalFor(src, b), covered)
  }

  function ModesFor(src: Source, b: Id): seq<ModeCandidate> {
    ModeRowsOf(src, b, SignalFor(src, b))
  }

  function MatchupsFor(src: Source, b: Id): seq<MatchupRow> {
    var ps := src.pooled(b);
    seq(|ps|, i requires 0 <= i < |ps| =>
      MatchupRow(b, ps[i].opponent, ps[i].matches, PooledRate(ps[i]), Relation(ps[i]), PooledConfidence(ps[i].matches)))
  }

  // --------------------------------------------- the one-shot form, per table

  function Candidates(src: Source, ids: seq<Id>, covered: set<Id>): (rows: seq<Candidate>)
    ensures |rows| == |ids| && forall i :: 0 <= i < |ids| ==> rows[i] == CandidateFor(src, ids[i], ids[i] in covered)
  {
    seq(|ids|, i requires 0 <= i < |ids| => CandidateFor(src, ids[i], ids[i] in covered))
  }

  function AllModes(src: Source, ids: seq<Id>): seq<ModeCandidate> {
    if ids == [] then [] else AllModes(src, ids[..|ids| - 1]) + ModesFor(src, Last(ids))
  }

  function AllMatchups(src: Source, ids: seq<Id>): seq<MatchupRow> {
    if ids == [] then [] else AllMatchups(src, ids[..|ids| - 1]) + MatchupsFor(src, Last(ids))
  }

  lemma {:induction false} ModesJoin(src: Source, a: seq<Id>, b: seq<Id>)
    ensures AllModes(src, a + b) == AllModes(src, a) + AllModes(src, b)
  {
    hide ModesFor;
    if b == [] {
      assert a + b == a;
    } else {
      var front := b[..|b| - 1];
      ModesJoin(src, a, front);
      assert (a + b)[..|a + b| - 1] == a + front && Last(a + b) == Last(b);
    }
  }

  lemma {:induction false} MatchupsJoin(src: Source, a: seq<Id>, b: seq<Id>)
    ensures AllMatchups(src, a + b) == AllMatchups(src, a) + AllMatchups(src, b)
  {
    hide MatchupsFor;
    if b == [] {
      assert a + b == a;
    } else {
      var front := b[..|b| - 1];
      MatchupsJoin(src, a, front);
      assert (a + b)[..|a + b| - 1] == a + front && Last(a + b) == Last(b);
    }
  }

  lemma CandidatesJoin(src: Source, a: seq<Id>, b: seq<Id>)
    ensures Candidates(src, a + b, {}) == Candidates(src, a, {}) + Candidates(src, b, {})
  {
    hide CandidateFor;
  }

  lemma CoverageJoins(src: Source, ids: seq<Id>, covered: set<Id>, batch: set<Id>)
    ensures UpdateCoverage(src, Candidates(src, ids, covered), batch) == Candidates(src, ids, covered + batch)
  {
  }

  // --------------------------------------------------------------- the slices

  datatype Phase = Brawlers | Matchups | Finalize | Publish | Done

  datatype Job = Job(phase: Phase, cursor: Option<Id>, rows: seq<Candidate>, modes: seq<ModeCandidate>,
      matchups: seq<MatchupRow>)

  function Fresh(): Job {
    Job(Brawlers, None, [], [], [])
  }

  /** `UPDATE ranking_results SET matchup_coverage = ?` for each brawler of the batch. */
  function UpdateCoverage(src: Source, rows: seq<Candidate>, batch: set<Id>): (r: seq<Candidate>)
    ensures |r| == |rows|
    ensures forall i :: 0 <= i < |rows| ==>
      r[i] == if rows[i].brawler in batch then rows[i].(coverage := Some(Coverage(src.pooled(rows[i].brawler))))
          else rows[i]
  {
    seq(|rows|, i requires 0 <= i < |rows| =>
      if rows[i].brawler in batch then rows[i].(coverage := Some(Coverage(src.pooled(rows[i].brawler)))) else rows[i])
  }

  /** One committed slice. */
  function Slice(job: Job, active: set<Id>, src: Source, b: nat): Job {
    var batch := Page(active, job.cursor, b);
    match job.phase
    case Brawlers =>
      if batch == [] then job.(phase := Matchups, cursor := None)
      else job.(cursor := Some(Last(batch)), rows := job.rows + Candidates(src, batch, {}),
          modes := job.modes + AllModes(src, batch))
    case Matchups =>
      if batch == [] then job.(phase := Finalize, cursor := None)
      else job.(cursor := Some(Last(batch)), rows := UpdateCoverage(src, job.rows, Elements(batch)),
                matchups := job.matchups + AllMatchups(src, batch))
    case Finalize => job.(phase := Publish, rows := FinalizedRows(job.rows), modes := FinalizedModes(job.modes))
    case _ => job.(phase := Done)
  }

  /** The tables hold what one unbatched pass over the brawlers passed so far would have written. */
  ghost predicate Refines(job: Job, active: set<Id>, src: Source) {
    var passed := InOrder(UpTo(active, job.cursor));
    var all := InOrder(active);
    match job.phase
    case Brawlers => job.rows == Candidates(src, passed, {}) && job.modes == AllModes(src, passed) && job.matchups == []
    case Matchups =>
      && job.rows == Candidates(src, all, UpTo(active, job.cursor))
      && job.modes == AllModes(src, all) && job.matchups == AllMatchups(src, passed)
    case Finalize => job.rows == Candidates(src, all, active) && job.modes == AllModes(src, all)
        && job.matchups == AllMatchups(src, all)
    case _ =>
      && job.rows == FinalizedRows(Candidates(src, all, active))
      && job.modes == FinalizedModes(AllModes(src, all)) && job.matchups == AllMatchups(src, all)
  }

  lemma NothingPassed(active: set<Id>)
    ensures UpTo(active, None) == {} && InOrder({}) == []
  {
  }

  lemma BrawlerSliceRefines(job: Job, active: set<Id>, src: Source, b: nat)
    requires b > 0 && job.phase == Brawlers && Refines(job, active, src)
    ensures Refines(Slice(job, active, src, b), active, src)
  {
    NothingPassed(active);
    hide InOrder, Page, Candidates, AllModes, AllMatchups, UpTo, Last;
    var batch := Page(active, job.cursor, b);
    if batch == [] {
      PassedAll(active, job.cursor);
      assert AllMatchups(src, []) == [] by {
        NoMatchups(src);
      }
    } else {
      var passed := InOrder(UpTo(active, job.cursor));
      InOrderGrows(active, job.cursor, b);
      ModesJoin(src, passed, batch);
      CandidatesJoin(src, passed, batch);
    }
  }

  lemma NoMatchups(src: Source)
    ensures AllMatchups(src, []) == []
  {
  }

  lemma MatchupSliceRefines(job: Job, active: set<Id>, src: Source, b: nat)
    requires b > 0 && job.phase == Matchups && Refines(job, active, src)
    ensures Refines(Slice(job, active, src, b), active, src)
  {
    hide InOrder, Page, Candidates, AllModes, AllMatchups, UpTo, Last, UpdateCoverage;
    var batch := Page(active, job.cursor, b);
    if batch == [] {
      PassedAll(active, job.cursor);
    } else {
      var passed := UpTo(active, job.cursor);
      InOrderGrows(active, job.cursor, b);
      PageAdvances(active, job.cursor, b);
      MatchupsJoin(src, InOrder(passed), batch);
      CoverageJoins(src, InOrder(active), passed, Elements(batch));
    }
  }

  lemma SliceRefines(job: Job, active: set<Id>, src: Source, b: nat)
    requires b > 0 && Refines(job, active, src)
    ensures Refines(Slice(job, active, src, b), active, src)
  {
    match job.phase
    case Brawlers => BrawlerSliceRefines(job, active, src, b);
    case Matchups => MatchupSliceRefines(job, active, src, b);
    case _ =>
  }

  // -------------------------------------------------------------- whole runs

  /** A slice commits, with the catalogue and the source data as they are then, or is lost to a rollback or a crash. */
  datatype Event = Commit(active: set<Id>, src: Source, batch: nat) | Lost

  function Run(job: Job, events: seq<Event>): Job
    decreases |events|
  {
    if events == [] then job
    else
      var e := events[0];
      Run(if e.Commit? then Slice(job, e.active, e.src, e.batch) else job, events[1..])
  }

  /**
   * Whatever the batch sizes, losses and resumes: past finalize the candidates are those of one
   * unbatched computation.
   */
  lemma {:induction false} BatchedEqualsOneShot(job: Job, events: seq<Event>, active: set<Id>, src: Source)
    requires forall e :: e in events && e.Commit? ==> e.batch > 0 && e.active == active && e.src == src
    requires Refines(job, active, src)
    ensures Refines(Run(job, events), active, src)
    decreases |events|
  {
    if events != [] {
      var e := events[0];
      assert e in events;
      if e.Commit? {
        SliceRefines(job, active, src, e.batch);
      }
      BatchedEqualsOneShot(if e.Commit? then Slice(job, active, src, e.batch) else job, events[1..], active, src);
    }
  }

  lemma FreshRefines(active: set<Id>, src: Source)
    ensures Refines(Fresh(), active, src)
  {
    NothingPassed(active);
  }

  /**
   * What publication builds on: a finished computation has one row for each active brawler and
   * none besides, tiered exactly where it publishes.
   */
  lemma FinalizedRunIsComplete(events: seq<Event>, active: set<Id>, src: Source)
    requires forall e :: e in events && e.Commit? ==> e.batch > 0 && e.active == active && e.src == src
    requires Run(Fresh(), events).phase in {Publish, Done}
    ensures var rows := Run(Fresh(), events).rows;
      && |rows| == |active| && (set i | 0 <= i < |rows| :: rows[i].brawler) == active
      && DistinctBrawlers(rows) && TieredIffPublishable(rows)
  {
    FreshRefines(active, src);
    BatchedEqualsOneShot(Fresh(), events, active, src);
    var before := Candidates(src, InOrder(active), active);
    FinalizeTiersExactlyThePublishable(before);
    OneRowPerBrawler(src, active, FinalizedRows(before));
  }

  lemma OneRowPerBrawler(src: Source, active: set<Id>, rows: seq<Candidate>)
    requires |rows| == |InOrder(active)| && forall i :: 0 <= i < |rows| ==> rows[i].brawler == InOrder(active)[i]
    ensures |rows| == |active| && (set i | 0 <= i < |rows| :: rows[i].brawler) == active && DistinctBrawlers(rows)
  {
    var all := InOrder(active);
    InOrderIsAll(active);
    hide InOrder;
    forall x
      ensures x in (set i | 0 <= i < |rows| :: rows[i].brawler) <==> x in Elements(all)
    {
      if x in Elements(all) {
        var i :| 0 <= i < |all| && all[i] == x;
        assert rows[i].brawler == x;
      }
    }
  }

  lemma {:induction false} QualifyingAreSome(ps: seq<Pooled>)
    ensures Qualifying(ps) <= |ps|
  {
    if ps != [] {
      QualifyingAreSome(ps[1..]);
    }
  }

  lemma CandidateInUnit(src: Source, b: Id, covered: bool)
    ensures UnitRates(CandidateFor(src, b, covered))
    ensures forall i :: 0 <= i < |ModesFor(src, b)| ==> Unit(ModesFor(src, b)[i].winRate)
  {
    SignalsInUnit(src.raw(b), src.patch, src.now, src.highRankFloor);
    hide SignalOf;
    QualifyingAreSome(src.pooled(b));
    if src.pooled(b) != [] {
      PartInUnit(Qualifying(src.pooled(b)), |src.pooled(b)|);
    }
  }

  lemma {:induction false} AllModesInUnit(src: Source, ids: seq<Id>)
    ensures forall i :: 0 <= i < |AllModes(src, ids)| ==> Unit(AllModes(src, ids)[i].winRate)
  {
    hide ModesFor, Unit;
    if ids != [] {
      AllModesInUnit(src, ids[..|ids| - 1]);
      CandidateInUnit(src, Last(ids), false);
    }
  }

  /**
   * Whatever was fought and however the job was sliced: every score and mode score of a
   * finished computation lies between 0 and 100.
   */
  lemma FinishedScoresInRange(events: seq<Event>, active: set<Id>, src: Source)
    requires forall e :: e in events && e.Commit? ==> e.batch > 0 && e.active == active && e.src == src
    requires Run(Fresh(), events).phase in {Publish, Done}
    ensures var job := Run(Fresh(), events);
      && (forall i :: 0 <= i < |job.rows| && job.rows[i].score.Some? ==> 0.0 <= job.rows[i].score.value <= 100.0)
      && (forall i :: 0 <= i < |job.modes| && job.modes[i].score.Some? ==> 0.0 <= job.modes[i].score.value <= 100.0)
  {
    FreshRefines(active, src);
    BatchedEqualsOneShot(Fresh(), events, active, src);
    hide CandidateFor, UnitRates, Unit, InOrder, Run, FinalizedRows, FinalizedModes, AllModes;
    var all := InOrder(active);
    var rows := Candidates(src, all, active);
    forall i | 0 <= i < |rows|
      ensures UnitRates(rows[i])
    {
      CandidateInUnit(src, all[i], all[i] in active);
    }
    AllModesInUnit(src, all);
    FinalizedLengths(rows, AllModes(src, all));
    ScoresInRange(rows, AllModes(src, all));
  }

  lemma FinalizedLengths(rows: seq<Candidate>, modes: seq<ModeCandidate>)
    ensures |FinalizedRows(rows)| == |rows| && |FinalizedModes(modes)| == |modes|
  {
  }

  /** With a changing catalogue or changing data, no brawler ever gets two candidate rows. */
  ghost predicate OneRowEach(job: Job) {
    && (forall i, j :: 0 <= i < j < |job.rows| ==> job.rows[i].brawler < job.rows[j].brawler)
    && (job.phase == Brawlers ==> forall i :: 0 <= i < |job.rows| ==> !After(job.rows[i].brawler, job.cursor))
  }

  lemma SliceKeepsOneRowEach(job: Job, active: set<Id>, src: Source, b: nat)
    requires OneRowEach(job)
    ensures OneRowEach(Slice(job, active, src, b))
  {
    hide AllModes, AllMatchups, FinalizedModes, FinalizedRows, Page;
    match job.phase
    case Brawlers => PageKeepsOneRowEach(job, active, src, b);
    case Finalize => FinalizedBrawlers(job.rows);
    case _ =>
  }

  lemma FinalizedBrawlers(rows: seq<Candidate>)
    ensures |FinalizedRows(rows)| == |rows| && forall i :: 0 <= i < |rows| ==>
        FinalizedRows(rows)[i].brawler == rows[i].brawler
  {
  }

  lemma PageKeepsOneRowEach(job: Job, active: set<Id>, src: Source, b: nat)
    requires OneRowEach(job) && job.phase == Brawlers
    ensures OneRowEach(Slice(job, active, src, b))
  {
    hide AllModes, AllMatchups, FinalizedModes, FinalizedRows, Page, SignalFor, Coverage;
    var batch := Page(active, job.cursor, b);
    PageIsPrefix(active, job.cursor, b);
    if batch != [] {
      assert Last(batch) in batch;
      forall i | 0 <= i < |batch|
        ensures After(batch[i], job.cursor) && batch[i] <= Last(batch)
      {
        assert batch[i] in batch;
      }
    }
  }

  lemma {:induction false} NeverTwoRows(job: Job, events: seq<Event>)
    requires OneRowEach(job)
    ensures OneRowEach(Run(job, events)) && DistinctBrawlers(Run(job, events).rows)
    decreases |events|
  {
    if events != [] {
      var e := events[0];
      if e.Commit? {
        SliceKeepsOneRowEach(job, e.active, e.src, e.batch);
      }
      NeverTwoRows(if e.Commit? then Slice(job, e.active, e.src, e.batch) else job, events[1..]);
    }
  }

  // ------------------------------------------------------------- convergence

  /** Slices until the run is done, counting the one that finishes it. */
  function SlicesLeft(job: Job, active: set<Id>, b: nat): nat
    requires b > 0
  {
    var wholePhase := Ceil(|active|, b) + 1;
    match job.phase
    case Brawlers => Ceil(|Above(active, job.cursor)|, b) + 1 + wholePhase + 2
    case Matchups => Ceil(|Above(active, job.cursor)|, b) + 1 + 2
    case Finalize => 2
    case _ => 1
  }

  predicate Finishing(job: Job) {
    job.phase == Publish || job.phase == Done
  }

  lemma SliceProgress(job: Job, active: set<Id>, src: Source, b: nat)
    requires b > 0 && !Finishing(job)
    ensures SlicesLeft(Slice(job, active, src, b), active, b) == SlicesLeft(job, active, b) - 1
  {
    hide AllModes, AllMatchups, FinalizedModes, FinalizedRows, Candidates, UpdateCoverage, Page;
    var batch := Page(active, job.cursor, b);
    PageSize(active, job.cursor, b);
    if batch == [] {
      assert Above(active, None) == active;
    } else {
      PageRemainder(active, job.cursor, b);
    }
  }

  /**
   * A ranking run whose prerequisites hold takes exactly 2 * (ceil(n / b) + 1) + 3 slices, the
   * starting one included.
   */
  lemma FreshRunSlices(active: set<Id>, b: nat)
    requires b > 0
    ensures 1 + SlicesLeft(Fresh(), active, b) == 2 * (Ceil(|active|, b) + 1) + 3
  {
    assert Above(active, None) == active;
  }

  // ------------------------------------------------------------ orchestrator

  datatype Running = NoRun | CursorMissing | InFlight(job: Job)

  /** A finished job says whether its candidates were to be published, held or found unchanged. */
  datatype Outcome =
    | Continues | Ended(job: Job, decision: Publication.Decision) | NoValidAggregation | NoActiveRuleSet | Died

  /** Starting is three commits: the workflow run, the ranking run, the cursor. */
  datatype Crash = Never | AfterWorkflowRun | AfterRankingRun

  /** Slices until the driver stops; a refused start stops it at once. */
  function Left(r: Running, mayStart: bool, active: set<Id>, b: nat): nat
    requires b > 0
  {
    var start := if mayStart then 1 + SlicesLeft(Fresh(), active, b) else 1;
    match r
    case NoRun => start
    case CursorMissing => 1 + start
    case InFlight(job) => SlicesLeft(job, active, b)
  }

  ghost predicate Faithful(r: Running, active: set<Id>, src: Source) {
    r.InFlight? ==> Refines(r.job, active, src)
  }

  /** A job that reached publication has been finalized. */
  ghost predicate Stamped(r: Running) {
    r.InFlight? && Finishing(r.job) ==> TieredIffPublishable(r.job.rows)
  }

  type Snapshots = seq<Publication.Snapshot>

  /** What one slice of the driver does, and what it answers. */
  ghost function Advance(r: Running, aggregationValid: bool, ruleSetActive: bool, snaps: Snapshots, active: set<Id>,
      src: Source, b: nat): (Running, Outcome)
    requires Stamped(r)
  {
    match r
    case NoRun =>
      if !aggregationValid then (NoRun, NoValidAggregation)
      else if !ruleSetActive then (NoRun, NoActiveRuleSet)
      else (InFlight(Fresh()), Continues)
    case CursorMissing => (NoRun, Continues)
    case InFlight(job) =>
      var next := Slice(job, active, src, b);
      if Finishing(job) then (NoRun, Ended(next, Publication.DecideOn(snaps, job.rows)))
          else (InFlight(next), Continues)
  }

  lemma AdvanceKeeps(r: Running, aggregationValid: bool, ruleSetActive: bool, snaps: Snapshots, active: set<Id>,
      src: Source, b: nat)
    requires b > 0 && Stamped(r)
    ensures var (next, out) := Advance(r, aggregationValid, ruleSetActive, snaps, active, src, b);
      var mayStart := aggregationValid && ruleSetActive;
      && (out == Continues ==> Left(next, mayStart, active, b) == Left(r, mayStart, active, b) - 1)
      && (out != Continues ==> Left(r, mayStart, active, b) == 1 && next == NoRun)
      && (Faithful(r, active, src) ==> Faithful(next, active, src))
      && Stamped(next) && out != Died
      && (Faithful(r, active, src) && out.Ended? ==> Refines(out.job, active, src) && out.job.phase == Done)
      && (out.Ended? ==> r.InFlight? && TieredIffPublishable(out.job.rows) && out.decision == Publication.DecideOn(snaps, out.job.rows)) && (next.InFlight? ==> r.InFlight? || mayStart)
      && (r.InFlight? && out == Continues ==> next.InFlight?)
  {
    hide SlicesLeft, Refines;
    match r
    case InFlight(job) =>
      if Finishing(job) {
        LastSlice(job, active, b);
      } else {
        SliceProgress(job, active, src, b);
      }
      if Refines(job, active, src) {
        SliceRefines(job, active, src, b);
      }
      FinalizeTiersExactlyThePublishable(job.rows);
    case NoRun => FreshRefines(active, src);
    case CursorMissing =>
  }

  lemma SomethingLeft(r: Running, mayStart: bool, active: set<Id>, b: nat)
    requires b > 0
    ensures Left(r, mayStart, active, b) >= 1
  {
  }

  lemma LastSlice(job: Job, active: set<Id>, b: nat)
    requires b > 0 && Finishing(job)
    ensures SlicesLeft(job, active, b) == 1
  {
  }

  class Orchestrator {
    var active: set<Id>
    var src: Source
    var aggregationValid: bool
    var ruleSetActive: bool
    var snapshots: Snapshots
    var running: Running
    /** How many rows ranking_runs holds for this definition. */
    var rankingRuns: nat

    constructor (active: set<Id>, src: Source, aggregationValid: bool, ruleSetActive: bool, snapshots: Snapshots)
      ensures this.active == active && this.src == src && running == NoRun && this.snapshots == snapshots
          && rankingRuns == 0
      ensures this.aggregationValid == aggregationValid && this.ruleSetActive == ruleSetActive
    {
      this.active, this.src, this.aggregationValid, this.ruleSetActive := active, src, aggregationValid, ruleSetActive;
      this.snapshots, running, rankingRuns := snapshots, NoRun, 0;
    }

    predicate MayStart()
      reads this
    {
      aggregationValid && ruleSetActive
    }

    /**
     * `startRankingJob`: a crash between its commits leaves a run without a cursor, which the
     * next slice discards, and possibly a ranking run that nothing will ever complete.
     */
    method StartRankingJob(crash: Crash) returns (out: Outcome)
      requires running.NoRun?
      modifies this`running, this`rankingRuns
      ensures crash == Never || (crash == AfterRankingRun && !MayStart()) ==>
        (running, out) == Advance(NoRun, aggregationValid, ruleSetActive, snapshots, active, src, 1)
      ensures crash == AfterWorkflowRun || (crash == AfterRankingRun && MayStart()) ==> running == CursorMissing && out == Died
      ensures rankingRuns == old(rankingRuns) + if MayStart() && crash != AfterWorkflowRun then 1 else 0
    {
      running := CursorMissing;
      if crash == AfterWorkflowRun {
        return Died;
      }
      if !aggregationValid {
        running := NoRun;
        return NoValidAggregation;
      }
      if !ruleSetActive {
        running := NoRun;
        return NoActiveRuleSet;
      }
      rankingRuns := rankingRuns + 1;
      if crash == AfterRankingRun {
        return Died;
      }
      running := InFlight(Fresh());
      return Continues;
    }

    /** `executeNextRankingSlice`: start, discard a run without cursor, or run one slice of the current phase. */
    method ExecuteNextSlice(b: nat) returns (out: Outcome)
      requires b > 0 && Stamped(running)
      modifies this`running, this`rankingRuns
      ensures (running, out) == Advance(old(running), aggregationValid, ruleSetActive, snapshots, active, src, b)
      ensures rankingRuns == old(rankingRuns) + if old(running).NoRun? && MayStart() then 1 else 0
    {
      if running.NoRun? {
        out := StartRankingJob(Never);
        return;
      }
      if running.CursorMissing? {
        running := NoRun;
        return Continues;
      }
      var job := running.job;
      match job.phase {
        case Brawlers => job := BrawlersPhase(job, b);
        case Matchups => job := MatchupsPhase(job, b);
        case Finalize =>
          var rows := RankingStore.FinalizeRows(job.rows);
          var modes := RankingStore.FinalizeModes(job.modes);
          job := job.(phase := Publish, rows := rows, modes := modes);
        case _ =>
          var decision := RankingStore.ComparePrevious(snapshots, job.rows);
          running := NoRun;
          return Ended(job.(phase := Done), decision);
      }
      running := InFlight(job);
      return Continues;
    }

    method BrawlersPhase(job: Job, b: nat) returns (next: Job)
      requires job.phase == Brawlers
      ensures next == Slice(job, active, src, b)
    {
      hide CandidateOf, ModeRowsOf, SignalOf;
      var batch := Page(active, job.cursor, b);
      if |batch| == 0 {
        return job.(phase := Matchups, cursor := None);
      }
      var rows, modes := job.rows, job.modes;
      for i := 0 to |batch|
        invariant rows == job.rows + Candidates(src, batch[..i], {}) && modes == job.modes + AllModes(src, batch[..i])
      {
        var signal := ComputeForBrawler(src.raw(batch[i]), src.patch, src.now, src.highRankFloor);
        rows := rows + [CandidateOf(src, batch[i], signal, false)];
        modes := modes + ModeRowsOf(src, batch[i], signal);
        assert batch[..i + 1][..i] == batch[..i];
        assert Candidates(src, batch[..i + 1], {})
            == Candidates(src, batch[..i], {}) + [CandidateFor(src, batch[i], false)];
      }
      assert batch[..|batch|] == batch;
      return job.(cursor := Some(Last(batch)), rows := rows, modes := modes);
    }

    method MatchupsPhase(job: Job, b: nat) returns (next: Job)
      requires job.phase == Matchups
      ensures next == Slice(job, active, src, b)
    {
      var batch := Page(active, job.cursor, b);
      if |batch| == 0 {
        return job.(phase := Finalize, cursor := None);
      }
      var rows, matchups := job.rows, job.matchups;
      for i := 0 to |batch|
        invariant rows == UpdateCoverage(src, job.rows, Elements(batch[..i]))
        invariant matchups == job.matchups + AllMatchups(src, batch[..i])
      {
        rows := UpdateCoverage(src, rows, {batch[i]});
        matchups := matchups + MatchupsFor(src, batch[i]);
        assert batch[..i + 1][..i] == batch[..i];
        assert Elements(batch[..i + 1]) == Elements(batch[..i]) + {batch[i]};
      }
      assert batch[..|batch|] == batch;
      return job.(cursor := Some(Last(batch)), rows := rows, matchups := matchups);
    }

    /**
     * `runRankingRebuild` with the lock held: it converges exactly when the slices left fit
     * the driver's cap, with the candidates of one unbatched computation if the job it
     * resumed was a faithful prefix of it.
     */
    method RunRankingRebuild(batchSize: int) returns (converged: bool, out: Outcome, slices: nat)
      requires Stamped(running)
      modifies this`running, this`rankingRuns
      ensures converged <==> Left(old(running), MayStart(), active,
          ClampBatch(batchSize, 8, 50)) <= 1_000_000
      ensures converged ==> slices == Left(old(running), MayStart(), active,
          ClampBatch(batchSize, 8, 50)) && running == NoRun && out != Continues
      ensures converged && out.Ended? && Faithful(old(running), active, src) ==> Refines(out.job, active, src) && out.job.phase == Done
      ensures converged && out.Ended? ==>
        TieredIffPublishable(out.job.rows) && out.decision == Publication.DecideOn(snapshots, out.job.rows)
      ensures converged && !old(running).InFlight? ==> (out.Ended? <==> MayStart())
    {
      hide Left, Faithful, Refines, Advance, Stamped;
      var b := ClampBatch(batchSize, JOB_BATCH, MAX_JOB_BATCH);
      slices := 0;
      SomethingLeft(running, MayStart(), active, b);
      while slices < MAX_DRIVER_SLICES
        invariant 0 <= slices <= MAX_DRIVER_SLICES && Stamped(running)
        invariant Left(running, MayStart(), active, b) == Left(old(running), MayStart(), active, b) - slices
        invariant Left(running, MayStart(), active, b) >= 1
        invariant Faithful(old(running), active, src) ==> Faithful(running, active, src)
        invariant !old(running).InFlight? && running.InFlight? ==> MayStart()
        invariant old(running).InFlight? ==> running.InFlight?
      {
        AdvanceKeeps(running, aggregationValid, ruleSetActive, snapshots, active, src, b);
        RefusedOnlyWithout(running, aggregationValid, ruleSetActive, snapshots, active, src, b);
        out := ExecuteNextSlice(b);
        SomethingLeft(running, MayStart(), active, b);
        slices := slices + 1;
        if out != Continues {
          return true, out, slices;
        }
      }
      return false, Continues, slices;
    }
  }

  lemma RefusedOnlyWithout(r: Running, aggregationValid: bool, ruleSetActive: bool, snaps: Snapshots,
      active: set<Id>, src: Source, b: nat)
    requires Stamped(r)
    ensures var (next, out) := Advance(r, aggregationValid, ruleSetActive, snaps, active, src, b);
      out != Continues && !out.Ended? ==> !(aggregationValid && ruleSetActive)
  {
  }
}
