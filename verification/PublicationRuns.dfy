/**
 * Two histories of the publication protocol from an empty database, with one ranking job at
 * a time: a retry that rewrites the record of its own published run, and one that marks a
 * published run held because an approval came in between.
 */
module PublicationRuns {
  import opened Common
  import opened Keyset
  import opened Tiers
  import opened Ranking
  import opened Publication

  const EMPTY: System := System(Db([], map[], {}, {}), map[])

  /** Some serial path from an empty database leads here. */
  ghost predicate Reachable(s: System) {
    exists states: seq<System>, actions: seq<Action> ::
      SerialPath(states, actions) && states[0] == EMPTY && states[|actions|] == s
  }

  lemma ReachEmpty()
    ensures Reachable(EMPTY)
  {
    assert SerialPath([EMPTY], []);
  }

  lemma Via(s: System, a: Action, t: System)
    requires Reachable(s) && Enabled(s, a) && Next(s, a) == t && OneJob(t.db)
    ensures Reachable(t)
  {
    hide Enabled, Next, OneJob;
    var states: seq<System>, actions: seq<Action> :|
      SerialPath(states, actions) && states[0] == EMPTY && states[|actions|] == s;
    var longer, acts := states + [t], actions + [a];
    assert longer[|acts|] == t;
    assert SerialPath(longer, acts);
  }

  lemma {:induction false} ReachableIsSafe(s: System)
    requires Reachable(s)
    ensures Inv(s) && OneJob(s.db)
  {
    var states: seq<System>, actions: seq<Action> :|
      SerialPath(states, actions) && states[0] == EMPTY && states[|actions|] == s;
    SafeOnEveryPath(states, actions);
  }

  // ------------------------------------------------------------ a job's steps

  function Fresh(rows: seq<Candidate>, matchups: seq<MatchupRow>): Run {
    Run(Ready, true, rows, [], matchups, Running, NoReason, 0.0, 0, 0)
  }

  /** The record of a run whose rows are final and whose outcome is not decided yet. */
  function Due(rows: seq<Candidate>, matchups: seq<MatchupRow>): Run {
    Run(Publish, true, FinalizedRows(rows), [], matchups, Running, NoReason, 0.0, 0, 0)
  }

  ghost predicate NoJob(db: Db) {
    forall r :: r in db.runs ==> !db.runs[r].jobRunning
  }

  /** A new job computes its candidates and finalizes them. */
  lemma ReachDue(s: System, run: Id, rows: seq<Candidate>, matchups: seq<MatchupRow>)
    requires Reachable(s) && NoJob(s.db) && run !in s.db.runs && DistinctBrawlers(rows)
    ensures Reachable(s.(db := s.db.(runs := s.db.runs[run := Due(rows, matchups)])))
  {
    hide Reachable, FinalizedRows, DistinctBrawlers;
    var c := Fresh(rows, matchups);
    var t := s.(db := s.db.(runs := s.db.runs[run := c]));
    Via(s, Compute(run, c), t);
    assert FinalizedModes([]) == [];
    Via(t, Finalize(run), s.(db := s.db.(runs := s.db.runs[run := Due(rows, matchups)])));
  }

  /** Its worker compares and commits: published, or held. */
  lemma ReachOutcome(s: System, q: Id, run: Id)
    requires Reachable(s) && run in s.db.runs && s.db.runs[run].stage in {Publish, Finished}
        && s.db.runs[run].jobRunning
    requires q !in s.pending && TieredIffPublishable(s.db.runs[run].rows)
    requires Decide(s.db, run).PublishIt? ==> !HasSnapshot(s.db.snapshots, run)
    ensures var r, d := s.db.runs[run], Decide(s.db, run); var n := |r.rows|; var body := RunBody(r);
      var db := if d.PublishIt? then PublishTxn(s.db, run, body, NoReason, d.ratio, n).0
                else if d.Hold? then Complete(s.db, run, Held, MassMovement, d.ratio, n, 0)
                else Complete(s.db, run, Succeeded, NoSignificantChange, d.ratio, n, 0);
      Reachable(System(db, s.pending[q := CursorDue(run)]))
  {
    hide Reachable, Decide, RunBody, HasSnapshot, TieredIffPublishable;
    ReachableOneJob(s);
    var r := s.db.runs[run];
    var t := s.(pending := s.pending[q := Outcome(run, Decide(s.db, run), RunBody(r), |r.rows|)]);
    Via(s, ReadPublish(q, run), t);
    var u := Next(t, CommitOutcome(q));
    assert u.pending == s.pending[q := CursorDue(run)];
    SameJobs(s.db, u.db);
    Via(t, CommitOutcome(q), u);
  }

  lemma ReachableOneJob(s: System)
    requires Reachable(s)
    ensures OneJob(s.db)
  {
    ReachableIsSafe(s);
  }

  /** The worker ends its job, or dies before it can. */
  lemma ReachCursor(s: System, q: Id, run: Id)
    requires Reachable(s) && q in s.pending && s.pending[q] == CursorDue(run) && run in s.db.runs
    ensures Reachable(System(CursorTxn(s.db, run), Without(s.pending, q)))
    ensures Reachable(System(s.db, Without(s.pending, q)))
  {
    hide Reachable;
    ReachableOneJob(s);
    Via(s, CommitCursor(q), System(CursorTxn(s.db, run), Without(s.pending, q)));
    Via(s, Crash(q), System(s.db, Without(s.pending, q)));
  }

  // ------------------------------------------------------- two brawlers' rows

  function Row(b: Id, w: real): Candidate {
    Candidate(b, 100, true, Some(w), None, None, Low, None, None)
  }

  /** Two brawlers with equally many matches and these win rates. */
  function Pair(w1: real, w2: real): seq<Candidate> {
    [Row(1, w1), Row(2, w2)]
  }

  function Score(w: real): real {
    70.0 * w + 15.0
  }

  /** Of two different scores the higher one is S, the lower one B. */
  function Stamped(b: Id, w: real, other: real): Candidate {
    Row(b, w).(score := Some(Score(w)), tier := Some(if w > other then S else B))
  }

  lemma ScoreOf(b: Id, w: real)
    ensures MetaScore(Row(b, w), 200) == Some(Score(w))
  {
    assert PickRate(Row(b, w), 200) == 0.5;
  }

  lemma TierOfTwo(x: real, y: real)
    requires x != y
    ensures TierOf([x, y], x) == if x > y then S else B
    ensures TierOf([y, x], x) == if x > y then S else B
  {
    assert [x, y][1..] == [y] && [y, x][1..] == [x] && [y][1..] == [] && [x][1..] == [];
    assert CountAtOrBelow([x][1..], x) == 0 && CountAtOrBelow([y][1..], x) == 0;
    assert CountAtOrBelow([x], x) == 1 && CountAtOrBelow([y], x) == if y <= x then 1 else 0;
    assert CountAtOrBelow([x, y], x) == CountAtOrBelow([y, x], x) == if y <= x then 2 else 1;
    assert Percentile(1, 2) == 50.0 && Percentile(2, 2) == 100.0;
  }

  lemma PairSlots(w1: real, w2: real)
    ensures SlotTotal(Pair(w1, w2)) == 200
    ensures EligibleScores(Pair(w1, w2), 200) == [Score(w1), Score(w2)]
  {
    ScoreOf(1, w1);
    ScoreOf(2, w2);
    hide MetaScore, Score;
    var rows := Pair(w1, w2);
    assert rows[1..] == [Row(2, w2)] && rows[1..][1..] == [];
    assert SlotTotal(rows[1..]) == 100 && EligibleScores(rows[1..], 200) == [Score(w2)];
  }

  lemma PairFinalized(w1: real, w2: real)
    requires w1 != w2
    ensures FinalizedRows(Pair(w1, w2)) == [Stamped(1, w1, w2), Stamped(2, w2, w1)]
  {
    PairSlots(w1, w2);
    ScoreOf(1, w1);
    ScoreOf(2, w2);
    TierOfTwo(Score(w1), Score(w2));
    TierOfTwo(Score(w2), Score(w1));
    hide MetaScore, TierOf, SlotTotal, EligibleScores;
  }

  lemma PairItems(w1: real, w2: real)
    requires w1 != w2
    ensures var rows := FinalizedRows(Pair(w1, w2));
      && TieredIffPublishable(rows) && DistinctBrawlers(rows) && DistinctBrawlers(Pair(w1, w2))
      && Tiered(rows) == rows && |rows| == 2
      && Contents(rows, []) == [
           Item(1, if w1 > w2 then S else B, Score(w1), Low, []), Item(2, if w2 > w1 then S else B, Score(w2), Low, [])]
  {
    PairFinalized(w1, w2);
    hide FinalizedRows, Score;
    var rows := FinalizedRows(Pair(w1, w2));
    assert rows[1..] == [Stamped(2, w2, w1)] && rows[1..][1..] == [];
    assert Tiered(rows[1..]) == rows[1..];
    assert Contents(rows[1..], []) == [Item(2, if w2 > w1 then S else B, Score(w2), Low, [])];
  }

  function Looked(w1: real, w2: real): map<Id, Item> {
    map[1 := Item(1, if w1 > w2 then S else B, Score(w1), Low, []),
        2 := Item(2, if w2 > w1 then S else B, Score(w2), Low, [])]
  }

  lemma PairByBrawler(w1: real, w2: real)
    requires w1 != w2
    ensures ByBrawler(Contents(FinalizedRows(Pair(w1, w2)), [])) == Looked(w1, w2)
  {
    PairItems(w1, w2);
    hide FinalizedRows, Score, Contents;
    var items := Contents(FinalizedRows(Pair(w1, w2)), []);
    assert items[1..] == [items[1]] && items[1..][1..] == [];
    assert ByBrawler(items[1..]) == map[2 := items[1]];
  }

  lemma PairMoves(a1: real, a2: real, b1: real, b2: real)
    requires a1 != a2 && b1 != b2
    ensures Moved(Looked(a1, a2), [Stamped(1, b1, b2), Stamped(2, b2, b1)]) == if (a1 > a2) == (b1 > b2) then 0 else 2
  {
    hide Score;
    var rows, prev := [Stamped(1, b1, b2), Stamped(2, b2, b1)], Looked(a1, a2);
    assert rows[1..] == [Stamped(2, b2, b1)] && rows[1..][1..] == [];
    assert Moved(prev, rows[1..]) == if (a1 > a2) == (b1 > b2) then 0 else 1;
  }

  /** Reversed tiers hold; the same tiers with a score moved by more than a point publish. */
  lemma PairAgainst(a1: real, a2: real, b1: real, b2: real)
    requires a1 != a2 && b1 != b2
    ensures var rows := FinalizedRows(Pair(b1, b2)); var items := Contents(FinalizedRows(Pair(a1, a2)), []);
      && TieredIffPublishable(rows)
      && ((a1 > a2) != (b1 > b2) ==> Against(items, rows) == Hold(1.0))
      && ((a1 > a2) == (b1 > b2) && b1 - a1 >= 0.1 ==> Against(items, rows) == PublishIt(0.0))
  {
    PairFinalized(b1, b2);
    PairItems(b1, b2);
    PairByBrawler(a1, a2);
    PairMoves(a1, a2, b1, b2);
    var rows, prev := FinalizedRows(Pair(b1, b2)), Looked(a1, a2);
    assert rows[0] == Stamped(1, b1, b2);
    assert TierMoveRatio(prev, rows) == if (a1 > a2) == (b1 > b2) then 0.0 else 1.0;
    assert b1 - a1 >= 0.1 ==> Changed(prev, rows[0]);
    hide FinalizedRows, Contents, TieredIffPublishable, Changed;
  }

  const PAIRS: seq<MatchupRow> := [MatchupRow(1, 2, 100, Some(0.5), Some(Neutral), ProbableCounter)]

  lemma PairBody(w1: real, w2: real)
    requires w1 != w2
    ensures RunBody(Due(Pair(w1, w2), PAIRS)) == Body(Contents(FinalizedRows(Pair(w1, w2)), []), PAIRS)
    ensures |RunBody(Due(Pair(w1, w2), PAIRS)).items| == 2
  {
    PairItems(w1, w2);
    hide Contents, FinalizedRows;
    assert PAIRS[1..] == [];
  }

  function BodyOf(w1: real, w2: real): Body {
    Body(Contents(FinalizedRows(Pair(w1, w2)), []), PAIRS)
  }

  /** A published run; its job runs until the cursor is committed. */
  function PublishedRun(w1: real, w2: real): Run {
    Due(Pair(w1, w2), PAIRS).(status := Succeeded, evaluated := 2, published := 2)
  }

  function HeldRun(w1: real, w2: real): Run {
    Due(Pair(w1, w2), PAIRS).(status := Held, reason := MassMovement, ratio := 1.0, evaluated := 2)
  }

  function Ended(r: Run): Run {
    r.(stage := Finished, jobRunning := false)
  }

  function With(db: Db, run: Id, r: Run): Db {
    db.(runs := db.runs[run := r])
  }

  function Shown(db: Db, run: Id, body: Body): Db {
    db.(snapshots := Superseded(db.snapshots) + [Snapshot(run, true, body)])
  }

  ghost predicate Shows(db: Db, w1: real, w2: real) {
    db.snapshots != [] && db.snapshots[|db.snapshots| - 1].body == BodyOf(w1, w2)
  }

  /** How a run over one pair of win rates is judged while another's snapshot is current. */
  lemma PairDecides(s: System, run: Id, a1: real, a2: real, b1: real, b2: real)
    requires Reachable(s) && run in s.db.runs && s.db.runs[run].rows == FinalizedRows(Pair(b1, b2)) && a1 != a2
        && b1 != b2
    requires Shows(s.db, a1, a2)
    ensures TieredIffPublishable(s.db.runs[run].rows)
    ensures (a1 > a2) != (b1 > b2) ==> Decide(s.db, run) == Hold(1.0)
    ensures (a1 > a2) == (b1 > b2) && b1 - a1 >= 0.1 ==> Decide(s.db, run) == PublishIt(0.0)
  {
    ReachableIsSafe(s);
    InvGivesDb(s);
    OnlyNewestIsCurrent(s.db.snapshots);
    PairAgainst(a1, a2, b1, b2);
  }

  /** The outcome of a decided run, as a change of the database. */
  lemma ReachDecided(db: Db, run: Id, d: Decision, w1: real, w2: real)
    requires Reachable(System(With(db, run, Due(Pair(w1, w2), PAIRS)), map[])) && w1 != w2
    requires run !in db.runs && !HasSnapshot(db.snapshots, run) && TieredIffPublishable(FinalizedRows(Pair(w1, w2)))
    requires DecideOn(db.snapshots, FinalizedRows(Pair(w1, w2))) == d
    ensures d == Hold(1.0) ==> Reachable(System(With(db, run, HeldRun(w1, w2)), map[1 := CursorDue(run)]))
    ensures d == PublishIt(0.0) ==>
      Reachable(System(With(Shown(db, run, BodyOf(w1, w2)), run, PublishedRun(w1, w2)), map[1 := CursorDue(run)]))
  {
    PairBody(w1, w2);
    PairItems(w1, w2);
    hide Reachable, FinalizedRows, TieredIffPublishable, DecideOn, RunBody, HasSnapshot, Contents, Tiered,
        DistinctBrawlers;
    var s := System(With(db, run, Due(Pair(w1, w2), PAIRS)), map[]);
    ReachOutcome(s, 1, run);
    assert s.db.runs[run := HeldRun(w1, w2)] == db.runs[run := HeldRun(w1, w2)];
    assert s.db.runs[run := PublishedRun(w1, w2)] == db.runs[run := PublishedRun(w1, w2)];
  }

  /** A worker's last step: its cursor commit, or its death. */
  lemma ReachIdle(db: Db, run: Id, r: Run)
    requires Reachable(System(With(db, run, r), map[1 := CursorDue(run)]))
    ensures Reachable(System(With(db, run, Ended(r)), map[]))
    ensures Reachable(System(With(db, run, r), map[]))
  {
    hide Reachable;
    ReachCursor(System(With(db, run, r), map[1 := CursorDue(run)]), 1, run);
    assert Without(map[1 := CursorDue(run)], 1) == map[];
    assert db.runs[run := r][run := Ended(r)] == db.runs[run := Ended(r)];
  }

  /** A whole job against a current snapshot: the same tiers with a moved score publish, reversed tiers are held. */
  lemma ReachJudged(db: Db, run: Id, a1: real, a2: real, b1: real, b2: real)
    requires Reachable(System(db, map[])) && NoJob(db) && run !in db.runs && !HasSnapshot(db.snapshots, run)
    requires Shows(db, a1, a2) && a1 != a2 && b1 != b2
    ensures (a1 > a2) != (b1 > b2) ==> Reachable(System(With(db, run, Ended(HeldRun(b1, b2))), map[]))
    ensures (a1 > a2) == (b1 > b2) && b1 - a1 >= 0.1 ==>
      Reachable(System(With(Shown(db, run, BodyOf(b1, b2)), run, PublishedRun(b1, b2)), map[]))
  {
    PairItems(b1, b2);
    hide Reachable, FinalizedRows, TieredIffPublishable, DecideOn, HasSnapshot, Contents, Tiered, NoJob, Superseded;
    ReachDue(System(db, map[]), run, Pair(b1, b2), PAIRS);
    var s := System(With(db, run, Due(Pair(b1, b2), PAIRS)), map[]);
    PairDecides(s, run, a1, a2, b1, b2);
    ReachDecided(db, run, Decide(s.db, run), b1, b2);
    if (a1 > a2) != (b1 > b2) {
      ReachIdle(db, run, HeldRun(b1, b2));
    } else if b1 - a1 >= 0.1 {
      ReachIdle(Shown(db, run, BodyOf(b1, b2)), run, PublishedRun(b1, b2));
    }
  }

  lemma ApprovalGates(db: Db, run: Id, w1: real, w2: real)
    requires run in db.runs && db.runs[run] == Ended(HeldRun(w1, w2)) && w1 != w2
    requires db.active == {1, 2} && run in db.goodAggregation && !HasSnapshot(db.snapshots, run)
    ensures MayApprove(db, run)
  {
    PairItems(w1, w2);
    PairFinalized(w1, w2);
    hide Contents, FinalizedRows;
    var rows := db.runs[run].rows;
    assert rows[0].brawler == 1 && rows[1].brawler == 2;
    assert (set i | 0 <= i < |rows| :: rows[i].brawler) == {1, 2};
  }

  /** An operator approves a held run, and its snapshot becomes current. */
  lemma ReachApproved(db: Db, run: Id, w1: real, w2: real) returns (s: System)
    requires Reachable(System(db, map[])) && w1 != w2
    requires run in db.runs && db.runs[run] == Ended(HeldRun(w1, w2)) && !HasSnapshot(db.snapshots, run)
    ensures Reachable(s) && s.pending == map[]
    ensures s.db.snapshots == Superseded(db.snapshots) + [Snapshot(run, true, BodyOf(w1, w2))]
    ensures s.db.runs.Keys == db.runs.Keys && forall r :: r in db.runs && r != run ==> s.db.runs[r] == db.runs[r]
  {
    PairBody(w1, w2);
    BodyOnlyOfRows(Due(Pair(w1, w2), PAIRS), db.runs[run]);
    ReachableOneJob(System(db, map[]));
    var db1 := db.(active := {1, 2}, goodAggregation := {run});
    ApprovalGates(db1, run, w1, w2);
    hide Reachable, FinalizedRows, MayApprove, HasSnapshot, Superseded, RunBody, Contents, DistinctBrawlers;
    SameJobs(db, db1);
    Via(System(db, map[]), Catalogue({1, 2}, {run}), System(db1, map[]));
    assert |{1, 2}| == 2;
    var s2 := System(db1, map[1 := Approval(run, BodyOf(w1, w2), 1.0, 2)]);
    Via(System(db1, map[]), ReadApproval(1, run), s2);
    s := Next(s2, CommitOutcome(1));
    SameJobs(db1, s.db);
    Via(s2, CommitOutcome(1), s);
  }

  // ----------------------------------------------------------------- histories

  /** The first run is published and its worker ends the job, or dies before it can. */
  lemma ReachPublished()
    ensures Reachable(System(With(Shown(EMPTY.db, 1, BodyOf(0.8, 0.2)), 1, PublishedRun(0.8, 0.2)), map[]))
    ensures Reachable(System(With(Shown(EMPTY.db, 1, BodyOf(0.8, 0.2)), 1, Ended(PublishedRun(0.8, 0.2))), map[]))
  {
    ReachEmpty();
    PairItems(0.8, 0.2);
    hide Reachable, FinalizedRows, TieredIffPublishable, Tiered, Contents, Superseded;
    ReachDue(EMPTY, 1, Pair(0.8, 0.2), PAIRS);
    ReachDecided(EMPTY.db, 1, PublishIt(0.0), 0.8, 0.2);
    ReachIdle(Shown(EMPTY.db, 1, BodyOf(0.8, 0.2)), 1, PublishedRun(0.8, 0.2));
  }

  /**
   * From an empty database: published with two brawlers on show, crashed, retried, and on
   * record as an unpublished no-change.
   */
  lemma RetryRewritesRecord() returns (s: System, run: Id)
    ensures Reachable(s) && run in s.db.runs && CurrentIs(s.db, run) && |RunBody(s.db.runs[run]).items| == 2
    ensures s.db.runs[run].status == Succeeded && s.db.runs[run].reason == NoSignificantChange
        && s.db.runs[run].published == 0
  {
    ReachPublished();
    var r := PublishedRun(0.8, 0.2);
    PairBody(0.8, 0.2);
    BodyOnlyOfRows(Due(Pair(0.8, 0.2), PAIRS), r);
    var died := System(With(Shown(EMPTY.db, 1, BodyOf(0.8, 0.2)), 1, r), map[]);
    ReachableIsSafe(died);
    InvGivesDb(died);
    ReentryIsNoChange(died.db, 1);
    hide Reachable, FinalizedRows, Inv, DbInv, Decide, Contents, RunBody, Superseded, BodyOf;
    ReachOutcome(died, 2, 1);
    s, run := System(Complete(died.db, 1, Succeeded, NoSignificantChange, 0.0, |r.rows|, 0), map[2 := CursorDue(1)]), 1;
    BodyOnlyOfRows(r, s.db.runs[1]);
  }

  /** A published and ended run, a held one with the tiers reversed, and a third one published whose worker died. */
  lemma ReachThree() returns (db: Db)
    ensures Reachable(System(db, map[])) && |db.snapshots| == 2 && db.snapshots[0].run == 1 && db.snapshots[1].run == 3
    ensures 2 in db.runs && db.runs[2] == Ended(HeldRun(0.2, 0.8)) && 3 in db.runs
        && db.runs[3] == PublishedRun(0.9, 0.2)
  {
    ReachPublished();
    hide Reachable, BodyOf, PublishedRun, HeldRun;
    var one := With(Shown(EMPTY.db, 1, BodyOf(0.8, 0.2)), 1, Ended(PublishedRun(0.8, 0.2)));
    ReachJudged(one, 2, 0.8, 0.2, 0.2, 0.8);
    var two := With(one, 2, Ended(HeldRun(0.2, 0.8)));
    ReachJudged(two, 3, 0.8, 0.2, 0.9, 0.2);
    db := With(Shown(two, 3, BodyOf(0.9, 0.2)), 3, PublishedRun(0.9, 0.2));
  }

  /** A retry against reversed tiers holds. */
  lemma ReachRetriedHeld(s: System, run: Id)
    requires Reachable(s) && s.pending == map[] && run in s.db.runs && s.db.runs[run] == PublishedRun(0.9, 0.2)
        && Shows(s.db, 0.2, 0.8)
    ensures Reachable(System(Complete(s.db, run, Held, MassMovement, 1.0, 2, 0), map[1 := CursorDue(run)]))
  {
    PairItems(0.9, 0.2);
    PairDecides(s, run, 0.2, 0.8, 0.9, 0.2);
    hide Reachable, FinalizedRows, Contents, TieredIffPublishable, Decide, RunBody, PublishTxn, Complete, Tiered,
        DistinctBrawlers, Shows;
    ReachOutcome(s, 1, run);
  }

  /**
   * From an empty database: a run publishes, its worker dies, an operator approves an older
   * held run, and the retry marks the published run held.
   */
  lemma PublishedRunCanBeHeld() returns (s: System, run: Id)
    ensures Reachable(s) && run in s.db.runs && HasSnapshot(s.db.snapshots, run)
    ensures |RunBody(s.db.runs[run]).items| == 2 && s.db.runs[run].status == Held && s.db.runs[run].published == 0
  {
    hide Reachable, RunBody, BodyOf, Superseded, PublishedRun, HeldRun;
    var db := ReachThree();
    var t := ReachApproved(db, 2, 0.2, 0.8);
    ReachRetriedHeld(t, 3);
    s, run := System(Complete(t.db, 3, Held, MassMovement, 1.0, 2, 0), map[1 := CursorDue(3)]), 3;
    SecondStays(db, t.db, 2);
    assert s.db.snapshots[1].run == run;
    PublishedBody(s.db.runs[run]);
  }

  lemma PublishedBody(r: Run)
    requires r == PublishedRun(0.9, 0.2).(status := Held, reason := MassMovement, ratio := 1.0, evaluated := 2,
        published := 0)
    ensures |RunBody(r).items| == 2
  {
    PairBody(0.9, 0.2);
    hide RunBody, FinalizedRows;
    BodyOnlyOfRows(Due(Pair(0.9, 0.2), PAIRS), r);
  }

  lemma SecondStays(db: Db, db': Db, run: Id)
    requires |db.snapshots| == 2 && db'.snapshots == Superseded(db.snapshots) + [Snapshot(run, true, BodyOf(0.2, 0.8))]
    ensures |db'.snapshots| == 3 && db'.snapshots[1].run == db.snapshots[1].run
  {
    hide BodyOf;
  }
}
