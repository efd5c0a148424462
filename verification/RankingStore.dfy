/**
 * The ranking orchestrator as it runs: the finalize and publish phases and the operator
 * approval, over the mutable tables.
 */
module RankingStore {
  import opened Common
  import opened Keyset
  import opened Tiers
  import opened Ranking
  import opened Publication

  method SumSlots(rows: seq<Candidate>) returns (slots: nat)
    ensures slots == SlotTotal(rows)
  {
    slots := 0;
    for i := 0 to |rows|
      invariant slots + SlotTotal(rows[i..]) == SlotTotal(rows)
    {
      slots := slots + rows[i].matches;
    }
  }

  method ScoreRows(rows: seq<Candidate>, slots: nat) returns (scores: seq<real>)
    ensures scores == EligibleScores(rows, slots)
  {
    hide MetaScore;
    scores := [];
    for i := 0 to |rows|
      invariant scores + EligibleScores(rows[i..], slots) == EligibleScores(rows, slots)
    {
      var score := MetaScore(rows[i], slots);
      assert rows[i..][1..] == rows[i + 1..];
      if score.Some? {
        scores := scores + [score.value];
      }
    }
    assert scores + [] == scores;
  }

  /** The scores still to come, one row later. */
  lemma EligibleFrom(rows: seq<Candidate>, slots: nat, i: nat)
    requires i < |rows|
    ensures EligibleScores(rows[i..], slots) ==
            (var score := MetaScore(rows[i], slots); if score.Some? then [score.value] else [])
            + EligibleScores(rows[i + 1..], slots)
  {
    hide MetaScore;
    assert rows[i..][1..] == rows[i + 1..];
  }

  /** `tiers` runs beside the eligible rows: the next unused one belongs to the next eligible row. */
  method StampRows(rows: seq<Candidate>, slots: nat, scores: seq<real>, tiers: seq<Tier>)
      returns (stamped: seq<Candidate>)
    requires slots == SlotTotal(rows) && scores == EligibleScores(rows, slots)
    requires |tiers| == |scores| && forall i :: 0 <= i < |scores| ==> tiers[i] == TierOf(scores, scores[i])
    ensures stamped == FinalizedRows(rows)
  {
    hide MetaScore, TierOf, EligibleScores, SlotTotal;
    assert rows[0..] == rows && scores[0..] == scores;
    stamped := [];
    var next := 0;
    for i := 0 to |rows|
      invariant next <= |scores| && scores[next..] == EligibleScores(rows[i..], slots)
      invariant |stamped| == i
      invariant forall k :: 0 <= k < i ==> stamped[k] == Stamp(rows[k], slots, scores)
    {
      var score := MetaScore(rows[i], slots);
      EligibleFrom(rows, slots, i);
      if score.Some? {
        assert scores[next..][0] == score.value && scores[next..][1..] == scores[next + 1..];
        stamped := stamped + [rows[i].(score := score, tier := Some(tiers[next]))];
        next := next + 1;
      } else {
        stamped := stamped + [rows[i].(score := None, tier := None)];
      }
    }
  }

  /**
   * The computation half of `finalizePhase`: sum the slots, score, tier the eligible rows
   * together, stamp every row.
   */
  method FinalizeRows(rows: seq<Candidate>) returns (stamped: seq<Candidate>)
    ensures stamped == FinalizedRows(rows)
  {
    var slots := SumSlots(rows);
    var scores := ScoreRows(rows, slots);
    var tiers := AssignPercentileTiers(scores);
    stamped := StampRows(rows, slots, scores, tiers);
  }

  /** The denominators of the per-mode pick rates. */
  method SumModeSlots(modes: seq<ModeCandidate>) returns (totals: map<Id, nat>)
    ensures forall i :: 0 <= i < |modes| ==> modes[i].mode in totals
    ensures forall m :: m in totals ==> totals[m] == ModeSlots(modes, m) && exists i :: 0 <= i < |modes| && modes[i].mode == m
  {
    totals := map[];
    assert modes[..0] == [];
    for i := 0 to |modes|
      invariant forall k :: 0 <= k < i ==> modes[k].mode in totals
      invariant forall m :: m in totals ==> totals[m] == ModeSlots(modes[..i], m) && exists k :: 0 <= k < i && modes[k].mode == m
    {
      var r := modes[i];
      forall m
        ensures ModeSlots(modes[..i + 1], m) == ModeSlots(modes[..i], m) + if r.mode == m then r.matches else 0
      {
        SlotsAppend(modes[..i], r, m);
        assert modes[..i + 1] == modes[..i] + [r];
      }
      if r.mode !in totals {
        NoSlots(modes[..i], r.mode);
      }
      totals := totals[r.mode := (if r.mode in totals then totals[r.mode] else 0) + r.matches];
    }
    assert modes[..|modes|] == modes;
  }

  lemma {:induction false} SlotsAppend(modes: seq<ModeCandidate>, r: ModeCandidate, mode: Id)
    ensures ModeSlots(modes + [r], mode) == ModeSlots(modes, mode) + if r.mode == mode then r.matches else 0
  {
    if modes == [] {
      assert [r][1..] == [] && modes + [r] == [r];
    } else {
      SlotsAppend(modes[1..], r, mode);
      assert (modes + [r])[1..] == modes[1..] + [r];
    }
  }

  lemma {:induction false} NoSlots(modes: seq<ModeCandidate>, mode: Id)
    requires forall i :: 0 <= i < |modes| ==> modes[i].mode != mode
    ensures ModeSlots(modes, mode) == 0
  {
    if modes != [] {
      NoSlots(modes[1..], mode);
    }
  }

  method ScoreModeRows(modes: seq<ModeCandidate>, mode: Id, slots: nat) returns (scores: seq<real>)
    ensures scores == ModeScores(modes, mode, slots)
  {
    hide ModeMetaScore;
    scores := [];
    for i := 0 to |modes|
      invariant scores + ModeScores(modes[i..], mode, slots) == ModeScores(modes, mode, slots)
    {
      ModeScoresFrom(modes, mode, slots, i);
      hide ModeScores;
      var score := ModeMetaScore(modes[i], slots);
      if modes[i].mode == mode && score.Some? {
        scores := scores + [score.value];
      }
    }
    assert scores + [] == scores;
  }

  lemma ModeScoresFrom(modes: seq<ModeCandidate>, mode: Id, slots: nat, i: nat)
    requires i < |modes|
    ensures ModeScores(modes[i..], mode, slots) ==
            (var score := ModeMetaScore(modes[i], slots);
             if modes[i].mode == mode && score.Some? then [score.value] else [])
            + ModeScores(modes[i + 1..], mode, slots)
  {
    hide ModeMetaScore;
    assert modes[i..][1..] == modes[i + 1..];
  }

  /** One mode's rows in place; the next unused tier belongs to the next eligible row of the mode. */
  method StampOneMode(modes: seq<ModeCandidate>, done: seq<ModeCandidate>, mode: Id, slots: nat, scores: seq<real>,
      tiers: seq<Tier>)
    returns (stamped: seq<ModeCandidate>)
    requires |done| == |modes| && scores == ModeScores(modes, mode, slots)
    requires |tiers| == |scores| && forall i :: 0 <= i < |scores| ==> tiers[i] == TierOf(scores, scores[i])
    ensures |stamped| == |modes|
    ensures forall i :: 0 <= i < |modes| ==> stamped[i] == if modes[i].mode == mode
        then StampMode(modes[i], slots, scores) else done[i]
  {
    hide ModeMetaScore, TierOf, ModeScores;
    assert modes[0..] == modes && scores[0..] == scores;
    stamped := done;
    var next := 0;
    for i := 0 to |modes|
      invariant next <= |scores| && scores[next..] == ModeScores(modes[i..], mode, slots)
      invariant |stamped| == |modes|
      invariant forall k :: 0 <= k < i ==> stamped[k] == if modes[k].mode == mode
          then StampMode(modes[k], slots, scores) else done[k]
      invariant forall k :: i <= k < |modes| ==> stamped[k] == done[k]
    {
      ModeScoresFrom(modes, mode, slots, i);
      if modes[i].mode == mode {
        var score := ModeMetaScore(modes[i], slots);
        if score.Some? {
          assert scores[next..][0] == score.value && scores[next..][1..] == scores[next + 1..];
          stamped := stamped[i := modes[i].(score := score, tier := Some(tiers[next]))];
          next := next + 1;
        } else {
          stamped := stamped[i := modes[i].(score := None, tier := None)];
        }
      }
    }
  }

  /** The per-mode half of `finalizePhase`: group by mode, and tier each group on its own. */
  method FinalizeModes(modes: seq<ModeCandidate>) returns (stamped: seq<ModeCandidate>)
    ensures stamped == FinalizedModes(modes)
  {
    hide StampMode, ModeScores, ModeSlots;
    var totals := SumModeSlots(modes);
    stamped := modes;
    var todo := totals.Keys;
    while todo != {}
      invariant todo <= totals.Keys && |stamped| == |modes|
      invariant forall i :: 0 <= i < |modes| ==> stamped[i] == if modes[i].mode in todo then modes[i]
          else StampWithin(modes, modes[i])
    {
      var mode :| mode in todo;
      var scores := ScoreModeRows(modes, mode, totals[mode]);
      var tiers := AssignPercentileTiers(scores);
      stamped := StampOneMode(modes, stamped, mode, totals[mode], scores, tiers);
      todo := todo - {mode};
    }
  }

  /** `publishPhase` up to its decision: read the current snapshot, compare, hold or skip or publish. */
  method ComparePrevious(snaps: seq<Snapshot>, rows: seq<Candidate>) returns (d: Decision)
    requires TieredIffPublishable(rows)
    ensures d == DecideOn(snaps, rows)
    ensures snaps == [] ==> d == PublishIt(0.0)
    ensures forall items :: ShownBy(snaps, items) ==> Decided(d, items, rows)
  {
    forall items | ShownBy(snaps, items)
      ensures Decided(DecideOn(snaps, rows), items, rows)
    {
      DecisionMeans(snaps, rows, items);
    }
    TieredRows(rows);
    var tiered := Tiered(rows);
    var first := |snaps| == 0;
    var prev := ByBrawler(CurrentItems(snaps));
    var ratio := 0.0;
    if !first {
      ratio := ComputeTierMoveRatio(prev, tiered);
    }
    if ExceedsGuard(ratio, first) {
      return Hold(ratio);
    }
    var change := HasSignificantChange(prev, tiered, first);
    return if change then PublishIt(ratio) else NoChange(ratio);
  }

  datatype PublishOutcome =
    | Published(items: nat) | HeldMassMovement | NoSignificantChange' | DuplicateSnapshot | ProcessDied

  datatype ApprovalOutcome =
    | Approved(items: nat) | AlreadyPublished | Validated | UnknownRun | NotHeld | WrongHoldReason
    | AggregationNotSucceeded | CursorMissing | NoActiveBrawlers | IncompleteCandidate | NothingPublishable
    | PublicationRefused | MissingInput

  /** The decision an outcome stands for. */
  function DecisionOf(out: PublishOutcome, ratio: real): Decision {
    if out == HeldMassMovement then Hold(ratio) else if out == NoSignificantChange' then NoChange(ratio)
    else PublishIt(ratio)
  }

  /** The approval step recorded with the publication. */
  datatype Audit = Audit(run: Id, approvedBy: string, reason: string, published: nat)

  /** White space and line terminators, as `trim` knows them. */
  predicate IsBlankChar(ch: char) {
    var n := ch as int;
    || 9 <= n <= 13 || n == 32 || n == 0xA0 || n == 0x1680 || 0x2000 <= n <= 0x200A
    || n in {0x2028, 0x2029, 0x202F, 0x205F, 0x3000, 0xFEFF}
  }

  /** `trim()` leaves nothing. */
  predicate Blank(text: string) {
    forall i :: 0 <= i < |text| ==> IsBlankChar(text[i])
  }

  /**
   * What one publication does to the snapshots: those before stay and are superseded, the new one
   * is current and shows the rows of its run.
   */
  ghost predicate NewSnapshot(before: seq<Snapshot>, after: seq<Snapshot>, run: Id, r: Run, count: nat) {
    var n := |before|;
    && |after| == n + 1
    && (forall i :: 0 <= i < n ==> after[i] == before[i].(current := false))
    && after[n].run == run && after[n].current && count == |after[n].body.items|
    && (exists at :: ItemsAt(after[n].body.items, r.rows, r.modes, at))
    && (exists at :: PairsAt(after[n].body.pairs, r.matchups, at))
  }

  lemma PublishTxnPublishes(db: Db, run: Id, reason: Reason, ratio: real, evaluated: nat)
    requires run in db.runs && !HasSnapshot(db.snapshots, run)
    ensures var body := RunBody(db.runs[run]);
      var db' := PublishTxn(db, run, body, reason, ratio, evaluated).0;
      NewSnapshot(db.snapshots, db'.snapshots, run, db.runs[run], |body.items|)
  {
    var r := db.runs[run];
    ContentsAt(r.rows, r.modes);
    QualifyingAt(r.matchups);
    hide ItemsAt, PairsAt, Contents, QualifyingPairs;
  }

  /** The first `n` of the gates a held run passes on its way to approval, in the order they are asked. */
  ghost predicate PassesGates(db: Db, run: Id, n: nat) {
    && (n >= 1 ==> run in db.runs)
    && (n >= 2 ==> forall i :: 0 <= i < |db.snapshots| ==> db.snapshots[i].run != run)
    && (n >= 3 ==> db.runs[run].status == Held)
    && (n >= 4 ==> db.runs[run].reason == MassMovement)
    && (n >= 5 ==> run in db.goodAggregation)
    && (n >= 6 ==> db.runs[run].stage != Computing)
    && (n >= 7 ==> |db.active| > 0)
    && (n >= 8 ==>
          && |db.runs[run].rows| == |db.active| == db.runs[run].evaluated && |db.runs[run].matchups| > 0
          && forall b :: b in db.active ==> exists i :: 0 <= i < |db.runs[run].rows| && db.runs[run].rows[i].brawler == b)
    && (n >= 9 ==> HasPublishableRow(db.runs[run].rows))
  }

  ghost predicate HasPublishableRow(rows: seq<Candidate>) {
    exists i :: 0 <= i < |rows| && rows[i].meetsFloor && rows[i].score.Some? && rows[i].tier.Some?
  }

  class Store {
    var db: Db
    var audit: seq<Audit>

    constructor (db: Db)
      ensures this.db == db && audit == []
    {
      this.db := db;
      audit := [];
    }

    /** `finalizePhase`: overall rows, mode rows and the cursor in one transaction. */
    method FinalizePhase(run: Id)
      requires run in db.runs && db.runs[run].stage == Ready
      modifies this`db
      ensures var r := old(db).runs[run];
        db == old(db).(runs := old(db).runs[run := r.(
                stage := Publish, rows := FinalizedRows(r.rows), modes := FinalizedModes(r.modes))])
    {
      var r := db.runs[run];
      var rows := FinalizeRows(r.rows);
      var modes := FinalizeModes(r.modes);
      db := db.(runs := db.runs[run := r.(stage := Publish, rows := rows, modes := modes)]);
    }

    /** What the publication inserts: an item per publishable row, and every qualifying pair. */
    static method ItemsAndPairs(r: Run) returns (body: Body)
      ensures body == RunBody(r)
    {
      hide ItemOf, Publishable, Qualifies;
      var items := [];
      for i := 0 to |r.rows|
        invariant items + Contents(r.rows[i..], r.modes) == Contents(r.rows, r.modes)
      {
        assert r.rows[i..][1..] == r.rows[i + 1..];
        if Publishable(r.rows[i]) {
          items := items + [ItemOf(r.rows[i], r.modes)];
        }
      }
      assert items + [] == items;
      var pairs := Pairs(r.matchups);
      return Body(items, pairs);
    }

    static method Pairs(matchups: seq<MatchupRow>) returns (pairs: seq<MatchupRow>)
      ensures pairs == QualifyingPairs(matchups)
    {
      hide Qualifies;
      pairs := [];
      for i := 0 to |matchups|
        invariant pairs + QualifyingPairs(matchups[i..]) == QualifyingPairs(matchups)
      {
        assert matchups[i..][1..] == matchups[i + 1..];
        if Qualifies(matchups[i]) {
          pairs := pairs + [matchups[i]];
        }
      }
      assert pairs + [] == pairs;
    }

    /** `publishRankingRunFromCandidates`: one transaction, rolled back whole when the run already has a snapshot. */
    method PublishFromCandidates(run: Id, reason: Reason, ratio: real, evaluated: nat) returns (ok: bool, count: nat)
      requires run in db.runs
      modifies this`db
      ensures (db, ok) == PublishTxn(old(db), run, RunBody(old(db).runs[run]), reason, ratio, evaluated)
      ensures ok <==> forall i :: 0 <= i < |old(db).snapshots| ==> old(db).snapshots[i].run != run
      ensures ok ==> NewSnapshot(old(db).snapshots, db.snapshots, run, old(db).runs[run], count)
      ensures ok ==> db == old(db).(snapshots := db.snapshots, runs := old(db).runs[run := old(db).runs[run].(
          status := Succeeded, reason := reason, ratio := ratio, evaluated := evaluated, published := count)])
      ensures !ok ==> db == old(db)
    {
      var r := db.runs[run];
      var before := db;
      var superseded := Superseded(db.snapshots);
      var duplicate := exists i :: 0 <= i < |superseded| && superseded[i].run == run;
      db := db.(snapshots := superseded);
      if duplicate {
        assert exists i :: 0 <= i < |before.snapshots| && before.snapshots[i].run == run;
        db := before;
        return false, 0;
      }
      assert !HasSnapshot(before.snapshots, run) by {
        if i :| 0 <= i < |before.snapshots| && before.snapshots[i].run == run {
          assert superseded[i].run == run;
        }
      }
      var body := ItemsAndPairs(r);
      count := |body.items|;
      db := db.(snapshots := superseded + [Snapshot(run, true, body)]);
      db := Complete(db, run, Succeeded, reason, ratio, evaluated, count);
      PublishTxnPublishes(before, run, reason, ratio, evaluated);
      return true, count;
    }

    /** `publishPhase` of one uninterrupted worker; `dies` stops it between the outcome commit and the cursor commit. */
    method PublishPhase(run: Id, dies: bool) returns (out: PublishOutcome)
      requires run in db.runs && TieredIffPublishable(db.runs[run].rows)
      modifies this`db
      ensures var r := old(db).runs[run];
        var mid := match Decide(old(db), run)
          case Hold(ratio) => Complete(old(db), run, Held, MassMovement, ratio, |r.rows|, 0)
          case NoChange(ratio) => Complete(old(db), run, Succeeded, NoSignificantChange, ratio, |r.rows|, 0)
          case PublishIt(ratio) => PublishTxn(old(db), run, RunBody(r), NoReason, ratio, |r.rows|).0;
        var refused := Decide(old(db), run).PublishIt? && HasSnapshot(old(db).snapshots, run);
        && db == (if dies || refused then mid else CursorTxn(mid, run))
        && (out == DuplicateSnapshot <==> refused)
        && (out == ProcessDied <==> dies && !refused)
        && (out == HeldMassMovement ==> Decide(old(db), run).Hold?)
        && (out == NoSignificantChange' ==> Decide(old(db), run).NoChange?)
        && (out.Published? ==> Decide(old(db), run).PublishIt? && out.items == |RunBody(r).items|)
      ensures out == DuplicateSnapshot ==> db == old(db)
      ensures out in {HeldMassMovement, NoSignificantChange'} ==> db.snapshots == old(db).snapshots
      ensures out.Published? ==> NewSnapshot(old(db).snapshots, db.snapshots, run, old(db).runs[run], out.items)
      ensures run in db.runs && db.runs == old(db).runs[run := db.runs[run]]
      ensures var r := old(db).runs[run];
        var done := r.(stage := Finished, jobRunning := false, ratio := db.runs[run].ratio, evaluated := |r.rows|);
        match out
        case HeldMassMovement => db.runs[run] == done.(status := Held, reason := MassMovement, published := 0)
        case NoSignificantChange' => db.runs[run] == done.(status := Succeeded, reason := NoSignificantChange, published := 0)
        case Published(n) => db.runs[run] == done.(status := Succeeded, reason := NoReason, published := n)
        case _ => true
      ensures out !in {DuplicateSnapshot, ProcessDied} ==> forall items :: ShownBy(old(db).snapshots, items) ==>
        Decided(DecisionOf(out, db.runs[run].ratio), items, old(db).runs[run].rows)
      ensures old(db).snapshots == [] ==> out.Published? || out == ProcessDied
    {
      hide DecideOn, RunBody, Decided, ShownBy, NewSnapshot;
      var r := db.runs[run];
      var d := ComparePrevious(db.snapshots, r.rows);
      match d {
        case Hold(ratio) =>
          db := Complete(db, run, Held, MassMovement, ratio, |r.rows|, 0);
          out := HeldMassMovement;
        case NoChange(ratio) =>
          db := Complete(db, run, Succeeded, NoSignificantChange, ratio, |r.rows|, 0);
          out := NoSignificantChange';
        case PublishIt(ratio) =>
          var ok, count := PublishFromCandidates(run, NoReason, ratio, |r.rows|);
          if !ok {
            return DuplicateSnapshot;
          }
          out := Published(count);
      }
      if dies {
        return ProcessDied;
      }
      db := CursorTxn(db, run);
    }

    /** The gates of `approveHeldRanking` on the tables, in their order; None lets the run pass. */
    method CheckHeldRun(run: Id) returns (out: Option<ApprovalOutcome>)
      ensures out == Some(UnknownRun) <==> !PassesGates(db, run, 1)
      ensures out == Some(AlreadyPublished) <==> PassesGates(db, run, 1) && !PassesGates(db, run, 2)
      ensures out == Some(NotHeld) <==> PassesGates(db, run, 2) && !PassesGates(db, run, 3)
      ensures out == Some(WrongHoldReason) <==> PassesGates(db, run, 3) && !PassesGates(db, run, 4)
      ensures out == Some(AggregationNotSucceeded) <==> PassesGates(db, run, 4) && !PassesGates(db, run, 5)
      ensures out == Some(CursorMissing) <==> PassesGates(db, run, 5) && !PassesGates(db, run, 6)
      ensures out == Some(NoActiveBrawlers) <==> PassesGates(db, run, 6) && !PassesGates(db, run, 7)
      ensures out == Some(IncompleteCandidate) <==> PassesGates(db, run, 7) && !PassesGates(db, run, 8)
      ensures out == Some(NothingPublishable) <==> PassesGates(db, run, 8) && !PassesGates(db, run, 9)
      ensures out.None? <==> PassesGates(db, run, 9)
    {
      hide Contents, HasPublishableRow;
      if run !in db.runs {
        return Some(UnknownRun);
      }
      var r := db.runs[run];
      if HasSnapshot(db.snapshots, run) {
        return Some(AlreadyPublished);
      }
      if r.status != Held {
        return Some(NotHeld);
      }
      if r.reason != MassMovement {
        return Some(WrongHoldReason);
      }
      if run !in db.goodAggregation {
        return Some(AggregationNotSucceeded);
      }
      if r.stage == Computing {
        return Some(CursorMissing);
      }
      if db.active == {} {
        return Some(NoActiveBrawlers);
      }
      var candidates := set i | 0 <= i < |r.rows| :: r.rows[i].brawler;
      if !(db.active <= candidates) || |r.rows| != |db.active| || r.evaluated != |db.active| || |r.matchups| == 0 {
        return Some(IncompleteCandidate);
      }
      assert forall b :: b in db.active ==> b in candidates;
      ContentsEmptyIff(r.rows, r.modes);
      return if |Contents(r.rows, r.modes)| == 0 then Some(NothingPublishable) else None;
    }

    /**
     * `approveHeldRanking`: the inputs and the gates in their order, then the shared
     * publication with its approval step in one transaction. A blank run id is None.
     */
    method ApproveHeldRanking(runId: Option<Id>, approvedBy: string, reason: string, dryRun: bool)
        returns (out: ApprovalOutcome)
      modifies this
      ensures out == MissingInput <==> runId.None? || Blank(approvedBy) || Blank(reason)
      ensures out != MissingInput ==> var before, run := old(db), runId.value;
        && (out == UnknownRun <==> !PassesGates(before, run, 1))
        && (out == AlreadyPublished <==> PassesGates(before, run, 1) && !PassesGates(before, run, 2))
        && (out == NotHeld <==> PassesGates(before, run, 2) && !PassesGates(before, run, 3))
        && (out == WrongHoldReason <==> PassesGates(before, run, 3) && !PassesGates(before, run, 4))
        && (out == AggregationNotSucceeded <==> PassesGates(before, run, 4) && !PassesGates(before, run, 5))
        && (out == CursorMissing <==> PassesGates(before, run, 5) && !PassesGates(before, run, 6))
        && (out == NoActiveBrawlers <==> PassesGates(before, run, 6) && !PassesGates(before, run, 7))
        && (out == IncompleteCandidate <==> PassesGates(before, run, 7) && !PassesGates(before, run, 8))
        && (out == NothingPublishable <==> PassesGates(before, run, 8) && !PassesGates(before, run, 9))
        && (out == Validated <==> PassesGates(before, run, 9) && dryRun)
        && (out.Approved? <==> PassesGates(before, run, 9) && !dryRun)
      ensures out.Approved? ==> runId.Some? && runId.value in old(db).runs
      ensures out.Approved? ==> var run := runId.value; var r := old(db).runs[run];
        && db == PublishTxn(old(db), run, RunBody(r), MassMovement, r.ratio, |old(db).active|).0
        && out.items == |RunBody(r).items|
        && NewSnapshot(old(db).snapshots, db.snapshots, run, r, out.items)
        && db == old(db).(snapshots := db.snapshots, runs := old(db).runs[run := r.(
             status := Succeeded, reason := MassMovement, evaluated := |old(db).active|, published := out.items)])
        && audit == old(audit) + [Audit(run, approvedBy, reason, out.items)]
      ensures !out.Approved? ==> db == old(db) && audit == old(audit)
    {
      hide RunBody, NewSnapshot, Blank, HasPublishableRow;
      if runId.None? || Blank(approvedBy) || Blank(reason) {
        return MissingInput;
      }
      var run := runId.value;
      var refusal := CheckHeldRun(run);
      if refusal.Some? {
        return refusal.value;
      }
      if dryRun {
        return Validated;
      }
      var ok, count := PublishFromCandidates(run, MassMovement, db.runs[run].ratio, |db.active|);
      if !ok {
        return PublicationRefused;
      }
      audit := audit + [Audit(run, approvedBy, reason, count)];
      return Approved(count);
    }
  }

  lemma {:induction false} ContentsEmptyIff(rows: seq<Candidate>, modes: seq<ModeCandidate>)
    ensures |Contents(rows, modes)| > 0 <==> HasPublishableRow(rows)
  {
    hide ItemOf;
    if rows != [] {
      ContentsEmptyIff(rows[1..], modes);
      if i :| 0 <= i < |rows[1..]| && Publishable(rows[1..][i]) {
        assert rows[i + 1] == rows[1..][i];
      }
      if i :| 1 <= i < |rows| && Publishable(rows[i]) {
        assert rows[1..][i - 1] == rows[i];
      }
    }
  }

  /** The condition under which an interleaved approval commits is the conjunction of the gates. */
  lemma MayApproveIsAllGates(db: Db, run: Id)
    ensures MayApprove(db, run) <==> PassesGates(db, run, 9)
  {
    if PassesGates(db, run, 8) || MayApprove(db, run) {
      var rows := db.runs[run].rows;
      ContentsEmptyIff(rows, db.runs[run].modes);
      var candidates := set i | 0 <= i < |rows| :: rows[i].brawler;
      if PassesGates(db, run, 8) {
        SameSet(rows, candidates, db.active);
      }
    }
  }

  /** Covering every active brawler with no row to spare means covering exactly them. */
  lemma {:induction false} SameSet(rows: seq<Candidate>, candidates: set<Id>, active: set<Id>)
    requires candidates == set i | 0 <= i < |rows| :: rows[i].brawler
    requires active <= candidates && |rows| == |active|
    ensures candidates == active
  {
    DistinctCount(rows);
    if candidates != active {
      var extra :| extra in candidates && extra !in active;
      assert active <= candidates - {extra};
      SubsetSize(active, candidates - {extra});
    }
  }

  lemma {:induction false} DistinctCount(rows: seq<Candidate>)
    ensures |set i | 0 <= i < |rows| :: rows[i].brawler| <= |rows|
  {
    if rows != [] {
      var front := rows[..|rows| - 1];
      DistinctCount(front);
      var a := set i | 0 <= i < |front| :: front[i].brawler;
      var b := set i | 0 <= i < |rows| :: rows[i].brawler;
      assert b == a + {rows[|rows| - 1].brawler} by {
        forall x | x in b
          ensures x in a + {rows[|rows| - 1].brawler}
        {
          var i :| 0 <= i < |rows| && rows[i].brawler == x;
          if i < |front| {
            assert front[i].brawler == x;
          }
        }
        forall x | x in a
          ensures x in b
        {
          var i :| 0 <= i < |front| && front[i].brawler == x;
          assert rows[i].brawler == x;
        }
      }
    }
  }
}
