/**
 * What the ranking's numbers mean, without the functions that compute them: weights, rates
 * and blends by their laws, selections by positions, labels by counts, and the stamped
 * scores and tiers of a finalized run.
 */
module SignalMeaning {
  import opened Common
  import opened Keyset
  import opened Ranking
  import GroupBy
  import Tiers
  import PlayerCap
  import opened Signals
  import opened RankingJob

  // ------------------------------------------------------------- weights, rates

  /** The weight falls by a half over two months from the 30th day, and by the other half over three more. */
  lemma RecencyLine(days: real)
    ensures days <= 30.0 ==> RecencyWeight(days) == 1.0
    ensures 30.0 <= days <= 90.0 ==> 120.0 * (1.0 - RecencyWeight(days)) == days - 30.0
    ensures 90.0 <= days <= 180.0 ==> 180.0 * RecencyWeight(days) == 180.0 - days
    ensures 180.0 <= days ==> RecencyWeight(days) == 0.0
  {
  }

  ghost function RowWeight(r: PlayerCap.Row, result: GroupBy.Result, now: int): real {
    if r.result == Some(result) then RecencyWeight((now - r.occurredAt) as real / 86_400_000.0) else 0.0
  }

  /** The total weight of a result adds up row by row, each row weighed by its age in days of 86 400 seconds. */
  lemma {:induction false} WeightsAdd(a: seq<PlayerCap.Row>, b: seq<PlayerCap.Row>, result: GroupBy.Result, now: int)
    ensures Weighted(a + b, result, now) == Weighted(a, result, now) + Weighted(b, result, now)
    ensures forall r: PlayerCap.Row :: Weighted([r], result, now) == RowWeight(r, result, now)
  {
    if a == [] {
      assert a + b == b;
    } else {
      WeightsAdd(a[1..], b, result, now);
      assert (a + b)[1..] == a[1..] + b;
    }
  }

  lemma QuotientTimes(part: real, whole: real)
    ensures whole > 0.0 ==> part / whole * whole == part
  {
  }

  /** A rate is the weight of the wins over that of wins and losses; without weight there is none. */
  lemma RateIsShareOfWins(rows: seq<PlayerCap.Row>, now: int)
    ensures var w, l := Weighted(rows, GroupBy.Victory, now), Weighted(rows, GroupBy.Defeat, now);
      && (WeightedRate(rows, now).None? <==> w + l == 0.0)
      && (WeightedRate(rows, now).Some? ==> WeightedRate(rows, now).value * (w + l) == w)
  {
    WeightedNotNegative(rows, GroupBy.Victory, now);
    WeightedNotNegative(rows, GroupBy.Defeat, now);
    hide Weighted;
    QuotientTimes(Weighted(rows, GroupBy.Victory, now),
                  Weighted(rows, GroupBy.Victory, now) + Weighted(rows, GroupBy.Defeat, now));
  }

  /** The whole weight on one side is that side; more weight on the current patch moves the blend towards it. */
  lemma BlendFollowsWeight(current: real, all: real, w: real, v: real)
    ensures Blend(Some(current), Some(all), 1.0) == Some(current) && Blend(Some(current), Some(all), 0.0) == Some(all)
    ensures Blend(None, Some(all), w) == Some(all) && Blend(Some(current), None, w) == Some(current)
    ensures Blend(None, None, w) == None
    ensures w <= v && all <= current ==> Blend(Some(current), Some(all), w).value <= Blend(Some(current), Some(all), v).value
    ensures w <= v && current <= all ==> Blend(Some(current), Some(all), v).value <= Blend(Some(current), Some(all), w).value
  {
    var x, y := Blend(Some(current), Some(all), w).value, Blend(Some(current), Some(all), v).value;
    assert y - x == (v - w) * (current - all);
    if w <= v {
      SignOfProduct(v - w, current - all);
      assert all <= current ==> y - x >= 0.0;
      assert current <= all ==> y - x <= 0.0;
    }
  }

  /** A percent of weight per match of the current patch, up to the whole. */
  lemma BlendWeightGrows(n: nat)
    ensures 100.0 * BlendWeight(n) == if n <= 100 then n as real else 100.0
  {
  }

  /** From a hundred rows of the current patch on it alone decides; without one the rate is that of all rows. */
  lemma PatchDecides(rows: seq<PlayerCap.Row>, patch: Option<Id>, now: int)
    ensures var current, all := WeightedRate(OfPatch(rows, patch), now), WeightedRate(rows, now);
      && Blended(rows, patch, now).matches == |rows|
      && (|OfPatch(rows, patch)| >= 100 && current.Some? ==> Blended(rows, patch, now).winRate == current)
      && (OfPatch(rows, patch) == [] || current.None? ==> Blended(rows, patch, now).winRate == all)
  {
    hide WeightedRate, OfPatch;
    if |OfPatch(rows, patch)| >= 100 && WeightedRate(OfPatch(rows, patch), now).Some? && WeightedRate(rows, now).Some? {
      BlendFollowsWeight(WeightedRate(OfPatch(rows, patch), now).value, WeightedRate(rows, now).value, 1.0, 1.0);
    }
  }

  // ------------------------------------------------------------------ selections

  /** `part` consists of exactly the rows at the positions `at`, in their order. */
  ghost predicate RowsAt(part: seq<PlayerCap.Row>, rows: seq<PlayerCap.Row>, at: seq<nat>) {
    |part| == |at| && forall i :: 0 <= i < |at| ==> at[i] < |rows| && part[i] == rows[at[i]]
  }

  /** `part` consists of exactly the rows that pass, in their order. */
  ghost predicate Selects(part: seq<PlayerCap.Row>, rows: seq<PlayerCap.Row>, pass: PlayerCap.Row -> bool) {
    exists at :: RowsAt(part, rows, at) && Picked(rows, pass, at)
  }

  lemma {:induction false} PatchRows(rows: seq<PlayerCap.Row>, patch: Option<Id>) returns (at: seq<nat>)
    ensures RowsAt(OfPatch(rows, patch), rows, at)
    ensures Picked(rows, (r: PlayerCap.Row) => patch.Some? && r.patch == patch, at)
  {
    hide Picked;
    if rows == [] {
      at := [];
      NothingPicked(rows, (r: PlayerCap.Row) => patch.Some? && r.patch == patch);
    } else {
      hide Onward;
      var rest := PatchRows(rows[1..], patch);
      var head := patch.Some? && rows[0].patch == patch;
      at := Onward(head, rest);
      PickedOnward(rows, (r: PlayerCap.Row) => patch.Some? && r.patch == patch, rest);
      SelectedOnward(rows, OfPatch(rows[1..], patch), rest, head);
    }
  }

  lemma SelectedOnward(rows: seq<PlayerCap.Row>, part: seq<PlayerCap.Row>, rest: seq<nat>, head: bool)
    requires rows != [] && RowsAt(part, rows[1..], rest)
    ensures RowsAt((if head then [rows[0]] else []) + part, rows, Onward(head, rest))
  {
  }

  lemma {:induction false} ModeRows(rows: seq<PlayerCap.Row>, mode: Id) returns (at: seq<nat>)
    ensures RowsAt(OfOneMode(rows, mode), rows, at)
    ensures Picked(rows, (r: PlayerCap.Row) => r.mode == Some(mode), at)
  {
    hide Picked;
    if rows == [] {
      at := [];
      NothingPicked(rows, (r: PlayerCap.Row) => r.mode == Some(mode));
    } else {
      hide Onward;
      var rest := ModeRows(rows[1..], mode);
      var head := rows[0].mode == Some(mode);
      at := Onward(head, rest);
      PickedOnward(rows, (r: PlayerCap.Row) => r.mode == Some(mode), rest);
      SelectedOnward(rows, OfOneMode(rows[1..], mode), rest, head);
    }
  }

  lemma {:induction false} BracketRows(rows: seq<PlayerCap.Row>, bracket: Id) returns (at: seq<nat>)
    ensures RowsAt(OfBracket(rows, bracket), rows, at)
    ensures Picked(rows, (r: PlayerCap.Row) => r.bracket == Some(bracket), at)
  {
    hide Picked;
    if rows == [] {
      at := [];
      NothingPicked(rows, (r: PlayerCap.Row) => r.bracket == Some(bracket));
    } else {
      hide Onward;
      var rest := BracketRows(rows[1..], bracket);
      var head := rows[0].bracket == Some(bracket);
      at := Onward(head, rest);
      PickedOnward(rows, (r: PlayerCap.Row) => r.bracket == Some(bracket), rest);
      SelectedOnward(rows, OfBracket(rows[1..], bracket), rest, head);
    }
  }

  lemma {:induction false} NoPatchNoRows(rows: seq<PlayerCap.Row>)
    ensures OfPatch(rows, None) == []
  {
    if rows != [] {
      NoPatchNoRows(rows[1..]);
    }
  }

  /** The rows of a patch, a mode, a bracket: one for each position with that value, in order, and no other. */
  lemma SelectionsByPosition(rows: seq<PlayerCap.Row>, patch: Id, mode: Id, bracket: Id)
    ensures OfPatch(rows, None) == []
    ensures Selects(OfPatch(rows, Some(patch)), rows, (r: PlayerCap.Row) => r.patch == Some(patch))
    ensures Selects(OfOneMode(rows, mode), rows, (r: PlayerCap.Row) => r.mode == Some(mode))
    ensures Selects(OfBracket(rows, bracket), rows, (r: PlayerCap.Row) => r.bracket == Some(bracket))
  {
    NoPatchNoRows(rows);
    var some := PatchRows(rows, Some(patch));
    var modes := ModeRows(rows, mode);
    var brackets := BracketRows(rows, bracket);
    hide OfPatch, OfOneMode, OfBracket, RowsAt;
    assert Picked(rows, (r: PlayerCap.Row) => r.patch == Some(patch), some);
    assert Picked(rows, (r: PlayerCap.Row) => r.mode == Some(mode), modes);
    assert Picked(rows, (r: PlayerCap.Row) => r.bracket == Some(bracket), brackets);
  }

  // -------------------------------------------------------------- what decides

  /** The highest bracket with enough rows decides the high-rank rate; with none there is no rate. */
  lemma HighestBracketDecides(rows: seq<PlayerCap.Row>, now: int, enough: nat, n: nat)
    ensures n <= 5 && |OfBracket(rows, n)| >= enough && (forall m: nat :: n < m <= 5 ==> |OfBracket(rows, m)| < enough) ==>
      HighRank(rows, now, enough, |BRACKETS|) == WeightedRate(OfBracket(rows, n), now)
    ensures (forall m: nat :: m <= 5 ==> |OfBracket(rows, m)| < enough) ==> HighRank(rows, now, enough, |BRACKETS|) == None
  {
    hide OfBracket, WeightedRate;
    assert forall m: nat :: m <= 5 ==> BRACKETS[m] == m;
    var k := 6;
    while k > 0 && |OfBracket(rows, k - 1)| < enough
      invariant 0 <= k <= 6
      invariant forall m: nat :: k <= m <= 5 ==> |OfBracket(rows, m)| < enough
      invariant HighRank(rows, now, enough, k) == HighRank(rows, now, enough, 6)
    {
      k := k - 1;
    }
  }

  /** The modes of a brawler are the modes of its rows, each once. */
  lemma {:induction false} ModesAreListedOnce(rows: seq<PlayerCap.Row>)
    ensures forall i, j :: 0 <= i < j < |ModesIn(rows)| ==> ModesIn(rows)[i] != ModesIn(rows)[j]
    ensures forall m :: m in ModesIn(rows) <==> exists i :: 0 <= i < |rows| && rows[i].mode == Some(m)
  {
    if rows != [] {
      var before, last := rows[..|rows| - 1], rows[|rows| - 1];
      ModesAreListedOnce(before);
      forall m
        ensures (exists i :: 0 <= i < |rows| && rows[i].mode == Some(m))
          <==> last.mode == Some(m) || exists i :: 0 <= i < |before| && before[i].mode == Some(m)
      {
        if i :| 0 <= i < |before| && before[i].mode == Some(m) {
          assert rows[i].mode == Some(m);
        }
        if i :| 0 <= i < |rows| && rows[i].mode == Some(m) {
          assert i < |before| ==> before[i].mode == Some(m);
        }
      }
    }
  }

  /** One figure per mode that occurs, over the rows of that mode. */
  ghost predicate FiguresPerMode(figures: seq<ModeSignal>, rows: seq<PlayerCap.Row>) {
    && (forall i, j :: 0 <= i < j < |figures| ==> figures[i].mode != figures[j].mode)
    && (forall i :: 0 <= i < |rows| && rows[i].mode.Some? ==> Listed(figures, rows[i].mode.value))
    && (forall i :: 0 <= i < |figures| ==> figures[i].rated.matches == |OfOneMode(rows, figures[i].mode)| > 0)
  }

  ghost predicate Listed(figures: seq<ModeSignal>, mode: Id) {
    exists i :: 0 <= i < |figures| && figures[i].mode == mode
  }

  lemma {:induction false} SomeOfMode(rows: seq<PlayerCap.Row>, i: nat)
    requires i < |rows| && rows[i].mode.Some?
    ensures OfOneMode(rows, rows[i].mode.value) != []
  {
    if i > 0 {
      SomeOfMode(rows[1..], i - 1);
    }
  }

  lemma ModeSignalsFigure(rows: seq<PlayerCap.Row>, patch: Option<Id>, now: int)
    ensures FiguresPerMode(ModeSignals(rows, ModesIn(rows), patch, now), rows)
  {
    var modes := ModesIn(rows);
    var figures := ModeSignals(rows, modes, patch, now);
    ModesAreListedOnce(rows);
    hide ModesIn, Blend, WeightedRate, OfPatch;
    forall i | 0 <= i < |figures|
      ensures OfOneMode(rows, figures[i].mode) != []
    {
      assert modes[i] in modes;
      var j :| 0 <= j < |rows| && rows[j].mode == Some(modes[i]);
      SomeOfMode(rows, j);
    }
    hide OfOneMode;
    forall i | 0 <= i < |rows| && rows[i].mode.Some?
      ensures Listed(figures, rows[i].mode.value)
    {
      assert rows[i].mode.value in modes;
      var j :| 0 <= j < |modes| && modes[j] == rows[i].mode.value;
      assert figures[j].mode == modes[j];
    }
  }

  /** The signal of a brawler, read off its capped rows: matches, spread, and one figure per mode. */
  lemma SignalReads(raw: seq<PlayerCap.Row>, patch: Option<Id>, now: int, floor: nat)
    ensures var rows, s := PlayerCap.Capped(raw, PlayerCap.Players(raw), 20), SignalOf(raw, patch, now, floor);
      && s.overall.matches == |rows|
      && s.regions == |set i | 0 <= i < |rows| && rows[i].region.Some? :: rows[i].region.value|
      && s.brackets == |set i | 0 <= i < |rows| && rows[i].bracket.Some? && rows[i].bracket.value != 6 :: rows[i].bracket.value|
      && (s.recent <==> exists i :: 0 <= i < |rows| && now - rows[i].occurredAt <= 2_592_000_000)
      && FiguresPerMode(s.modes, rows)
      && s.overall == Blended(rows, patch, now) && s.highRank == HighRank(rows, now, floor, 6)
      && forall i :: 0 <= i < |s.modes| ==> s.modes[i].rated == Blended(OfOneMode(rows, s.modes[i].mode), patch, now)
  {
    var rows := PlayerCap.Capped(raw, PlayerCap.Players(raw), 20);
    hide PlayerCap.Capped, PlayerCap.Players, Blended, OfOneMode, HighRank;
    RecentMeans(rows, now);
    ModeSignalsFigure(rows, patch, now);
    MatchesAreRows(rows, patch, now);
    hide ModesIn, SomeRecent, FiguresPerMode;
  }

  lemma MatchesAreRows(rows: seq<PlayerCap.Row>, patch: Option<Id>, now: int)
    ensures Blended(rows, patch, now).matches == |rows|
  {
  }

  lemma RecentMeans(rows: seq<PlayerCap.Row>, now: int)
    ensures SomeRecent(rows, now) <==> exists i :: 0 <= i < |rows| && now - rows[i].occurredAt <= 2_592_000_000
  {
    forall i | 0 <= i < |rows|
      ensures DaysAgo(rows[i].occurredAt, now) <= 30.0 <==> now - rows[i].occurredAt <= 2_592_000_000
    {
      AgeInDays(rows[i].occurredAt, now);
    }
    hide DaysAgo;
  }

  lemma AgeInDays(at: int, now: int)
    ensures DaysAgo(at, now) <= 30.0 <==> now - at <= 2_592_000_000
  {
    QuotientTimes((now - at) as real, 86_400_000.0);
    Tiers.ScalingKeepsOrder(30.0, DaysAgo(at, now), 86_400_000.0);
  }

  // ------------------------------------------------------------------- labels

  /** Bands of confidence: overall from 100, 200 and 500 matches, per mode from 30, 60 and 150, the top one with spread. */
  lemma ConfidenceBands(s: Signal, n: nat)
    ensures var spread := s.recent && s.regions >= 2 && s.brackets >= 2;
      && (OverallConfidence(s) == Insufficient <==> s.overall.matches < 100)
      && (OverallConfidence(s) == High <==> s.overall.matches >= 500 && spread)
      && (OverallConfidence(s) in {Medium, High} <==> s.overall.matches >= 200)
      && (ModeConfidence(n, s) == Insufficient <==> n < 30)
      && (ModeConfidence(n, s) == High <==> n >= 150 && spread)
      && (ModeConfidence(n, s) in {Medium, High} <==> n >= 60)
  {
  }

  /** What a pair of brawlers is called, as a share of wins in twentieths of the decided matches. */
  ghost predicate Called(name: Relationship, wins: nat, decided: nat) {
    match name
    case HardCounter => 20 * wins <= 7 * decided
    case Counter => 7 * decided < 20 * wins < 9 * decided
    case Neutral => 9 * decided <= 20 * wins <= 11 * decided
    case Strong => 11 * decided < 20 * wins < 13 * decided
    case HardAdvantage => 13 * decided <= 20 * wins
  }

  lemma ShareAgainst(wins: nat, decided: nat, cut: nat)
    requires decided > 0
    ensures var rate, bound := wins as real / decided as real, cut as real / 20.0;
      && (rate < bound <==> 20 * wins < cut * decided)
      && (rate <= bound <==> 20 * wins <= cut * decided)
  {
    var rate, bound := wins as real / decided as real, cut as real / 20.0;
    assert rate * decided as real == wins as real;
    assert 20.0 * (bound * decided as real) == (cut * decided) as real;
    Tiers.ScalingKeepsOrder(rate, bound, decided as real);
    Tiers.ScalingKeepsOrder(bound, rate, decided as real);
  }

  lemma ClassifiedAsCalled(p: Pooled)
    requires p.matches >= 20 && p.wins + p.losses > 0
    ensures ClassifyMatchup(PooledRate(p), p.matches).Some?
    ensures Called(ClassifyMatchup(PooledRate(p), p.matches).value, p.wins, p.wins + p.losses)
  {
    var w, n := p.wins, p.wins + p.losses;
    assert PooledRate(p) == Some(w as real / n as real);
    ShareAgainst(w, n, 7);
    ShareAgainst(w, n, 9);
    ShareAgainst(w, n, 11);
    ShareAgainst(w, n, 13);
    assert 7.0 / 20.0 == 0.35 && 9.0 / 20.0 == 0.45 && 11.0 / 20.0 == 0.55 && 13.0 / 20.0 == 0.65;
  }

  /**
   * A matchup row, read off the pooled figures: labelled from twenty matches on if any of them was
   * decided, by the share of wins, with a confidence that grows at twenty and forty matches.
   */
  lemma MatchupReads(src: Source, b: Id, i: nat)
    requires i < |src.pooled(b)|
    ensures |MatchupsFor(src, b)| == |src.pooled(b)|
    ensures var m, p := MatchupsFor(src, b)[i], src.pooled(b)[i];
      && m.brawler == b && m.opponent == p.opponent && m.matches == p.matches
      && (m.winRate.Some? <==> p.wins + p.losses > 0)
      && (m.winRate.Some? ==> m.winRate == Some(p.wins as real / (p.wins + p.losses) as real))
      && (m.relationship.Some? <==> p.matches >= 20 && p.wins + p.losses > 0)
      && (m.relationship.Some? ==> Called(m.relationship.value, p.wins, p.wins + p.losses))
      && (m.confidence == NoSignal <==> p.matches < 20) && (m.confidence == WeakSignal <==> 20 <= p.matches < 40)
      && (m.confidence == ProbableCounter <==> p.matches >= 40)
  {
    var p := src.pooled(b)[i];
    if p.matches >= 20 && p.wins + p.losses > 0 {
      ClassifiedAsCalled(p);
    }
    hide Called;
  }

  /** The pairs that would be labelled. */
  ghost function Labelled(ps: seq<Pooled>): set<nat> {
    set i: nat | i < |ps| && ps[i].matches >= 20 && ps[i].wins + ps[i].losses > 0
  }

  lemma {:induction false} QualifyingPicks(ps: seq<Pooled>) returns (at: seq<nat>)
    ensures Picked(ps, (p: Pooled) => Relation(p).Some?, at) && |at| == Qualifying(ps)
  {
    hide Picked, Relation;
    if ps == [] {
      at := [];
      NothingPicked(ps, (p: Pooled) => Relation(p).Some?);
    } else {
      var rest := QualifyingPicks(ps[1..]);
      at := Onward(Relation(ps[0]).Some?, rest);
      PickedOnward(ps, (p: Pooled) => Relation(p).Some?, rest);
    }
  }

  /** The coverage of a brawler is the share of its opponents that get a label. */
  lemma CoverageIsShare(ps: seq<Pooled>)
    ensures Coverage(ps) == if |ps| == 0 then 0.0 else |Labelled(ps)| as real / |ps| as real
  {
    var at := QualifyingPicks(ps);
    PickedSize(ps, (p: Pooled) => Relation(p).Some?, at, Labelled(ps));
  }

  /** A candidate row, read off the signal: the floor it meets, its rates, and what it does not have yet. */
  lemma CandidateReads(src: Source, b: Id, covered: bool)
    ensures var c, s := CandidateFor(src, b, covered), SignalOf(src.raw(b), src.patch, src.now, src.highRankFloor);
      && c.brawler == b && c.matches == s.overall.matches && c.winRate == s.overall.winRate && c.highRank == s.highRank
      && (c.meetsFloor <==> s.overall.matches >= src.overallFloor && s.overall.winRate.Some?)
      && (c.coverage.Some? <==> covered) && (covered ==> c.coverage == Some(Coverage(src.pooled(b))))
      && c.confidence == (if c.meetsFloor then OverallConfidence(s) else Insufficient)
      && c.score == None && c.tier == None
    ensures var ms, s := ModesFor(src, b), SignalOf(src.raw(b), src.patch, src.now, src.highRankFloor);
      && |ms| == |s.modes|
      && forall i :: 0 <= i < |ms| ==>
          && ms[i].brawler == b && ms[i].mode == s.modes[i].mode
          && ms[i].matches == s.modes[i].rated.matches && ms[i].winRate == s.modes[i].rated.winRate
          && (ms[i].meetsFloor <==> ms[i].matches >= src.modeFloor && ms[i].winRate.Some?)
          && ms[i].confidence == (if ms[i].meetsFloor then ModeConfidence(ms[i].matches, s) else Insufficient)
          && ms[i].score == None && ms[i].tier == None
  {
    hide SignalOf, Coverage, OverallConfidence, ModeConfidence;
  }

  // ---------------------------------------------------- stamped scores and tiers

  /** The total of the participant slots adds up row by row. */
  lemma {:induction false} SlotsAdd(a: seq<Candidate>, b: seq<Candidate>)
    ensures SlotTotal(a + b) == SlotTotal(a) + SlotTotal(b)
    ensures forall r: Candidate :: SlotTotal([r]) == r.matches
  {
    if a == [] {
      assert a + b == b;
    } else {
      SlotsAdd(a[1..], b);
      assert (a + b)[1..] == a[1..] + b;
    }
  }

  /** The rows that finalize ranks, and those of them that score no higher than the i-th. */
  ghost function Scored(rows: seq<Candidate>): set<nat> {
    set j: nat | j < |rows| && rows[j].score.Some?
  }

  ghost function NoBetter(rows: seq<Candidate>, x: real): set<nat> {
    set j: nat | j < |rows| && rows[j].score.Some? && rows[j].score.value <= x
  }

  /** Points: fifty for the win rate, twenty for the pick rate, twenty for the high-rank rate, ten for the coverage. */
  lemma ScorePoints(winRate: real, pickRate: real, highRank: real, coverage: real)
    ensures OverallScore(winRate, pickRate, Some(highRank), Some(coverage))
         == 50.0 * winRate + 20.0 * pickRate + 20.0 * highRank + 10.0 * coverage
    ensures OverallScore(winRate, pickRate, None, Some(coverage)) == 70.0 * winRate + 20.0 * pickRate + 10.0 * coverage
    ensures OverallScore(winRate, pickRate, Some(highRank), None) == 50.0 * winRate + 20.0 * pickRate + 20.0 * highRank + 5.0
    ensures OverallScore(winRate, pickRate, None, None) == 70.0 * winRate + 20.0 * pickRate + 5.0
    ensures ModeScore(winRate, pickRate) == 70.0 * winRate + 30.0 * pickRate
  {
  }

  lemma {:induction false} ScoresPick(rows: seq<Candidate>, slots: nat, x: real) returns (all: seq<nat>, low: seq<nat>)
    ensures Picked(rows, r => MetaScore(r, slots).Some?, all) && |all| == |EligibleScores(rows, slots)|
    ensures Picked(rows, r => MetaScore(r, slots).Some? && MetaScore(r, slots).value <= x, low)
    ensures |low| == Tiers.CountAtOrBelow(EligibleScores(rows, slots), x)
  {
    hide Picked, MetaScore;
    if rows == [] {
      all, low := [], [];
      NothingPicked(rows, r => MetaScore(r, slots).Some?);
      NothingPicked(rows, r => MetaScore(r, slots).Some? && MetaScore(r, slots).value <= x);
    } else {
      var a, b := ScoresPick(rows[1..], slots, x);
      var score, rest := MetaScore(rows[0], slots), EligibleScores(rows[1..], slots);
      all, low := Onward(score.Some?, a), Onward(score.Some? && score.value <= x, b);
      PickedOnward(rows, r => MetaScore(r, slots).Some?, a);
      PickedOnward(rows, r => MetaScore(r, slots).Some? && MetaScore(r, slots).value <= x, b);
      Tiers.CountAppend(if score.Some? then [score.value] else [], rest, x);
    }
  }

  /**
   * Finalize, row by row and without the lists it works on: a row gets a score exactly when it meets
   * its floor and has a win rate; the score is its points, the pick rate being its share of all
   * participant slots; the tier goes by how many of the scored rows score no higher; and nothing
   * else changes.
   */
  lemma FinalizedByCounts(rows: seq<Candidate>, i: nat)
    requires i < |rows|
    ensures |FinalizedRows(rows)| == |rows|
    ensures var done := FinalizedRows(rows); var r, q := rows[i], done[i];
      && q == r.(score := q.score, tier := q.tier)
      && (q.score.Some? <==> r.meetsFloor && r.winRate.Some?)
      && (q.score.Some? ==> q.score == Some(OverallScore(r.winRate.value,
            if SlotTotal(rows) > 0 then r.matches as real / SlotTotal(rows) as real else 0.0, r.highRank, r.coverage)))
      && (q.tier.Some? <==> q.score.Some?)
      && (q.tier.Some? ==>
            Tiers.TieredByCount(q.tier.value, |NoBetter(done, q.score.value)|, |Scored(done)|))
  {
    var slots := SlotTotal(rows);
    var scores, done := EligibleScores(rows, slots), FinalizedRows(rows);
    assert forall j :: 0 <= j < |rows| ==> done[j].score == MetaScore(rows[j], slots);
    if MetaScore(rows[i], slots).Some? {
      EligibleScoresNonEmpty(rows, slots, i);
      var x := MetaScore(rows[i], slots).value;
      var all, low := ScoresPick(rows, slots, x);
      Tiers.TierIsCounted(scores, x);
      hide MetaScore, Tiers.TieredByCount, EligibleScores, Tiers.TierOf;
      PickedSize(rows, r => MetaScore(r, slots).Some?, all, Scored(done));
      PickedSize(rows, r => MetaScore(r, slots).Some? && MetaScore(r, slots).value <= x, low, NoBetter(done, x));
      var at := Tiers.CountPicks(scores, x);
      PickedSize(scores, y => y <= x, at, Tiers.AtOrBelow(scores, x));
    }
  }

  /** The slots of one mode add up row by row, and those of other modes do not enter. */
  lemma {:induction false} ModeSlotsAdd(a: seq<ModeCandidate>, b: seq<ModeCandidate>, mode: Id)
    ensures ModeSlots(a + b, mode) == ModeSlots(a, mode) + ModeSlots(b, mode)
    ensures forall r: ModeCandidate :: ModeSlots([r], mode) == if r.mode == mode then r.matches else 0
  {
    if a == [] {
      assert a + b == b;
    } else {
      ModeSlotsAdd(a[1..], b, mode);
      assert (a + b)[1..] == a[1..] + b;
    }
  }

  ghost function ScoredIn(modes: seq<ModeCandidate>, mode: Id): set<nat> {
    set j: nat | j < |modes| && modes[j].mode == mode && modes[j].score.Some?
  }

  ghost function NoBetterIn(modes: seq<ModeCandidate>, mode: Id, x: real): set<nat> {
    set j: nat | j < |modes| && modes[j].mode == mode && modes[j].score.Some? && modes[j].score.value <= x
  }

  predicate Scores(r: ModeCandidate, mode: Id, slots: nat) {
    r.mode == mode && ModeMetaScore(r, slots).Some?
  }

  lemma {:induction false} ModeScoresPick(modes: seq<ModeCandidate>, mode: Id, slots: nat, x: real)
    returns (all: seq<nat>, low: seq<nat>)
    ensures Picked(modes, r => Scores(r, mode, slots), all) && |all| == |ModeScores(modes, mode, slots)|
    ensures Picked(modes, r => Scores(r, mode, slots) && ModeMetaScore(r, slots).value <= x, low)
    ensures |low| == Tiers.CountAtOrBelow(ModeScores(modes, mode, slots), x)
  {
    hide Picked, ModeMetaScore;
    if modes == [] {
      all, low := [], [];
      NothingPicked(modes, r => Scores(r, mode, slots));
      NothingPicked(modes, r => Scores(r, mode, slots) && ModeMetaScore(r, slots).value <= x);
    } else {
      var a, b := ModeScoresPick(modes[1..], mode, slots, x);
      var scored := Scores(modes[0], mode, slots);
      var score, rest := ModeMetaScore(modes[0], slots), ModeScores(modes[1..], mode, slots);
      all, low := Onward(scored, a), Onward(scored && score.value <= x, b);
      PickedOnward(modes, r => Scores(r, mode, slots), a);
      PickedOnward(modes, r => Scores(r, mode, slots) && ModeMetaScore(r, slots).value <= x, b);
      Tiers.CountAppend(if scored then [score.value] else [], rest, x);
    }
  }

  /** The same for the mode rows: points, slots and tiers are those of the row's own mode alone. */
  lemma FinalizedModesByCounts(modes: seq<ModeCandidate>, i: nat)
    requires i < |modes|
    ensures |FinalizedModes(modes)| == |modes|
    ensures var done := FinalizedModes(modes); var r, q, slots := modes[i], done[i], ModeSlots(modes, modes[i].mode);
      && q == r.(score := q.score, tier := q.tier)
      && (q.score.Some? <==> r.meetsFloor && r.winRate.Some?)
      && (q.score.Some? && slots > 0 ==> q.score == Some(70.0 * r.winRate.value + 30.0 * r.matches as real / slots as real))
      && (q.score.Some? && slots == 0 ==> q.score == Some(70.0 * r.winRate.value))
      && (q.tier.Some? <==> q.score.Some?)
      && (q.tier.Some? ==>
            Tiers.TieredByCount(q.tier.value, |NoBetterIn(done, r.mode, q.score.value)|, |ScoredIn(done, r.mode)|))
  {
    var slots := ModeSlots(modes, modes[i].mode);
    if modes[i].meetsFloor && modes[i].winRate.Some? {
      ModePoints(modes[i], slots);
      ModeTierByCounts(modes, i);
    }
    hide ModeSlots, ModeScores, Tiers.TieredByCount, Tiers.TierOf, NoBetterIn, ScoredIn;
  }

  lemma ModeTierByCounts(modes: seq<ModeCandidate>, i: nat)
    requires i < |modes| && ModeMetaScore(modes[i], ModeSlots(modes, modes[i].mode)).Some?
    ensures var done := FinalizedModes(modes); var mode, q := modes[i].mode, done[i];
      && q.score.Some? && q.tier.Some?
      && Tiers.TieredByCount(q.tier.value, |NoBetterIn(done, mode, q.score.value)|, |ScoredIn(done, mode)|)
  {
    var mode := modes[i].mode;
    var slots := ModeSlots(modes, mode);
    var x := ModeMetaScore(modes[i], slots).value;
    var scores := ModeScores(modes, mode, slots);
    ModeScoresNonEmpty(modes, slots, i);
    Tiers.TierIsCounted(scores, x);
    var at := Tiers.CountPicks(scores, x);
    PickedSize(scores, y => y <= x, at, Tiers.AtOrBelow(scores, x));
    FinalizedAre(modes, mode);
    ModeSizes(modes, FinalizedModes(modes), mode, slots, x);
    hide ModeMetaScore, Tiers.TieredByCount, ModeScores, ModeSlots, Tiers.TierOf, Tiers.CountAtOrBelow, NoBetterIn,
        ScoredIn, Tiers.AtOrBelow, Picked, StampedAs;
  }

  /** The rows of the mode carry the scores of the list, whatever the tiers. */
  ghost predicate StampedAs(modes: seq<ModeCandidate>, done: seq<ModeCandidate>, mode: Id, slots: nat) {
    && |done| == |modes|
    && forall j :: 0 <= j < |modes| ==>
         done[j].mode == modes[j].mode && (done[j].mode == mode ==> done[j].score == ModeMetaScore(modes[j], slots))
  }

  lemma FinalizedAre(modes: seq<ModeCandidate>, mode: Id)
    ensures StampedAs(modes, FinalizedModes(modes), mode, ModeSlots(modes, mode))
  {
    hide ModeMetaScore, ModeScores, ModeSlots, Tiers.TierOf;
  }

  lemma ModeSizes(modes: seq<ModeCandidate>, done: seq<ModeCandidate>, mode: Id, slots: nat, x: real)
    requires StampedAs(modes, done, mode, slots)
    ensures |ScoredIn(done, mode)| == |ModeScores(modes, mode, slots)|
    ensures |NoBetterIn(done, mode, x)| == Tiers.CountAtOrBelow(ModeScores(modes, mode, slots), x)
  {
    var all, low := ModeScoresPick(modes, mode, slots, x);
    hide ModeMetaScore, ModeScores, Tiers.CountAtOrBelow;
    PickedSize(modes, r => Scores(r, mode, slots), all, ScoredIn(done, mode));
    PickedSize(modes, r => Scores(r, mode, slots) && ModeMetaScore(r, slots).value <= x, low, NoBetterIn(done, mode, x));
  }

  lemma ModePoints(r: ModeCandidate, slots: nat)
    requires r.meetsFloor && r.winRate.Some?
    ensures slots > 0 ==> ModeMetaScore(r, slots) == Some(70.0 * r.winRate.value + 30.0 * r.matches as real / slots as real)
    ensures slots == 0 ==> ModeMetaScore(r, slots) == Some(70.0 * r.winRate.value)
  {
  }
}
