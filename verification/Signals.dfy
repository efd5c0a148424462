/**
 * A brawler's signals from its participation rows: the per-player cap, recency-weighted win
 * rates, the blend of current patch and all data, the high-rank rate and the spread that
 * confidence looks at. Times are in milliseconds.
 */
module Signals {
  import opened Common
  import opened Keyset
  import opened Ranking
  import GroupBy
  import Tiers
  import opened PlayerCap

  const PER_PLAYER_CAP: nat := 20
  const DAY: int := 86_400_000

  /** The six trophy brackets from lowest to highest, and the marker for no bracket. */
  const BRACKETS: seq<Id> := [0, 1, 2, 3, 4, 5]
  const UNRANKED: Id := 6

  datatype Rated = Rated(matches: nat, winRate: Option<real>)

  datatype ModeSignal = ModeSignal(mode: Id, rated: Rated)

  datatype Signal = Signal(
    overall: Rated, highRank: Option<real>, regions: nat, brackets: nat, recent: bool, modes: seq<ModeSignal>)

  // --------------------------------------------------------- win rates

  function DaysAgo(occurredAt: int, now: int): real {
    (now - occurredAt) as real / DAY as real
  }

  /** Full weight for a month, half at three months, none after six. */
  function RecencyWeight(days: real): real {
    if days <= 30.0 then 1.0
    else if days <= 90.0 then 1.0 - 0.5 * ((days - 30.0) / 60.0)
    else if days <= 180.0 then 0.5 - 0.5 * ((days - 90.0) / 90.0)
    else 0.0
  }

  /** The weight of all rows with this result. */
  function Weighted(rows: seq<Row>, result: GroupBy.Result, now: int): real {
    if rows == [] then 0.0
    else
      (if rows[0].result == Some(result) then RecencyWeight(DaysAgo(rows[0].occurredAt, now)) else 0.0)
      + Weighted(rows[1..], result, now)
  }

  function WinRate(wins: real, losses: real): Option<real> {
    if wins + losses <= 0.0 then None else Some(wins / (wins + losses))
  }

  function WeightedRate(rows: seq<Row>, now: int): Option<real> {
    WinRate(Weighted(rows, GroupBy.Victory, now), Weighted(rows, GroupBy.Defeat, now))
  }

  function BlendWeight(currentPatchMatches: nat): real {
    if currentPatchMatches >= 100 then 1.0 else currentPatchMatches as real / 100.0
  }

  /** A missing side contributes nothing. */
  function Blend(current: Option<real>, all: Option<real>, weight: real): Option<real> {
    if current.None? then all
    else if all.None? then current
    else Some(weight * current.value + (1.0 - weight) * all.value)
  }

  function OfPatch(rows: seq<Row>, patch: Option<Id>): seq<Row> {
    if rows == [] then []
    else (if patch.Some? && rows[0].patch == patch then [rows[0]] else []) + OfPatch(rows[1..], patch)
  }

  function Blended(rows: seq<Row>, patch: Option<Id>, now: int): Rated {
    var current := OfPatch(rows, patch);
    var rate := if current != [] then WeightedRate(current, now) else None;
    Rated(|rows|, Blend(rate, WeightedRate(rows, now), BlendWeight(|current|)))
  }

  function OfBracket(rows: seq<Row>, bracket: Id): seq<Row> {
    if rows == [] then []
    else (if rows[0].bracket == Some(bracket) then [rows[0]] else []) + OfBracket(rows[1..], bracket)
  }

  /** The highest of the first `n` brackets with enough rows decides, even if it has no rate. */
  function HighRank(rows: seq<Row>, now: int, enough: nat, n: nat): Option<real>
    requires n <= |BRACKETS|
  {
    if n == 0 then None
    else if |OfBracket(rows, BRACKETS[n - 1])| >= enough then WeightedRate(OfBracket(rows, BRACKETS[n - 1]), now)
    else HighRank(rows, now, enough, n - 1)
  }

  // ------------------------------------------------------------- per mode

  function OfOneMode(rows: seq<Row>, mode: Id): seq<Row> {
    if rows == [] then [] else (if rows[0].mode == Some(mode) then [rows[0]] else []) + OfOneMode(rows[1..], mode)
  }

  /** The modes in order of first appearance. */
  function ModesIn(rows: seq<Row>): seq<Id> {
    if rows == [] then []
    else
      var before, m := ModesIn(rows[..|rows| - 1]), rows[|rows| - 1].mode;
      if m.None? || m.value in before then before else before + [m.value]
  }

  function ModeSignals(rows: seq<Row>, modes: seq<Id>, patch: Option<Id>, now: int): seq<ModeSignal> {
    seq(|modes|, i requires 0 <= i < |modes| => ModeSignal(modes[i], Blended(OfOneMode(rows, modes[i]), patch, now)))
  }

  // --------------------------------------------------------------- spread

  function Regions(rows: seq<Row>): set<Id> {
    set i | 0 <= i < |rows| && rows[i].region.Some? :: rows[i].region.value
  }

  function Brackets(rows: seq<Row>): set<Id> {
    set i | 0 <= i < |rows| && rows[i].bracket.Some? && rows[i].bracket.value != UNRANKED :: rows[i].bracket.value
  }

  predicate SomeRecent(rows: seq<Row>, now: int) {
    exists i :: 0 <= i < |rows| && DaysAgo(rows[i].occurredAt, now) <= 30.0
  }

  /** `computeForBrawler`. */
  function SignalOf(raw: seq<Row>, patch: Option<Id>, now: int, highRankFloor: nat): Signal {
    var capped := Capped(raw, Players(raw), PER_PLAYER_CAP);
    Signal(
      Blended(capped, patch, now), HighRank(capped, now, highRankFloor, |BRACKETS|),
      |Regions(capped)|, |Brackets(capped)|, SomeRecent(capped, now), ModeSignals(capped, ModesIn(capped), patch, now))
  }

  /** High confidence needs a recent battle, two regions and two brackets besides the matches. */
  function ConfidenceFor(matches: nat, s: Signal, low: nat, medium: nat, high: nat): Confidence {
    if matches < low then Insufficient
    else if matches < medium then Low
    else if matches < high then Medium
    else if s.recent && s.regions >= 2 && s.brackets >= 2 then High else Medium
  }

  function OverallConfidence(s: Signal): Confidence {
    ConfidenceFor(s.overall.matches, s, 100, 200, 500)
  }

  function ModeConfidence(matches: nat, s: Signal): Confidence {
    ConfidenceFor(matches, s, 30, 60, 150)
  }

  // ------------------------------------------------------------ as it runs

  /** `accumulateWeighted` and the rate of its totals. */
  method RateRows(rows: seq<Row>, now: int) returns (rate: Option<real>)
    ensures rate == WeightedRate(rows, now)
  {
    var wins, losses := 0.0, 0.0;
    for i := 0 to |rows|
      invariant wins + Weighted(rows[i..], GroupBy.Victory, now) == Weighted(rows, GroupBy.Victory, now)
      invariant losses + Weighted(rows[i..], GroupBy.Defeat, now) == Weighted(rows, GroupBy.Defeat, now)
    {
      var weight := RecencyWeight(DaysAgo(rows[i].occurredAt, now));
      assert rows[i..][0] == rows[i] && rows[i..][1..] == rows[i + 1..];
      if rows[i].result == Some(GroupBy.Victory) {
        wins := wins + weight;
      } else if rows[i].result == Some(GroupBy.Defeat) {
        losses := losses + weight;
      }
    }
    return WinRate(wins, losses);
  }

  method ComputeBlendedWinRate(rows: seq<Row>, patch: Option<Id>, now: int) returns (r: Rated)
    ensures r == Blended(rows, patch, now)
  {
    var all := RateRows(rows, now);
    var current := OfPatch(rows, patch);
    var rate: Option<real> := None;
    if |current| > 0 {
      rate := RateRows(current, now);
    }
    return Rated(|rows|, Blend(rate, all, BlendWeight(|current|)));
  }

  method ComputeHighRankWinRate(rows: seq<Row>, now: int, enough: nat) returns (rate: Option<real>)
    ensures rate == HighRank(rows, now, enough, |BRACKETS|)
  {
    var n := |BRACKETS|;
    while n > 0
      invariant 0 <= n <= |BRACKETS|
      invariant HighRank(rows, now, enough, n) == HighRank(rows, now, enough, |BRACKETS|)
    {
      var inBracket := OfBracket(rows, BRACKETS[n - 1]);
      if |inBracket| >= enough {
        rate := RateRows(inBracket, now);
        return;
      }
      n := n - 1;
    }
    return None;
  }

  method ComputeForBrawler(raw: seq<Row>, patch: Option<Id>, now: int, highRankFloor: nat) returns (s: Signal)
    ensures s == SignalOf(raw, patch, now, highRankFloor)
  {
    hide Capped, Players, Blended, HighRank, ModesIn, OfOneMode;
    var capped := ApplyPerPlayerCap(raw, PER_PLAYER_CAP);
    var overall := ComputeBlendedWinRate(capped, patch, now);
    var highRank := ComputeHighRankWinRate(capped, now, highRankFloor);
    var modeIds := ModesIn(capped);
    var modes: seq<ModeSignal> := [];
    for i := 0 to |modeIds|
      invariant modes == ModeSignals(capped, modeIds, patch, now)[..i]
    {
      var rated := ComputeBlendedWinRate(OfOneMode(capped, modeIds[i]), patch, now);
      modes := modes + [ModeSignal(modeIds[i], rated)];
    }
    assert modes == ModeSignals(capped, modeIds, patch, now);
    return Signal(overall, highRank, |Regions(capped)|, |Brackets(capped)|, SomeRecent(capped, now), modes);
  }

  // ----------------------------------------------------- everything in range

  predicate Unit(x: Option<real>) {
    x.Some? ==> 0.0 <= x.value <= 1.0
  }

  /** The weight never leaves [0, 1] and never grows with age. */
  lemma RecencyDecays(sooner: real, later: real)
    requires sooner <= later
    ensures 0.0 <= RecencyWeight(later) <= RecencyWeight(sooner) <= 1.0
  {
  }

  lemma {:induction false} WeightedNotNegative(rows: seq<Row>, result: GroupBy.Result, now: int)
    ensures Weighted(rows, result, now) >= 0.0
  {
    if rows != [] {
      WeightedNotNegative(rows[1..], result, now);
      RecencyDecays(DaysAgo(rows[0].occurredAt, now), DaysAgo(rows[0].occurredAt, now));
    }
  }

  lemma RateInUnit(rows: seq<Row>, now: int)
    ensures Unit(WeightedRate(rows, now))
  {
    WeightedNotNegative(rows, GroupBy.Victory, now);
    WeightedNotNegative(rows, GroupBy.Defeat, now);
    if Weighted(rows, GroupBy.Victory, now) + Weighted(rows, GroupBy.Defeat, now) > 0.0 {
      Share(Weighted(rows, GroupBy.Victory, now), Weighted(rows, GroupBy.Defeat, now));
    }
  }

  lemma Share(a: real, b: real)
    requires a >= 0.0 && b >= 0.0 && a + b > 0.0
    ensures 0.0 <= a / (a + b) <= 1.0
  {
    var q := a / (a + b);
    assert q * (a + b) == a;
    Tiers.ScalingKeepsOrder(1.0, q, a + b);
    Tiers.ScalingKeepsOrder(q, 0.0, a + b);
  }

  /** The blend lies between its two sides. */
  lemma BlendIsBetween(current: real, all: real, weight: real)
    requires 0.0 <= weight <= 1.0
    ensures var b := Blend(Some(current), Some(all), weight).value;
      (current <= all ==> current <= b <= all) && (all <= current ==> all <= b <= current)
  {
    var b := Blend(Some(current), Some(all), weight).value;
    assert b - all == weight * (current - all);
    assert b - current == (1.0 - weight) * (all - current);
    SignOfProduct(weight, current - all);
    SignOfProduct(1.0 - weight, all - current);
  }

  lemma SignOfProduct(x: real, y: real)
    requires x >= 0.0
    ensures y >= 0.0 ==> x * y >= 0.0
    ensures y <= 0.0 ==> x * y <= 0.0
  {
  }

  lemma BlendedInUnit(rows: seq<Row>, patch: Option<Id>, now: int)
    ensures Unit(Blended(rows, patch, now).winRate)
  {
    hide WeightedRate, OfPatch;
    var current := OfPatch(rows, patch);
    RateInUnit(current, now);
    RateInUnit(rows, now);
    if current != [] && WeightedRate(current, now).Some? && WeightedRate(rows, now).Some? {
      BlendIsBetween(WeightedRate(current, now).value, WeightedRate(rows, now).value, BlendWeight(|current|));
    }
  }

  lemma {:induction false} HighRankInUnit(rows: seq<Row>, now: int, enough: nat, n: nat)
    requires n <= |BRACKETS|
    ensures Unit(HighRank(rows, now, enough, n))
  {
    if n > 0 {
      RateInUnit(OfBracket(rows, BRACKETS[n - 1]), now);
      HighRankInUnit(rows, now, enough, n - 1);
    }
  }

  /** Every rate a brawler enters the ranking with lies between 0 and 1, whatever its battles. */
  lemma SignalsInUnit(raw: seq<Row>, patch: Option<Id>, now: int, highRankFloor: nat)
    ensures var s := SignalOf(raw, patch, now, highRankFloor);
      && Unit(s.overall.winRate) && Unit(s.highRank)
      && forall i :: 0 <= i < |s.modes| ==> Unit(s.modes[i].rated.winRate)
  {
    hide Capped, Players, Blended, HighRank, ModesIn, OfOneMode;
    var capped := Capped(raw, Players(raw), PER_PLAYER_CAP);
    BlendedInUnit(capped, patch, now);
    HighRankInUnit(capped, now, highRankFloor, |BRACKETS|);
    forall i | 0 <= i < |ModesIn(capped)|
      ensures Unit(Blended(OfOneMode(capped, ModesIn(capped)[i]), patch, now).winRate)
    {
      BlendedInUnit(OfOneMode(capped, ModesIn(capped)[i]), patch, now);
    }
  }

  // ------------------------------------------------------- scores in range

  ghost predicate UnitRates(r: Candidate) {
    Unit(r.winRate) && Unit(r.highRank) && Unit(r.coverage)
  }

  lemma {:induction false} SlotsCover(rows: seq<Candidate>, i: nat)
    requires i < |rows|
    ensures rows[i].matches <= SlotTotal(rows)
  {
    if i > 0 {
      SlotsCover(rows[1..], i - 1);
    }
  }

  lemma {:induction false} ModeSlotsCover(modes: seq<ModeCandidate>, i: nat)
    requires i < |modes|
    ensures modes[i].matches <= ModeSlots(modes, modes[i].mode)
  {
    if i > 0 {
      ModeSlotsCover(modes[1..], i - 1);
    }
  }

  lemma PartInUnit(part: nat, whole: nat)
    requires 0 < whole && part <= whole
    ensures 0.0 <= part as real / whole as real <= 1.0
  {
    if part < whole {
      Share(part as real, (whole - part) as real);
    }
  }

  /** Whatever the rows, every score and mode score finalize stamps lies between 0 and 100. */
  lemma ScoresInRange(rows: seq<Candidate>, modes: seq<ModeCandidate>)
    requires forall i :: 0 <= i < |rows| ==> UnitRates(rows[i])
    requires forall i :: 0 <= i < |modes| ==> Unit(modes[i].winRate)
    ensures forall i :: 0 <= i < |rows| && FinalizedRows(rows)[i].score.Some? ==>
        0.0 <= FinalizedRows(rows)[i].score.value <= 100.0
    ensures forall i :: 0 <= i < |modes| && FinalizedModes(modes)[i].score.Some? ==>
        0.0 <= FinalizedModes(modes)[i].score.value <= 100.0
  {
    hide EligibleScores, ModeScores, SlotTotal, ModeSlots;
    forall i | 0 <= i < |rows| && FinalizedRows(rows)[i].score.Some?
      ensures 0.0 <= FinalizedRows(rows)[i].score.value <= 100.0
    {
      SlotsCover(rows, i);
      if SlotTotal(rows) > 0 {
        PartInUnit(rows[i].matches, SlotTotal(rows));
      }
    }
    forall i | 0 <= i < |modes| && FinalizedModes(modes)[i].score.Some?
      ensures 0.0 <= FinalizedModes(modes)[i].score.value <= 100.0
    {
      ModeSlotsCover(modes, i);
      if ModeSlots(modes, modes[i].mode) > 0 {
        PartInUnit(modes[i].matches, ModeSlots(modes, modes[i].mode));
      }
    }
  }
}
