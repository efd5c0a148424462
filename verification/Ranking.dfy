/**
 * The end of a ranking run: finalize stamps scores and tiers on the candidate rows, and
 * the publish phase compares them with the current snapshot to hold, skip or publish.
 */
module Ranking {
  import opened Common
  import opened Keyset
  import opened Tiers

  datatype Confidence = Insufficient | Low | Medium | High

  /** One overall row of ranking_results. */
  datatype Candidate = Candidate(
    brawler: Id, matches: nat, meetsFloor: bool, winRate: Option<real>, highRank: Option<real>,
    coverage: Option<real>, confidence: Confidence, score: Option<real>, tier: Option<Tier>)

  /** One per-mode row of ranking_results. */
  datatype ModeCandidate = ModeCandidate(
    brawler: Id, mode: Id, matches: nat, meetsFloor: bool, winRate: Option<real>,
    confidence: Confidence, score: Option<real>, tier: Option<Tier>)

  datatype Relationship = HardCounter | Counter | Neutral | Strong | HardAdvantage

  datatype MatchupConfidence = NoSignal | WeakSignal | ProbableCounter | HighConfidenceCounter

  /** One row of matchup_results. */
  datatype MatchupRow = MatchupRow(
    brawler: Id, opponent: Id, matches: nat, winRate: Option<real>,
    relationship: Option<Relationship>, confidence: MatchupConfidence)

  datatype ModeTier = ModeTier(mode: Id, tier: Tier, score: Option<real>, confidence: Confidence)

  datatype Item = Item(brawler: Id, tier: Tier, score: real, confidence: Confidence, modes: seq<ModeTier>)

  // ---------------------------------------------------------------- finalize

  function SlotTotal(rows: seq<Candidate>): nat {
    if rows == [] then 0 else rows[0].matches + SlotTotal(rows[1..])
  }

  function PickRate(r: Candidate, slots: nat): real {
    if slots > 0 then r.matches as real / slots as real else 0.0
  }

  /** `computeOverallScore`: absent signals fall back to the win rate and to one half. */
  function OverallScore(winRate: real, pickRate: real, highRank: Option<real>, coverage: Option<real>): real {
    var high := if highRank.Some? then highRank.value else winRate;
    var cover := if coverage.Some? then coverage.value else 0.5;
    (0.5 * winRate + 0.2 * pickRate + 0.2 * high + 0.1 * cover) * 100.0
  }

  function MetaScore(r: Candidate, slots: nat): Option<real> {
    if r.meetsFloor && r.winRate.Some?
    then Some(OverallScore(r.winRate.value, PickRate(r, slots), r.highRank, r.coverage))
    else None
  }

  /** The scores of the rows eligible for a tier, in row order. */
  function EligibleScores(rows: seq<Candidate>, slots: nat): seq<real> {
    if rows == [] then []
    else
      var score := MetaScore(rows[0], slots);
      (if score.Some? then [score.value] else []) + EligibleScores(rows[1..], slots)
  }

  function Stamp(r: Candidate, slots: nat, scores: seq<real>): Candidate {
    var score := MetaScore(r, slots);
    r.(score := score, tier := if score.Some? && scores != [] then Some(TierOf(scores, score.value)) else None)
  }

  function FinalizedRows(rows: seq<Candidate>): seq<Candidate> {
    var slots := SlotTotal(rows);
    var scores := EligibleScores(rows, slots);
    seq(|rows|, i requires 0 <= i < |rows| => Stamp(rows[i], slots, scores))
  }

  /** Two lists of rows that differ in nothing but what finalize stamps. */
  ghost predicate SameSignals(rows: seq<Candidate>, others: seq<Candidate>) {
    |rows| == |others| && forall i :: 0 <= i < |rows| ==>
        rows[i].(score := None, tier := None) == others[i].(score := None, tier := None)
  }

  lemma {:induction false} StampsAreNotRead(rows: seq<Candidate>, others: seq<Candidate>, slots: nat)
    requires SameSignals(rows, others)
    ensures SlotTotal(rows) == SlotTotal(others) && EligibleScores(rows, slots) == EligibleScores(others, slots)
  {
    if rows != [] {
      assert rows[0].(score := None, tier := None) == others[0].(score := None, tier := None);
      forall i | 0 <= i < |rows| - 1
        ensures rows[1..][i].(score := None, tier := None) == others[1..][i].(score := None, tier := None)
      {
        assert rows[1..][i] == rows[i + 1] && others[1..][i] == others[i + 1];
      }
      StampsAreNotRead(rows[1..], others[1..], slots);
    }
  }

  /** Finalizing again changes nothing: a crash before its commit costs nothing but the work. */
  lemma FinalizeIsIdempotent(rows: seq<Candidate>)
    ensures FinalizedRows(FinalizedRows(rows)) == FinalizedRows(rows)
  {
    StampsAreNotRead(rows, FinalizedRows(rows), SlotTotal(rows));
  }

  lemma {:induction false} EligibleScoresNonEmpty(rows: seq<Candidate>, slots: nat, i: nat)
    requires i < |rows| && MetaScore(rows[i], slots).Some?
    ensures EligibleScores(rows, slots) != []
  {
    if i > 0 {
      EligibleScoresNonEmpty(rows[1..], slots, i - 1);
    }
  }

  predicate Publishable(r: Candidate) {
    r.meetsFloor && r.score.Some? && r.tier.Some?
  }

  /** What finalize establishes and publication relies on: a tier is present exactly on the rows that publish. */
  ghost predicate TieredIffPublishable(rows: seq<Candidate>) {
    forall i :: 0 <= i < |rows| ==> (rows[i].tier.Some? <==> Publishable(rows[i]))
  }

  lemma FinalizeTiersExactlyThePublishable(rows: seq<Candidate>)
    ensures TieredIffPublishable(FinalizedRows(rows))
    ensures forall i :: 0 <= i < |rows| ==>
              (FinalizedRows(rows)[i].tier.Some? <==> rows[i].meetsFloor && rows[i].winRate.Some?)
  {
    var slots := SlotTotal(rows);
    forall i | 0 <= i < |rows| && MetaScore(rows[i], slots).Some?
      ensures EligibleScores(rows, slots) != []
    {
      EligibleScoresNonEmpty(rows, slots, i);
    }
  }

  // ------------------------------------------------------- finalize, per mode

  /** Participant slots of one mode. */
  function ModeSlots(modes: seq<ModeCandidate>, mode: Id): nat {
    if modes == [] then 0 else (if modes[0].mode == mode then modes[0].matches else 0) + ModeSlots(modes[1..], mode)
  }

  /** `computeModeScore`: nothing of the overall score enters. */
  function ModeScore(winRate: real, pickRate: real): real {
    (0.7 * winRate + 0.3 * pickRate) * 100.0
  }

  function ModeMetaScore(r: ModeCandidate, slots: nat): Option<real> {
    if r.meetsFloor && r.winRate.Some?
    then Some(ModeScore(r.winRate.value, if slots > 0 then r.matches as real / slots as real else 0.0))
    else None
  }

  /** The scores of one mode's rows eligible for a tier, in row order. */
  function ModeScores(modes: seq<ModeCandidate>, mode: Id, slots: nat): seq<real> {
    if modes == [] then []
    else
      var score := ModeMetaScore(modes[0], slots);
      (if modes[0].mode == mode && score.Some? then [score.value] else []) + ModeScores(modes[1..], mode, slots)
  }

  function StampMode(r: ModeCandidate, slots: nat, scores: seq<real>): ModeCandidate {
    var score := ModeMetaScore(r, slots);
    r.(score := score, tier := if score.Some? && scores != [] then Some(TierOf(scores, score.value)) else None)
  }

  /** Row `r` as finalize stamps it among all mode rows of its run. */
  function StampWithin(modes: seq<ModeCandidate>, r: ModeCandidate): ModeCandidate {
    var slots := ModeSlots(modes, r.mode);
    StampMode(r, slots, ModeScores(modes, r.mode, slots))
  }

  function FinalizedModes(modes: seq<ModeCandidate>): seq<ModeCandidate> {
    seq(|modes|, i requires 0 <= i < |modes| => StampWithin(modes, modes[i]))
  }

  lemma {:induction false} ModeScoresNonEmpty(modes: seq<ModeCandidate>, slots: nat, i: nat)
    requires i < |modes| && ModeMetaScore(modes[i], slots).Some?
    ensures ModeScores(modes, modes[i].mode, slots) != []
  {
    if i > 0 {
      ModeScoresNonEmpty(modes[1..], slots, i - 1);
    }
  }

  /** Per mode, too, a tier is present exactly on the rows that qualify. */
  lemma FinalizeTiersQualifyingModes(modes: seq<ModeCandidate>)
    ensures forall i :: 0 <= i < |modes| ==>
      var r := FinalizedModes(modes)[i];
      && (r.tier.Some? <==> modes[i].meetsFloor && modes[i].winRate.Some?)
      && (r.score.Some? <==> r.tier.Some?)
  {
    forall i | 0 <= i < |modes| && ModeMetaScore(modes[i], ModeSlots(modes, modes[i].mode)).Some?
      ensures ModeScores(modes, modes[i].mode, ModeSlots(modes, modes[i].mode)) != []
    {
      ModeScoresNonEmpty(modes, ModeSlots(modes, modes[i].mode), i);
    }
  }

  function OfMode(modes: seq<ModeCandidate>, mode: Id): seq<ModeCandidate> {
    if modes == [] then [] else (if modes[0].mode == mode then [modes[0]] else []) + OfMode(modes[1..], mode)
  }

  lemma {:induction false} OnlyItsOwnMode(modes: seq<ModeCandidate>, mode: Id, slots: nat)
    ensures ModeSlots(OfMode(modes, mode), mode) == ModeSlots(modes, mode)
    ensures ModeScores(OfMode(modes, mode), mode, slots) == ModeScores(modes, mode, slots)
    ensures forall i :: 0 <= i < |OfMode(modes, mode)| ==> OfMode(modes, mode)[i].mode == mode
  {
    if modes != [] {
      OnlyItsOwnMode(modes[1..], mode, slots);
      if modes[0].mode == mode {
        assert OfMode(modes, mode)[1..] == OfMode(modes[1..], mode);
      } else {
        assert OfMode(modes, mode) == OfMode(modes[1..], mode);
      }
    }
  }

  lemma {:induction false} StampedOfMode(all: seq<ModeCandidate>, modes: seq<ModeCandidate>, mode: Id,
      stamped: seq<ModeCandidate>)
    requires |stamped| == |modes| && forall i :: 0 <= i < |modes| ==> stamped[i] == StampWithin(all, modes[i])
    ensures |OfMode(stamped, mode)| == |OfMode(modes, mode)|
    ensures forall i :: 0 <= i < |OfMode(modes, mode)| ==>
        OfMode(stamped, mode)[i] == StampWithin(all, OfMode(modes, mode)[i])
  {
    if modes != [] {
      hide StampWithin;
      assert stamped[0].mode == modes[0].mode by {
        StampKeepsMode(all, modes[0]);
      }
      forall i | 0 <= i < |modes| - 1
        ensures stamped[1..][i] == StampWithin(all, modes[1..][i])
      {
        assert modes[1..][i] == modes[i + 1] && stamped[1..][i] == stamped[i + 1];
      }
      StampedOfMode(all, modes[1..], mode, stamped[1..]);
    }
  }

  lemma StampKeepsMode(all: seq<ModeCandidate>, r: ModeCandidate)
    ensures StampWithin(all, r).mode == r.mode
  {
  }

  /** Modes are ranked independently: a mode's rows come out as if no other mode existed. */
  lemma ModesAreIndependent(modes: seq<ModeCandidate>, mode: Id)
    ensures OfMode(FinalizedModes(modes), mode) == FinalizedModes(OfMode(modes, mode))
  {
    var own := OfMode(modes, mode);
    StampedOfMode(modes, modes, mode, FinalizedModes(modes));
    OnlyItsOwnMode(modes, mode, ModeSlots(modes, mode));
    forall i | 0 <= i < |own|
      ensures StampWithin(modes, own[i]) == StampWithin(own, own[i])
    {
      assert own[i].mode == mode;
    }
  }

  // ---------------------------------------------------------------- decision

  predicate DistinctBrawlers(rows: seq<Candidate>) {
    forall i, j :: 0 <= i < j < |rows| ==> rows[i].brawler != rows[j].brawler
  }

  /** The ranked entries of a run, `overallRows.filter((r) => r.tier)`. */
  function Tiered(rows: seq<Candidate>): seq<Candidate> {
    if rows == [] then []
    else (if rows[0].tier.Some? then [rows[0]] else []) + Tiered(rows[1..])
  }

  function Moved(prev: map<Id, Item>, tiered: seq<Candidate>): nat {
    if tiered == [] then 0
    else
      var r := tiered[0];
      (if r.brawler in prev && Some(prev[r.brawler].tier) != r.tier then 1 else 0) + Moved(prev, tiered[1..])
  }

  function TierMoveRatio(prev: map<Id, Item>, tiered: seq<Candidate>): real {
    if tiered == [] then 0.0 else Moved(prev, tiered) as real / |tiered| as real
  }

  /** `computeTierMoveRatio`, as the loop it is. */
  method ComputeTierMoveRatio(prev: map<Id, Item>, tiered: seq<Candidate>) returns (ratio: real)
    ensures ratio == TierMoveRatio(prev, tiered)
  {
    if |tiered| == 0 {
      return 0.0;
    }
    var moved := 0;
    for i := 0 to |tiered|
      invariant moved + Moved(prev, tiered[i..]) == Moved(prev, tiered)
    {
      var r := tiered[i];
      if r.brawler in prev && Some(prev[r.brawler].tier) != r.tier {
        moved := moved + 1;
      }
    }
    return moved as real / |tiered| as real;
  }

  function ExceedsGuard(ratio: real, first: bool): bool {
    !first && ratio > 0.25
  }

  /** A published entry changed: it is new, its tier moved, or its score moved by more than one point. */
  predicate Changed(prev: map<Id, Item>, r: Candidate)
    requires r.tier.Some? && r.score.Some?
  {
    r.brawler !in prev
    || prev[r.brawler].tier != r.tier.value
    || r.score.value - prev[r.brawler].score > 1.0
    || prev[r.brawler].score - r.score.value > 1.0
  }

  /** `hasSignificantChange`: stops at the first changed entry. */
  method HasSignificantChange(prev: map<Id, Item>, tiered: seq<Candidate>, first: bool) returns (change: bool)
    requires forall i :: 0 <= i < |tiered| ==> tiered[i].tier.Some? && tiered[i].score.Some?
    ensures change <==> first || exists i :: 0 <= i < |tiered| && Changed(prev, tiered[i])
  {
    if first {
      return true;
    }
    for i := 0 to |tiered|
      invariant forall j :: 0 <= j < i ==> !Changed(prev, tiered[j])
    {
      if Changed(prev, tiered[i]) {
        return true;
      }
    }
    return false;
  }

  lemma {:induction false} TieredRows(rows: seq<Candidate>)
    requires TieredIffPublishable(rows)
    ensures forall i :: 0 <= i < |Tiered(rows)| ==> Tiered(rows)[i] in rows && Publishable(Tiered(rows)[i])
  {
    if rows != [] {
      TieredRows(rows[1..]);
    }
  }

  // ------------------------------------------------------- snapshot contents

  function ModesOf(modes: seq<ModeCandidate>, brawler: Id): seq<ModeTier> {
    if modes == [] then []
    else
      var m := modes[0];
      (if m.brawler == brawler && m.meetsFloor && m.tier.Some?
          then [ModeTier(m.mode, m.tier.value, m.score, m.confidence)] else [])
      + ModesOf(modes[1..], brawler)
  }

  function ItemOf(r: Candidate, modes: seq<ModeCandidate>): Item
    requires Publishable(r)
  {
    Item(r.brawler, r.tier.value, r.score.value,
         if r.confidence == Insufficient then Low else r.confidence, ModesOf(modes, r.brawler))
  }

  /** The items a publication writes: exactly the rows whose gates were decided when the candidate was computed. */
  function Contents(rows: seq<Candidate>, modes: seq<ModeCandidate>): seq<Item> {
    if rows == [] then []
    else (if Publishable(rows[0]) then [ItemOf(rows[0], modes)] else []) + Contents(rows[1..], modes)
  }

  /** Published pairs are the classified ones at probable or high confidence. */
  predicate Qualifies(m: MatchupRow) {
    m.relationship.Some? && m.winRate.Some? && m.confidence in {ProbableCounter, HighConfidenceCounter}
  }

  /** `getQualifyingMatchupResults`. */
  function QualifyingPairs(ms: seq<MatchupRow>): seq<MatchupRow> {
    if ms == [] then [] else (if Qualifies(ms[0]) then [ms[0]] else []) + QualifyingPairs(ms[1..])
  }

  // ------------------------------------ the contents, read off the rows alone

  /** One mode tier per mode row of the brawler that meets its floor and has a tier; `at` are those rows, in order. */
  ghost predicate ModeTiersAt(tiers: seq<ModeTier>, brawler: Id, modes: seq<ModeCandidate>, at: seq<nat>) {
    && |tiers| == |at|
    && (forall i, j :: 0 <= i < j < |at| ==> at[i] < at[j])
    && (forall i :: 0 <= i < |at| ==>
          && at[i] < |modes| && modes[at[i]].brawler == brawler && modes[at[i]].meetsFloor
          && tiers[i].mode == modes[at[i]].mode && Some(tiers[i].tier) == modes[at[i]].tier
          && tiers[i].score == modes[at[i]].score && tiers[i].confidence == modes[at[i]].confidence)
    && (forall j {:trigger j in at} :: 0 <= j < |modes| ==>
          (modes[j].brawler == brawler && modes[j].meetsFloor && modes[j].tier.Some? ==> j in at))
  }

  /**
   * One item per row that meets its floor and has a score and a tier, in row order: the row's own
   * brawler, tier and score, no confidence below low, and the mode tiers of that brawler.
   */
  ghost predicate ItemsAt(items: seq<Item>, rows: seq<Candidate>, modes: seq<ModeCandidate>, at: seq<nat>) {
    && |items| == |at|
    && (forall i, j :: 0 <= i < j < |at| ==> at[i] < at[j])
    && (forall i :: 0 <= i < |at| ==>
          && at[i] < |rows| && rows[at[i]].meetsFloor && items[i].brawler == rows[at[i]].brawler
          && Some(items[i].tier) == rows[at[i]].tier && Some(items[i].score) == rows[at[i]].score
          && items[i].confidence == (if rows[at[i]].confidence == Insufficient then Low else rows[at[i]].confidence)
          && exists from :: ModeTiersAt(items[i].modes, rows[at[i]].brawler, modes, from))
    && (forall j {:trigger j in at} :: 0 <= j < |rows| ==>
          (rows[j].meetsFloor && rows[j].score.Some? && rows[j].tier.Some? ==> j in at))
  }

  /** The pairs are the matchup rows with a relationship, a win rate and one of the two upper confidences, in row order. */
  ghost predicate PairsAt(pairs: seq<MatchupRow>, ms: seq<MatchupRow>, at: seq<nat>) {
    && |pairs| == |at|
    && (forall i, j :: 0 <= i < j < |at| ==> at[i] < at[j])
    && (forall i :: 0 <= i < |at| ==>
          && at[i] < |ms| && pairs[i] == ms[at[i]] && ms[at[i]].relationship.Some? && ms[at[i]].winRate.Some?
          && (ms[at[i]].confidence == ProbableCounter || ms[at[i]].confidence == HighConfidenceCounter))
    && (forall j {:trigger j in at} :: 0 <= j < |ms| && ms[j].relationship.Some? && ms[j].winRate.Some? ==>
          (ms[j].confidence == NoSignal || ms[j].confidence == WeakSignal || j in at))
  }

  predicate ListsMode(m: ModeCandidate, brawler: Id) {
    m.brawler == brawler && m.meetsFloor && m.tier.Some?
  }

  lemma {:induction false} ModesOfRows(modes: seq<ModeCandidate>, brawler: Id) returns (at: seq<nat>)
    ensures Picked(modes, m => ListsMode(m, brawler), at) && |at| == |ModesOf(modes, brawler)|
    ensures forall i :: 0 <= i < |at| ==> at[i] < |modes| && ListsMode(modes[at[i]], brawler)
    ensures forall i :: 0 <= i < |at| ==>
        ModesOf(modes, brawler)[i] == (var m := modes[at[i]]; ModeTier(m.mode, m.tier.value, m.score, m.confidence))
  {
    hide Picked;
    if modes == [] {
      at := [];
      assert Picked(modes, m => ListsMode(m, brawler), at) by {
        NothingPicked(modes, m => ListsMode(m, brawler));
      }
    } else {
      hide Onward;
      var rest := ModesOfRows(modes[1..], brawler);
      var head := ListsMode(modes[0], brawler);
      at := Onward(head, rest);
      PickedOnward(modes, m => ListsMode(m, brawler), rest);
    }
  }

  lemma ModesOfAt(modes: seq<ModeCandidate>, brawler: Id)
    ensures exists at :: ModeTiersAt(ModesOf(modes, brawler), brawler, modes, at)
  {
    var at := ModesOfRows(modes, brawler);
    hide ModesOf;
    assert ModeTiersAt(ModesOf(modes, brawler), brawler, modes, at);
  }

  lemma {:induction false} ContentsRows(rows: seq<Candidate>, modes: seq<ModeCandidate>) returns (at: seq<nat>)
    ensures Picked(rows, Publishable, at) && |at| == |Contents(rows, modes)|
    ensures forall i :: 0 <= i < |at| ==>
        at[i] < |rows| && Publishable(rows[at[i]]) && Contents(rows, modes)[i] == ItemOf(rows[at[i]], modes)
  {
    hide ItemOf, Picked;
    if rows == [] {
      at := [];
      NothingPicked(rows, Publishable);
    } else {
      hide Publishable, Onward;
      var rest := ContentsRows(rows[1..], modes);
      at := Onward(Publishable(rows[0]), rest);
      PickedOnward(rows, Publishable, rest);
      var n := if Publishable(rows[0]) then 1 else 0;
      forall i | n <= i < |at|
        ensures Contents(rows, modes)[i] == ItemOf(rows[at[i]], modes)
      {
        assert Contents(rows, modes)[i] == Contents(rows[1..], modes)[i - n];
      }
    }
  }

  lemma ContentsAt(rows: seq<Candidate>, modes: seq<ModeCandidate>)
    ensures exists at :: ItemsAt(Contents(rows, modes), rows, modes, at)
  {
    var at := ContentsRows(rows, modes);
    var items := Contents(rows, modes);
    hide Contents, ModesOf, ModeTiersAt;
    forall i | 0 <= i < |at|
      ensures exists from :: ModeTiersAt(items[i].modes, rows[at[i]].brawler, modes, from)
    {
      ModesOfAt(modes, rows[at[i]].brawler);
    }
    assert ItemsAt(items, rows, modes, at);
  }

  lemma {:induction false} QualifyingRows(ms: seq<MatchupRow>) returns (at: seq<nat>)
    ensures Picked(ms, Qualifies, at) && |at| == |QualifyingPairs(ms)|
    ensures forall i :: 0 <= i < |at| ==> at[i] < |ms| && Qualifies(ms[at[i]]) && QualifyingPairs(ms)[i] == ms[at[i]]
  {
    hide Picked;
    if ms == [] {
      at := [];
      NothingPicked(ms, Qualifies);
    } else {
      hide Qualifies, Onward;
      var rest := QualifyingRows(ms[1..]);
      at := Onward(Qualifies(ms[0]), rest);
      PickedOnward(ms, Qualifies, rest);
      var n := if Qualifies(ms[0]) then 1 else 0;
      forall i | n <= i < |at|
        ensures QualifyingPairs(ms)[i] == ms[at[i]]
      {
        assert QualifyingPairs(ms)[i] == QualifyingPairs(ms[1..])[i - n];
      }
    }
  }

  lemma QualifyingAt(ms: seq<MatchupRow>)
    ensures exists at :: PairsAt(QualifyingPairs(ms), ms, at)
  {
    var at := QualifyingRows(ms);
    hide QualifyingPairs;
    assert PairsAt(QualifyingPairs(ms), ms, at);
  }

  /** `getCurrentSnapshotTierInfo` turned into the lookup by brawler. */
  function ByBrawler(items: seq<Item>): map<Id, Item> {
    if items == [] then map[] else ByBrawler(items[1..])[items[0].brawler := items[0]]
  }

  lemma {:induction false} ContentsByBrawler(rows: seq<Candidate>, modes: seq<ModeCandidate>, r: Candidate)
    requires DistinctBrawlers(rows) && r in rows && Publishable(r)
    ensures r.brawler in ByBrawler(Contents(rows, modes))
    ensures ByBrawler(Contents(rows, modes))[r.brawler] == ItemOf(r, modes)
  {
    var rest := Contents(rows[1..], modes);
    var i :| 0 <= i < |rows| && rows[i] == r;
    if Publishable(rows[0]) {
      var all := Contents(rows, modes);
      assert all[0] == ItemOf(rows[0], modes) && all[1..] == rest;
    } else {
      assert Contents(rows, modes) == rest;
    }
    if i > 0 {
      assert rows[1..][i - 1] == r;
      ContentsByBrawler(rows[1..], modes, r);
      assert rows[0].brawler != r.brawler;
    }
  }

  /** Compared with a snapshot of its own contents, a run has moved nothing and changed nothing. */
  lemma OwnContentsAreUnchanged(rows: seq<Candidate>, modes: seq<ModeCandidate>)
    requires DistinctBrawlers(rows) && TieredIffPublishable(rows)
    ensures var prev := ByBrawler(Contents(rows, modes));
      && TierMoveRatio(prev, Tiered(rows)) == 0.0
      && forall i :: 0 <= i < |Tiered(rows)| ==>
           Tiered(rows)[i].tier.Some? && Tiered(rows)[i].score.Some? && !Changed(prev, Tiered(rows)[i])
  {
    var prev := ByBrawler(Contents(rows, modes));
    var tiered := Tiered(rows);
    TieredRows(rows);
    forall i | 0 <= i < |tiered|
      ensures tiered[i].brawler in prev && prev[tiered[i].brawler] == ItemOf(tiered[i], modes)
    {
      ContentsByBrawler(rows, modes, tiered[i]);
    }
    NothingMoved(prev, tiered);
  }

  lemma {:induction false} NothingMoved(prev: map<Id, Item>, tiered: seq<Candidate>)
    requires forall i :: 0 <= i < |tiered| ==>
               tiered[i].brawler in prev && Some(prev[tiered[i].brawler].tier) == tiered[i].tier
    ensures Moved(prev, tiered) == 0
  {
    if tiered != [] {
      forall i | 0 <= i < |tiered[1..]|
        ensures tiered[1..][i].brawler in prev && Some(prev[tiered[1..][i].brawler].tier) == tiered[1..][i].tier
      {
        assert tiered[1..][i] == tiered[i + 1];
      }
      NothingMoved(prev, tiered[1..]);
    }
  }

  // ----------------------------------------- the decision, read off the rows

  /** `uniq_published_snapshot_items_brawler`. */
  ghost predicate DistinctItems(items: seq<Item>) {
    forall j, k :: 0 <= j < k < |items| ==> items[j].brawler != items[k].brawler
  }

  /** The rows that have a tier. */
  ghost function Ranked(rows: seq<Candidate>): set<nat> {
    set i | 0 <= i < |rows| && rows[i].tier.Some?
  }

  /** The rows with a tier whose brawler the items show with another one. */
  ghost function RankedAnew(items: seq<Item>, rows: seq<Candidate>): set<nat> {
    set i | 0 <= i < |rows| && rows[i].tier.Some?
            && exists k :: 0 <= k < |items| && items[k].brawler == rows[i].brawler && Some(items[k].tier) != rows[i].tier
  }

  /** An item shows the row: same brawler, same tier, and a score at most one point away. */
  ghost predicate Shows(item: Item, r: Candidate) {
    && item.brawler == r.brawler && Some(item.tier) == r.tier
    && r.score.Some? && item.score - 1.0 <= r.score.value <= item.score + 1.0
  }

  lemma {:induction false} LookupIsItem(items: seq<Item>, brawler: Id)
    requires DistinctItems(items)
    ensures brawler in ByBrawler(items) <==> exists k :: 0 <= k < |items| && items[k].brawler == brawler
    ensures forall k :: 0 <= k < |items| && items[k].brawler == brawler ==> ByBrawler(items)[brawler] == items[k]
  {
    if items != [] {
      assert DistinctItems(items[1..]);
      LookupIsItem(items[1..], brawler);
      if k :| 0 <= k < |items[1..]| && items[1..][k].brawler == brawler {
        assert items[k + 1].brawler == brawler;
      }
      forall k | 0 <= k < |items| && items[k].brawler == brawler
        ensures brawler in ByBrawler(items) && ByBrawler(items)[brawler] == items[k]
      {
        if k > 0 {
          assert items[1..][k - 1] == items[k];
        }
      }
    }
  }

  predicate HasMoved(prev: map<Id, Item>, r: Candidate) {
    r.tier.Some? && r.brawler in prev && Some(prev[r.brawler].tier) != r.tier
  }

  lemma {:induction false} TieredCount(prev: map<Id, Item>, rows: seq<Candidate>) returns (ranked: seq<nat>, anew: seq<nat>)
    ensures Picked(rows, (r: Candidate) => r.tier.Some?, ranked) && |ranked| == |Tiered(rows)|
    ensures Picked(rows, r => HasMoved(prev, r), anew) && |anew| == Moved(prev, Tiered(rows))
  {
    hide Picked;
    if rows == [] {
      ranked, anew := [], [];
      NothingPicked(rows, (r: Candidate) => r.tier.Some?);
      NothingPicked(rows, r => HasMoved(prev, r));
    } else {
      var a, b := TieredCount(prev, rows[1..]);
      ranked, anew := Onward(rows[0].tier.Some?, a), Onward(HasMoved(prev, rows[0]), b);
      PickedOnward(rows, (r: Candidate) => r.tier.Some?, a);
      PickedOnward(rows, r => HasMoved(prev, r), b);
      if rows[0].tier.Some? {
        assert Tiered(rows)[0] == rows[0] && Tiered(rows)[1..] == Tiered(rows[1..]);
      } else {
        assert Tiered(rows) == Tiered(rows[1..]);
      }
    }
  }

  /** The move ratio counts rows against the items shown. */
  lemma MovesAreCounted(items: seq<Item>, rows: seq<Candidate>)
    requires DistinctItems(items)
    ensures |Tiered(rows)| == |Ranked(rows)| && Moved(ByBrawler(items), Tiered(rows)) == |RankedAnew(items, rows)|
  {
    var prev := ByBrawler(items);
    var ranked, anew := TieredCount(prev, rows);
    forall i | 0 <= i < |rows|
      ensures HasMoved(prev, rows[i]) <==> i in RankedAnew(items, rows)
    {
      LookupIsItem(items, rows[i].brawler);
    }
    hide ByBrawler, Tiered, Moved;
    PickedSize(rows, (r: Candidate) => r.tier.Some?, ranked, Ranked(rows));
    PickedSize(rows, r => HasMoved(prev, r), anew, RankedAnew(items, rows));
  }
}
