/** Retention eligibility: which runs' child rows may be archived and deleted, and why not. */
module Eligibility {
  import opened Common
  import opened Keyset
  import Sorting

  datatype Status = Succeeded | SucceededWithWarnings | Held | Queued | Running | Retrying | OtherStatus

  datatype AggregationRun = AggregationRun(id: Id, workflow: Id, scope: Scope, status: Status, startedAt: nat)

  datatype RankingRun = RankingRun(
    id: Id, workflow: Id, status: Status, modeRun: Id, overallRun: Id, matchupRun: Id, startedAt: int)

  datatype HoldKind = HoldsAggregation | HoldsRanking | HoldsWorkflow

  datatype Hold = Hold(kind: HoldKind, target: Id)

  /** `published` lists the ranking runs of published snapshots. */
  datatype Inputs = Inputs(
    aggregationRuns: seq<AggregationRun>, rankingRuns: seq<RankingRun>, workflows: map<Id, Status>,
    published: seq<Id>, holds: seq<Hold>)

  datatype Reason =
    | NotSucceeded | HotRecentTriple | ReferencedByRankingRun | ReferencedByPublishedSnapshot | WorkflowNonTerminal
    | RetentionHold | CurrentHeldOrPublished | Within90DayWindow

  predicate Done(s: Status) {
    s == Succeeded || s == SucceededWithWarnings
  }

  predicate NonTerminal(s: Status) {
    s == Queued || s == Running || s == Retrying || s == Held
  }

  // ------------------------------------------------------------- hot triples

  function ScopesOf(runs: seq<AggregationRun>, w: Id): set<Scope> {
    set r | r in runs && r.workflow == w :: r.scope
  }

  predicate AllDone(runs: seq<AggregationRun>, w: Id) {
    forall r :: r in runs && r.workflow == w ==> Done(r.status)
  }

  /** The latest start among a workflow's runs. */
  function Latest(runs: seq<AggregationRun>, w: Id): nat {
    if runs == [] then 0
    else
      var before := Latest(runs[..|runs| - 1], w);
      var r := runs[|runs| - 1];
      if r.workflow == w && r.startedAt > before then r.startedAt else before
  }

  /** A complete triple: all three scopes present and every run of the workflow succeeded. */
  predicate Complete(runs: seq<AggregationRun>, w: Id) {
    AllDone(runs, w) && {Overall, PerMode, Matchup} <= ScopesOf(runs, w)
  }

  function CompleteTriples(runs: seq<AggregationRun>): set<Id> {
    set r | r in runs && Complete(runs, r.workflow) :: r.workflow
  }

  /** Later triples first, equal times by id. */
  predicate Precedes(runs: seq<AggregationRun>, a: Id, b: Id) {
    Latest(runs, a) > Latest(runs, b) || (Latest(runs, a) == Latest(runs, b) && a < b)
  }

  function Ahead(runs: seq<AggregationRun>, w: Id): set<Id> {
    set v | v in CompleteTriples(runs) && Precedes(runs, v, w)
  }

  /** The newest `k` complete triples: those with fewer than `k` complete triples ahead of them. */
  function HotTriples(runs: seq<AggregationRun>, k: nat): set<Id> {
    set w | w in CompleteTriples(runs) && |Ahead(runs, w)| < k
  }

  predicate Ranked(runs: seq<AggregationRun>, s: seq<Id>) {
    forall i, j :: 0 <= i < j < |s| ==> Precedes(runs, s[i], s[j])
  }

  predicate ComesFirst(latest: Id -> nat, a: Id, b: Id) {
    latest(a) > latest(b) || (latest(a) == latest(b) && a < b)
  }

  lemma ComesFirstIsOrder(latest: Id -> nat)
    ensures var before := (a: Id, b: Id) => ComesFirst(latest, a, b); Sorting.StrictWeak(before) && Sorting.Total(before)
  {
  }

  /** `sort` by the comparator of the triples, over the accumulated starts. */
  function SortTriples(latest: Id -> nat, ws: set<Id>): seq<Id> {
    Sorting.Sort((a: Id, b: Id) => ComesFirst(latest, a, b), InOrder(ws))
  }

  lemma SortRanks(runs: seq<AggregationRun>, latest: Id -> nat, ws: set<Id>)
    requires forall w :: w in ws ==> latest(w) == Latest(runs, w)
    ensures Ranked(runs, SortTriples(latest, ws)) && Elements(SortTriples(latest, ws)) == ws
  {
    hide Latest, InOrder;
    var before := (a: Id, b: Id) => ComesFirst(latest, a, b);
    var s := SortTriples(latest, ws);
    InOrderIsAll(ws);
    ComesFirstIsOrder(latest);
    Sorting.SortOrdered(before, InOrder(ws));
    Sorting.SortElements(before, InOrder(ws));
    Sorting.SortKeepsDistinct(before, InOrder(ws));
    forall i, j | 0 <= i < j < |s|
      ensures Precedes(runs, s[i], s[j])
    {
      assert !before(s[j], s[i]) && s[i] != s[j];
      assert s[i] in Elements(s) && s[j] in Elements(s);
    }
  }

  /** In a ranked list of all complete triples, position is the number of triples ahead. */
  lemma RankIsPosition(runs: seq<AggregationRun>, s: seq<Id>, i: nat)
    requires Ranked(runs, s) && Elements(s) == CompleteTriples(runs) && i < |s|
    ensures |Ahead(runs, s[i])| == i
  {
    hide Latest, CompleteTriples;
    forall v
      ensures v in Ahead(runs, s[i]) <==> v in Elements(s[..i])
    {
      if v in Ahead(runs, s[i]) {
        assert v in Elements(s);
        var j :| 0 <= j < |s| && s[j] == v;
        assert j < i;
        assert s[..i][j] == v;
      }
      if v in Elements(s[..i]) {
        var j :| 0 <= j < i && s[j] == v;
        assert s[j] in Elements(s);
      }
    }
    assert Ahead(runs, s[i]) == Elements(s[..i]);
    RankedIsDistinct(runs, s[..i]);
  }

  lemma {:induction false} RankedIsDistinct(runs: seq<AggregationRun>, s: seq<Id>)
    requires Ranked(runs, s)
    ensures |Elements(s)| == |s|
  {
    hide Latest;
    if s != [] {
      var front := s[..|s| - 1];
      RankedIsDistinct(runs, front);
      assert Elements(s) == Elements(front) + {Last(s)};
      assert Last(s) !in front;
    }
  }

  lemma HotArePrefix(runs: seq<AggregationRun>, s: seq<Id>, k: nat)
    requires Ranked(runs, s) && Elements(s) == CompleteTriples(runs)
    ensures HotTriples(runs, k) == Elements(s[..Min(k, |s|)])
  {
    hide Latest, CompleteTriples, Ahead;
    assert Elements(s[..Min(k, |s|)]) <= Elements(s);
    forall w
      ensures w in HotTriples(runs, k) <==> w in Elements(s[..Min(k, |s|)])
    {
      if w in CompleteTriples(runs) {
        assert w in Elements(s);
        var i :| 0 <= i < |s| && s[i] == w;
        RankIsPosition(runs, s, i);
        if i < Min(k, |s|) {
          assert s[..Min(k, |s|)][i] == w;
        }
        if w in Elements(s[..Min(k, |s|)]) {
          var j :| 0 <= j < Min(k, |s|) && s[j] == w;
          RankIsPosition(runs, s, j);
        }
      }
    }
  }

  lemma PrefixPrecedes(runs: seq<AggregationRun>, s: seq<Id>, n: nat, v: Id, w: Id)
    requires Ranked(runs, s) && n <= |s| && v in Elements(s[..n]) && w in Elements(s) && w !in Elements(s[..n])
    ensures Precedes(runs, v, w)
  {
    hide Precedes;
    var i :| 0 <= i < n && s[..n][i] == v;
    assert s == s[..n] + s[n..];
    var j :| 0 <= j < |s| - n && s[n..][j] == w;
    assert Precedes(runs, s[i], s[n + j]);
  }

  /** Hot triples number min(k, complete triples) and come before every other complete triple. */
  lemma HotTriplesAreTheNewest(runs: seq<AggregationRun>, k: nat)
    ensures |HotTriples(runs, k)| == Min(k, |CompleteTriples(runs)|)
    ensures forall v, w :: v in HotTriples(runs, k) && w in CompleteTriples(runs) - HotTriples(runs, k) ==>
        Precedes(runs, v, w)
  {
    hide Latest, CompleteTriples, HotTriples, Precedes;
    var latest := (w: Id) => Latest(runs, w);
    var s := SortTriples(latest, CompleteTriples(runs));
    SortRanks(runs, latest, CompleteTriples(runs));
    HotArePrefix(runs, s, k);
    var n := Min(k, |s|);
    RankedIsDistinct(runs, s);
    RankedIsDistinct(runs, s[..n]);
    forall v, w | v in HotTriples(runs, k) && w in CompleteTriples(runs) - HotTriples(runs, k)
      ensures Precedes(runs, v, w)
    {
      PrefixPrecedes(runs, s, n, v, w);
    }
  }

  // ------------------------------------------- the same, by start times alone

  ghost predicate HasScope(runs: seq<AggregationRun>, w: Id, scope: Scope) {
    exists i :: 0 <= i < |runs| && runs[i].workflow == w && runs[i].scope == scope
  }

  /** Each of the three scopes has a run of the workflow, and every run of it succeeded. */
  ghost predicate FullTriple(runs: seq<AggregationRun>, w: Id) {
    && HasScope(runs, w, PerMode) && HasScope(runs, w, Overall) && HasScope(runs, w, Matchup)
    && (forall i :: 0 <= i < |runs| && runs[i].workflow == w ==>
          runs[i].status == Succeeded || runs[i].status == SucceededWithWarnings)
  }

  /** Some run of `v` started after every run of `w`. */
  ghost predicate StartedAfter(runs: seq<AggregationRun>, v: Id, w: Id) {
    exists i :: 0 <= i < |runs| && runs[i].workflow == v
      && forall j :: 0 <= j < |runs| && runs[j].workflow == w ==> runs[j].startedAt < runs[i].startedAt
  }

  /** Some run of `v` started no earlier than any run of `w`. */
  ghost predicate StartedNoEarlier(runs: seq<AggregationRun>, v: Id, w: Id) {
    exists i :: 0 <= i < |runs| && runs[i].workflow == v
      && forall j :: 0 <= j < |runs| && runs[j].workflow == w ==> runs[j].startedAt <= runs[i].startedAt
  }

  ghost function FullTriples(runs: seq<AggregationRun>): set<Id> {
    set i | 0 <= i < |runs| && FullTriple(runs, runs[i].workflow) :: runs[i].workflow
  }

  /** The complete triples newer than `w`; of two whose last runs started together the smaller id is newer. */
  ghost function Newer(runs: seq<AggregationRun>, w: Id): set<Id> {
    set v | v in FullTriples(runs) && (StartedAfter(runs, v, w) || (StartedNoEarlier(runs, v, w) && v < w))
  }

  /** The hot triples are the k newest: complete ones, as many as there are up to k, and closed under newer. */
  ghost predicate NewestOf(runs: seq<AggregationRun>, k: nat, hot: set<Id>) {
    && hot <= FullTriples(runs) && |hot| == Min(k, |FullTriples(runs)|)
    && (forall v, w :: v in FullTriples(runs) && w in hot && StartedAfter(runs, v, w) ==> v in hot)
    && (forall v, w :: v in FullTriples(runs) && w in hot && StartedNoEarlier(runs, v, w) && v < w ==> v in hot)
  }

  lemma {:induction false} LatestIsGreatest(runs: seq<AggregationRun>, w: Id)
    ensures forall i :: 0 <= i < |runs| && runs[i].workflow == w ==> runs[i].startedAt <= Latest(runs, w)
    ensures (exists i :: 0 <= i < |runs| && runs[i].workflow == w) ==>
        exists i :: 0 <= i < |runs| && runs[i].workflow == w && runs[i].startedAt == Latest(runs, w)
    ensures (forall i :: 0 <= i < |runs| ==> runs[i].workflow != w) ==> Latest(runs, w) == 0
  {
    if runs != [] {
      var n := |runs| - 1;
      var before := runs[..n];
      LatestIsGreatest(before, w);
      if i :| 0 <= i < n && runs[i].workflow == w {
        assert before[i] == runs[i];
        var j :| 0 <= j < n && before[j].workflow == w && before[j].startedAt == Latest(before, w);
        assert runs[j] == before[j];
      }
      forall i | 0 <= i < n && runs[i].workflow == w
        ensures runs[i].startedAt <= Latest(runs, w)
      {
        assert before[i] == runs[i];
      }
    }
  }

  lemma PrecedesByStarts(runs: seq<AggregationRun>, v: Id, w: Id)
    requires exists i :: 0 <= i < |runs| && runs[i].workflow == v
    requires exists i :: 0 <= i < |runs| && runs[i].workflow == w
    ensures StartedAfter(runs, v, w) <==> Latest(runs, v) > Latest(runs, w)
    ensures StartedNoEarlier(runs, v, w) <==> Latest(runs, v) >= Latest(runs, w)
  {
    LatestIsGreatest(runs, v);
    LatestIsGreatest(runs, w);
    hide Latest;
  }

  lemma CompleteIsFull(runs: seq<AggregationRun>, w: Id)
    ensures Complete(runs, w) <==> FullTriple(runs, w)
  {
    if Complete(runs, w) {
      forall scope | scope in {Overall, PerMode, Matchup}
        ensures HasScope(runs, w, scope)
      {
        var r :| r in runs && r.workflow == w && r.scope == scope;
      }
      forall i | 0 <= i < |runs| && runs[i].workflow == w
        ensures runs[i].status == Succeeded || runs[i].status == SucceededWithWarnings
      {
        assert runs[i] in runs;
      }
    }
    if FullTriple(runs, w) {
      forall scope | scope in {Overall, PerMode, Matchup}
        ensures scope in ScopesOf(runs, w)
      {
        assert HasScope(runs, w, scope);
        var i :| 0 <= i < |runs| && runs[i].workflow == w && runs[i].scope == scope;
        assert runs[i] in runs;
      }
    }
  }

  lemma TriplesByStarts(runs: seq<AggregationRun>)
    ensures CompleteTriples(runs) == FullTriples(runs)
    ensures forall w :: w in FullTriples(runs) ==> Ahead(runs, w) == Newer(runs, w)
  {
    hide Complete, FullTriple, Latest, StartedAfter, StartedNoEarlier;
    forall w
      ensures w in CompleteTriples(runs) <==> w in FullTriples(runs)
    {
      CompleteIsFull(runs, w);
      if w in CompleteTriples(runs) {
        var r :| r in runs && r.workflow == w && Complete(runs, r.workflow);
        var i :| 0 <= i < |runs| && runs[i] == r;
      }
      if w in FullTriples(runs) {
        var i :| 0 <= i < |runs| && runs[i].workflow == w && FullTriple(runs, runs[i].workflow);
        assert runs[i] in runs;
      }
    }
    forall w | w in FullTriples(runs)
      ensures Ahead(runs, w) == Newer(runs, w)
    {
      forall v | v in FullTriples(runs)
        ensures Precedes(runs, v, w) <==> StartedAfter(runs, v, w) || (StartedNoEarlier(runs, v, w) && v < w)
      {
        PrecedesByStarts(runs, v, w);
      }
    }
  }

  /** The newest by start times, without a look at how they are found. */
  lemma HotByStarts(runs: seq<AggregationRun>, k: nat)
    ensures NewestOf(runs, k, HotTriples(runs, k))
    ensures forall w :: w in HotTriples(runs, k) <==> w in FullTriples(runs) && |Newer(runs, w)| < k
  {
    HotTriplesAreTheNewest(runs, k);
    TriplesByStarts(runs);
    var hot := HotTriples(runs, k);
    hide Complete, FullTriple, Latest, StartedAfter, StartedNoEarlier, CompleteTriples, FullTriples;
    assert forall w :: w in hot <==> w in FullTriples(runs) && |Newer(runs, w)| < k;
    hide HotTriples, Ahead;
    forall v, w | v in FullTriples(runs) && w in hot && v !in hot
      ensures !StartedAfter(runs, v, w) && (StartedNoEarlier(runs, v, w) ==> v >= w)
    {
      assert Precedes(runs, w, v);
      HasRun(runs, v);
      HasRun(runs, w);
      PrecedesByStarts(runs, v, w);
    }
  }

  lemma HasRun(runs: seq<AggregationRun>, w: Id)
    requires w in FullTriples(runs)
    ensures exists i :: 0 <= i < |runs| && runs[i].workflow == w
  {
  }

  // -------------------------------------------------------------- as it runs

  datatype Entry = Entry(scopes: set<Scope>, allSucceeded: bool, latest: nat)

  /** What the accumulator holds for a workflow after some runs. */
  ghost predicate EntryFor(runs: seq<AggregationRun>, w: Id, e: Entry) {
    e.scopes == ScopesOf(runs, w) && e.allSucceeded == AllDone(runs, w) && e.latest == Latest(runs, w)
  }

  predicate EntryComplete(e: Entry) {
    e.allSucceeded && Overall in e.scopes && PerMode in e.scopes && Matchup in e.scopes
  }

  lemma EntryUpdated(runs: seq<AggregationRun>, r: AggregationRun, w: Id, e: Entry)
    requires EntryFor(runs, w, e)
    ensures EntryFor(runs + [r], w,
      if r.workflow == w
      then Entry(e.scopes + {r.scope}, e.allSucceeded && Done(r.status),
                 if r.startedAt > e.latest then r.startedAt else e.latest)
      else e)
  {
    var runs' := runs + [r];
    assert runs'[..|runs|] == runs;
    assert forall x :: x in runs' <==> x in runs || x == r;
    if r.workflow == w {
      assert ScopesOf(runs', w) == ScopesOf(runs, w) + {r.scope};
      assert r in runs';
    } else {
      assert ScopesOf(runs', w) == ScopesOf(runs, w);
    }
  }

  function Add(byWorkflow: map<Id, Entry>, r: AggregationRun): map<Id, Entry> {
    var e := if r.workflow in byWorkflow then byWorkflow[r.workflow] else Entry({}, true, 0);
    byWorkflow[r.workflow :=
      Entry(e.scopes + {r.scope}, e.allSucceeded && Done(r.status),
            if r.startedAt > e.latest then r.startedAt else e.latest)]
  }

  ghost predicate Accumulated(runs: seq<AggregationRun>, byWorkflow: map<Id, Entry>) {
    && (forall r :: r in runs ==> r.workflow in byWorkflow)
    && (forall w :: w in byWorkflow ==> EntryFor(runs, w, byWorkflow[w]) && exists r :: r in runs && r.workflow == w)
  }

  lemma AddAccumulates(runs: seq<AggregationRun>, byWorkflow: map<Id, Entry>, r: AggregationRun)
    requires Accumulated(runs, byWorkflow)
    ensures Accumulated(runs + [r], Add(byWorkflow, r))
  {
    hide EntryFor, Done;
    var byWorkflow' := Add(byWorkflow, r);
    if r.workflow !in byWorkflow {
      NothingYet(runs, r.workflow);
    }
    assert forall x :: x in runs + [r] <==> x in runs || x == r;
    forall w | w in byWorkflow'
      ensures EntryFor(runs + [r], w, byWorkflow'[w]) && exists x :: x in runs + [r] && x.workflow == w
    {
      EntryUpdated(runs, r, w, if w in byWorkflow then byWorkflow[w] else Entry({}, true, 0));
      if w == r.workflow {
        assert r in runs + [r];
      } else {
        var x :| x in runs && x.workflow == w;
        assert x in runs + [r];
      }
    }
  }

  lemma FilteredIsComplete(runs: seq<AggregationRun>, byWorkflow: map<Id, Entry>)
    requires Accumulated(runs, byWorkflow)
    ensures (set w | w in byWorkflow && EntryComplete(byWorkflow[w])) == CompleteTriples(runs)
  {
    hide Latest;
    forall w | w in byWorkflow
      ensures EntryComplete(byWorkflow[w]) <==> Complete(runs, w)
    {
      assert EntryFor(runs, w, byWorkflow[w]);
    }
    forall w
      ensures w in CompleteTriples(runs) <==> w in byWorkflow && Complete(runs, w)
    {
      if w in byWorkflow && Complete(runs, w) {
        var r :| r in runs && r.workflow == w;
      }
    }
  }

  /** `identifyHotTriples`: one pass to accumulate per workflow, then filter, sort and cut. */
  method IdentifyHotTriples(runs: seq<AggregationRun>, k: nat) returns (hot: set<Id>)
    ensures hot == HotTriples(runs, k)
    ensures NewestOf(runs, k, hot)
  {
    HotByStarts(runs, k);
    hide NewestOf, FullTriples, Newer;
    hide Accumulated, Add, HotTriples, CompleteTriples, EntryComplete, Ranked;
    var byWorkflow: map<Id, Entry> := map[];
    AccumulatedStarts();
    var i := 0;
    while i < |runs|
      invariant 0 <= i <= |runs|
      invariant Accumulated(runs[..i], byWorkflow)
    {
      AddAccumulates(runs[..i], byWorkflow, runs[i]);
      assert runs[..i + 1] == runs[..i] + [runs[i]];
      byWorkflow := Add(byWorkflow, runs[i]);
      i := i + 1;
    }
    assert runs[..i] == runs;
    FilteredIsComplete(runs, byWorkflow);
    var complete := set w | w in byWorkflow && EntryComplete(byWorkflow[w]);
    var latest := (w: Id) => if w in byWorkflow then byWorkflow[w].latest else 0;
    AccumulatedLatest(runs, byWorkflow);
    var sorted := SortTriples(latest, complete);
    SortRanks(runs, latest, complete);
    HotArePrefix(runs, sorted, k);
    hot := Elements(sorted[..Min(k, |sorted|)]);
  }

  lemma AccumulatedLatest(runs: seq<AggregationRun>, byWorkflow: map<Id, Entry>)
    requires Accumulated(runs, byWorkflow)
    ensures forall w :: w in byWorkflow ==> byWorkflow[w].latest == Latest(runs, w)
  {
    assert forall w :: w in byWorkflow ==> EntryFor(runs, w, byWorkflow[w]);
  }

  lemma AccumulatedStarts()
    ensures Accumulated([], map[])
  {
  }

  lemma {:induction false} NothingYet(runs: seq<AggregationRun>, w: Id)
    requires !exists r :: r in runs && r.workflow == w
    ensures EntryFor(runs, w, Entry({}, true, 0))
  {
    if runs != [] {
      var r := runs[|runs| - 1];
      assert r in runs;
      NothingYet(runs[..|runs| - 1], w);
      assert forall x :: x in runs[..|runs| - 1] ==> x in runs;
    }
  }

  // ----------------------------------------------------------- block reasons

  function Lineage(r: RankingRun): set<Id> {
    {r.modeRun, r.overallRun, r.matchupRun}
  }

  function ReferencedByRanking(i: Inputs): set<Id> {
    set r, a | r in i.rankingRuns && a in Lineage(r) :: a
  }

  function PublishedTransitive(i: Inputs): set<Id> {
    set r, a | r in i.rankingRuns && r.id in i.published && a in Lineage(r) :: a
  }

  predicate UnderActiveWorkflow(i: Inputs, w: Id) {
    w in i.workflows && NonTerminal(i.workflows[w])
  }

  function If(condition: bool, reason: Reason): seq<Reason> {
    if condition then [reason] else []
  }

  /** The reasons `computeAggregationEligibility` pushes for one run, in its order. */
  function AggregationReasons(i: Inputs, hot: set<Id>, r: AggregationRun): seq<Reason> {
    If(!Done(r.status), NotSucceeded)
    + If(r.workflow in hot, HotRecentTriple)
    + If(r.id in ReferencedByRanking(i), ReferencedByRankingRun)
    + If(r.id in PublishedTransitive(i), ReferencedByPublishedSnapshot)
    + If(UnderActiveWorkflow(i, r.workflow), WorkflowNonTerminal)
    + If(Hold(HoldsAggregation, r.id) in i.holds || Hold(HoldsWorkflow, r.workflow) in i.holds, RetentionHold)
  }

  predicate AggregationEligible(i: Inputs, k: nat, r: AggregationRun) {
    AggregationReasons(i, HotTriples(i.aggregationRuns, k), r) == []
  }

  /** The start of the newest succeeded ranking run. */
  function NewestSuccess(runs: seq<RankingRun>): Option<int> {
    if runs == [] then None
    else
      var before := NewestSuccess(runs[..|runs| - 1]);
      var r := runs[|runs| - 1];
      if r.status == Succeeded && (before.None? || r.startedAt > before.value) then Some(r.startedAt) else before
  }

  const DAY_MS: int := 24 * 60 * 60 * 1000

  function RankingReasons(i: Inputs, now: int, retentionDays: int, r: RankingRun): seq<Reason> {
    If(r.status != Succeeded, NotSucceeded)
    + If(r.status == Held || r.id in i.published
         || (r.status == Succeeded && NewestSuccess(i.rankingRuns) == Some(r.startedAt)), CurrentHeldOrPublished)
    + If(r.startedAt >= now - retentionDays * DAY_MS, Within90DayWindow)
    + If(UnderActiveWorkflow(i, r.workflow), WorkflowNonTerminal)
    + If(Hold(HoldsRanking, r.id) in i.holds || Hold(HoldsWorkflow, r.workflow) in i.holds, RetentionHold)
  }

  predicate RankingEligible(i: Inputs, now: int, retentionDays: int, r: RankingRun) {
    RankingReasons(i, now, retentionDays, r) == []
  }

  // ------------------------------------------------------------ main results

  lemma {:induction false} NewestSuccessIsMaximal(runs: seq<RankingRun>)
    ensures forall r :: r in runs && r.status == Succeeded ==>
              NewestSuccess(runs).Some? && r.startedAt <= NewestSuccess(runs).value
    ensures NewestSuccess(runs).Some? ==> exists r :: r in runs && r.status == Succeeded && r.startedAt == NewestSuccess(runs).value
  {
    if runs != [] {
      var before, r := runs[..|runs| - 1], runs[|runs| - 1];
      NewestSuccessIsMaximal(before);
      assert runs == before + [r];
      assert r in runs && forall x :: x in before ==> x in runs;
    }
  }

  /** The workflow is known and queued, running, retrying or held. */
  ghost predicate Unfinished(i: Inputs, w: Id) {
    && w in i.workflows
    && (i.workflows[w] == Queued || i.workflows[w] == Running || i.workflows[w] == Retrying || i.workflows[w] == Held)
  }

  ghost predicate RestsOn(q: RankingRun, a: Id) {
    a == q.modeRun || a == q.overallRun || a == q.matchupRun
  }

  lemma Appended(front: seq<Reason>, c: bool, reason: Reason)
    ensures var given := front + If(c, reason);
      && (forall x :: x in given <==> x in front || (c && x == reason))
      && (given == [] <==> front == [] && !c)
  {
  }

  lemma Given(a: bool, b: bool, c: bool, d: bool, e: bool, f: bool)
    ensures var given := If(a, NotSucceeded) + If(b, HotRecentTriple) + If(c, ReferencedByRankingRun)
        + If(d, ReferencedByPublishedSnapshot) + If(e, WorkflowNonTerminal) + If(f, RetentionHold);
      && (NotSucceeded in given <==> a) && (HotRecentTriple in given <==> b) && (ReferencedByRankingRun in given <==> c)
      && (ReferencedByPublishedSnapshot in given <==> d) && (WorkflowNonTerminal in given <==> e)
      && (RetentionHold in given <==> f) && (given == [] <==> !a && !b && !c && !d && !e && !f)
  {
    var one := If(a, NotSucceeded);
    var two := one + If(b, HotRecentTriple);
    var three := two + If(c, ReferencedByRankingRun);
    var four := three + If(d, ReferencedByPublishedSnapshot);
    Appended(one, b, HotRecentTriple);
    Appended(two, c, ReferencedByRankingRun);
    Appended(three, d, ReferencedByPublishedSnapshot);
    Appended(four, e, WorkflowNonTerminal);
    Appended(four + If(e, WorkflowNonTerminal), f, RetentionHold);
  }

  lemma GivenForRanking(a: bool, b: bool, c: bool, d: bool, e: bool)
    ensures var given := If(a, NotSucceeded) + If(b, CurrentHeldOrPublished) + If(c, Within90DayWindow)
        + If(d, WorkflowNonTerminal) + If(e, RetentionHold);
      && (NotSucceeded in given <==> a) && (CurrentHeldOrPublished in given <==> b) && (Within90DayWindow in given <==> c)
      && (WorkflowNonTerminal in given <==> d) && (RetentionHold in given <==> e)
      && (given == [] <==> !a && !b && !c && !d && !e)
  {
    var one := If(a, NotSucceeded);
    var two := one + If(b, CurrentHeldOrPublished);
    var three := two + If(c, Within90DayWindow);
    Appended(one, b, CurrentHeldOrPublished);
    Appended(two, c, Within90DayWindow);
    Appended(three, d, WorkflowNonTerminal);
    Appended(three + If(d, WorkflowNonTerminal), e, RetentionHold);
  }

  lemma ReferencesMean(i: Inputs, a: Id)
    ensures a in ReferencedByRanking(i) <==> exists q :: q in i.rankingRuns && RestsOn(q, a)
    ensures a in PublishedTransitive(i) <==> exists q :: q in i.rankingRuns && q.id in i.published && RestsOn(q, a)
  {
    forall q
      ensures RestsOn(q, a) <==> a in Lineage(q)
    {
    }
    hide Lineage, RestsOn;
    if q :| q in i.rankingRuns && RestsOn(q, a) {
      assert a in Lineage(q);
    }
    if q :| q in i.rankingRuns && q.id in i.published && RestsOn(q, a) {
      assert a in Lineage(q);
    }
  }

  /** Each reason is given exactly when it holds, for an aggregation run; with none the run is eligible. */
  lemma AggregationReasonsMean(i: Inputs, k: nat, r: AggregationRun)
    ensures var given := AggregationReasons(i, HotTriples(i.aggregationRuns, k), r);
      && (NotSucceeded in given <==> r.status != Succeeded && r.status != SucceededWithWarnings)
      && (HotRecentTriple in given <==>
            r.workflow in FullTriples(i.aggregationRuns) && |Newer(i.aggregationRuns, r.workflow)| < k)
      && (ReferencedByRankingRun in given <==> exists q :: q in i.rankingRuns && RestsOn(q, r.id))
      && (ReferencedByPublishedSnapshot in given <==> exists q :: q in i.rankingRuns && q.id in i.published && RestsOn(q, r.id))
      && (WorkflowNonTerminal in given <==> Unfinished(i, r.workflow))
      && (RetentionHold in given <==> (Hold(HoldsAggregation, r.id) in i.holds || Hold(HoldsWorkflow, r.workflow) in i.holds))
      && (AggregationEligible(i, k, r) <==>
            NotSucceeded !in given && HotRecentTriple !in given && ReferencedByRankingRun !in given
            && ReferencedByPublishedSnapshot !in given && WorkflowNonTerminal !in given && RetentionHold !in given)
  {
    var hot := HotTriples(i.aggregationRuns, k);
    HotByStarts(i.aggregationRuns, k);
    ReferencesMean(i, r.id);
    Given(!Done(r.status), r.workflow in hot, r.id in ReferencedByRanking(i), r.id in PublishedTransitive(i),
          UnderActiveWorkflow(i, r.workflow), Hold(HoldsAggregation, r.id) in i.holds || Hold(HoldsWorkflow, r.workflow) in i.holds);
    hide If, HotTriples, FullTriples, Newer, NewestOf, ReferencedByRanking, PublishedTransitive, RestsOn;
  }

  /** Each reason is given exactly when it holds, for a ranking run; with none the run is eligible. */
  lemma RankingReasonsMean(i: Inputs, now: int, days: int, r: RankingRun)
    requires r in i.rankingRuns
    ensures var given := RankingReasons(i, now, days, r);
      && (NotSucceeded in given <==> r.status != Succeeded)
      && (CurrentHeldOrPublished in given <==> (r.status == Held || r.id in i.published || (r.status == Succeeded
            && forall q :: q in i.rankingRuns && q.status == Succeeded ==> q.startedAt <= r.startedAt)))
      && (Within90DayWindow in given <==> now - r.startedAt <= days * 86_400_000)
      && (WorkflowNonTerminal in given <==> Unfinished(i, r.workflow))
      && (RetentionHold in given <==> (Hold(HoldsRanking, r.id) in i.holds || Hold(HoldsWorkflow, r.workflow) in i.holds))
      && (RankingEligible(i, now, days, r) <==>
            NotSucceeded !in given && CurrentHeldOrPublished !in given && Within90DayWindow !in given
            && WorkflowNonTerminal !in given && RetentionHold !in given)
  {
    NewestSuccessIsMaximal(i.rankingRuns);
    GivenForRanking(r.status != Succeeded,
                    r.status == Held || r.id in i.published || (r.status == Succeeded && NewestSuccess(i.rankingRuns) == Some(r.startedAt)),
                    r.startedAt >= now - days * DAY_MS, UnderActiveWorkflow(i, r.workflow),
                    Hold(HoldsRanking, r.id) in i.holds || Hold(HoldsWorkflow, r.workflow) in i.holds);
    hide NewestSuccess, If;
  }

  /**
   * An eligible aggregation run has succeeded, belongs to none of the k newest complete triples, is
   * not held, has no unfinished workflow, and no ranking run at all rests on it.
   */
  lemma AggregationEligibleMeans(i: Inputs, k: nat, r: AggregationRun)
    ensures AggregationEligible(i, k, r) <==>
            && (r.status == Succeeded || r.status == SucceededWithWarnings)
            && !(r.workflow in FullTriples(i.aggregationRuns) && |Newer(i.aggregationRuns, r.workflow)| < k)
            && (forall q :: q in i.rankingRuns ==> !RestsOn(q, r.id))
            && !Unfinished(i, r.workflow)
            && Hold(HoldsAggregation, r.id) !in i.holds && Hold(HoldsWorkflow, r.workflow) !in i.holds
  {
    AggregationReasonsMean(i, k, r);
    hide AggregationReasons, FullTriples, Newer, Unfinished, RestsOn;
  }

  /**
   * An eligible ranking run has succeeded, is neither published nor the newest success, lies before
   * the retention window, is not held, and has no unfinished workflow.
   */
  lemma RankingEligibleMeans(i: Inputs, now: int, days: int, r: RankingRun)
    requires r in i.rankingRuns
    ensures RankingEligible(i, now, days, r) <==>
            && r.status == Succeeded && r.id !in i.published
            && (exists q :: q in i.rankingRuns && q.status == Succeeded && q.startedAt > r.startedAt)
            && now - r.startedAt > days * 86_400_000
            && !Unfinished(i, r.workflow)
            && Hold(HoldsRanking, r.id) !in i.holds && Hold(HoldsWorkflow, r.workflow) !in i.holds
  {
    RankingReasonsMean(i, now, days, r);
    hide RankingReasons, Unfinished;
  }

  /** The other complete triples with a run that started no earlier than any run of `w`. */
  ghost function AtLeastAsNew(runs: seq<AggregationRun>, w: Id): set<Id> {
    set v | v in FullTriples(runs) && v != w && StartedNoEarlier(runs, v, w)
  }

  /**
   * Lineage: nothing a published snapshot rests on is ever eligible, neither its ranking
   * run nor that run's aggregation runs; nor is any run of a complete triple that fewer than
   * `k` others match in start time; nor any newest succeeded ranking run, nor a run inside
   * the retention window.
   */
  lemma LineageIsProtected(i: Inputs, k: nat, now: int, days: int, q: RankingRun, r: AggregationRun)
    requires q in i.rankingRuns && r in i.aggregationRuns
    ensures q.id in i.published ==> !RankingEligible(i, now, days, q)
    ensures q.id in i.published && RestsOn(q, r.id) ==> !AggregationEligible(i, k, r)
    ensures FullTriple(i.aggregationRuns, r.workflow) && |AtLeastAsNew(i.aggregationRuns, r.workflow)| < k ==>
        !AggregationEligible(i, k, r)
    ensures q.status == Succeeded && (forall p :: p in i.rankingRuns && p.status == Succeeded ==>
        p.startedAt <= q.startedAt) ==>
              !RankingEligible(i, now, days, q)
    ensures now - q.startedAt <= days * 86_400_000 ==> !RankingEligible(i, now, days, q)
  {
    AggregationEligibleMeans(i, k, r);
    RankingEligibleMeans(i, now, days, q);
    hide AggregationEligible, RankingEligible, FullTriple;
    var runs, w := i.aggregationRuns, r.workflow;
    if FullTriple(runs, w) && |AtLeastAsNew(runs, w)| < k {
      var n :| 0 <= n < |runs| && runs[n] == r;
      assert w in FullTriples(runs);
      NewerIsAtLeastAsNew(runs, w);
    }
  }

  lemma NewerIsAtLeastAsNew(runs: seq<AggregationRun>, w: Id)
    requires w in FullTriples(runs)
    ensures |Newer(runs, w)| <= |AtLeastAsNew(runs, w)|
  {
    hide FullTriple;
    HasRun(runs, w);
    forall v | v in Newer(runs, w)
      ensures v in AtLeastAsNew(runs, w)
    {
      HasRun(runs, v);
      PrecedesByStarts(runs, v, w);
    }
    SubsetSize(Newer(runs, w), AtLeastAsNew(runs, w));
  }

  ghost predicate MoreProtected(i: Inputs, j: Inputs) {
    && j.aggregationRuns == i.aggregationRuns && j.rankingRuns == i.rankingRuns && j.workflows == i.workflows
    && (forall p :: p in i.published ==> p in j.published)
    && (forall h :: h in i.holds ==> h in j.holds)
  }

  /** Placing holds or publishing snapshots never makes a run eligible. */
  lemma ProtectionIsMonotone(i: Inputs, j: Inputs, k: nat, now: int, days: int)
    requires MoreProtected(i, j)
    ensures forall r :: AggregationEligible(j, k, r) ==> AggregationEligible(i, k, r)
    ensures forall q :: RankingEligible(j, now, days, q) ==> RankingEligible(i, now, days, q)
  {
    forall r | AggregationEligible(j, k, r)
      ensures AggregationEligible(i, k, r)
    {
      AggregationEligibleMeans(i, k, r);
      AggregationEligibleMeans(j, k, r);
    }
  }

  /** Raising `k` only protects more triples. */
  lemma MoreHotProtectsMore(i: Inputs, k: nat, k': nat, r: AggregationRun)
    requires k <= k' && AggregationEligible(i, k', r)
    ensures AggregationEligible(i, k, r)
  {
    AggregationEligibleMeans(i, k, r);
    AggregationEligibleMeans(i, k', r);
  }
}
