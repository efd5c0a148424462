/**
 * The workflow lock and its runs under any interleaving of callers: every call first
 * reclaims stale runs (outside the lock), then tries to take the definition's one lock
 * slot, and only as its holder claims, advances or finalizes a run. Calls may crash
 * anywhere; a transaction of a holder commits before its lock expires.
 */
module Workflow {
  import opened Common

  const HELD_LOCK_TTL_MS: int := 15 * 60_000
  const STALE_JOB_MS: int := 15 * 60_000

  datatype Status = Running | Succeeded | SucceededWithWarnings | Failed

  /** A workflow run with the parts of its cursor and of its scoped aggregation runs that matter here. */
  datatype Run = Run(status: Status, startedAt: int, heartbeat: int, hasCursor: bool, finalizing: bool,
      scopes: map<Scope, Status>)

  type Caller = nat

  datatype Lock = Lock(owner: Caller, expiresAt: int)

  /** What a holder decided to commit after reading the running run and its cursor. */
  datatype Decision =
    | Claim | Advance(run: nat, toFinalize: bool) | Finish(run: nat, warnings: nat) | FailMissing(run: nat)

  datatype Stage =
    | Reconciling(stale: seq<nat>)
    | Acquiring
    | Inserting
    | Holding(expiresAt: int)
    | Decided(expiresAt: int, decision: Decision)
    | Releasing
    | Gone

  /** Callers are never reused: each call draws a fresh lock owner id. */
  datatype System = System(runs: seq<Run>, lock: Option<Lock>, now: int, callers: map<Caller, Stage>)

  datatype Action =
    | Begin(who: Caller)
    | ReclaimOne(who: Caller)
    | ClearExpired(who: Caller)
    | Insert(who: Caller)
    | Decide(who: Caller, toFinalize: bool, warnings: nat)
    | Commit(who: Caller, again: bool)
    | Throw(who: Caller)
    | Release(who: Caller)
    | Crash(who: Caller)
    | Tick(ms: nat)

  // -------------------------------------------------------------- statements

  predicate IsStale(r: Run, now: int) {
    r.status == Running && r.heartbeat < now - STALE_JOB_MS
  }

  /** Positions of the stale runs among the first `n`. */
  function StaleRuns(runs: seq<Run>, now: int, n: nat): (ids: seq<nat>)
    requires n <= |runs|
    ensures forall i :: i in ids <==> 0 <= i < n && IsStale(runs[i], now)
  {
    if n == 0 then [] else StaleRuns(runs, now, n - 1) + if IsStale(runs[n - 1], now) then [n - 1] else []
  }

  /** The guarded reclaim: only a run that is still running fails. */
  function Reclaim(runs: seq<Run>, id: nat): seq<Run> {
    if id < |runs| && runs[id].status == Running then runs[id := runs[id].(status := Failed)] else runs
  }

  function WithoutExpired(lock: Option<Lock>, now: int): Option<Lock> {
    if lock.Some? && lock.value.expiresAt < now then None else lock
  }

  /** The newest running run; runs are listed in the order they started. */
  function LatestRunning(runs: seq<Run>): (r: Option<nat>)
    ensures r.Some? ==> r.value < |runs| && runs[r.value].status == Running
    ensures r.None? ==> forall i :: 0 <= i < |runs| ==> runs[i].status != Running
  {
    if runs == [] then None
    else if runs[|runs| - 1].status == Running then Some(|runs| - 1)
    else LatestRunning(runs[..|runs| - 1])
  }

  const FRESH_SCOPES: map<Scope, Status> := map[PerMode := Running, Overall := Running, Matchup := Running]

  /** Each decision is one transaction. */
  function Apply(runs: seq<Run>, d: Decision, now: int): seq<Run> {
    match d
    case Claim => runs + [Run(Running, now, now, true, false, FRESH_SCOPES)]
    case Advance(i, toFinalize) => if i < |runs| then runs[i := runs[i].(heartbeat := now, finalizing := toFinalize)]
        else runs
    case Finish(i, warnings) =>
      if i < |runs| then
        var status := if warnings > 0 then SucceededWithWarnings else Succeeded;
        runs[i := runs[i].(status := status, heartbeat := now,
            scopes := map[PerMode := status, Overall := status, Matchup := status])]
      else runs
    case FailMissing(i) => if i < |runs| then runs[i := runs[i].(status := Failed)] else runs
  }

  function DecisionFor(runs: seq<Run>, toFinalize: bool, warnings: nat): Decision {
    var running := LatestRunning(runs);
    if running.None? then Claim
    else if !runs[running.value].hasCursor then FailMissing(running.value)
    else if runs[running.value].finalizing then Finish(running.value, warnings)
    else Advance(running.value, toFinalize)
  }

  // ------------------------------------------------------------------ system

  predicate At(s: System, who: Caller) {
    who in s.callers
  }

  predicate Enabled(s: System, a: Action) {
    match a
    case Begin(who) => who !in s.callers
    case ReclaimOne(who) => At(s, who) && s.callers[who].Reconciling?
    case ClearExpired(who) => At(s, who) && s.callers[who].Acquiring?
    case Insert(who) => At(s, who) && s.callers[who].Inserting?
    case Decide(who, _, _) => At(s, who) && s.callers[who].Holding?
    case Commit(who, _) => At(s, who) && s.callers[who].Decided? && s.now <= s.callers[who].expiresAt
    case Throw(who) => At(s, who) && (s.callers[who].Holding? || s.callers[who].Decided?)
    case Release(who) => At(s, who) && s.callers[who].Releasing?
    case Crash(who) => At(s, who)
    case Tick(_) => true
  }

  function To(s: System, who: Caller, stage: Stage): System {
    s.(callers := s.callers[who := stage])
  }

  function Next(s: System, a: Action): System
    requires Enabled(s, a)
  {
    match a
    case Begin(who) => To(s, who, Reconciling(StaleRuns(s.runs, s.now, |s.runs|)))
    case ReclaimOne(who) =>
      var stale := s.callers[who].stale;
      if stale == [] then To(s, who, Acquiring)
      else To(s, who, Reconciling(stale[1..])).(runs := Reclaim(s.runs, stale[0]))
    case ClearExpired(who) => To(s, who, Inserting).(lock := WithoutExpired(s.lock, s.now))
    case Insert(who) =>
      if s.lock.Some? then To(s, who, Gone)
      else To(s, who, Holding(s.now + HELD_LOCK_TTL_MS)).(lock := Some(Lock(who, s.now + HELD_LOCK_TTL_MS)))
    case Decide(who, toFinalize, warnings) =>
      To(s, who, Decided(s.callers[who].expiresAt, DecisionFor(s.runs, toFinalize, warnings)))
    case Commit(who, again) =>
      var c := s.callers[who];
      To(s, who, if again then Holding(c.expiresAt) else Releasing).(runs := Apply(s.runs, c.decision, s.now))
    case Throw(who) => To(s, who, Releasing)
    case Release(who) => To(s, who, Gone).(lock := if s.lock.Some? && s.lock.value.owner == who then None else s.lock)
    case Crash(who) => To(s, who, Gone)
    case Tick(ms) => s.(now := s.now + ms)
  }

  ghost predicate Path(states: seq<System>, actions: seq<Action>) {
    && |states| == |actions| + 1
    && forall i :: 0 <= i < |actions| ==> Enabled(states[i], actions[i]) && states[i + 1] == Next(states[i], actions[i])
  }

  // --------------------------------------------------------------- invariant

  predicate Successful(status: Status) {
    status == Succeeded || status == SucceededWithWarnings
  }

  predicate AllScopesSucceeded(r: Run) {
    && PerMode in r.scopes && Successful(r.scopes[PerMode])
    && Overall in r.scopes && Successful(r.scopes[Overall])
    && Matchup in r.scopes && Successful(r.scopes[Matchup])
  }

  predicate RunOk(r: Run) {
    r.hasCursor && (Successful(r.status) ==> AllScopesSucceeded(r))
  }

  predicate AtMostOneRunning(runs: seq<Run>) {
    forall i, j :: 0 <= i < j < |runs| ==> !(runs[i].status == Running && runs[j].status == Running)
  }

  predicate NoneRunning(runs: seq<Run>) {
    forall i :: 0 <= i < |runs| ==> runs[i].status != Running
  }

  function Expiry(c: Stage): Option<int> {
    if c.Holding? || c.Decided? then Some(c.expiresAt) else None
  }

  /** A holder whose lock has not expired owns the active slot; if it read "nothing runs", still nothing runs. */
  predicate HolderOk(s: System, who: Caller)
    requires who in s.callers
  {
    var c := s.callers[who];
    && (Expiry(c).Some? && s.now <= Expiry(c).value ==> s.lock == Some(Lock(who, Expiry(c).value)))
    && (c.Decided? && s.now <= c.expiresAt && c.decision.Claim? ==> NoneRunning(s.runs))
    && (c.Decided? ==> !c.decision.FailMissing?)
  }

  predicate Inv(s: System) {
    && (forall i :: 0 <= i < |s.runs| ==> RunOk(s.runs[i]))
    && AtMostOneRunning(s.runs)
    && (s.lock.Some? ==> s.lock.value.owner in s.callers)
    && (forall who :: who in s.callers ==> HolderOk(s, who))
  }

  lemma CommitKeeps(s: System, who: Caller, again: bool)
    requires Inv(s) && Enabled(s, Commit(who, again))
    ensures Inv(Next(s, Commit(who, again)))
  {
    var s' := Next(s, Commit(who, again));
    var d := s.callers[who].decision;
    assert HolderOk(s, who);
    assert s.lock == Some(Lock(who, s.callers[who].expiresAt));
    forall i | 0 <= i < |s'.runs|
      ensures RunOk(s'.runs[i])
    {
      if d.Finish? && i == d.run {
      } else if i < |s.runs| {
        assert RunOk(s.runs[i]);
      }
    }
    assert forall i :: 0 <= i < |s.runs| ==> (s'.runs[i].status == Running ==> s.runs[i].status == Running);
    forall other | other in s'.callers
      ensures HolderOk(s', other)
    {
      if other != who {
        assert HolderOk(s, other);
      }
    }
  }

  lemma DecideKeeps(s: System, who: Caller, toFinalize: bool, warnings: nat)
    requires Inv(s) && Enabled(s, Decide(who, toFinalize, warnings))
    ensures Inv(Next(s, Decide(who, toFinalize, warnings)))
  {
    var s' := Next(s, Decide(who, toFinalize, warnings));
    assert HolderOk(s, who);
    forall other | other in s'.callers
      ensures HolderOk(s', other)
    {
      if other != who {
        assert HolderOk(s, other);
      }
    }
  }

  lemma ReclaimKeeps(s: System, who: Caller)
    requires Inv(s) && Enabled(s, ReclaimOne(who))
    ensures Inv(Next(s, ReclaimOne(who)))
  {
    var s' := Next(s, ReclaimOne(who));
    assert |s'.runs| == |s.runs| && forall i :: 0 <= i < |s.runs| ==>
      s'.runs[i] == s.runs[i] || s'.runs[i] == s.runs[i].(status := Failed);
    forall other | other in s'.callers
      ensures HolderOk(s', other)
    {
      if other != who {
        assert HolderOk(s, other);
      }
    }
  }

  lemma LockStepKeeps(s: System, a: Action)
    requires Inv(s) && Enabled(s, a)
    requires a.Begin? || a.ClearExpired? || a.Insert? || a.Throw? || a.Release? || a.Crash? || a.Tick?
    ensures Inv(Next(s, a))
  {
    var s' := Next(s, a);
    forall other | other in s'.callers
      ensures HolderOk(s', other)
    {
      if other in s.callers {
        assert HolderOk(s, other);
      }
    }
  }

  lemma NextKeeps(s: System, a: Action)
    requires Inv(s) && Enabled(s, a)
    ensures Inv(Next(s, a))
  {
    match a
    case Commit(who, again) => CommitKeeps(s, who, again);
    case Decide(who, toFinalize, warnings) => DecideKeeps(s, who, toFinalize, warnings);
    case ReclaimOne(who) => ReclaimKeeps(s, who);
    case _ => LockStepKeeps(s, a);
  }

  // --------------------------------------------- what the ranking job reads

  predicate Newest(runs: seq<Run>, i: nat) {
    && i < |runs| && Successful(runs[i].status)
    && forall k :: 0 <= k < |runs| && Successful(runs[k].status) ==> runs[k].startedAt <= runs[i].startedAt
  }

  /**
   * `getLatestSuccessfulAggregation`, for whichever newest successful run the query returns:
   * present only with all three scopes.
   */
  predicate Usable(runs: seq<Run>, i: nat) {
    Newest(runs, i) && AllScopesSucceeded(runs[i])
  }

  predicate SomeSuccess(runs: seq<Run>) {
    exists i :: 0 <= i < |runs| && Successful(runs[i].status)
  }

  /** Successful runs stay successful, with their scopes: the two reads of the query need no common transaction. */
  lemma SuccessIsStable(s: System, a: Action, i: nat)
    requires Inv(s) && Enabled(s, a) && i < |s.runs| && Successful(s.runs[i].status)
    ensures i < |Next(s, a).runs| && Successful(Next(s, a).runs[i].status) && AllScopesSucceeded(Next(s, a).runs[i])
  {
    NextKeeps(s, a);
    assert RunOk(s.runs[i]);
    if a.Commit? {
      assert HolderOk(s, a.who);
    }
    assert RunOk(Next(s, a).runs[i]);
  }

  lemma {:induction false} InvAlong(states: seq<System>, actions: seq<Action>)
    requires Path(states, actions) && Inv(states[0])
    ensures forall i :: 0 <= i < |states| ==> Inv(states[i])
  {
    var i := 0;
    while i < |actions|
      invariant 0 <= i <= |actions|
      invariant forall k :: 0 <= k <= i ==> Inv(states[k])
    {
      NextKeeps(states[i], actions[i]);
      i := i + 1;
    }
  }

  // ------------------------------------------------------------ main results

  /** A run that has succeeded, with warnings or without, has a succeeded run in each of the three scopes. */
  ghost predicate CompleteIfDone(r: Run) {
    r.status == Succeeded || r.status == SucceededWithWarnings ==>
      forall scope :: scope in {PerMode, Overall, Matchup} ==>
        scope in r.scopes && (r.scopes[scope] == Succeeded || r.scopes[scope] == SucceededWithWarnings)
  }

  /**
   * Over every interleaving of callers, crashes and stale reclaims: at most one run is
   * running; and whichever newest successful run the ranking job picks has all three
   * scopes complete, so once any aggregation succeeded the ranking job never lacks one.
   */
  lemma {:induction false} OneRunAndCompleteScopes(states: seq<System>, actions: seq<Action>)
    requires Path(states, actions) && states[0] == System([], None, states[0].now, map[])
    ensures forall i :: 0 <= i < |states| ==>
      && AtMostOneRunning(states[i].runs)
      && (forall k: nat :: Newest(states[i].runs, k) ==> Usable(states[i].runs, k))
    ensures forall i, j :: 0 <= i <= j < |states| && SomeSuccess(states[i].runs) ==> SomeSuccess(states[j].runs)
    ensures forall i, a, b :: 0 <= i < |states| && 0 <= a < b < |states[i].runs| ==>
        states[i].runs[a].status != Running || states[i].runs[b].status != Running
    ensures forall i, k :: 0 <= i < |states| && 0 <= k < |states[i].runs| ==> CompleteIfDone(states[i].runs[k])
  {
    InvAlong(states, actions);
    forall i, k | 0 <= i < |states| && 0 <= k < |states[i].runs|
      ensures CompleteIfDone(states[i].runs[k])
    {
      assert RunOk(states[i].runs[k]);
    }
    forall i, k: nat | 0 <= i < |states| && Newest(states[i].runs, k)
      ensures Usable(states[i].runs, k)
    {
      assert RunOk(states[i].runs[k]);
    }
    forall i, j | 0 <= i <= j < |states| && SomeSuccess(states[i].runs)
      ensures SomeSuccess(states[j].runs)
    {
      StaysUsable(states, actions, i, j);
    }
  }

  lemma {:induction false} StaysUsable(states: seq<System>, actions: seq<Action>, i: nat, j: nat)
    requires Path(states, actions) && i <= j < |states| && (forall k :: 0 <= k < |states| ==> Inv(states[k]))
    requires SomeSuccess(states[i].runs)
    ensures SomeSuccess(states[j].runs)
    decreases j - i
  {
    if i < j {
      var k :| 0 <= k < |states[i].runs| && Successful(states[i].runs[k].status);
      SuccessIsStable(states[i], actions[i], k);
      StaysUsable(states, actions, i + 1, j);
    }
  }

  /** A claimed run always has its cursor: the "missing cursor" failure is unreachable. */
  lemma CursorIsNeverMissing(s: System, who: Caller, toFinalize: bool, warnings: nat)
    requires Inv(s) && Enabled(s, Decide(who, toFinalize, warnings))
    ensures !Next(s, Decide(who, toFinalize, warnings)).callers[who].decision.FailMissing?
  {
    var running := LatestRunning(s.runs);
    if running.Some? {
      assert RunOk(s.runs[running.value]);
    }
  }

  /** Some interleaving from the empty tables leads here. */
  ghost predicate Reachable(s: System) {
    exists states, actions :: Path(states, actions) && states[0] == System([], None, 0, map[]) && states[|actions|] == s
  }

  lemma ReachableStep(s: System, a: Action)
    requires Reachable(s) && Enabled(s, a)
    ensures Reachable(Next(s, a))
  {
    var states, actions :| Path(states, actions) && states[0] == System([], None, 0, map[]) && states[|actions|] == s;
    assert Path(states + [Next(s, a)], actions + [a]);
  }

  /** An undisturbed call that finds the lock free, up to holding it. */
  lemma ReachHolding(s: System, who: Caller)
    requires Reachable(s) && who !in s.callers && s.lock.None? && StaleRuns(s.runs, s.now, |s.runs|) == []
    ensures var e := s.now + HELD_LOCK_TTL_MS;
      Reachable(System(s.runs, Some(Lock(who, e)), s.now, s.callers[who := Holding(e)]))
  {
    hide Reachable, StaleRuns;
    var s1 := Next(s, Begin(who));
    ReachableStep(s, Begin(who));
    var s2 := Next(s1, ReclaimOne(who));
    ReachableStep(s1, ReclaimOne(who));
    var s3 := Next(s2, ClearExpired(who));
    ReachableStep(s2, ClearExpired(who));
    ReachableStep(s3, Insert(who));
    var e := s.now + HELD_LOCK_TTL_MS;
    assert Next(s3, Insert(who)) == System(s.runs, Some(Lock(who, e)), s.now, s.callers[who := Holding(e)]);
  }

  lemma Via(s: System, a: Action, t: System)
    requires Reachable(s) && Enabled(s, a) && Next(s, a) == t
    ensures Reachable(t)
  {
    ReachableStep(s, a);
  }

  /** A run of one call, started and brought to its finalize phase at time 0. */
  lemma ReachFinalizing(run: Run)
    requires run == Run(Running, 0, 0, true, true, FRESH_SCOPES)
    ensures Reachable(System([run], None, 0, map[1 := Gone]))
  {
    var s0 := System([], None, 0, map[]);
    assert Path([s0], []);
    assert Reachable(s0);
    hide Reachable, Path;
    ReachHolding(s0, 1);
    var e := HELD_LOCK_TTL_MS;
    var lock, start := Some(Lock(1, e)), run.(finalizing := false);
    var s1 := System([], lock, 0, map[1 := Holding(e)]);
    assert s1 == System(s0.runs, lock, 0, s0.callers[1 := Holding(e)]);
    var s2 := System([], lock, 0, map[1 := Decided(e, Claim)]);
    Via(s1, Decide(1, true, 0), s2);
    var s3 := System([start], lock, 0, map[1 := Holding(e)]);
    assert Apply([], Claim, 0) == [start];
    Via(s2, Commit(1, true), s3);
    FinishFirstRun(start, lock, e);
  }

  lemma FinishFirstRun(start: Run, lock: Option<Lock>, e: int)
    requires start == Run(Running, 0, 0, true, false, FRESH_SCOPES) && lock == Some(Lock(1, e)) && e >= 0
    requires Reachable(System([start], lock, 0, map[1 := Holding(e)]))
    ensures Reachable(System([start.(finalizing := true)], None, 0, map[1 := Gone]))
  {
    hide Reachable, Path;
    var run := start.(finalizing := true);
    var s3 := System([start], lock, 0, map[1 := Holding(e)]);
    var s4 := System([start], lock, 0, map[1 := Decided(e, Advance(0, true))]);
    Via(s3, Decide(1, true, 0), s4);
    assert Apply([start], Advance(0, true), 0) == [run];
    var s5 := System([run], lock, 0, map[1 := Releasing]);
    Via(s4, Commit(1, false), s5);
    Via(s5, Release(1), System([run], None, 0, map[1 := Gone]));
  }

  /** A second call holds the lock, has decided to finalize, and takes its time. */
  lemma ReachSlowHolder(run: Run, e: int, now: int)
    requires run == Run(Running, 0, 0, true, true, FRESH_SCOPES)
    requires e == 10 + HELD_LOCK_TTL_MS && now == 5 + HELD_LOCK_TTL_MS
    ensures Reachable(System([run], Some(Lock(2, e)), now, map[1 := Gone, 2 := Decided(e, Finish(0, 0))]))
  {
    hide Reachable, Path;
    ReachFinalizing(run);
    var t1 := System([run], None, 10, map[1 := Gone]);
    Via(System([run], None, 0, map[1 := Gone]), Tick(10), t1);
    assert StaleRuns(t1.runs, 10, 1) == [];
    ReachHolding(t1, 2);
    var t2 := System([run], Some(Lock(2, e)), 10, map[1 := Gone, 2 := Holding(e)]);
    assert t2.callers == t1.callers[2 := Holding(e)];
    var t3 := System([run], Some(Lock(2, e)), 10, map[1 := Gone, 2 := Decided(e, Finish(0, 0))]);
    Via(t2, Decide(2, true, 0), t3);
    Via(t3, Tick(HELD_LOCK_TTL_MS - 5), t3.(now := now));
  }

  /**
   * Reclaiming is not the last word: the reclaim runs outside the lock and completing a run
   * does not look at its status, so a holder that had decided to finalize turns a run
   * already marked failed into a successful one.
   */
  lemma ReclaimedRunCanSucceed()
    ensures exists s, who ::
      && Reachable(s) && |s.runs| == 1 && s.runs[0].status == Failed
      && Enabled(s, Commit(who, false)) && Next(s, Commit(who, false)).runs[0].status == Succeeded
  {
    hide Reachable, Path;
    var run := Run(Running, 0, 0, true, true, FRESH_SCOPES);
    var e, now := 10 + HELD_LOCK_TTL_MS, 5 + HELD_LOCK_TTL_MS;
    ReachSlowHolder(run, e, now);
    var callers: map<Caller, Stage> := map[1 := Gone, 2 := Decided(e, Finish(0, 0))];
    var t4 := System([run], Some(Lock(2, e)), now, callers);
    assert StaleRuns(t4.runs, now, 1) == [0];
    var t5 := t4.(callers := callers[3 := Reconciling([0])]);
    Via(t4, Begin(3), t5);
    var t6 := Next(t5, ReclaimOne(3));
    ReachableStep(t5, ReclaimOne(3));
    assert t6.runs == [run.(status := Failed)] && t6.callers[2] == Decided(e, Finish(0, 0));
    assert Enabled(t6, Commit(2, false)) && Next(t6, Commit(2, false)).runs[0].status == Succeeded;
  }

  /** A caller that decided to complete `i` and whose lock has not expired yet. */
  predicate MayFinish(s: System, who: Caller, i: nat) {
    && who in s.callers && s.callers[who].Decided? && s.now <= s.callers[who].expiresAt
    && s.callers[who].decision.Finish? && s.callers[who].decision.run == i
  }

  ghost predicate FinishPending(s: System, i: nat) {
    exists who :: MayFinish(s, who, i)
  }

  ghost predicate StaysFailed(s: System, i: nat) {
    forall states: seq<System>, actions: seq<Action> :: Path(states, actions) && states[0] == s ==>
      forall k :: 0 <= k < |states| ==> i < |states[k].runs| && states[k].runs[i].status == Failed
  }

  /** Decisions pick running runs only, so no new completion of a failed run can arise. */
  lemma FailedStep(s: System, a: Action, i: nat)
    requires Inv(s) && Enabled(s, a) && i < |s.runs| && s.runs[i].status == Failed && !FinishPending(s, i)
    ensures var t := Next(s, a); i < |t.runs| && t.runs[i].status == Failed && !FinishPending(t, i)
  {
    var t := Next(s, a);
    if a.Commit? {
      assert HolderOk(s, a.who) && !MayFinish(s, a.who, i);
    }
    forall who
      ensures !MayFinish(t, who, i)
    {
      assert !MayFinish(s, who, i);
    }
  }

  lemma {:induction false} FailedAlong(states: seq<System>, actions: seq<Action>, i: nat)
    requires Path(states, actions) && Inv(states[0])
    requires i < |states[0].runs| && states[0].runs[i].status == Failed && !FinishPending(states[0], i)
    ensures forall k :: 0 <= k < |states| ==> i < |states[k].runs| && states[k].runs[i].status == Failed
  {
    hide FinishPending;
    var n := 0;
    while n < |actions|
      invariant 0 <= n <= |actions|
      invariant Inv(states[n]) && !FinishPending(states[n], i)
      invariant forall k :: 0 <= k <= n ==> i < |states[k].runs| && states[k].runs[i].status == Failed
    {
      NextKeeps(states[n], actions[n]);
      FailedStep(states[n], actions[n], i);
      n := n + 1;
    }
  }

  /**
   * Exactly when a failed run is final: on every path from here it stays failed if and only if
   * no caller under an unexpired lock has already decided to complete it.
   */
  lemma FailedIsFinalIff(s: System, i: nat)
    requires Inv(s) && i < |s.runs| && s.runs[i].status == Failed
    ensures StaysFailed(s, i) <==> !FinishPending(s, i)
  {
    if FinishPending(s, i) {
      var who :| MayFinish(s, who, i);
      var a := Commit(who, false);
      var states, actions := [s, Next(s, a)], [a];
      assert Path(states, actions) && states[1].runs[i].status != Failed;
    } else {
      forall states: seq<System>, actions: seq<Action> | Path(states, actions) && states[0] == s
        ensures forall k :: 0 <= k < |states| ==> i < |states[k].runs| && states[k].runs[i].status == Failed
      {
        FailedAlong(states, actions, i);
      }
    }
  }

  /** What an operator can look at: once the lock row is gone or has expired, a failed run is final. */
  lemma FailedIsFinalOnceLockIsFree(s: System, i: nat)
    requires Inv(s) && i < |s.runs| && s.runs[i].status == Failed
    requires s.lock.None? || s.lock.value.expiresAt < s.now
    ensures StaysFailed(s, i)
  {
    forall who
      ensures !MayFinish(s, who, i)
    {
      if who in s.callers {
        assert HolderOk(s, who);
      }
    }
    FailedIsFinalIff(s, i);
  }

  /**
   * The lock is never lost for good: an undisturbed caller takes it exactly when there is none or
   * its time is up, and then holds it for fifteen minutes; otherwise it leaves it as it is.
   */
  lemma ExpiredLockIsTaken(s: System, who: Caller)
    requires who !in s.callers && (forall i :: 0 <= i < |s.runs| ==> !IsStale(s.runs[i], s.now))
    ensures var s1 := Next(s, Begin(who)); var s2 := Next(s1, ReclaimOne(who)); var s3 := Next(s2, ClearExpired(who));
      && Enabled(s1, ReclaimOne(who)) && Enabled(s2, ClearExpired(who)) && Enabled(s3, Insert(who))
      && var t := Next(s3, Insert(who));
      && t.runs == s.runs
      && if s.lock.None? || s.lock.value.expiresAt < s.now
         then t.lock == Some(Lock(who, s.now + 900_000)) && t.callers[who] == Holding(s.now + 900_000)
         else t.lock == s.lock && t.callers[who] == Gone
  {
    NoneStale(s.runs, s.now);
  }

  lemma NoneStale(runs: seq<Run>, now: int)
    requires forall i :: 0 <= i < |runs| ==> !IsStale(runs[i], now)
    ensures StaleRuns(runs, now, |runs|) == []
  {
    if StaleRuns(runs, now, |runs|) != [] {
      assert StaleRuns(runs, now, |runs|)[0] in StaleRuns(runs, now, |runs|);
    }
  }

  // ------------------------------------------------------------- as it runs

  /** The workflow tables of one definition, as the helper statements change them. */
  class Tables {
    var runs: seq<Run>
    var lock: Option<Lock>

    constructor ()
      ensures runs == [] && lock == None
    {
      runs, lock := [], None;
    }

    method AcquireWorkflowLock(who: Caller, now: int, ttlMs: int) returns (acquired: bool)
      modifies this`lock
      ensures acquired <==> old(lock).None? || old(lock).value.expiresAt < now
      ensures lock == if acquired then Some(Lock(who, now + ttlMs)) else old(lock)
    {
      if lock.Some? && lock.value.expiresAt < now {
        lock := None;
      }
      if lock.Some? {
        return false;
      }
      lock := Some(Lock(who, now + ttlMs));
      return true;
    }

    method ReleaseWorkflowLock(who: Caller)
      modifies this`lock
      ensures lock == if old(lock).Some? && old(lock).value.owner == who then None else old(lock)
    {
      if lock.Some? && lock.value.owner == who {
        lock := None;
      }
    }

    /** Select the stale runs, then fail them one by one; undisturbed, exactly the stale ones fail. */
    method ReconcileStaleWorkflowRuns(now: int) returns (reclaimed: seq<nat>)
      modifies this`runs
      ensures |runs| == |old(runs)|
      ensures forall i :: i in reclaimed <==> 0 <= i < |old(runs)| && IsStale(old(runs)[i], now)
      ensures forall i :: 0 <= i < |runs| ==>
        runs[i] == if old(runs)[i].status == Running && now - old(runs)[i].heartbeat > 900_000
          then old(runs)[i].(status := Failed) else old(runs)[i]
    {
      reclaimed := StaleRuns(runs, now, |runs|);
      var k := 0;
      while k < |reclaimed|
        invariant 0 <= k <= |reclaimed| && |runs| == |old(runs)|
        invariant forall i :: 0 <= i < |runs| ==>
          runs[i] == if i in reclaimed[..k] then old(runs)[i].(status := Failed) else old(runs)[i]
      {
        assert reclaimed[k] in reclaimed;
        assert reclaimed[..k + 1] == reclaimed[..k] + [reclaimed[k]];
        runs := Reclaim(runs, reclaimed[k]);
        k := k + 1;
      }
      assert reclaimed[..k] == reclaimed;
    }
  }
}
