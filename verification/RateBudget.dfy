/**
 * Rate budgets: any number of callers share one row, each reading it, possibly resetting an
 * expired window by compare-and-set, then taking a slot by a conditional increment.
 */
module RateBudget {
  import opened Common

  /** The row's live part; times are milliseconds of one clock. */
  datatype Row = Row(used: nat, startedAt: int)

  /** Fixed configuration: ceiling, part reserved for priority callers, window length. */
  datatype Config = Config(ceiling: nat, reserved: nat, window: nat)

  // -------------------------------------------------------- the two statements

  function ResetIfExpired(c: Config, row: Row, read: int, now: int): Row {
    if now < read + c.window || row.startedAt != read then row else Row(0, now)
  }

  function EffectiveCeiling(c: Config, priority: bool): int {
    if priority then c.ceiling else c.ceiling - c.reserved
  }

  function Increment(c: Config, row: Row, priority: bool): (Row, bool) {
    if row.used < EffectiveCeiling(c, priority) then (row.(used := row.used + 1), true) else (row, false)
  }

  // ------------------------------------------------------------------ system

  type Caller = nat

  /** A caller between two of its statements. */
  datatype Phase = HasRead(startedAt: int, priority: bool) | MayConsume(priority: bool)

  /** A granted slot: when, in which window, for whom. */
  datatype Grant = Grant(time: int, window: int, priority: bool)

  /** `grants` and `starts` are the history: every slot granted, every window opened. */
  datatype System = System(row: Row, now: int, callers: map<Caller, Phase>, grants: seq<Grant>, starts: seq<int>)

  datatype Action =
    | Read(who: Caller, priority: bool)
    | Reset(who: Caller)
    | Consume(who: Caller)
    | Vanish(who: Caller)
    | Tick(ms: nat)

  predicate Enabled(s: System, a: Action) {
    match a
    case Read(who, _) => who !in s.callers
    case Reset(who) => who in s.callers && s.callers[who].HasRead?
    case Consume(who) => who in s.callers && s.callers[who].MayConsume?
    case Vanish(who) => who in s.callers
    case Tick(_) => true
  }

  function Next(c: Config, s: System, a: Action): System
    requires Enabled(s, a)
  {
    match a
    case Read(who, priority) => s.(callers := s.callers[who := HasRead(s.row.startedAt, priority)])
    case Reset(who) =>
      var p := s.callers[who];
      var row := ResetIfExpired(c, s.row, p.startedAt, s.now);
      s.(row := row, callers := s.callers[who := MayConsume(p.priority)],
          starts := if row == s.row then s.starts else s.starts + [s.now])
    case Consume(who) =>
      var p := s.callers[who];
      var (row, allowed) := Increment(c, s.row, p.priority);
      s.(row := row, callers := s.callers - {who},
          grants := if allowed then s.grants + [Grant(s.now, s.row.startedAt, p.priority)] else s.grants)
    case Vanish(who) => s.(callers := s.callers - {who})
    case Tick(ms) => s.(now := s.now + ms)
  }

  ghost predicate Path(c: Config, states: seq<System>, actions: seq<Action>) {
    && |states| == |actions| + 1
    && forall i :: 0 <= i < |actions| ==> Enabled(states[i], actions[i]) && states[i + 1] == Next(c, states[i], actions[i])
  }

  /** A freshly seeded budget: empty window, nobody at work. */
  predicate Initial(s: System) {
    s == System(Row(0, s.row.startedAt), s.now, map[], [], [s.row.startedAt]) && s.row.startedAt <= s.now
  }

  // ---------------------------------------------------------------- counting

  function Count(grants: seq<Grant>, p: Grant -> bool): nat {
    if grants == [] then 0 else Count(grants[..|grants| - 1], p) + if p(grants[|grants| - 1]) then 1 else 0
  }

  function InWindow(w: int): Grant -> bool {
    (g: Grant) => g.window == w
  }

  function ByPriority(w: int): Grant -> bool {
    (g: Grant) => g.window == w && g.priority
  }

  function Ordinary(w: int): Grant -> bool {
    (g: Grant) => g.window == w && !g.priority
  }

  /** Granted in the half-open interval from `a`, one window length long. */
  function During(c: Config, a: int): Grant -> bool {
    (g: Grant) => a <= g.time < a + c.window
  }

  lemma CountAppend(grants: seq<Grant>, g: Grant, p: Grant -> bool)
    ensures Count(grants + [g], p) == Count(grants, p) + if p(g) then 1 else 0
  {
    assert (grants + [g])[..|grants|] == grants;
  }

  lemma {:induction false} CountBelow(grants: seq<Grant>, p: Grant -> bool, q: Grant -> bool, r: Grant -> bool)
    requires forall i :: 0 <= i < |grants| && p(grants[i]) ==> q(grants[i]) || r(grants[i])
    ensures Count(grants, p) <= Count(grants, q) + Count(grants, r)
  {
    if grants != [] {
      CountBelow(grants[..|grants| - 1], p, q, r);
    }
  }

  lemma {:induction false} CountNothing(grants: seq<Grant>, p: Grant -> bool)
    requires forall i :: 0 <= i < |grants| ==> !p(grants[i])
    ensures Count(grants, p) == 0
  {
    if grants != [] {
      CountNothing(grants[..|grants| - 1], p);
    }
  }

  lemma {:induction false} WindowSplits(grants: seq<Grant>, w: int)
    ensures Count(grants, InWindow(w)) == Count(grants, ByPriority(w)) + Count(grants, Ordinary(w))
  {
    if grants != [] {
      WindowSplits(grants[..|grants| - 1], w);
    }
  }

  // --------------------------------------------------------------- invariant

  predicate Spaced(c: Config, starts: seq<int>) {
    forall i, j :: 0 <= i < j < |starts| ==> starts[i] + c.window <= starts[j]
  }

  /** Grants lie between the start of their window and the start of any later one. */
  predicate GrantsPlaced(s: System) {
    && (forall i :: 0 <= i < |s.grants| ==> s.grants[i].window in s.starts && s.grants[i].window <= s.grants[i].time <= s.now)
    && forall i, k :: 0 <= i < |s.grants| && 0 <= k < |s.starts| && s.grants[i].window < s.starts[k] ==>
        s.grants[i].time <= s.starts[k]
  }

  function OrdinaryShare(c: Config): nat {
    if c.reserved < c.ceiling then c.ceiling - c.reserved else 0
  }

  ghost predicate Inv(c: Config, s: System) {
    && s.starts != [] && s.starts[|s.starts| - 1] == s.row.startedAt && s.row.startedAt <= s.now
    && Spaced(c, s.starts)
    && GrantsPlaced(s)
    && Count(s.grants, InWindow(s.row.startedAt)) == s.row.used
    && (forall w :: Count(s.grants, InWindow(w)) <= c.ceiling)
    && (forall w :: Count(s.grants, Ordinary(w)) <= OrdinaryShare(c))
  }

  /** A window opened now is new: every earlier one started before it. */
  lemma OpensNewWindow(c: Config, s: System)
    requires Inv(c, s) && c.window > 0 && s.now >= s.row.startedAt + c.window
    ensures forall i :: 0 <= i < |s.starts| ==> s.starts[i] + c.window <= s.now
    ensures Count(s.grants, InWindow(s.now)) == 0
  {
    hide Count;
    forall i | 0 <= i < |s.starts|
      ensures s.starts[i] <= s.row.startedAt
    {
      assert i < |s.starts| - 1 ==> s.starts[i] + c.window <= s.starts[|s.starts| - 1];
    }
    assert s.now !in s.starts;
    CountNothing(s.grants, InWindow(s.now));
  }

  lemma ResetKeeps(c: Config, s: System, who: Caller)
    requires Inv(c, s) && c.window > 0 && Enabled(s, Reset(who))
    ensures Inv(c, Next(c, s, Reset(who)))
  {
    hide Count;
    var row := ResetIfExpired(c, s.row, s.callers[who].startedAt, s.now);
    if row != s.row {
      OpensNewWindow(c, s);
    }
  }

  lemma GrantCounts(c: Config, s: System, g: Grant, w: int)
    requires Inv(c, s) && g.window == s.row.startedAt && s.row.used < EffectiveCeiling(c, g.priority)
    ensures Count(s.grants + [g], InWindow(w)) <= c.ceiling
    ensures Count(s.grants + [g], Ordinary(w)) <= OrdinaryShare(c)
    ensures Count(s.grants + [g], InWindow(s.row.startedAt)) == s.row.used + 1
  {
    hide GrantsPlaced, Spaced, Count;
    WindowSplits(s.grants, s.row.startedAt);
    CountAppend(s.grants, g, InWindow(w));
    CountAppend(s.grants, g, Ordinary(w));
    CountAppend(s.grants, g, InWindow(s.row.startedAt));
    if g.window != w {
      assert !InWindow(w)(g) && !Ordinary(w)(g);
    }
  }

  lemma ConsumeKeeps(c: Config, s: System, who: Caller)
    requires Inv(c, s) && Enabled(s, Consume(who))
    ensures Inv(c, Next(c, s, Consume(who)))
  {
    hide Count;
    var s' := Next(c, s, Consume(who));
    var priority := s.callers[who].priority;
    if s.row.used < EffectiveCeiling(c, priority) {
      var g := Grant(s.now, s.row.startedAt, priority);
      assert s'.grants == s.grants + [g];
      forall w
        ensures Count(s'.grants, InWindow(w)) <= c.ceiling && Count(s'.grants, Ordinary(w)) <= OrdinaryShare(c)
      {
        GrantCounts(c, s, g, w);
      }
      GrantCounts(c, s, g, s.row.startedAt);
    }
  }

  lemma NextKeeps(c: Config, s: System, a: Action)
    requires Inv(c, s) && c.window > 0 && Enabled(s, a)
    ensures Inv(c, Next(c, s, a))
  {
    match a
    case Reset(who) => ResetKeeps(c, s, who);
    case Consume(who) => ConsumeKeeps(c, s, who);
    case _ =>
  }

  // ------------------------------------------------------------ main results

  /** Slots of three different windows are at least one window length apart. */
  lemma ThreeWindowsSpanMore(c: Config, s: System, i: nat, j: nat, k: nat)
    requires Inv(c, s) && i < |s.grants| && j < |s.grants| && k < |s.grants|
    requires s.grants[i].window < s.grants[j].window < s.grants[k].window
    ensures s.grants[k].time - s.grants[i].time >= c.window
  {
    hide Count;
    var m :| 0 <= m < |s.starts| && s.starts[m] == s.grants[j].window;
    var n :| 0 <= n < |s.starts| && s.starts[n] == s.grants[k].window;
    assert s.grants[i].time <= s.starts[m];
    assert m < n;
  }

  /** So an interval of one window length sees the slots of two windows at most, hence at most twice the ceiling. */
  lemma BurstIsBounded(c: Config, s: System, a: int)
    requires Inv(c, s) && c.window > 0
    ensures Count(s.grants, During(c, a)) <= 2 * c.ceiling
  {
    var p := During(c, a);
    if i, j :| 0 <= i < |s.grants| && 0 <= j < |s.grants| && p(s.grants[i]) && p(s.grants[j]) && s.grants[i].window < s.grants[j].window {
      var v, w := s.grants[i].window, s.grants[j].window;
      forall k | 0 <= k < |s.grants| && p(s.grants[k])
        ensures InWindow(v)(s.grants[k]) || InWindow(w)(s.grants[k])
      {
        if s.grants[k].window < v {
          ThreeWindowsSpanMore(c, s, k, i, j);
        } else if v < s.grants[k].window < w {
          ThreeWindowsSpanMore(c, s, i, k, j);
        } else if w < s.grants[k].window {
          ThreeWindowsSpanMore(c, s, i, j, k);
        }
      }
      CountBelow(s.grants, p, InWindow(v), InWindow(w));
    } else if i :| 0 <= i < |s.grants| && p(s.grants[i]) {
      var v := s.grants[i].window;
      CountBelow(s.grants, p, InWindow(v), InWindow(v));
    } else {
      CountNothing(s.grants, p);
    }
  }

  /**
   * A refused priority caller finds the reserve spent: as many priority slots of this window
   * granted as the reserve, or the whole ceiling when that is smaller.
   */
  lemma RefusalMeansReserveSpent(c: Config, s: System, who: Caller)
    requires Inv(c, s) && Enabled(s, Consume(who)) && s.callers[who].priority
    requires Next(c, s, Consume(who)).grants == s.grants
    ensures Count(s.grants, ByPriority(s.row.startedAt)) >= Min(c.reserved, c.ceiling)
  {
    assert |s.grants + [Grant(s.now, s.row.startedAt, true)]| == |s.grants| + 1;
    WindowSplits(s.grants, s.row.startedAt);
  }

  /**
   * In every reachable state: windows open at least one length apart (so each was reset
   * at most once), no window grants more than the ceiling, ordinary callers leave the
   * reserve alone, and no interval of one window length sees more than twice the ceiling.
   */
  lemma {:induction false} BudgetHolds(c: Config, states: seq<System>, actions: seq<Action>)
    requires c.window > 0 && Path(c, states, actions) && Initial(states[0])
    ensures forall i :: 0 <= i < |states| ==>
      var s := states[i];
      && Spaced(c, s.starts)
      && (forall w :: Count(s.grants, InWindow(w)) <= c.ceiling)
      && (forall w :: Count(s.grants, Ordinary(w)) <= OrdinaryShare(c))
      && (forall a :: Count(s.grants, During(c, a)) <= 2 * c.ceiling)
  {
    forall k | 0 <= k < |states|
      ensures Inv(c, states[k])
    {
      InvAtEnd(c, states[..k + 1], actions[..k]);
    }
    forall k, a | 0 <= k < |states|
      ensures Count(states[k].grants, During(c, a)) <= 2 * c.ceiling
    {
      BurstIsBounded(c, states[k], a);
    }
  }

  /**
   * Elapsed windows do reopen: a caller whose three statements nothing comes between is granted a
   * slot, once the window's time is over, whenever its share is positive, and before that
   * whenever its share is not used up.
   */
  lemma UndisturbedCaller(c: Config, s: System, who: Caller, priority: bool)
    requires who !in s.callers
    ensures var s1 := Next(c, s, Read(who, priority));
      && Enabled(s1, Reset(who)) && Enabled(Next(c, s1, Reset(who)), Consume(who))
      && var t := Next(c, Next(c, s1, Reset(who)), Consume(who));
      && var share, elapsed := if priority then c.ceiling else c.ceiling - c.reserved, s.now >= s.row.startedAt + c.window;
      && var window, used := if elapsed then s.now else s.row.startedAt, if elapsed then 0 else s.row.used;
      && t.now == s.now && who !in t.callers
      && (used < share ==> t.row == Row(used + 1, window) && t.grants == s.grants + [Grant(s.now, window, priority)])
      && (used >= share ==> t.row == Row(used, window) && t.grants == s.grants)
  {
  }

  // ------------------------------------------- when the reserve cannot be kept

  /** One priority caller served while nobody else is at work. */
  function ServedOnce(c: Config, t: System): System {
    var (row, allowed) := Increment(c, t.row, true);
    t.(row := row, grants := if allowed then t.grants + [Grant(t.now, t.row.startedAt, true)] else t.grants)
  }

  /** One priority caller after another, all at the time of the seed. */
  function Served(c: Config, s: System, n: nat): System {
    if n == 0 then s else ServedOnce(c, Served(c, s, n - 1))
  }

  /** Some interleaving leads from here to there. */
  ghost predicate Reachable(c: Config, from: System, s: System) {
    exists states, actions :: Path(c, states, actions) && states[0] == from && states[|actions|] == s
  }

  lemma ReachableStep(c: Config, from: System, s: System, a: Action)
    requires Reachable(c, from, s) && Enabled(s, a)
    ensures Reachable(c, from, Next(c, s, a))
  {
    var states, actions :| Path(c, states, actions) && states[0] == from && states[|actions|] == s;
    assert Path(c, states + [Next(c, s, a)], actions + [a]);
  }

  /** A lone priority caller up to the point where it may consume: nothing has changed but the caller. */
  lemma ReachReady(c: Config, from: System, t: System)
    requires c.window > 0 && t.callers == map[] && t.now == t.row.startedAt && Reachable(c, from, t)
    ensures Reachable(c, from, t.(callers := map[0 := MayConsume(true)]))
  {
    hide Reachable;
    ReachableStep(c, from, t, Read(0, true));
    var t1 := Next(c, t, Read(0, true));
    assert t1 == t.(callers := map[0 := HasRead(t.row.startedAt, true)]);
    ReachableStep(c, from, t1, Reset(0));
    assert Next(c, t1, Reset(0)) == t.(callers := map[0 := MayConsume(true)]);
  }

  lemma {:induction false} ServedIsReachable(c: Config, s: System, n: nat)
    requires c.window > 0 && Initial(s) && s.now == s.row.startedAt
    ensures Reachable(c, s, Served(c, s, n))
  {
    if n == 0 {
      assert Path(c, [s], []);
    } else {
      hide Reachable;
      ServedIsReachable(c, s, n - 1);
      var t := Served(c, s, n - 1);
      ServedState(c, s, n - 1);
      ReachReady(c, s, t);
      var ready := t.(callers := map[0 := MayConsume(true)]);
      ReachableStep(c, s, ready, Consume(0));
      assert ready.callers - {0} == map[];
      assert Next(c, ready, Consume(0)) == ServedOnce(c, t);
    }
  }

  lemma {:induction false} ServedState(c: Config, s: System, n: nat)
    requires Initial(s) && s.now == s.row.startedAt
    ensures var t := Served(c, s, n);
      && t.callers == map[] && t.now == s.now && t.row.startedAt == s.row.startedAt
      && t.row.used == Min(n, c.ceiling) && Count(t.grants, ByPriority(t.row.startedAt)) == Min(n, c.ceiling)
  {
    if n > 0 {
      var t := Served(c, s, n - 1);
      ServedState(c, s, n - 1);
      CountAppend(t.grants, Grant(t.now, t.row.startedAt, true), ByPriority(t.row.startedAt));
    }
  }

  /**
   * The reserve is a promise the budget keeps on every run exactly when it does not exceed
   * the ceiling: only then does a refused priority caller always find `reserved` slots
   * already granted to priority callers in this window.
   */
  lemma ReserveIsKeptIffItFits(c: Config)
    requires c.window > 0
    ensures c.reserved <= c.ceiling <==>
            (forall from, s :: Initial(from) && Reachable(c, from, s) ==> ReserveRespected(c, s))
  {
    if c.reserved <= c.ceiling {
      forall from, s | Initial(from) && Reachable(c, from, s)
        ensures ReserveRespected(c, s)
      {
        FittingReserveIsRespected(c, from, s);
      }
    } else {
      OversizedReserveFails(c);
    }
  }

  lemma FittingReserveIsRespected(c: Config, from: System, s: System)
    requires c.window > 0 && c.reserved <= c.ceiling && Initial(from) && Reachable(c, from, s)
    ensures ReserveRespected(c, s)
  {
    var states, actions :| Path(c, states, actions) && states[0] == from && states[|actions|] == s;
    InvAtEnd(c, states, actions);
    forall who | Refused(c, s, who)
      ensures Count(s.grants, ByPriority(s.row.startedAt)) >= c.reserved
    {
      RefusalMeansReserveSpent(c, s, who);
    }
  }

  /** With a reserve above the ceiling: the ceiling is spent on priority callers, and the next one is refused. */
  lemma OversizedReserveFails(c: Config)
    requires c.window > 0 && c.reserved > c.ceiling
    ensures exists from, s :: Initial(from) && Reachable(c, from, s) && !ReserveRespected(c, s)
  {
    hide Reachable;
    var from := System(Row(0, 0), 0, map[], [], [0]);
    ServedIsReachable(c, from, c.ceiling);
    ServedState(c, from, c.ceiling);
    var t := Served(c, from, c.ceiling);
    ReachReady(c, from, t);
    var s := t.(callers := map[0 := MayConsume(true)]);
    assert Refused(c, s, 0) && Count(s.grants, ByPriority(s.row.startedAt)) == c.ceiling;
    assert !ReserveRespected(c, s);
  }

  /** A priority caller about to be turned away. */
  predicate Refused(c: Config, s: System, who: Caller) {
    Enabled(s, Consume(who)) && s.callers[who].priority && Next(c, s, Consume(who)).grants == s.grants
  }

  ghost predicate ReserveRespected(c: Config, s: System) {
    forall who :: Refused(c, s, who) ==> Count(s.grants, ByPriority(s.row.startedAt)) >= c.reserved
  }

  lemma {:induction false} InvAtEnd(c: Config, states: seq<System>, actions: seq<Action>)
    requires c.window > 0 && Path(c, states, actions) && Initial(states[0])
    ensures Inv(c, states[|actions|])
  {
    if actions != [] {
      var n := |actions| - 1;
      InvAtEnd(c, states[..n + 1], actions[..n]);
      NextKeeps(c, states[n], actions[n]);
    }
  }

  // ------------------------------------------------------------- as it runs

  datatype Verdict = NotConfigured | Allowed | Exhausted

  /** One row of `ingestion_rate_budgets`, absent when the scope is not seeded. */
  class Budget {
    const config: Config
    var row: Option<Row>

    constructor (config: Config, row: Option<Row>)
      ensures this.config == config && this.row == row
    {
      this.config, this.row := config, row;
    }

    method ResetWindowIfExpired(read: int, now: int)
      modifies this
      ensures row == match old(row) { case None => None case Some(r) => Some(ResetIfExpired(config, r, read, now)) }
    {
      if now < read + config.window {
        return;
      }
      if row.Some? && row.value.startedAt == read {
        row := Some(Row(0, now));
      }
    }

    method IncrementBelow(ceiling: int) returns (affected: bool)
      modifies this
      ensures affected == (old(row).Some? && old(row).value.used < ceiling)
      ensures row == if affected then Some(old(row).value.(used := old(row).value.used + 1)) else old(row)
    {
      affected := row.Some? && row.value.used < ceiling;
      if affected {
        row := Some(row.value.(used := row.value.used + 1));
      }
    }

    /** An undisturbed call is Read, Reset and Consume of the protocol in a row, and answers what Consume decides. */
    method TryConsumeBudget(priority: bool, now: int) returns (v: Verdict)
      modifies this
      ensures v == NotConfigured <==> old(row).None?
      ensures old(row).None? ==> row == None
      ensures old(row).Some? ==>
        var s := System(old(row).value, now, map[], [], [old(row).value.startedAt]);
        var t := Next(config, Next(config, Next(config, s, Read(0, priority)), Reset(0)), Consume(0));
        row == Some(t.row) && (v == Allowed <==> t.grants != [])
      ensures old(row).Some? ==>
        var r, share := old(row).value, if priority then config.ceiling else config.ceiling - config.reserved;
        var elapsed := now - r.startedAt >= config.window;
        && (v == Allowed <==> if elapsed then share > 0 else r.used < share)
        && row == Some(Row((if elapsed then 0 else r.used) + (if v == Allowed then 1 else 0),
                           if elapsed then now else r.startedAt))
    {
      if row.None? {
        return NotConfigured;
      }
      ResetWindowIfExpired(row.value.startedAt, now);
      var affected := IncrementBelow(EffectiveCeiling(config, priority));
      return if affected then Allowed else Exhausted;
    }
  }
}
