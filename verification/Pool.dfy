/**
 * `runQueriesBounded`: workers share one index and write into one result array. Completion
 * order is arbitrary; what follows a completion up to the next `await` runs without
 * interruption.
 */
module Pool {
  import opened Common

  datatype Event = Started(task: nat) | Finished(task: nat)

  /** Tasks in flight after a log of events. */
  function InFlight(log: seq<Event>): int {
    if log == [] then 0 else InFlight(log[..|log| - 1]) + if log[|log| - 1].Started? then 1 else -1
  }

  /** The tasks started, in order. */
  function Starts(log: seq<Event>): seq<nat> {
    if log == [] then []
    else Starts(log[..|log| - 1]) + if log[|log| - 1].Started? then [log[|log| - 1].task] else []
  }

  function Range(n: nat): (r: seq<nat>)
    ensures |r| == n && forall i :: 0 <= i < n ==> r[i] == i
  {
    if n == 0 then [] else Range(n - 1) + [n - 1]
  }

  /** At no moment more than `limit` in flight. */
  predicate Bounded(log: seq<Event>, limit: int) {
    forall k :: 0 <= k <= |log| ==> InFlight(log[..k]) <= limit
  }

  function WorkerCount(concurrency: int, n: nat): (w: nat)
    ensures w == 1 || w == concurrency || w == n
  {
    var m := if concurrency < n then concurrency else n;
    if m < 1 then 1 else m
  }

  /** The positions before `k` at which a task starts, and at which one finishes. */
  ghost function StartedBy(log: seq<Event>, k: int): set<int> {
    set i | 0 <= i < k && i < |log| && log[i].Started?
  }

  ghost function FinishedBy(log: seq<Event>, k: int): set<int> {
    set i | 0 <= i < k && i < |log| && log[i].Finished?
  }

  lemma {:induction false} FlightIsCounted(log: seq<Event>, k: nat)
    requires k <= |log|
    ensures InFlight(log[..k]) == |StartedBy(log, k)| - |FinishedBy(log, k)|
    ensures |Starts(log[..k])| == |StartedBy(log, k)|
  {
    if k == 0 {
      assert StartedBy(log, 0) == {} && FinishedBy(log, 0) == {};
    } else {
      FlightIsCounted(log, k - 1);
      assert log[..k][..k - 1] == log[..k - 1];
      if log[k - 1].Started? {
        assert StartedBy(log, k) == StartedBy(log, k - 1) + {k - 1} && FinishedBy(log, k) == FinishedBy(log, k - 1);
      } else {
        assert FinishedBy(log, k) == FinishedBy(log, k - 1) + {k - 1} && StartedBy(log, k) == StartedBy(log, k - 1);
      }
    }
  }

  /** Each of the `n` tasks starts once and finishes once, and nothing else happens. */
  ghost predicate StartsAndFinishesAll(log: seq<Event>, n: nat) {
    |log| == 2 * n && forall i :: 0 <= i < n ==> Started(i) in log && Finished(i) in log
  }

  /** Never more than `limit` unfinished tasks; and exactly `limit` whenever one finishes while another waits. */
  ghost predicate KeepsTo(log: seq<Event>, n: nat, limit: int) {
    && (forall k :: 0 <= k <= |log| ==> |StartedBy(log, k)| - |FinishedBy(log, k)| <= limit)
    && (forall k :: 0 <= k < |log| && log[k].Finished? && |StartedBy(log, k)| < n ==>
          |StartedBy(log, k)| - |FinishedBy(log, k)| == limit)
  }

  lemma BoundedKeepsTo(log: seq<Event>, n: nat, concurrency: int)
    requires Bounded(log, WorkerCount(concurrency, n)) && Busy(log, n, WorkerCount(concurrency, n)) && (n > 0 || log == [])
    ensures KeepsTo(log, n, if concurrency < 1 then 1 else concurrency)
  {
    hide InFlight, Starts;
    forall k | 0 <= k <= |log|
      ensures InFlight(log[..k]) == |StartedBy(log, k)| - |FinishedBy(log, k)| <= WorkerCount(concurrency, n)
      ensures |Starts(log[..k])| == |StartedBy(log, k)|
    {
      FlightIsCounted(log, k);
    }
    hide StartedBy, FinishedBy;
  }

  lemma LogEmpty()
    ensures InFlight([]) == 0 && Starts([]) == [] && (forall w: nat :: Bounded([], w)) && forall w :: Busy([], 0, w)
  {
  }

  lemma LogAppend(log: seq<Event>, e: Event, limit: int)
    requires Bounded(log, limit)
    requires InFlight(log) + (if e.Started? then 1 else -1) <= limit
    ensures InFlight(log + [e]) == InFlight(log) + (if e.Started? then 1 else -1)
    ensures Starts(log + [e]) == Starts(log) + (if e.Started? then [e.task] else [])
    ensures Bounded(log + [e], limit)
  {
    var log' := log + [e];
    assert log'[..|log|] == log;
    forall k | 0 <= k <= |log'|
      ensures InFlight(log'[..k]) <= limit
    {
      if k <= |log| {
        assert log'[..k] == log[..k];
      } else {
        assert log'[..k] == log';
      }
    }
  }

  /** Whenever a completion is about to be handled, waiting tasks mean busy workers. */
  predicate Busy(log: seq<Event>, n: nat, workers: nat) {
    forall k :: 0 <= k <= |log| && (k == |log| || log[k].Finished?) && |Starts(log[..k])| < n ==>
        InFlight(log[..k]) == workers
  }

  lemma BusyStep(log: seq<Event>, more: seq<Event>, n: nat, workers: nat)
    requires Busy(log, n, workers)
    requires more != [] && more[0].Finished? && forall i :: 0 < i < |more| ==> more[i].Started?
    requires |Starts(log + more)| < n ==> InFlight(log + more) == workers
    ensures Busy(log + more, n, workers)
  {
    hide Starts, InFlight;
    var log' := log + more;
    assert log'[..|log'|] == log';
    forall k | 0 <= k <= |log'| && (k == |log'| || log'[k].Finished?) && |Starts(log'[..k])| < n
      ensures InFlight(log'[..k]) == workers
    {
      if k <= |log| {
        assert log'[..k] == log[..k];
      }
    }
  }

  lemma BusyAtStart(log: seq<Event>, n: nat, workers: nat)
    requires (forall k :: 0 <= k < |log| ==> log[k].Started?) && InFlight(log) == workers
    ensures Busy(log, n, workers)
  {
    assert log[..|log|] == log;
  }

  function Values<V>(slots: seq<Option<V>>, ghost tasks: seq<V>): (vs: seq<V>)
    requires |slots| == |tasks| && forall i :: 0 <= i < |slots| ==> slots[i] == Some(tasks[i])
    ensures vs == tasks
  {
    if slots == [] then [] else
      assert tasks == [tasks[0]] + tasks[1..];
      [slots[0].value] + Values(slots[1..], tasks[1..])
  }

  /** What the log says while `running` tasks are in flight and the next to start is `nextIndex`. */
  ghost predicate Logged(log: seq<Event>, running: set<nat>, nextIndex: nat, n: nat, workers: nat) {
    && |running| == InFlight(log) <= workers && (nextIndex < n ==> |running| == workers)
    && Starts(log) == Range(nextIndex) && Bounded(log, workers) && Busy(log, n, workers)
  }

  /** A completed task leaves; the next one, if any, starts at once in its place. */
  lemma CompletionLogged(log: seq<Event>, running: set<nat>, nextIndex: nat, n: nat, workers: nat, i: nat)
    requires Logged(log, running, nextIndex, n, workers) && i in running && nextIndex !in running && nextIndex <= n
    ensures nextIndex == n ==> Logged(log + [Finished(i)], running - {i}, n, n, workers)
    ensures nextIndex < n ==>
      Logged(log + [Finished(i), Started(nextIndex)], running - {i} + {nextIndex}, nextIndex + 1, n, workers)
  {
    hide InFlight, Starts, Busy, Bounded;
    LogAppend(log, Finished(i), workers);
    if nextIndex == n {
      BusyStep(log, [Finished(i)], n, workers);
    } else {
      LogAppend(log + [Finished(i)], Started(nextIndex), workers);
      assert log + [Finished(i)] + [Started(nextIndex)] == log + [Finished(i), Started(nextIndex)];
      BusyStep(log, [Finished(i), Started(nextIndex)], n, workers);
    }
  }

  /** Every task below `nextIndex` has started, those not running have finished, and nothing happened twice. */
  ghost predicate OnceEach(log: seq<Event>, running: set<nat>, nextIndex: nat) {
    && |log| == 2 * nextIndex - |running|
    && forall i :: 0 <= i < nextIndex ==> Started(i) in log && (i in running || Finished(i) in log)
  }

  lemma OnceEachStep(log: seq<Event>, running: set<nat>, nextIndex: nat, i: nat)
    requires OnceEach(log, running, nextIndex) && i in running && nextIndex !in running
    ensures OnceEach(log + [Finished(i)], running - {i}, nextIndex)
    ensures OnceEach(log + [Finished(i), Started(nextIndex)], running - {i} + {nextIndex}, nextIndex + 1)
  {
    var one, two := log + [Finished(i)], log + [Finished(i), Started(nextIndex)];
    assert one[|log|] == Finished(i) && two[|log|] == Finished(i) && two[|log| + 1] == Started(nextIndex);
    forall e | e in log
      ensures e in one && e in two
    {
    }
  }

  /** The state of the pool between two completions. */
  ghost predicate Progress(log: seq<Event>, running: set<nat>, nextIndex: nat, n: nat, workers: nat) {
    && Logged(log, running, nextIndex, n, workers) && OnceEach(log, running, nextIndex)
    && forall i :: i in running ==> i < nextIndex
  }

  lemma ProgressStep(log: seq<Event>, running: set<nat>, nextIndex: nat, n: nat, workers: nat, i: nat)
    requires Progress(log, running, nextIndex, n, workers) && i in running && nextIndex <= n
    ensures i < nextIndex && |running - {i}| < |running|
    ensures nextIndex == n ==> Progress(log + [Finished(i)], running - {i}, n, n, workers)
    ensures nextIndex < n ==>
      Progress(log + [Finished(i), Started(nextIndex)], running - {i} + {nextIndex}, nextIndex + 1, n, workers)
  {
    CompletionLogged(log, running, nextIndex, n, workers, i);
    OnceEachStep(log, running, nextIndex, i);
    hide OnceEach, Logged;
  }

  /** When nothing runs any more, everything has. */
  lemma AllDone(log: seq<Event>, nextIndex: nat, n: nat, concurrency: int)
    requires Progress(log, {}, nextIndex, n, WorkerCount(concurrency, n))
    requires 0 < n && nextIndex <= n
    ensures nextIndex == n && Starts(log) == Range(n) && InFlight(log) == 0
    ensures Bounded(log, WorkerCount(concurrency, n)) && Busy(log, n, WorkerCount(concurrency, n))
    ensures StartsAndFinishesAll(log, n)
    ensures KeepsTo(log, n, if concurrency < 1 then 1 else concurrency)
  {
    hide InFlight, Starts, Busy, Bounded;
    BoundedKeepsTo(log, n, concurrency);
  }

  lemma NothingToDo(concurrency: int)
    ensures Starts([]) == Range(0) && InFlight([]) == 0
    ensures Bounded([], WorkerCount(concurrency, 0)) && Busy([], 0, WorkerCount(concurrency, 0))
    ensures StartsAndFinishesAll([], 0) && KeepsTo([], 0, if concurrency < 1 then 1 else concurrency)
  {
    LogEmpty();
    BoundedKeepsTo([], 0, concurrency);
  }

  /** Every worker takes its first task. */
  method StartWorkers(n: nat, workers: nat) returns (log: seq<Event>, running: set<nat>)
    requires 0 < workers <= n
    ensures Progress(log, running, workers, n, workers)
    ensures forall i :: i in running <==> 0 <= i < workers
  {
    var nextIndex := 0;
    log, running := [], {};
    while nextIndex < workers
      invariant 0 <= nextIndex <= workers
      invariant (forall i :: i in running <==> 0 <= i < nextIndex) && |running| == nextIndex
      invariant InFlight(log) == nextIndex && Starts(log) == Range(nextIndex)
      invariant Bounded(log, workers)
      invariant forall k :: 0 <= k < |log| ==> log[k].Started?
      invariant |log| == nextIndex && forall i :: 0 <= i < nextIndex ==> Started(i) in log
    {
      LogAppend(log, Started(nextIndex), workers);
      log := log + [Started(nextIndex)];
      running := running + {nextIndex};
      nextIndex := nextIndex + 1;
    }
    BusyAtStart(log, n, workers);
  }

  /**
   * `tasks[i]` is the value task i resolves to. Every task is started exactly once and in
   * order, never more than the worker count at a time, and result i is task i's value
   * whatever the completion order. No capacity idles: while a task waits to be started,
   * all workers are busy.
   */
  method RunQueriesBounded<V>(tasks: seq<V>, concurrency: int) returns (results: seq<V>, log: seq<Event>)
    ensures results == tasks
    ensures Starts(log) == Range(|tasks|) && InFlight(log) == 0
    ensures Bounded(log, WorkerCount(concurrency, |tasks|))
    ensures Busy(log, |tasks|, WorkerCount(concurrency, |tasks|))
    ensures StartsAndFinishesAll(log, |tasks|)
    ensures KeepsTo(log, |tasks|, if concurrency < 1 then 1 else concurrency)
  {
    var n := |tasks|;
    hide InFlight, Starts, Busy, Bounded, KeepsTo, Progress, StartsAndFinishesAll, Range;
    if n == 0 {
      NothingToDo(concurrency);
      return [], [];
    }
    var slots := new Option<V>[n](_ => None);
    var workers := WorkerCount(concurrency, n);
    var running: set<nat>;
    log, running := StartWorkers(n, workers);
    var nextIndex := workers;
    while running != {}
      invariant workers <= nextIndex <= n
      invariant forall i :: 0 <= i < nextIndex && i !in running ==> slots[i] == Some(tasks[i])
      invariant Progress(log, running, nextIndex, n, workers)
      decreases n - nextIndex, |running|
    {
      var i :| i in running;
      ProgressStep(log, running, nextIndex, n, workers, i);
      slots[i] := Some(tasks[i]);
      if nextIndex < n {
        log := log + [Finished(i), Started(nextIndex)];
        running := running - {i} + {nextIndex};
        nextIndex := nextIndex + 1;
      } else {
        log := log + [Finished(i)];
        running := running - {i};
      }
    }
    AllDone(log, nextIndex, n, concurrency);
    results := Values(slots[..], tasks);
  }
}
