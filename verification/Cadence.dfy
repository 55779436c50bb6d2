/** When an SNMP runner starts and which of its polls fetch the full system group. */
module Cadence {
  import opened Prelude
  import opened Tasks

  const DEFAULT_INTERVAL := 60

  /** The startup offset of a runner in seconds; only snmp_poll runners are staggered. */
  function StartupOffset(taskID: int, kind: string, intervalSeconds: int): Option<int> {
    if kind == "snmp_poll" && intervalSeconds > 1 then Some(TruncMod(taskID, intervalSeconds)) else None
  }

  /** `full` of the k-th poll attempt, k counted from 0; the counter is a uint64. */
  predicate FullPoll(everyN: int, k: nat) {
    everyN <= 1 || (k % TWO_64) % everyN == 0
  }

  /** One execution: a probe dispatch, an SNMP poll, or nothing for a poll task without SNMP block. */
  datatype Execution = Dispatched | Nothing | Polled(full: bool)

  /** The k-th execution of a task's runner. */
  function ExecutionOf(task: Task, k: nat): Execution {
    if task.kind != "snmp_poll" then Dispatched
    else if task.snmp.None? then Nothing
    else Polled(FullPoll(task.snmp.value.inventoryEveryN, k))
  }

  /** One execution with the runner's counter, a uint64, at the given value. */
  method Execute(task: Task, counter: nat) returns (e: Execution)
    requires counter < TWO_64
    ensures e == ExecutionOf(task, counter)
  {
    if task.kind == "snmp_poll" {
      if task.snmp.None? {
        return Nothing;
      }
      var everyN := task.snmp.value.inventoryEveryN;
      var full := everyN <= 1 || counter % everyN == 0;
      return Polled(full);
    }
    e := Dispatched;
  }

  lemma SameExecution(task: Task, k: nat)
    ensures ExecutionOf(task, k % TWO_64) == ExecutionOf(task, k)
  {
  }

  lemma CounterStep(k: nat)
    ensures (k % TWO_64 + 1) % TWO_64 == (k + 1) % TWO_64
  {
  }

  /** What a runner of the task executes that gets as far as its first tick, `ticks` ticks long. */
  ghost predicate IsLife(task: Task, ticks: nat, runs: seq<Execution>) {
    |runs| == ticks + 1 && forall k :: 0 <= k <= ticks ==> runs[k] == ExecutionOf(task, k)
  }

  /**
   * The life of one runner up to its cancellation: the offset it waits, the interval of its ticker
   * in seconds, and its executions. A runner cancelled while it waits executes nothing; `early`
   * tells whether the wait would see a cancellation.
   */
  method RunTask(task: Task, early: bool, ticks: nat)
    returns (offset: Option<int>, interval: int, runs: seq<Execution>)
    ensures offset == StartupOffset(task.taskID, task.kind, task.intervalSeconds)
    ensures offset.Some? <==> task.kind == "snmp_poll" && task.intervalSeconds > 1
    ensures offset.Some? && task.taskID >= 0 ==> offset.value == task.taskID % task.intervalSeconds
    ensures offset.Some? && task.taskID < 0 ==> offset.value <= 0
    ensures interval == if task.intervalSeconds > 0 then task.intervalSeconds else 60
    ensures if offset.Some? && early then runs == [] else IsLife(task, ticks, runs)
  {
    interval := task.intervalSeconds;
    if interval <= 0 {
      interval := DEFAULT_INTERVAL;
    }
    offset, runs := None, [];
    if task.kind == "snmp_poll" && task.intervalSeconds > 1 {
      offset := Some(TruncMod(task.taskID, task.intervalSeconds));
      if task.taskID >= 0 { TruncModNonNegative(task.taskID, task.intervalSeconds); }
      if early {
        return;
      }
    }
    var counter: nat := 0;
    var run := Execute(task, counter);
    runs := [run];
    counter := (counter + 1) % TWO_64;
    for i := 0 to ticks
      invariant IsLife(task, i, runs) && counter == (i + 1) % TWO_64
    {
      run := Execute(task, counter);
      SameExecution(task, i + 1);
      runs := runs + [run];
      CounterStep(i + 1);
      counter := (counter + 1) % TWO_64;
    }
  }

  // ------------------------------------------------------------------ counting residues

  function Hit(x: nat, n: int, r: int): nat
    requires n > 0
  {
    if x % n == r then 1 else 0
  }

  /** How many of first, first + 1, .., first + m - 1 leave remainder r when divided by n. */
  function Hits(first: nat, m: nat, n: int, r: int): nat
    requires n > 0
  {
    if m == 0 then 0 else Hits(first, m - 1, n, r) + Hit(first + m - 1, n, r)
  }

  lemma AddOnce(x: int, n: int)
    requires n > 0
    ensures (x + n) / n == x / n + 1 && (x + n) % n == x % n
  {
    assert (x / n + 1) * n == x / n * n + n;
    DivModUnique(x + n, x / n + 1, x % n, n);
  }

  lemma {:induction false} Split(first: nat, a: nat, b: nat, n: int, r: int)
    requires n > 0
    ensures Hits(first, a + b, n, r) == Hits(first, a, n, r) + Hits(first + a, b, n, r)
  {
    if b > 0 { Split(first, a, b - 1, n, r); }
  }

  lemma {:induction false} HitsFromZero(m: nat, n: int, r: int)
    requires 0 <= r < n && m <= n
    ensures Hits(0, m, n, r) == if m > r then 1 else 0
  {
    if m > 0 {
      HitsFromZero(m - 1, n, r);
      DivModUnique(m - 1, 0, m - 1, n);
    }
  }

  /** Any n consecutive numbers contain exactly one of each remainder. */
  lemma {:induction false} WindowHitsOnce(first: nat, n: int, r: int)
    requires 0 <= r < n
    ensures Hits(first, n, n, r) == 1
  {
    if first == 0 {
      HitsFromZero(n, n, r);
    } else {
      var f := first - 1;
      WindowHitsOnce(f, n, r);
      Split(f, 1, n, n, r);
      Split(f, n, 1, n, r);
      assert Hits(f, 1, n, r) == Hits(f, 0, n, r) + Hit(f, n, r);
      assert Hits(f + n, 1, n, r) == Hits(f + n, 0, n, r) + Hit(f + n, n, r);
      AddOnce(f, n);
    }
  }

  lemma SmallDivMod(m: nat, n: int)
    requires m < n
    ensures m / n == 0 && m % n == m
  {
    DivModUnique(m, 0, m, n);
  }

  lemma TakeAway(m: nat, n: int)
    requires 0 < n <= m
    ensures m / n == (m - n) / n + 1 && m % n == (m - n) % n
  {
    AddOnce(m - n, n);
  }

  /** Of fewer than n consecutive numbers at most one has the remainder. */
  lemma HitsFew(first: nat, m: nat, n: int, r: int)
    requires 0 <= r < n && m < n
    ensures Hits(first, m, n, r) <= 1 && (m == 0 ==> Hits(first, m, n, r) == 0)
  {
    WindowHitsOnce(first, n, r);
    Split(first, m, n - m, n, r);
  }

  lemma {:induction false} HitsBalanced(first: nat, m: nat, n: int, r: int)
    requires 0 <= r < n
    ensures Hits(first, m, n, r) == m / n || (m % n != 0 && Hits(first, m, n, r) == m / n + 1)
    decreases m
  {
    if m < n {
      SmallDivMod(m, n);
      HitsFew(first, m, n, r);
    } else {
      HitsBalanced(first + n, m - n, n, r);
      WindowHitsOnce(first, n, r);
      Split(first, n, m - n, n, r);
      TakeAway(m, n);
    }
  }

  // ------------------------------------------------------------------ startup stagger

  /** How many of m snmp_poll tasks with consecutive TaskIDs start in the given second. */
  function StartsIn(firstID: int, m: nat, interval: int, second: int): nat {
    if m == 0 then 0
    else StartsIn(firstID, m - 1, interval, second)
         + (if StartupOffset(firstID + m - 1, "snmp_poll", interval) == Some(second) then 1 else 0)
  }

  /** Consecutive tasks of one interval spread evenly: every second gets floor or ceiling of m / interval. */
  lemma {:induction false} StaggerIsBalanced(firstID: int, m: nat, interval: int, second: int)
    requires firstID >= 0 && interval > 1 && 0 <= second < interval
    ensures StartsIn(firstID, m, interval, second) == m / interval
         || (m % interval != 0 && StartsIn(firstID, m, interval, second) == m / interval + 1)
  {
    StartsAreHits(firstID, m, interval, second);
    HitsBalanced(firstID, m, interval, second);
  }

  lemma {:induction false} StartsAreHits(firstID: nat, m: nat, interval: int, second: int)
    requires interval > 1
    ensures StartsIn(firstID, m, interval, second) == Hits(firstID, m, interval, second)
  {
    if m > 0 {
      StartsAreHits(firstID, m - 1, interval, second);
      TruncModNonNegative(firstID + m - 1, interval);
    }
  }

  lemma TruncModNonNegative(a: nat, b: int)
    requires b > 0
    ensures TruncMod(a, b) == a % b
  {
    assert a == a / b * b + a % b;
  }

  // ------------------------------------------------------------------ fast/slow cadence

  /** The number of full polls among the attempts first, .., first + m - 1 of a runner. */
  function FullPolls(first: nat, m: nat, everyN: int): nat {
    if m == 0 then 0 else FullPolls(first, m - 1, everyN) + (if FullPoll(everyN, first + m - 1) then 1 else 0)
  }

  lemma {:induction false} FullPollsAreHits(first: nat, m: nat, everyN: int)
    requires everyN > 1 && (first + m <= TWO_64 || TWO_64 % everyN == 0)
    ensures FullPolls(first, m, everyN) == Hits(first, m, everyN, 0)
  {
    if m > 0 {
      FullPollsAreHits(first, m - 1, everyN);
      FullPollIsHit(first + m - 1, everyN);
    }
  }

  lemma FullPollIsHit(k: nat, everyN: int)
    requires everyN > 1 && (k < TWO_64 || TWO_64 % everyN == 0)
    ensures (if FullPoll(everyN, k) then 1 else 0) == Hit(k, everyN, 0)
  {
    if k < TWO_64 {
      assert k % TWO_64 == k;
    } else {
      ModOfMod(k, TWO_64, everyN);
    }
  }

  /**
   * The first poll is full, and while the counter has not wrapped, any everyN consecutive
   * attempts contain exactly one full poll.
   */
  lemma ExactlyOneFullPoll(first: nat, everyN: int)
    requires everyN > 1 && first + everyN <= TWO_64
    ensures FullPoll(everyN, 0)
    ensures FullPolls(first, everyN, everyN) == 1
  {
    FullPollIsHit(0, everyN);
    SmallDivMod(0, everyN);
    FullPollsAreHits(first, everyN, everyN);
    WindowHitsOnce(first, everyN, 0);
  }

  /** How many of the executions first, .., first + m - 1 of a runner are full polls. */
  function FullRuns(runs: seq<Execution>, first: nat, m: nat): nat
    requires first + m <= |runs|
  {
    if m == 0 then 0 else FullRuns(runs, first, m - 1) + (if runs[first + m - 1] == Polled(true) then 1 else 0)
  }

  lemma {:induction false} FullRunsAreFullPolls(task: Task, ticks: nat, runs: seq<Execution>, first: nat, m: nat)
    requires IsLife(task, ticks, runs) && first + m <= |runs|
    requires task.kind == "snmp_poll" && task.snmp.Some?
    ensures FullRuns(runs, first, m) == FullPolls(first, m, task.snmp.value.inventoryEveryN)
  {
    if m > 0 { FullRunsAreFullPolls(task, ticks, runs, first, m - 1); }
  }

  /**
   * A runner of an SNMP task with N = InventoryEveryN > 1 polls in full at its first execution, and
   * of any N consecutive executions before its counter wraps exactly one is a full poll.
   */
  lemma LifeHasOneFullPollEach(task: Task, ticks: nat, runs: seq<Execution>, first: nat)
    requires IsLife(task, ticks, runs) && task.kind == "snmp_poll" && task.snmp.Some?
    requires var n := task.snmp.value.inventoryEveryN;
             n > 1 && first + n <= |runs| && first + n <= TWO_64
    ensures runs[0] == Polled(true)
    ensures FullRuns(runs, first, task.snmp.value.inventoryEveryN) == 1
  {
    var n := task.snmp.value.inventoryEveryN;
    ExactlyOneFullPoll(first, n);
    FullRunsAreFullPolls(task, ticks, runs, first, n);
  }

  /**
   * The other lives: with InventoryEveryN at most 1 every execution is a full poll, a poll task
   * without SNMP block does nothing, and any other task dispatches its probe every time.
   */
  lemma OtherLives(task: Task, ticks: nat, runs: seq<Execution>, k: nat)
    requires IsLife(task, ticks, runs) && k < |runs|
    ensures task.kind == "snmp_poll" && task.snmp.Some? && task.snmp.value.inventoryEveryN <= 1 ==>
              runs[k] == Polled(true)
    ensures task.kind == "snmp_poll" && task.snmp.Some? ==> runs[k].Polled?
    ensures task.kind == "snmp_poll" && task.snmp.None? ==> runs[k] == Nothing
    ensures task.kind != "snmp_poll" ==> runs[k] == Dispatched
  {
  }

  /**
   * Past the wrap of the counter the rule keeps holding for every window if and only if everyN
   * divides 2^64: otherwise the window ending at the wrap has two full polls.
   */
  lemma OneFullPollAcrossWrapIff(everyN: int)
    requires 1 < everyN <= TWO_63
    ensures (forall first: nat :: FullPolls(first, everyN, everyN) == 1) <==> TWO_64 % everyN == 0
  {
    if TWO_64 % everyN == 0 {
      forall first: nat ensures FullPolls(first, everyN, everyN) == 1 {
        FullPollsAreHits(first, everyN, everyN);
        WindowHitsOnce(first, everyN, 0);
      }
    } else {
      var r := TWO_64 % everyN;
      var first: nat := TWO_64 - r;
      assert FullPoll(everyN, first) by {
        MultipleDropsOut(0, TWO_64 / everyN, everyN);
        assert first == TWO_64 / everyN * everyN;
      }
      assert FullPoll(everyN, TWO_64);
      FullPollsCountBoth(first, r, everyN);
      assert FullPolls(first, everyN, everyN) >= 2;
    }
  }

  lemma {:induction false} FullPollsGrow(first: nat, a: nat, b: nat, everyN: int)
    requires a <= b
    ensures FullPolls(first, a, everyN) <= FullPolls(first, b, everyN)
  {
    if a < b { FullPollsGrow(first, a, b - 1, everyN); }
  }

  lemma FullPollsCountBoth(first: nat, r: nat, everyN: int)
    requires 0 < r < everyN && FullPoll(everyN, first) && FullPoll(everyN, first + r)
    ensures FullPolls(first, everyN, everyN) >= 2
  {
    assert FullPolls(first, 1, everyN) == FullPolls(first, 0, everyN) + 1;
    FullPollsGrow(first, 1, r, everyN);
    assert FullPolls(first, r + 1, everyN) == FullPolls(first, r, everyN) + 1;
    FullPollsGrow(first, r + 1, everyN, everyN);
  }
}
