/** The retry buffer of one upload endpoint: bounded, newest wins, exponential backoff. */
module Batches {
  import opened Prelude

  /** Instants and durations are in nanoseconds. */
  const SECOND: int := 1_000_000_000
  const FIRST_DELAY: int := 5 * SECOND
  const MAX_DELAY: int := 120 * SECOND

  /** retryAt None is the zero time, which is before every clock reading. */
  datatype Batch<T> = Batch(max: nat, buf: seq<T>, retryDelay: int, retryAt: Option<int>)

  function Fresh<T>(max: nat): Batch<T> {
    Batch(max, [], 0, None)
  }

  /** The last n elements, or all when there are fewer. */
  function Newest<T>(s: seq<T>, n: nat): seq<T> {
    if |s| <= n then s else s[|s| - n..]
  }

  function Added<T>(b: Batch<T>, v: T): Batch<T> {
    b.(buf := Newest(b.buf + [v], b.max))
  }

  /** An upload is attempted: there is something to send and no backoff window is active. */
  predicate Attempts<T>(b: Batch<T>, force: bool, now: int) {
    b.buf != [] && (force || b.retryAt.None? || b.retryAt.value <= now)
  }

  function NextDelay(d: int): int {
    if d == 0 then FIRST_DELAY else if 2 * d > MAX_DELAY then MAX_DELAY else 2 * d
  }

  /** done: the upload reported that the batch is finished with; now and after are the clock before and after it. */
  function Flushed<T>(b: Batch<T>, force: bool, now: int, done: bool, after: int): Batch<T> {
    if !Attempts(b, force, now) then b
    else if done then Fresh(b.max)
    else b.(retryDelay := NextDelay(b.retryDelay), retryAt := Some(after + NextDelay(b.retryDelay)))
  }

  class PendingBatch<T> {
    const max: nat
    var buf: seq<T>
    var retryDelay: int
    var retryAt: Option<int>

    constructor (max: nat)
      ensures View() == Fresh(max)
    {
      this.max, buf, retryDelay, retryAt := max, [], 0, None;
    }

    ghost function View(): Batch<T>
      reads this
    {
      Batch(max, buf, retryDelay, retryAt)
    }

    method Add(v: T)
      modifies `buf
      ensures View() == Added(old(View()), v)
    {
      buf := buf + [v];
      var drop := |buf| - max;
      if drop > 0 {
        buf := buf[drop..];
      }
    }

    /** `sent` is the batch handed to the upload, None when no upload was attempted. */
    method Flush(force: bool, now: int, done: bool, after: int) returns (sent: Option<seq<T>>)
      modifies this
      ensures View() == Flushed(old(View()), force, now, done, after)
      ensures sent == if Attempts(old(View()), force, now) then Some(old(buf)) else None
    {
      if |buf| == 0 || (!force && retryAt.Some? && now < retryAt.value) {
        return None;
      }
      sent := Some(buf);
      if done {
        buf, retryDelay, retryAt := [], 0, None;
        return;
      }
      if retryDelay == 0 {
        retryDelay := 5 * SECOND;
      } else {
        retryDelay := retryDelay * 2;
        if retryDelay > 2 * 60 * SECOND {
          retryDelay := 2 * 60 * SECOND;
        }
      }
      retryAt := Some(after + retryDelay);
    }
  }

  // ------------------------------------------------------------------ histories

  datatype Op<T> = Add(v: T) | Flush(force: bool, now: int, done: bool, after: int)

  function Step<T>(b: Batch<T>, op: Op<T>): Batch<T> {
    match op
    case Add(v) => Added(b, v)
    case Flush(force, now, done, after) => Flushed(b, force, now, done, after)
  }

  /** A fresh buffer after a history of additions and flushes. */
  function After<T>(max: nat, ops: seq<Op<T>>): Batch<T> {
    if ops == [] then Fresh(max) else Step(After(max, ops[..|ops| - 1]), ops[|ops| - 1])
  }

  predicate Tries<T>(max: nat, past: seq<Op<T>>, op: Op<T>) {
    op.Flush? && Attempts(After(max, past), op.force, op.now)
  }

  /** Every value added since the last finished upload, oldest first. */
  function AddedSince<T>(max: nat, ops: seq<Op<T>>): seq<T> {
    if ops == [] then []
    else
      var (past, op) := (ops[..|ops| - 1], ops[|ops| - 1]);
      if op.Add? then AddedSince(max, past) + [op.v]
      else if Tries(max, past, op) && op.done then []
      else AddedSince(max, past)
  }

  /** The instants at which uploads were attempted and failed since the last finished one. */
  function Failures<T>(max: nat, ops: seq<Op<T>>): seq<int> {
    if ops == [] then []
    else
      var (past, op) := (ops[..|ops| - 1], ops[|ops| - 1]);
      if !Tries(max, past, op) then Failures(max, past)
      else if op.done then []
      else Failures(max, past) + [op.now]
  }

  /** Between two finished uploads the buffer is exactly the newest max of the values added since. */
  lemma {:induction false} KeepsTheNewest<T>(max: nat, ops: seq<Op<T>>)
    ensures After(max, ops).buf == Newest(AddedSince(max, ops), max)
    ensures After(max, ops).max == max
  {
    if ops != [] {
      KeepsTheNewest(max, ops[..|ops| - 1]);
    }
  }

  function Pow2(k: nat): nat {
    if k == 0 then 1 else 2 * Pow2(k - 1)
  }

  /** The delay after k consecutive failures. */
  function DelayAfter(k: nat): int {
    if k == 0 then 0
    else if 5 * Pow2(k - 1) >= 120 then 120 * SECOND else 5 * Pow2(k - 1) * SECOND
  }

  lemma NextDelayIsNext(k: nat)
    ensures NextDelay(DelayAfter(k)) == DelayAfter(k + 1)
  {
    if k > 0 { PowAtLeast(k - 1, 0); }
  }

  /** After k consecutive failures the delay is min(5 * 2^(k-1), 120) seconds, 0 when no backoff instant is set. */
  lemma {:induction false} DelayCountsFailures<T>(max: nat, ops: seq<Op<T>>)
    ensures var b := After(max, ops);
            && b.retryDelay == DelayAfter(|Failures(max, ops)|)
            && (b.retryDelay == 0 <==> b.retryAt.None?)
            && (b.retryDelay == 0 <==> Failures(max, ops) == [])
  {
    if ops != [] {
      var past := ops[..|ops| - 1];
      DelayCountsFailures(max, past);
      NextDelayIsNext(|Failures(max, past)|);
      DelayGrows(|Failures(max, past)| + 1);
    }
  }

  /**
   * A failed attempt sets the instant to retry to the clock after it plus the delay; a finished one
   * clears delay and instant.
   */
  lemma RetryInstant<T>(max: nat, past: seq<Op<T>>, op: Op<T>)
    requires Tries(max, past, op)
    ensures After(max, past + [op]).retryAt
         == if op.done then None else Some(op.after + DelayAfter(|Failures(max, past)| + 1))
  {
    assert (past + [op])[..|past|] == past;
    DelayCountsFailures(max, past);
    NextDelayIsNext(|Failures(max, past)|);
  }

  lemma {:induction false} PowAtLeast(k: nat, j: nat)
    requires j <= k
    ensures Pow2(j) <= Pow2(k)
  {
    if j < k { PowAtLeast(k - 1, j); }
  }

  /** Lower bounds of the delay after k failures. */
  lemma DelayGrows(k: nat)
    ensures k >= 1 ==> DelayAfter(k) >= 5 * SECOND
    ensures k >= 2 ==> DelayAfter(k) >= 10 * SECOND
    ensures k >= 3 ==> DelayAfter(k) >= 20 * SECOND
    ensures k >= 4 ==> DelayAfter(k) >= 40 * SECOND
    ensures k >= 5 ==> DelayAfter(k) >= 80 * SECOND
    ensures k >= 6 ==> DelayAfter(k) == 120 * SECOND
  {
    assert Pow2(1) == 2 && Pow2(2) == 4 && Pow2(3) == 8 && Pow2(4) == 16 && Pow2(5) == 32;
    if k >= 1 {
      PowAtLeast(k - 1, if k >= 6 then 5 else k - 1);
    }
  }

  /** No flush was forced, and no clock reading of a flush went backwards. */
  ghost predicate Unforced<T>(ops: seq<Op<T>>) {
    forall i :: 0 <= i < |ops| && ops[i].Flush? ==> !ops[i].force && ops[i].now <= ops[i].after
  }

  /** Consecutive failures are at least the delay after the first of them apart. */
  ghost predicate Spread(f: seq<int>) {
    forall i :: 0 <= i < |f| - 1 ==> f[i + 1] >= f[i] + DelayAfter(i + 1)
  }

  lemma SpreadAppend(f: seq<int>, t: int)
    requires Spread(f) && (f != [] ==> t >= f[|f| - 1] + DelayAfter(|f|))
    ensures Spread(f + [t])
  {
  }

  lemma {:induction false} FailuresSpread<T>(max: nat, ops: seq<Op<T>>)
    requires Unforced(ops)
    ensures var f := Failures(max, ops);
            && Spread(f)
            && (f != [] ==> After(max, ops).retryAt.Some?
                            && After(max, ops).retryAt.value >= f[|f| - 1] + DelayAfter(|f|))
  {
    if ops != [] {
      var (past, op) := (ops[..|ops| - 1], ops[|ops| - 1]);
      var f := Failures(max, past);
      assert Unforced(past) && (op.Flush? ==> !op.force && op.now <= op.after);
      FailuresSpread(max, past);
      DelayCountsFailures(max, past);
      NextDelayIsNext(|f|);
      if Tries(max, past, op) && !op.done {
        SpreadAppend(f, op.now);
        assert Failures(max, ops) == f + [op.now];
      }
    }
  }

  lemma {:induction false} SpreadSpans(f: seq<int>, i: nat, k: nat)
    requires Spread(f) && k >= 6 && i + k <= |f|
    ensures f[i + k - 1] - f[i] >= (155 + 120 * (k - 6)) * SECOND
    decreases k
  {
    if k == 6 {
      DelayGrows(i + 1);
      DelayGrows(i + 2);
      DelayGrows(i + 3);
      DelayGrows(i + 4);
      DelayGrows(i + 5);
      assert f[i + 1] >= f[i] + DelayAfter(i + 1);
      assert f[i + 2] >= f[i + 1] + DelayAfter(i + 2);
      assert f[i + 3] >= f[i + 2] + DelayAfter(i + 3);
      assert f[i + 4] >= f[i + 3] + DelayAfter(i + 4);
      assert f[i + 5] >= f[i + 4] + DelayAfter(i + 5);
    } else {
      SpreadSpans(f, i, k - 1);
      DelayGrows(i + k - 1);
      assert f[i + k - 2 + 1] >= f[i + k - 2] + DelayAfter(i + k - 1);
    }
  }

  /** Any k >= 6 consecutive unforced failures span at least 155 + 120 (k - 6) seconds. */
  lemma BackoffSpan<T>(max: nat, ops: seq<Op<T>>, i: nat, k: nat)
    requires Unforced(ops) && k >= 6 && i + k <= |Failures(max, ops)|
    ensures Failures(max, ops)[i + k - 1] - Failures(max, ops)[i] >= (155 + 120 * (k - 6)) * SECOND
  {
    FailuresSpread(max, ops);
    SpreadSpans(Failures(max, ops), i, k);
  }
}
