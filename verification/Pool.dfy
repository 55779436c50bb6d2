/**
 * The probe limiter and everything that takes slots from it: fan-out calls of runJobs, serial
 * traceroutes and SNMP polls, any number of each, in any interleaving and with cancellation of
 * any call at any moment.
 *
 * What the probe of each job would return is fixed in advance (`outcome`) but unknown: a step
 * that runs a probe reveals it.
 */
module Pool {
  import opened Bags
  import opened Expansion

  /** scheduler.New: a limit that is not positive becomes 20. */
  function LimitFor(maxConcurrency: int): (n: nat)
    ensures n >= 1
    ensures maxConcurrency >= 1 ==> n == maxConcurrency
    ensures maxConcurrency < 1 ==> n == 20
  {
    if maxConcurrency <= 0 then 20 else maxConcurrency
  }

  /** A goroutine of runJobs; deferred calls run in reverse: Release first, then wg.Done. */
  datatype Worker =
    | Waiting            // in Acquire
    | Holding            // has a slot, probe running
    | Ran                // probe returned, result not sent yet
    | Sent               // result in the channel, slot still held
    | Released           // slot freed, before wg.Done
    | Refused            // Acquire gave up, before wg.Done
    | Finished(ok: bool)

  datatype FanPhase = Starting | Joining | Collecting | Done

  /** Where a runner that probes by itself stands: Freed before it keeps a result, Reported after it passed one on. */
  datatype SerialPhase = Acquiring | Probing | Probed | Reported | Freed | Over

  /**
   * Fan is a call of runJobs, Serial a traceroute over its expansions, Poll an SNMP poll, which
   * reports its conclusion while it still holds its slot.
   */
  datatype Call<R, Q> =
    | Fan(outcome: seq<R>, workers: seq<Worker>, wg: nat, ch: seq<R>, results: seq<R>, phase: FanPhase, cancelled: bool)
    | Serial(outcome: seq<R>, next: nat, results: seq<R>, at: SerialPhase, cancelled: bool)
    | Poll(conclusion: Q, reported: seq<Q>, at: SerialPhase, cancelled: bool)

  function NewFan<R, Q>(outcome: seq<R>): Call<R, Q> {
    Fan(outcome, [], 0, [], [], Starting, false)
  }

  function NewSerial<R, Q>(outcome: seq<R>): Call<R, Q> {
    Serial(outcome, 0, [], if outcome == [] then Over else Acquiring, false)
  }

  function NewPoll<R, Q>(conclusion: Q): Call<R, Q> {
    Poll(conclusion, [], Acquiring, false)
  }

  datatype Step =
    | Spawn | AllSpawned | Acquire(i: nat) | GiveUp(i: nat) | Probe(i: nat) | Send(i: nat)
    | Release(i: nat) | WgDone(i: nat) | Join | Receive | Return | Report | Cancel

  predicate Is<R, Q>(c: Call<R, Q>, i: nat, w: Worker) {
    c.Fan? && i < |c.workers| <= |c.outcome| && c.workers[i] == w
  }

  predicate At<R, Q>(c: Call<R, Q>, at: SerialPhase) {
    match c
    case Fan(_, _, _, _, _, _, _) => false
    case Serial(_, _, _, _, _) => c.next < |c.outcome| && c.at == at
    case Poll(_, _, _, _) => c.at == at
  }

  /** Goroutine i of the call stands in Acquire; a serial call or poll has the one goroutine 0. */
  predicate Waits<R, Q>(c: Call<R, Q>, i: nat) {
    Is(c, i, Waiting) || (i == 0 && At(c, Acquiring))
  }

  /** free: some slot of the limiter is not taken. */
  predicate Enabled<R, Q>(c: Call<R, Q>, step: Step, free: bool) {
    match step
    case Spawn => c.Fan? && c.phase == Starting && |c.workers| < |c.outcome|
    case AllSpawned => c.Fan? && c.phase == Starting && |c.workers| == |c.outcome|
    // With a free slot and a cancelled context both cases of the select are ready.
    case Acquire(i) => free && Waits(c, i)
    case GiveUp(i) => c.cancelled && Waits(c, i)
    case Probe(i) => Is(c, i, Holding) || (i == 0 && At(c, Probing))
    case Send(i) => Is(c, i, Ran) && |c.ch| < |c.outcome|
    case Release(i) => Is(c, i, Sent) || (i == 0 && At(c, if c.Serial? then Probed else Reported))
    case WgDone(i) => (Is(c, i, Released) || Is(c, i, Refused)) && c.wg > 0
    case Join => c.Fan? && c.phase == Joining && c.wg == 0
    case Receive => if c.Fan? then c.phase == Collecting && c.ch != [] else c.Serial? && At(c, Freed)
    case Return => c.Fan? && c.phase == Collecting && c.ch == []
    case Report => c.Poll? && c.at == Probed
    case Cancel => true
  }

  function SetWorker<R, Q>(c: Call<R, Q>, i: nat, w: Worker): Call<R, Q>
    requires c.Fan? && i < |c.workers|
  {
    c.(workers := c.workers[i := w])
  }

  function Apply<R, Q>(c: Call<R, Q>, step: Step, free: bool): Call<R, Q>
    requires Enabled(c, step, free)
  {
    match step
    case Spawn => c.(workers := c.workers + [Waiting], wg := c.wg + 1)
    case AllSpawned => c.(phase := Joining)
    case Acquire(i) => if c.Fan? then SetWorker(c, i, Holding) else c.(at := Probing)
    case GiveUp(i) => if c.Fan? then SetWorker(c, i, Refused) else c.(at := Over)
    case Probe(i) => if c.Fan? then SetWorker(c, i, Ran) else c.(at := Probed)
    case Send(i) => SetWorker(c, i, Sent).(ch := c.ch + [c.outcome[i]])
    case Release(i) =>
      if c.Fan? then SetWorker(c, i, Released) else c.(at := if c.Serial? then Freed else Over)
    case WgDone(i) => SetWorker(c, i, Finished(c.workers[i] == Released)).(wg := c.wg - 1)
    case Join => c.(phase := Collecting)
    case Receive =>
      if c.Fan? then c.(results := c.results + [c.ch[0]], ch := c.ch[1..])
      else c.(results := c.results + [c.outcome[c.next]], next := c.next + 1,
              at := if c.next + 1 == |c.outcome| then Over else Acquiring)
    case Return => c.(phase := Done)
    case Report => c.(reported := [c.conclusion], at := Reported)
    case Cancel => c.(cancelled := true)
  }

  function SlotChange(step: Step): int {
    if step.Acquire? then 1 else if step.Release? then -1 else 0
  }

  // ------------------------------------------------------------------ what one call keeps

  predicate HoldsSlot(w: Worker) { w == Holding || w == Ran || w == Sent }

  predicate HasSent(w: Worker) { w == Sent || w == Released || w == Finished(true) }

  predicate GaveUp(w: Worker) { w == Refused || w == Finished(false) }

  function Count(workers: seq<Worker>, p: Worker -> bool): nat {
    if workers == [] then 0 else (if p(workers[0]) then 1 else 0) + Count(workers[1..], p)
  }

  lemma {:induction false} CountUpdate(workers: seq<Worker>, i: nat, w: Worker, p: Worker -> bool)
    requires i < |workers|
    ensures Count(workers[i := w], p) + (if p(workers[i]) then 1 else 0) == Count(workers, p) + (if p(w) then 1 else 0)
  {
    if i == 0 {
      assert workers[i := w][1..] == workers[1..];
    } else {
      assert workers[i := w][1..] == workers[1..][i - 1 := w];
      CountUpdate(workers[1..], i - 1, w, p);
    }
  }

  lemma {:induction false} CountAppend(workers: seq<Worker>, w: Worker, p: Worker -> bool)
    ensures Count(workers + [w], p) == Count(workers, p) + (if p(w) then 1 else 0)
  {
    if workers == [] {
      assert workers + [w] == [w];
    } else {
      assert (workers + [w])[1..] == workers[1..] + [w];
      CountAppend(workers[1..], w, p);
    }
  }

  lemma {:induction false} CountWitness(workers: seq<Worker>, p: Worker -> bool)
    ensures Count(workers, p) <= |workers|
    ensures Count(workers, p) > 0 ==> exists i :: 0 <= i < |workers| && p(workers[i])
    ensures Count(workers, p) == 0 ==> forall i :: 0 <= i < |workers| ==> !p(workers[i])
    ensures Count(workers, p) == |workers| ==> forall i :: 0 <= i < |workers| ==> p(workers[i])
  {
    if workers != [] {
      CountWitness(workers[1..], p);
      var rest := workers[1..];
      assert forall i :: 0 <= i < |rest| ==> rest[i] == workers[i + 1];
      if Count(rest, p) > 0 {
        var i :| 0 <= i < |rest| && p(rest[i]);
        assert p(workers[i + 1]);
      }
      assert p(workers[0]) || !p(workers[0]);
    }
  }

  predicate Unfinished(w: Worker) { !w.Finished? }

  predicate RunnerHolds(at: SerialPhase) { at == Probing || at == Probed || at == Reported }

  /** Slots the call occupies. */
  function Held<R, Q>(c: Call<R, Q>): nat {
    if c.Fan? then Count(c.workers, HoldsSlot) else if RunnerHolds(c.at) then 1 else 0
  }

  /** The outcome of a worker once its result is sent. */
  function Contribution<R>(outcome: R, w: Worker): multiset<R> {
    if HasSent(w) then multiset{outcome} else multiset{}
  }

  function SentBags<R>(outcome: seq<R>, workers: seq<Worker>): seq<multiset<R>>
    requires |workers| <= |outcome|
  {
    seq(|workers|, j requires 0 <= j < |workers| => Contribution(outcome[j], workers[j]))
  }

  /** The outcomes of those of the first n jobs whose worker has sent its result. */
  function SentBag<R>(outcome: seq<R>, workers: seq<Worker>, n: nat): multiset<R>
    requires n <= |workers| <= |outcome|
  {
    Sum(SentBags(outcome, workers), n)
  }

  lemma SentBefore<R>(outcome: seq<R>, workers: seq<Worker>, moved: seq<Worker>, n: nat)
    requires n <= |workers| <= |outcome| && n <= |moved| <= |outcome|
    requires forall j :: 0 <= j < n ==> HasSent(workers[j]) == HasSent(moved[j])
    ensures SentBag(outcome, moved, n) == SentBag(outcome, workers, n)
  {
    SumSame(SentBags(outcome, workers), SentBags(outcome, moved), n);
  }

  lemma SentUpdate<R>(outcome: seq<R>, workers: seq<Worker>, i: nat, w: Worker)
    requires i < |workers| <= |outcome| && !HasSent(workers[i])
    ensures SentBag(outcome, workers[i := w], |workers|)
         == SentBag(outcome, workers, |workers|) + Contribution(outcome[i], w)
  {
    var (bags, bags') := (SentBags(outcome, workers), SentBags(outcome, workers[i := w]));
    assert bags'[i] == bags[i] + Contribution(outcome[i], w);
    SumGrows(bags, bags', i, Contribution(outcome[i], w), |workers|);
  }

  lemma SentByNewcomer<R>(outcome: seq<R>, workers: seq<Worker>)
    requires |workers| < |outcome|
    ensures SentBag(outcome, workers + [Waiting], |workers| + 1) == SentBag(outcome, workers, |workers|)
  {
    SumAppendEmpty(SentBags(outcome, workers), SentBags(outcome, workers + [Waiting]));
  }

  lemma SizeOfSum<R>(a: multiset<R>, b: multiset<R>)
    ensures |a + b| == |a| + |b|
  {
  }

  lemma {:induction false} SentLength<R>(outcome: seq<R>, workers: seq<Worker>, n: nat)
    requires n <= |workers| <= |outcome|
    ensures |SentBag(outcome, workers, n)| == Count(workers[..n], HasSent)
  {
    if n > 0 {
      SentLength(outcome, workers, n - 1);
      var (front, w) := (workers[..n - 1], workers[n - 1]);
      assert workers[..n] == front + [w];
      CountAppend(front, w, HasSent);
      SizeOfSum(SentBag(outcome, workers, n - 1), Contribution(outcome[n - 1], w));
    }
  }

  ghost predicate FanInv<R, Q>(c: Call<R, Q>)
    requires c.Fan?
  {
    && |c.workers| <= |c.outcome|
    && (c.phase != Starting ==> |c.workers| == |c.outcome|)
    && c.wg == Count(c.workers, Unfinished)
    && (c.phase == Collecting || c.phase == Done ==> c.wg == 0)
    && (c.phase == Starting || c.phase == Joining ==> c.results == [])
    && (c.phase == Done ==> c.ch == [])
    && multiset(c.results + c.ch) == SentBag(c.outcome, c.workers, |c.workers|)
    && (!c.cancelled ==> Count(c.workers, GaveUp) == 0)
  }

  ghost predicate SerialInv<R, Q>(c: Call<R, Q>)
    requires c.Serial?
  {
    && c.next <= |c.outcome|
    && c.results == c.outcome[..c.next]
    && (c.next == |c.outcome| ==> c.at == Over)
    && (c.at == Over && c.next < |c.outcome| ==> c.cancelled)
    && c.at != Reported
  }

  ghost predicate PollInv<R, Q>(c: Call<R, Q>)
    requires c.Poll?
  {
    && c.at != Freed
    && (c.at == Acquiring || RunnerHolds(c.at) ==> c.reported == if c.at == Reported then [c.conclusion] else [])
    && (c.at == Over ==> c.reported == [c.conclusion] || (c.reported == [] && c.cancelled))
  }

  ghost predicate CallInv<R, Q>(c: Call<R, Q>) {
    match c
    case Fan(_, _, _, _, _, _, _) => FanInv(c)
    case Serial(_, _, _, _, _) => SerialInv(c)
    case Poll(_, _, _, _) => PollInv(c)
  }

  lemma AppendBag<R>(sent: seq<R>, ch: seq<R>, x: R)
    ensures multiset(sent + (ch + [x])) == multiset(sent + ch) + multiset{x}
  {
    assert sent + (ch + [x]) == (sent + ch) + [x];
  }

  lemma BagMoves<R>(outcome: seq<R>, workers: seq<Worker>, i: nat, w: Worker,
                    sent: seq<R>, ch: seq<R>, ch': seq<R>)
    requires i < |workers| <= |outcome| && (HasSent(workers[i]) ==> HasSent(w))
    requires multiset(sent + ch) == SentBag(outcome, workers, |workers|)
    requires ch' == if HasSent(w) && !HasSent(workers[i]) then ch + [outcome[i]] else ch
    ensures multiset(sent + ch') == SentBag(outcome, workers[i := w], |workers|)
  {
    if HasSent(w) == HasSent(workers[i]) {
      SentBefore(outcome, workers, workers[i := w], |workers|);
    } else {
      SentUpdate(outcome, workers, i, w);
      AppendBag(sent, ch, outcome[i]);
      assert Contribution(outcome[i], w) == multiset{outcome[i]};
    }
  }

  /** One worker moves on; the channel gains the worker's outcome when the move is a send. */
  lemma WorkerMoves<R, Q>(c: Call<R, Q>, i: nat, w: Worker, c': Call<R, Q>)
    requires c.Fan? && FanInv(c) && i < |c.workers| && !c.workers[i].Finished?
    requires c'.Fan? && c' == c.(workers := c.workers[i := w], ch := c'.ch, wg := c'.wg)
    requires HasSent(c.workers[i]) ==> HasSent(w)
    requires c'.ch == if HasSent(w) && !HasSent(c.workers[i]) then c.ch + [c.outcome[i]] else c.ch
    requires c'.wg == if w.Finished? then c.wg - 1 else c.wg
    requires GaveUp(w) ==> GaveUp(c.workers[i]) || c.cancelled
    requires c.phase == Starting || c.phase == Joining
    ensures FanInv(c')
    ensures Held(c') == Held(c) + (if HoldsSlot(w) then 1 else 0) - (if HoldsSlot(c.workers[i]) then 1 else 0)
  {
    CountUpdate(c.workers, i, w, Unfinished);
    CountUpdate(c.workers, i, w, HoldsSlot);
    CountUpdate(c.workers, i, w, GaveUp);
    BagMoves(c.outcome, c.workers, i, w, c.results, c.ch, c'.ch);
  }

  lemma UnfinishedIsEarly<R, Q>(c: Call<R, Q>, i: nat)
    requires c.Fan? && FanInv(c) && i < |c.workers| && !c.workers[i].Finished?
    ensures c.phase == Starting || c.phase == Joining
  {
    CountWitness(c.workers, Unfinished);
    assert Unfinished(c.workers[i]);
  }

  lemma SpawnKeepsInv<R, Q>(c: Call<R, Q>)
    requires c.Fan? && FanInv(c) && Enabled(c, Spawn, true)
    ensures FanInv(Apply(c, Spawn, true)) && Held(Apply(c, Spawn, true)) == Held(c)
  {
    CountAppend(c.workers, Waiting, Unfinished);
    CountAppend(c.workers, Waiting, HoldsSlot);
    CountAppend(c.workers, Waiting, GaveUp);
    SentByNewcomer(c.outcome, c.workers);
  }

  lemma AcquirePhaseKeepsInv<R, Q>(c: Call<R, Q>, step: Step, free: bool)
    requires c.Fan? && FanInv(c) && Enabled(c, step, free)
    requires step.Acquire? || step.GiveUp? || step.Probe?
    ensures FanInv(Apply(c, step, free)) && Held(Apply(c, step, free)) == Held(c) + SlotChange(step)
  {
    UnfinishedIsEarly(c, step.i);
    var w := if step.Acquire? then Holding else if step.GiveUp? then Refused else Ran;
    WorkerMoves(c, step.i, w, Apply(c, step, free));
  }

  lemma SendKeepsInv<R, Q>(c: Call<R, Q>, i: nat)
    requires c.Fan? && FanInv(c) && Enabled(c, Send(i), true)
    ensures FanInv(Apply(c, Send(i), true)) && Held(Apply(c, Send(i), true)) == Held(c)
  {
    UnfinishedIsEarly(c, i);
    WorkerMoves(c, i, Sent, Apply(c, Send(i), true));
  }

  lemma ReleaseKeepsInv<R, Q>(c: Call<R, Q>, i: nat, free: bool)
    requires c.Fan? && FanInv(c) && Enabled(c, Release(i), free)
    ensures FanInv(Apply(c, Release(i), free)) && Held(Apply(c, Release(i), free)) == Held(c) - 1
  {
    UnfinishedIsEarly(c, i);
    WorkerMoves(c, i, Released, Apply(c, Release(i), free));
  }

  lemma WgDoneKeepsInv<R, Q>(c: Call<R, Q>, i: nat, free: bool)
    requires c.Fan? && FanInv(c) && Enabled(c, WgDone(i), free)
    ensures FanInv(Apply(c, WgDone(i), free)) && Held(Apply(c, WgDone(i), free)) == Held(c)
  {
    UnfinishedIsEarly(c, i);
    WorkerMoves(c, i, Finished(c.workers[i] == Released), Apply(c, WgDone(i), free));
  }

  lemma ReceiveKeepsInv<R, Q>(c: Call<R, Q>)
    requires c.Fan? && FanInv(c) && Enabled(c, Receive, true)
    ensures FanInv(Apply(c, Receive, true)) && Held(Apply(c, Receive, true)) == Held(c)
  {
    assert c.results + [c.ch[0]] + c.ch[1..] == c.results + c.ch;
  }

  lemma SerialStepKeepsInv<R, Q>(c: Call<R, Q>, step: Step, free: bool)
    requires c.Serial? && SerialInv(c) && Enabled(c, step, free)
    ensures Apply(c, step, free).Serial? && SerialInv(Apply(c, step, free))
    ensures Held(Apply(c, step, free)) == Held(c) + SlotChange(step)
  {
  }

  lemma PhaseStepKeepsInv<R, Q>(c: Call<R, Q>, step: Step, free: bool)
    requires c.Fan? && FanInv(c) && Enabled(c, step, free)
    requires step.AllSpawned? || step.Join? || step.Return? || step.Cancel?
    ensures FanInv(Apply(c, step, free)) && Held(Apply(c, step, free)) == Held(c)
  {
  }

  lemma FanStepKeepsInv<R, Q>(c: Call<R, Q>, step: Step, free: bool)
    requires c.Fan? && FanInv(c) && Enabled(c, step, free)
    ensures FanInv(Apply(c, step, free)) && Held(Apply(c, step, free)) == Held(c) + SlotChange(step)
  {
    if step.Acquire? || step.GiveUp? || step.Probe? {
      AcquirePhaseKeepsInv(c, step, free);
    } else if step.Spawn? {
      SpawnKeepsInv(c);
    } else if step.Send? {
      SendKeepsInv(c, step.i);
    } else if step.Release? {
      ReleaseKeepsInv(c, step.i, free);
    } else if step.WgDone? {
      WgDoneKeepsInv(c, step.i, free);
    } else if step.Receive? {
      ReceiveKeepsInv(c);
    } else {
      PhaseStepKeepsInv(c, step, free);
    }
  }

  lemma PollStepKeepsInv<R, Q>(c: Call<R, Q>, step: Step, free: bool)
    requires c.Poll? && PollInv(c) && Enabled(c, step, free)
    ensures Apply(c, step, free).Poll? && PollInv(Apply(c, step, free))
    ensures Held(Apply(c, step, free)) == Held(c) + SlotChange(step)
  {
  }

  lemma CallStepKeepsInv<R, Q>(c: Call<R, Q>, step: Step, free: bool)
    requires CallInv(c) && Enabled(c, step, free)
    ensures CallInv(Apply(c, step, free))
    ensures Held(Apply(c, step, free)) == Held(c) + SlotChange(step)
  {
    if c.Fan? {
      FanStepKeepsInv(c, step, free);
    } else if c.Serial? {
      SerialStepKeepsInv(c, step, free);
    } else {
      PollStepKeepsInv(c, step, free);
    }
  }

  lemma RanFindsRoom<R, Q>(c: Call<R, Q>, i: nat)
    requires c.Fan? && FanInv(c) && Is(c, i, Ran)
    ensures |c.ch| < |c.outcome| && (c.phase == Starting || c.phase == Joining)
  {
    UnfinishedIsEarly(c, i);
    SentLength(c.outcome, c.workers, |c.workers|);
    assert c.workers[..|c.workers|] == c.workers;
    CountWitness(c.workers, HasSent);
    assert |multiset(c.results + c.ch)| == |c.ch|;
    assert |SentBag(c.outcome, c.workers, |c.workers|)| == Count(c.workers, HasSent);
  }

  // ------------------------------------------------------------------ the shared limiter

  datatype System<R, Q> = System(limit: nat, occupied: nat, calls: seq<Call<R, Q>>, acquired: nat, released: nat)

  datatype Event<R, Q> =
    | StartFan(outcome: seq<R>) | StartSerial(outcome: seq<R>) | StartPoll(conclusion: Q) | Act(k: nat, step: Step)

  predicate Possible<R, Q>(y: System<R, Q>, e: Event<R, Q>) {
    match e
    case StartFan(_) => true
    case StartSerial(_) => true
    case StartPoll(_) => true
    case Act(k, step) =>
      && k < |y.calls| && Enabled(y.calls[k], step, y.occupied < y.limit)
      // A release takes a token out of the limiter channel; on an empty channel it would block.
      && (step.Release? ==> y.occupied > 0)
  }

  function After<R, Q>(y: System<R, Q>, e: Event<R, Q>): System<R, Q>
    requires Possible(y, e)
  {
    match e
    case StartFan(outcome) => y.(calls := y.calls + [NewFan(outcome)])
    case StartSerial(outcome) => y.(calls := y.calls + [NewSerial(outcome)])
    case StartPoll(conclusion) => y.(calls := y.calls + [NewPoll(conclusion)])
    case Act(k, step) =>
      y.(calls := y.calls[k := Apply(y.calls[k], step, y.occupied < y.limit)],
         occupied := y.occupied + SlotChange(step),
         acquired := y.acquired + (if step.Acquire? then 1 else 0),
         released := y.released + (if step.Release? then 1 else 0))
  }

  function TotalHeld<R, Q>(calls: seq<Call<R, Q>>): nat {
    if calls == [] then 0 else Held(calls[0]) + TotalHeld(calls[1..])
  }

  lemma {:induction false} TotalUpdate<R, Q>(calls: seq<Call<R, Q>>, k: nat, c: Call<R, Q>)
    requires k < |calls|
    ensures TotalHeld(calls[k := c]) + Held(calls[k]) == TotalHeld(calls) + Held(c)
  {
    if k == 0 {
      assert calls[k := c][1..] == calls[1..];
    } else {
      assert calls[k := c][1..] == calls[1..][k - 1 := c];
      TotalUpdate(calls[1..], k - 1, c);
    }
  }

  lemma {:induction false} TotalAppend<R, Q>(calls: seq<Call<R, Q>>, c: Call<R, Q>)
    ensures TotalHeld(calls + [c]) == TotalHeld(calls) + Held(c)
  {
    if calls == [] {
      assert calls + [c] == [c];
    } else {
      assert (calls + [c])[1..] == calls[1..] + [c];
      TotalAppend(calls[1..], c);
    }
  }

  ghost predicate Inv<R, Q>(y: System<R, Q>) {
    && (forall k :: 0 <= k < |y.calls| ==> CallInv(y.calls[k]))
    && y.occupied == TotalHeld(y.calls) <= y.limit
    && y.acquired == y.released + y.occupied
  }

  lemma StartKeepsInv<R, Q>(y: System<R, Q>, c: Call<R, Q>)
    requires Inv(y) && CallInv(c) && Held(c) == 0
    ensures Inv(y.(calls := y.calls + [c]))
  {
    TotalAppend(y.calls, c);
  }

  lemma ActKeepsInv<R, Q>(y: System<R, Q>, k: nat, step: Step)
    requires Inv(y) && Possible(y, Act(k, step))
    ensures Inv(After(y, Act(k, step)))
  {
    var c := y.calls[k];
    CallStepKeepsInv(c, step, y.occupied < y.limit);
    TotalUpdate(y.calls, k, Apply(c, step, y.occupied < y.limit));
  }

  lemma EventKeepsInv<R, Q>(y: System<R, Q>, e: Event<R, Q>)
    requires Inv(y) && Possible(y, e)
    ensures Inv(After(y, e))
  {
    match e
    case StartFan(outcome) => StartKeepsInv(y, NewFan(outcome));
    case StartSerial(outcome) => StartKeepsInv(y, NewSerial(outcome));
    case StartPoll(conclusion) => StartKeepsInv(y, NewPoll(conclusion));
    case Act(k, step) => ActKeepsInv(y, k, step);
  }

  predicate Legal<R, Q>(y: System<R, Q>, events: seq<Event<R, Q>>)
    decreases events
  {
    events == [] || (Possible(y, events[0]) && Legal(After(y, events[0]), events[1..]))
  }

  function Exec<R, Q>(y: System<R, Q>, events: seq<Event<R, Q>>): System<R, Q>
    requires Legal(y, events)
    decreases events
  {
    if events == [] then y else Exec(After(y, events[0]), events[1..])
  }

  lemma {:induction false} RunKeepsInv<R, Q>(y: System<R, Q>, events: seq<Event<R, Q>>)
    requires Inv(y) && Legal(y, events)
    ensures Inv(Exec(y, events))
    decreases events
  {
    if events != [] {
      EventKeepsInv(y, events[0]);
      RunKeepsInv(After(y, events[0]), events[1..]);
    }
  }

  function Empty<R, Q>(limit: nat): System<R, Q> {
    System(limit, 0, [], 0, 0)
  }

  lemma EmptyHasInv<R, Q>(limit: nat)
    ensures Inv<R, Q>(Empty(limit))
  {
  }

  /**
   * In every run the occupied slots are exactly those of the probes holding one, never more
   * than the limit, and every slot acquired is released once or still held.
   */
  lemma SlotsAreHolders<R, Q>(limit: nat, events: seq<Event<R, Q>>)
    requires Legal(Empty(limit), events)
    ensures var y := Exec(Empty(limit), events);
            && y.occupied == TotalHeld(y.calls) <= limit
            && y.acquired == y.released + TotalHeld(y.calls)
  {
    RunKeepsInv(Empty(limit), events);
    LimitIsConstant(Empty(limit), events);
  }

  lemma {:induction false} LimitIsConstant<R, Q>(y: System<R, Q>, events: seq<Event<R, Q>>)
    requires Legal(y, events)
    ensures Exec(y, events).limit == y.limit
    decreases events
  {
    if events != [] { LimitIsConstant(After(y, events[0]), events[1..]); }
  }

  // ------------------------------------------------------------------ one slot for each goroutine

  /** The slots goroutine i of the call holds. */
  function Slots<R, Q>(c: Call<R, Q>, i: nat): nat {
    if c.Fan? then (if i < |c.workers| && HoldsSlot(c.workers[i]) then 1 else 0)
    else if i == 0 && RunnerHolds(c.at) then 1
    else 0
  }

  function SlotsIn<R, Q>(y: System<R, Q>, k: nat, i: nat): nat {
    if k < |y.calls| then Slots(y.calls[k], i) else 0
  }

  function Change<R, Q>(e: Event<R, Q>, k: nat, i: nat): int {
    if e.Act? && e.k == k && e.step == Acquire(i) then 1
    else if e.Act? && e.k == k && e.step == Release(i) then -1
    else 0
  }

  /** How often goroutine i of call k has acquired, less how often it has released. */
  function Balance<R, Q>(events: seq<Event<R, Q>>, k: nat, i: nat): int {
    if events == [] then 0 else Change(events[0], k, i) + Balance(events[1..], k, i)
  }

  lemma StepMovesSlot<R, Q>(c: Call<R, Q>, step: Step, free: bool, i: nat)
    requires Enabled(c, step, free)
    ensures Slots(Apply(c, step, free), i)
         == Slots(c, i) + (if step == Acquire(i) then 1 else if step == Release(i) then -1 else 0)
  {
  }

  lemma EventMovesSlot<R, Q>(y: System<R, Q>, e: Event<R, Q>, k: nat, i: nat)
    requires Possible(y, e)
    ensures SlotsIn(After(y, e), k, i) == SlotsIn(y, k, i) + Change(e, k, i)
  {
    if e.Act? { StepMovesSlot(y.calls[e.k], e.step, y.occupied < y.limit, i); }
  }

  lemma {:induction false} BalanceIsHeld<R, Q>(y: System<R, Q>, events: seq<Event<R, Q>>, k: nat, i: nat)
    requires Legal(y, events)
    ensures SlotsIn(Exec(y, events), k, i) == SlotsIn(y, k, i) + Balance(events, k, i)
    decreases events
  {
    if events != [] {
      EventMovesSlot(y, events[0], k, i);
      BalanceIsHeld(After(y, events[0]), events[1..], k, i);
    }
  }

  /**
   * In every run each goroutine has at most one slot: it has acquired as often as it has released,
   * or once more while it holds the slot; and a goroutine that waits for a slot holds none.
   */
  lemma OneSlotEach<R, Q>(limit: nat, events: seq<Event<R, Q>>, k: nat, i: nat)
    requires Legal(Empty(limit), events)
    ensures var y := Exec(Empty(limit), events);
            && 0 <= Balance(events, k, i) <= 1
            && Balance(events, k, i) == SlotsIn(y, k, i)
            && (k < |y.calls| && Waits(y.calls[k], i) ==> Balance(events, k, i) == 0)
  {
    BalanceIsHeld(Empty(limit), events, k, i);
  }

  // ------------------------------------------------------------------ nothing gets stuck

  /**
   * A send on the result channel never blocks: in every run it has room whenever a worker is about
   * to send, and the channel is not closed yet.
   */
  lemma SendNeverBlocks<R, Q>(limit: nat, events: seq<Event<R, Q>>, k: nat, i: nat)
    requires Legal(Empty(limit), events)
    requires k < |Exec(Empty(limit), events).calls| && Is(Exec(Empty(limit), events).calls[k], i, Ran)
    ensures var y := Exec(Empty(limit), events);
            Possible(y, Act(k, Send(i))) && (y.calls[k].phase == Starting || y.calls[k].phase == Joining)
  {
    RunKeepsInv(Empty(limit), events);
    var c := Exec(Empty(limit), events).calls[k];
    assert CallInv(c);
    RanFindsRoom(c, i);
  }

  predicate Complete<R, Q>(c: Call<R, Q>) {
    if c.Fan? then c.phase == Done else c.at == Over
  }

  /** A step other than a cancellation that the call can take without waiting for a slot. */
  ghost predicate CanMove<R, Q>(c: Call<R, Q>, free: bool) {
    exists step: Step :: !step.Cancel? && Enabled(c, step, free)
  }

  /** What an unfinished worker does next. */
  function NextStep(w: Worker, i: nat): Step {
    match w
    case Waiting => Acquire(i)
    case Holding => Probe(i)
    case Ran => Send(i)
    case Sent => Release(i)
    case _ => WgDone(i)
  }

  lemma HolderCanMove<R, Q>(c: Call<R, Q>, free: bool)
    requires CallInv(c) && Held(c) > 0
    ensures CanMove(c, free)
  {
    if c.Fan? {
      CountWitness(c.workers, HoldsSlot);
      var i :| 0 <= i < |c.workers| && HoldsSlot(c.workers[i]);
      if c.workers[i] == Ran { RanFindsRoom(c, i); }
      assert Enabled(c, NextStep(c.workers[i], i), free);
    } else {
      var next := if c.at == Probing then Probe(0) else if c.Poll? && c.at == Probed then Report else Release(0);
      assert Enabled(c, next, free);
    }
  }

  lemma WithSlotCanMove<R, Q>(c: Call<R, Q>)
    requires CallInv(c) && !Complete(c)
    ensures CanMove(c, true)
  {
    if !c.Fan? {
      if c.at == Acquiring || c.at == Freed {
        assert Enabled(c, if c.at == Acquiring then Acquire(0) else Receive, true);
      } else {
        HolderCanMove(c, true);
      }
    } else if c.phase == Starting {
      assert Enabled(c, if |c.workers| < |c.outcome| then Spawn else AllSpawned, true);
    } else if c.phase == Collecting {
      assert Enabled(c, if c.ch == [] then Return else Receive, true);
    } else {
      JoiningCanMove(c);
    }
  }

  lemma JoiningCanMove<R, Q>(c: Call<R, Q>)
    requires c.Fan? && FanInv(c) && c.phase == Joining
    ensures CanMove(c, true)
  {
    if c.wg == 0 {
      assert Enabled(c, Join, true);
    } else {
      CountWitness(c.workers, Unfinished);
      var i :| 0 <= i < |c.workers| && Unfinished(c.workers[i]);
      if c.workers[i] == Ran { RanFindsRoom(c, i); }
      assert Enabled(c, NextStep(c.workers[i], i), true);
    }
  }

  lemma {:induction false} SomeoneHolds<R, Q>(calls: seq<Call<R, Q>>)
    requires TotalHeld(calls) > 0
    ensures exists k :: 0 <= k < |calls| && Held(calls[k]) > 0
  {
    if Held(calls[0]) == 0 {
      SomeoneHolds(calls[1..]);
      var k :| 0 <= k < |calls[1..]| && Held(calls[1..][k]) > 0;
      assert Held(calls[k + 1]) > 0;
    }
  }

  lemma ReleaseHeld<R, Q>(calls: seq<Call<R, Q>>, k: nat, i: nat, free: bool)
    requires k < |calls| && Enabled(calls[k], Release(i), free)
    ensures TotalHeld(calls) > 0
  {
    var c := calls[k];
    if c.Fan? {
      CountWitness(c.workers, HoldsSlot);
      assert HoldsSlot(c.workers[i]);
    }
    assert Held(c) > 0;
    TotalUpdate(calls, k, NewFan([]));
  }

  /** Some call can take a step: call k itself when a slot is free, else a call that holds one. */
  ghost predicate Progresses<R, Q>(y: System<R, Q>, k: nat) {
    exists j, step: Step ::
      0 <= j < |y.calls| && !step.Cancel? && Possible(y, Act(j, step))
      && (y.occupied < y.limit ==> j == k)
      && (y.occupied >= y.limit ==> Held(y.calls[j]) > 0)
  }

  lemma SomeoneMoves<R, Q>(y: System<R, Q>, k: nat)
    requires Inv(y) && y.limit >= 1 && k < |y.calls| && !Complete(y.calls[k])
    ensures Progresses(y, k)
  {
    var free := y.occupied < y.limit;
    var j := k;
    if free {
      WithSlotCanMove(y.calls[k]);
    } else {
      SomeoneHolds(y.calls);
      j :| 0 <= j < |y.calls| && Held(y.calls[j]) > 0;
      HolderCanMove(y.calls[j], free);
    }
    var step: Step :| !step.Cancel? && Enabled(y.calls[j], step, free);
    if step.Release? { ReleaseHeld(y.calls, j, step.i, free); }
    assert Possible(y, Act(j, step));
  }

  /**
   * The pool never deadlocks, whatever limit is configured: in every run, while some call is
   * incomplete, either a slot is free and that call can move, or the slots are all held and some
   * holder can move.
   */
  lemma NoDeadlock<R, Q>(maxConcurrency: int, events: seq<Event<R, Q>>, k: nat)
    requires var y := Empty(LimitFor(maxConcurrency));
             && Legal(y, events) && k < |Exec(y, events).calls| && !Complete(Exec(y, events).calls[k])
    ensures Progresses(Exec(Empty(LimitFor(maxConcurrency)), events), k)
  {
    var limit := LimitFor(maxConcurrency);
    RunKeepsInv(Empty(limit), events);
    LimitIsConstant(Empty(limit), events);
    SomeoneMoves(Exec(Empty(limit), events), k);
  }

  lemma DoneIsFinal<R, Q>(c: Call<R, Q>, step: Step, free: bool)
    requires c.Fan? && FanInv(c) && c.phase == Done && Enabled(c, step, free)
    ensures step == Cancel
  {
    AllWorkersFinished(c);
  }

  /** A call that has returned takes no further step; only its context may still be cancelled. */
  lemma CompleteIsFinal<R, Q>(c: Call<R, Q>, step: Step, free: bool)
    requires CallInv(c) && Complete(c) && Enabled(c, step, free)
    ensures step == Cancel && Apply(c, step, free) == c.(cancelled := true)
  {
    if c.Fan? { DoneIsFinal(c, step, free); }
  }

  // ------------------------------------------------------------------ runJobs as a sequential map

  /** The outcomes of those of the first n jobs that acquired a slot, in job order. */
  function Acquired<R>(outcome: seq<R>, workers: seq<Worker>, n: nat): seq<R>
    requires n <= |workers| <= |outcome|
  {
    if n == 0 then []
    else Acquired(outcome, workers, n - 1) + (if workers[n - 1] == Finished(true) then [outcome[n - 1]] else [])
  }

  lemma FinishedTail<R>(front: seq<R>, outcome: R, w: Worker)
    requires w.Finished?
    ensures multiset(front + (if w == Finished(true) then [outcome] else []))
         == multiset(front) + Contribution(outcome, w)
  {
    if !w.ok { assert front + [] == front; }
  }

  lemma {:induction false} AllFinishedSent<R>(outcome: seq<R>, workers: seq<Worker>, n: nat)
    requires n <= |workers| <= |outcome|
    requires forall i :: 0 <= i < |workers| ==> workers[i].Finished?
    ensures SentBag(outcome, workers, n) == multiset(Acquired(outcome, workers, n))
  {
    if n > 0 {
      AllFinishedSent(outcome, workers, n - 1);
      FinishedTail(Acquired(outcome, workers, n - 1), outcome[n - 1], workers[n - 1]);
    }
  }

  lemma {:induction false} AllAcquired<R>(outcome: seq<R>, workers: seq<Worker>, n: nat)
    requires n <= |workers| <= |outcome|
    requires forall i :: 0 <= i < |workers| ==> workers[i] == Finished(true)
    ensures Acquired(outcome, workers, n) == outcome[..n]
  {
    if n > 0 { AllAcquired(outcome, workers, n - 1); }
  }

  lemma AllWorkersFinished<R, Q>(c: Call<R, Q>)
    requires c.Fan? && FanInv(c) && c.phase == Done
    ensures forall i :: 0 <= i < |c.workers| ==> c.workers[i].Finished?
    ensures !c.cancelled ==> forall i :: 0 <= i < |c.workers| ==> c.workers[i] == Finished(true)
  {
    CountWitness(c.workers, Unfinished);
    assert forall i :: 0 <= i < |c.workers| ==> !Unfinished(c.workers[i]);
    if !c.cancelled {
      CountWitness(c.workers, GaveUp);
      assert forall i :: 0 <= i < |c.workers| ==> !GaveUp(c.workers[i]);
    }
  }

  /**
   * When runJobs returns, its results are a permutation of the outcomes of exactly the jobs that
   * acquired a slot, each once; without cancellation, of all jobs.
   */
  lemma RunJobsIsSequentialMap<R, Q>(c: Call<R, Q>)
    requires c.Fan? && FanInv(c) && c.phase == Done
    ensures multiset(c.results) == multiset(Acquired(c.outcome, c.workers, |c.workers|))
    ensures !c.cancelled ==> multiset(c.results) == multiset(c.outcome) && |c.results| == |c.outcome|
  {
    AllWorkersFinished(c);
    AllFinishedSent(c.outcome, c.workers, |c.workers|);
    assert c.results + c.ch == c.results;
    if !c.cancelled {
      AllAcquired(c.outcome, c.workers, |c.workers|);
      assert c.outcome[..|c.workers|] == c.outcome;
      assert |multiset(c.results)| == |multiset(c.outcome)|;
    }
  }

  /** A serial call returns the outcomes of a prefix of its jobs, all of them unless it was cancelled. */
  lemma SerialIsPrefix<R, Q>(c: Call<R, Q>)
    requires c.Serial? && SerialInv(c) && c.at == Over
    ensures c.results <= c.outcome
    ensures !c.cancelled ==> c.results == c.outcome
  {
  }

  /** left is the bag of the outcomes not sent among the first n. */
  lemma {:induction false} SentAndLeft<R>(outcome: seq<R>, workers: seq<Worker>, n: nat) returns (left: multiset<R>)
    requires n <= |workers| <= |outcome|
    ensures multiset(outcome[..n]) == SentBag(outcome, workers, n) + left
  {
    if n == 0 {
      left := multiset{};
    } else {
      var x := multiset{outcome[n - 1]};
      var before := SentAndLeft(outcome, workers, n - 1);
      var sent := SentBag(outcome, workers, n - 1);
      OneMoreInBag(outcome, n - 1);
      if HasSent(workers[n - 1]) {
        left := before;
        SwapLast(sent, before, x);
      } else {
        left := before + x;
        NothingMore(sent);
        Regroup(sent, before, x);
      }
    }
  }

  /** Any call that has returned results returns only outcomes of its jobs, all unless it was cancelled. */
  lemma ReturnedResults<R, Q>(c: Call<R, Q>)
    requires CallInv(c) && !c.Poll? && Complete(c)
    ensures multiset(c.results) <= multiset(c.outcome)
    ensures !c.cancelled ==> multiset(c.results) == multiset(c.outcome)
  {
    if c.Fan? {
      RunJobsIsSequentialMap(c);
      assert c.results + c.ch == c.results;
      var left := SentAndLeft(c.outcome, c.workers, |c.workers|);
      assert c.outcome[..|c.workers|] == c.outcome;
      PartBelow(multiset(c.results), left);
    } else {
      assert c.outcome == c.results + c.outcome[c.next..];
    }
  }

  // ------------------------------------------------------------------ calls end

  /** An upper bound on the steps a goroutine of runJobs, with its result, still causes. */
  function WorkerCost(w: Worker): nat {
    match w
    case Waiting => 7
    case Holding => 6
    case Ran => 5
    case Sent => 3
    case Released => 2
    case Refused => 2
    case Finished(_) => 0
  }

  function WorkersCost(workers: seq<Worker>): nat {
    if workers == [] then 0 else WorkerCost(workers[0]) + WorkersCost(workers[1..])
  }

  function PhaseCost(phase: FanPhase): nat {
    match phase
    case Starting => 3
    case Joining => 2
    case Collecting => 1
    case Done => 0
  }

  function SerialCost(at: SerialPhase): nat {
    match at
    case Acquiring => 4
    case Probing => 3
    case Probed => 2
    case Reported => 1
    case Freed => 1
    case Over => 0
  }

  /** An upper bound on the steps a call still takes, cancellations aside. */
  function Cost<R, Q>(c: Call<R, Q>): nat {
    match c
    case Fan(outcome, workers, _, ch, _, phase, _) =>
      8 * (if |workers| < |outcome| then |outcome| - |workers| else 0)
      + WorkersCost(workers) + |ch| + PhaseCost(phase)
    case Serial(outcome, next, _, at, _) =>
      if at == Over || next >= |outcome| then 0 else 4 * (|outcome| - next - 1) + SerialCost(at)
    case Poll(_, _, at, _) => SerialCost(at)
  }

  lemma {:induction false} CostUpdate(workers: seq<Worker>, i: nat, w: Worker)
    requires i < |workers|
    ensures WorkersCost(workers[i := w]) + WorkerCost(workers[i]) == WorkersCost(workers) + WorkerCost(w)
  {
    if i == 0 {
      assert workers[i := w][1..] == workers[1..];
    } else {
      assert workers[i := w][1..] == workers[1..][i - 1 := w];
      CostUpdate(workers[1..], i - 1, w);
    }
  }

  lemma {:induction false} CostAppend(workers: seq<Worker>, w: Worker)
    ensures WorkersCost(workers + [w]) == WorkersCost(workers) + WorkerCost(w)
  {
    if workers == [] {
      assert workers + [w] == [w];
    } else {
      assert (workers + [w])[1..] == workers[1..] + [w];
      CostAppend(workers[1..], w);
    }
  }

  lemma FanStepCosts<R, Q>(c: Call<R, Q>, step: Step, free: bool)
    requires c.Fan? && Enabled(c, step, free) && !step.Cancel?
    ensures Cost(Apply(c, step, free)) < Cost(c)
  {
    if step.Acquire? || step.GiveUp? || step.Probe? || step.Send? || step.Release? || step.WgDone? {
      CostUpdate(c.workers, step.i, Apply(c, step, free).workers[step.i]);
    } else if step.Spawn? {
      CostAppend(c.workers, Waiting);
    }
  }

  lemma StepCosts<R, Q>(c: Call<R, Q>, step: Step, free: bool)
    requires Enabled(c, step, free) && !step.Cancel?
    ensures Cost(Apply(c, step, free)) < Cost(c)
  {
    if c.Fan? { FanStepCosts(c, step, free); }
  }

  lemma CancelCostsNothing<R, Q>(c: Call<R, Q>, free: bool)
    ensures Cost(Apply(c, Cancel, free)) == Cost(c)
  {
  }

  /** How many steps of call k, cancellations aside, the events hold. */
  function StepsOf<R, Q>(events: seq<Event<R, Q>>, k: nat): nat {
    if events == [] then 0
    else (if events[0].Act? && events[0].k == k && !events[0].step.Cancel? then 1 else 0) + StepsOf(events[1..], k)
  }

  lemma {:induction false} StepsBounded<R, Q>(y: System<R, Q>, events: seq<Event<R, Q>>, k: nat)
    requires Legal(y, events) && k < |y.calls|
    ensures k < |Exec(y, events).calls|
    ensures StepsOf(events, k) + Cost(Exec(y, events).calls[k]) <= Cost(y.calls[k])
    decreases events
  {
    if events != [] {
      var e := events[0];
      if e.Act? && e.k == k {
        if e.step.Cancel? {
          CancelCostsNothing(y.calls[k], y.occupied < y.limit);
        } else {
          StepCosts(y.calls[k], e.step, y.occupied < y.limit);
        }
      }
      StepsBounded(After(y, e), events[1..], k);
    }
  }

  /**
   * Calls end: from any reachable state, however the run goes on, a call takes at most a fixed
   * number of further steps; and by NoDeadlock there is a step to take until it is complete.
   */
  lemma CallsEnd<R, Q>(limit: nat, events: seq<Event<R, Q>>, more: seq<Event<R, Q>>, k: nat)
    requires Legal(Empty(limit), events) && Legal(Exec(Empty(limit), events), more)
    requires k < |Exec(Empty(limit), events).calls|
    ensures var c := Exec(Empty(limit), events).calls[k];
            StepsOf(more, k) <=
              if c.Fan? then 8 * |c.outcome| + 3 + |c.ch| else if c.Serial? then 4 * |c.outcome| else 4
  {
    RunKeepsInv(Empty(limit), events);
    var y := Exec(Empty(limit), events);
    assert CallInv(y.calls[k]);
    StepsBounded(y, more, k);
    if y.calls[k].Fan? { WorkersCostBound(y.calls[k].workers); }
  }

  lemma {:induction false} WorkersCostBound(workers: seq<Worker>)
    ensures WorkersCost(workers) <= 7 * |workers|
  {
    if workers != [] { WorkersCostBound(workers[1..]); }
  }

  /** A cancelled call never has to wait for a slot: it can move whether one is free or not. */
  lemma CancelledCanMove<R, Q>(c: Call<R, Q>, free: bool)
    requires CallInv(c) && c.cancelled && !Complete(c)
    ensures CanMove(c, free)
  {
    WithSlotCanMove(c);
    var step: Step :| !step.Cancel? && Enabled(c, step, true);
    assert Enabled(c, if step.Acquire? then GiveUp(step.i) else step, free);
  }

  /**
   * In every run of the pool, once call k has been cancelled and while it is not complete, it can
   * take a step although all slots may be held.
   */
  lemma CancelledNeverWaits<R, Q>(limit: nat, events: seq<Event<R, Q>>, k: nat)
    requires Legal(Empty(limit), events) && k < |Exec(Empty(limit), events).calls|
    ensures var y := After(Exec(Empty(limit), events), Act(k, Cancel));
            Complete(y.calls[k]) || exists step: Step :: !step.Cancel? && Possible(y, Act(k, step))
  {
    RunKeepsInv(Empty(limit), events);
    var y0 := Exec(Empty(limit), events);
    ActKeepsInv(y0, k, Cancel);
    var y := After(y0, Act(k, Cancel));
    var free := y.occupied < y.limit;
    assert CallInv(y.calls[k]);
    if !Complete(y.calls[k]) {
      CancelledCanMove(y.calls[k], free);
      var step: Step :| !step.Cancel? && Enabled(y.calls[k], step, free);
      if step.Release? { ReleaseHeld(y.calls, k, step.i, free); }
      assert Possible(y, Act(k, step));
    }
  }

  /** A poll that has returned has reported its conclusion once, or nothing after a cancellation. */
  lemma PollReportsOnce<R, Q>(c: Call<R, Q>)
    requires c.Poll? && PollInv(c) && c.at == Over
    ensures c.reported == [c.conclusion] || (c.cancelled && c.reported == [])
  {
  }

  /** The three results above hold of every call that has returned, in every run of the pool. */
  lemma EveryCallIsRight<R, Q>(limit: nat, events: seq<Event<R, Q>>, k: nat)
    requires Legal(Empty(limit), events) && k < |Exec(Empty(limit), events).calls|
    ensures var c := Exec(Empty(limit), events).calls[k];
            && (c.Fan? && c.phase == Done ==>
                  && |c.workers| == |c.outcome|
                  && multiset(c.results) == multiset(Acquired(c.outcome, c.workers, |c.workers|))
                  && (!c.cancelled ==> multiset(c.results) == multiset(c.outcome)))
            && (c.Serial? && c.at == Over ==>
                  && c.results <= c.outcome
                  && (!c.cancelled ==> c.results == c.outcome))
            && (c.Poll? && c.at == Over ==>
                  c.reported == [c.conclusion] || (c.cancelled && c.reported == []))
  {
    RunKeepsInv(Empty(limit), events);
    var c := Exec(Empty(limit), events).calls[k];
    assert CallInv(c);
    if c.Fan? && c.phase == Done { RunJobsIsSequentialMap(c); }
    if c.Serial? && c.at == Over { SerialIsPrefix(c); }
    if c.Poll? && c.at == Over { PollReportsOnce(c); }
  }

  // ------------------------------------------------------------------ runJobs on a task

  /** jobs lists numbers of jobs below n, each at most once, in job order. */
  ghost predicate JobNumbers(jobs: seq<nat>, n: nat) {
    && (forall a :: 0 <= a < |jobs| ==> jobs[a] < n)
    && (forall a, b :: 0 <= a < b < |jobs| ==> jobs[a] < jobs[b])
  }

  function OutcomesOf<R>(outcome: seq<R>, jobs: seq<nat>): seq<R>
    requires forall a :: 0 <= a < |jobs| ==> jobs[a] < |outcome|
  {
    seq(|jobs|, a requires 0 <= a < |jobs| => outcome[jobs[a]])
  }

  lemma OneMoreJob<R>(outcome: seq<R>, jobs: seq<nat>, n: nat)
    requires n < |outcome| && JobNumbers(jobs, n)
    ensures JobNumbers(jobs + [n], n + 1)
    ensures OutcomesOf(outcome, jobs + [n]) == OutcomesOf(outcome, jobs) + [outcome[n]]
    ensures n in jobs + [n] && forall i :: i in jobs ==> i in jobs + [n]
  {
    assert (jobs + [n])[|jobs|] == n;
  }

  /** The jobs of the first n workers that have finished with a result. */
  lemma {:induction false} AcquiredJobs<R>(outcome: seq<R>, workers: seq<Worker>, n: nat) returns (ran: seq<nat>)
    requires n <= |workers| <= |outcome|
    ensures JobNumbers(ran, n)
    ensures Acquired(outcome, workers, n) == OutcomesOf(outcome, ran)
    ensures forall i :: 0 <= i < n && workers[i] == Finished(true) ==> i in ran
  {
    ran := [];
    if n > 0 {
      var before := AcquiredJobs(outcome, workers, n - 1);
      ran := before;
      if workers[n - 1] == Finished(true) {
        OneMoreJob(outcome, before, n - 1);
        ran := before + [n - 1];
      }
    }
  }

  /** The jobs whose results a finished call of runJobs returns. */
  lemma JobsThatRan<R, Q>(c: Call<R, Q>) returns (ran: seq<nat>)
    requires c.Fan? && FanInv(c) && c.phase == Done
    ensures JobNumbers(ran, |c.outcome|) && multiset(c.results) == multiset(OutcomesOf(c.outcome, ran))
    ensures !c.cancelled ==> (forall i :: 0 <= i < |c.outcome| ==> i in ran) && |c.results| == |c.outcome|
  {
    RunJobsIsSequentialMap(c);
    AllWorkersFinished(c);
    ran := AcquiredJobs(c.outcome, c.workers, |c.workers|);
  }

  /**
   * runJobs on a task, in every run of the pool, whatever each job's probe returns: the results are
   * those of some of the jobs of the task's expansion, each job at most once, and without
   * cancellation of every job exactly once.
   */
  lemma RunJobsCoversTask<R, Q>(limit: nat, events: seq<Event<R, Q>>, k: nat,
                                targets: seq<string>, addressFamily: string, literal: string -> bool)
    returns (ran: seq<nat>)
    requires Legal(Empty(limit), events) && k < |Exec(Empty(limit), events).calls|
    requires var c := Exec(Empty(limit), events).calls[k];
             c.Fan? && c.phase == Done && |c.outcome| == |Expand(targets, addressFamily, literal)|
    ensures var (c, n) := (Exec(Empty(limit), events).calls[k], |Expand(targets, addressFamily, literal)|);
            && JobNumbers(ran, n) && n == |c.outcome|
            && multiset(c.results) == multiset(OutcomesOf(c.outcome, ran))
            && (!c.cancelled ==> (forall i :: 0 <= i < n ==> i in ran) && |c.results| == n)
  {
    RunKeepsInv(Empty(limit), events);
    assert CallInv(Exec(Empty(limit), events).calls[k]);
    ran := JobsThatRan(Exec(Empty(limit), events).calls[k]);
  }
}
