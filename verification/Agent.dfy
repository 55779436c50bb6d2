/**
 * The whole agent: scheduler with its probe goroutines, probe pool, reporter, and the main
 * goroutine that waits for a signal or an update directive, joins the two Run loops and applies
 * the update. Probe goroutines are not joined: they may run on, and offer results, until the end.
 */
module Agent {
  import opened Prelude
  import opened Updater
  import D = Scheduling
  import S = SchedulerSystem
  import R = Reporting
  import L = Pipeline

  /**
   * Stopping: a directive was received, the context is not cancelled yet. Ended: the process has
   * exited or has been replaced; nothing runs any more.
   */
  datatype Main =
    | Waiting | Stopping(pending: Option<Update>) | Joining(pending: Option<Update>)
    | Joined(pending: Option<Update>) | Ended

  /** applied lists the updates handed to the updater. */
  datatype State<V, W> = State(line: L.State<V, W>, main: Main, applied: seq<Update>)

  datatype Step<V, W> =
    | Pass(step: L.Step<V, W>) | Signal | TakeDirective | CallStop | SeeCancelled | Join | GraceOver | Finish

  function Boot<V, W>(maxConcurrency: int, batchSize: int, literal: (string, string) -> bool): State<V, W> {
    State(L.Start(maxConcurrency, batchSize, literal), Waiting, [])
  }

  /** Cancelling the context and receiving from the update channel are the main goroutine's. */
  predicate IsMains<V, W>(step: L.Step<V, W>) {
    step.Sched? && (step.step.CancelCtx? || step.step.TakeUpdate?)
  }

  predicate Enabled<V, W>(a: State<V, W>, step: Step<V, W>) {
    && !a.main.Ended?
    && match step
       case Pass(e) => !IsMains(e) && L.Enabled(a.line, e)
       case Signal => true
       case TakeDirective => a.main.Waiting? && a.line.sched.updateCh.Some?
       case CallStop => a.main.Stopping?
       case SeeCancelled => a.main.Waiting? && a.line.sched.ctxDone
       case Join => a.main.Joining? && BothReturned(a.line)
       case GraceOver => a.main.Joining?
       case Finish => a.main.Joined?
  }

  /** The two goroutines of the wait group have ended. */
  predicate BothReturned<V, W>(line: L.State<V, W>) {
    line.sched.pc.Returned? && line.rep.mode.Exited?
  }

  function Cancelled<V, W>(line: L.State<V, W>): L.State<V, W> {
    line.(sched := S.Apply(line.sched, S.CancelCtx))
  }

  function Next<V, W>(a: State<V, W>, step: Step<V, W>): State<V, W>
    requires Enabled(a, step)
  {
    match step
    case Pass(e) => a.(line := L.Next(a.line, e))
    case Signal => a.(line := Cancelled(a.line))
    case TakeDirective =>
      a.(line := a.line.(sched := S.Apply(a.line.sched, S.TakeUpdate)), main := Stopping(a.line.sched.updateCh))
    case CallStop => a.(line := Cancelled(a.line), main := Joining(a.main.pending))
    case SeeCancelled => a.(main := Joining(None))
    case Join => a.(main := Joined(a.main.pending))
    case GraceOver => a.(main := Ended)
    case Finish =>
      a.(main := Ended, applied := if a.main.pending.Some? then a.applied + [a.main.pending.value] else a.applied)
  }

  predicate Legal<V, W>(a: State<V, W>, steps: seq<Step<V, W>>)
    decreases steps
  {
    steps == [] || (Enabled(a, steps[0]) && Legal(Next(a, steps[0]), steps[1..]))
  }

  function Exec<V, W>(a: State<V, W>, steps: seq<Step<V, W>>): State<V, W>
    requires Legal(a, steps)
    decreases steps
  {
    if steps == [] then a else Exec(Next(a, steps[0]), steps[1..])
  }

  // ------------------------------------------------------------------ the invariant

  /** The update is the first one the scheduler ever queued. */
  ghost predicate IsFirst(upd: Option<Update>, queued: seq<Update>) {
    upd.Some? ==> queued != [] && upd.value == queued[0]
  }

  /** What the main goroutine relies on; channel and queued are the scheduler's updates. */
  ghost predicate MainInv(main: Main, applied: seq<Update>, channel: Option<Update>, queued: seq<Update>, both: bool) {
    && (main.Waiting? ==> queued == if channel.Some? then [channel.value] else [])
    && (main.Stopping? || main.Joining? || main.Joined? ==> IsFirst(main.pending, queued))
    && (main.Joined? ==> both)
    && (if main.Ended? then |applied| <= 1 else applied == [])
    && (applied != [] ==> both && IsFirst(Some(applied[0]), queued))
  }

  ghost predicate Inv<V, W>(a: State<V, W>) {
    && L.Inv(a.line)
    && MainInv(a.main, a.applied, a.line.sched.updateCh, a.line.sched.queued, BothReturned(a.line))
  }

  /** An update is queued only into an empty channel, and only the main goroutine empties it. */
  lemma SchedQueues(y: S.Sys, e: S.Step)
    requires S.Enabled(y, e) && !e.TakeUpdate?
    ensures var y' := S.Apply(y, e);
            && ((y'.updateCh == y.updateCh && y'.queued == y.queued)
                || (y.updateCh.None? && y'.updateCh.Some? && y'.queued == y.queued + [y'.updateCh.value]))
            && (y.pc.Returned? ==> y'.pc.Returned?)
  {
  }

  lemma ExitIsKept<A, B>(rep: R.State<A, B>, e: R.Event<A, B>)
    requires R.Enabled(rep, e) && rep.mode.Exited?
    ensures R.Next(rep, e).mode == rep.mode
  {
  }

  /** A step of the agent's parts queues at most one update, into an empty channel, and undoes no return. */
  lemma PassQueues<V, W>(l: L.State<V, W>, e: L.Step<V, W>)
    requires L.Enabled(l, e) && !IsMains(e)
    ensures var (y, y') := (l.sched, L.Next(l, e).sched);
            (y'.updateCh == y.updateCh && y'.queued == y.queued)
            || (y.updateCh.None? && y'.updateCh.Some? && y'.queued == y.queued + [y'.updateCh.value])
    ensures BothReturned(l) ==> BothReturned(L.Next(l, e))
  {
    if e.Sched? {
      SchedQueues(l.sched, e.step);
    } else if e.Execute? {
      SchedQueues(l.sched, S.ReadPair(e.g));
    } else if e.Done? {
      SchedQueues(l.sched, S.Finish(e.g));
    } else if l.rep.mode.Exited? {
      // Once the reporter has returned, only offers are left.
      if e.Hand? { ExitIsKept(l.rep, R.OfferProbe(l.pool.calls[e.k].results[l.runs[e.k].handed])); }
      if e.Report? { ExitIsKept(l.rep, R.OfferSNMP(l.pool.calls[e.k].conclusion)); }
    }
  }

  lemma QueueKeepsMain(main: Main, applied: seq<Update>, ch: Option<Update>, queued: seq<Update>, both: bool,
                       ch': Option<Update>, queued': seq<Update>, both': bool)
    requires MainInv(main, applied, ch, queued, both) && (both ==> both')
    requires (ch' == ch && queued' == queued) || (ch.None? && ch'.Some? && queued' == queued + [ch'.value])
    ensures MainInv(main, applied, ch', queued', both')
  {
  }

  lemma PassKeepsInv<V, W>(a: State<V, W>, e: L.Step<V, W>)
    requires Inv(a) && Enabled(a, Pass(e))
    ensures Inv(Next(a, Pass(e)))
  {
    var (l, l') := (a.line, L.Next(a.line, e));
    L.NextKeepsInv(l, e);
    PassQueues(l, e);
    QueueKeepsMain(a.main, a.applied, l.sched.updateCh, l.sched.queued, BothReturned(l),
                   l'.sched.updateCh, l'.sched.queued, BothReturned(l'));
  }

  lemma SignalKeepsInv<V, W>(a: State<V, W>)
    requires Inv(a) && Enabled(a, Signal)
    ensures Inv(Next(a, Signal))
  {
    L.SchedMoves(a.line, S.CancelCtx);
  }

  lemma TakeDirectiveKeepsInv<V, W>(a: State<V, W>)
    requires Inv(a) && Enabled(a, TakeDirective)
    ensures Inv(Next(a, TakeDirective))
  {
    L.SchedMoves(a.line, S.TakeUpdate);
  }

  lemma CallStopKeepsInv<V, W>(a: State<V, W>)
    requires Inv(a) && Enabled(a, CallStop)
    ensures Inv(Next(a, CallStop))
  {
    L.SchedMoves(a.line, S.CancelCtx);
  }

  lemma NextKeepsInv<V, W>(a: State<V, W>, step: Step<V, W>)
    requires Inv(a) && Enabled(a, step)
    ensures Inv(Next(a, step))
  {
    match step
    case Pass(e) => PassKeepsInv(a, e);
    case Signal => SignalKeepsInv(a);
    case TakeDirective => TakeDirectiveKeepsInv(a);
    case CallStop => CallStopKeepsInv(a);
    case _ =>
  }

  lemma {:induction false} RunKeepsInv<V, W>(a: State<V, W>, steps: seq<Step<V, W>>)
    requires Inv(a) && Legal(a, steps)
    ensures Inv(Exec(a, steps))
    decreases steps
  {
    if steps != [] {
      NextKeepsInv(a, steps[0]);
      RunKeepsInv(Next(a, steps[0]), steps[1..]);
    }
  }

  lemma BootHasInv<V, W>(maxConcurrency: int, batchSize: int, literal: (string, string) -> bool)
    ensures Inv<V, W>(Boot(maxConcurrency, batchSize, literal))
  {
    L.StartHasInv<V, W>(maxConcurrency, batchSize, literal);
  }

  // ------------------------------------------------------------------ the theorems

  /** At the hand-over no probe goroutine is uncancelled and both endpoints have been drained. */
  ghost predicate ShutDown<V, W>(line: L.State<V, W>) {
    && BothReturned(line)
    && (forall g: nat :: g < |line.sched.s.spawned| ==> g in line.sched.s.cancelled)
    && R.DrainedTo(line.rep.probe, line.rep.mode.probeMark)
    && R.DrainedTo(line.rep.snmp, line.rep.mode.snmpMark)
  }

  lemma ReturnedIsShutDown<V, W>(line: L.State<V, W>)
    requires S.Inv(line.sched) && R.Inv(line.rep) && BothReturned(line)
    ensures ShutDown(line)
  {
    S.ReturnedIsCancelled(line.sched);
  }

  /**
   * In every run of the agent at most one update is applied. It is the first one queued, and when
   * it is applied both Run loops have returned: no probe goroutine is left uncancelled, every
   * result accepted before the end of the drain was taken from its queue, and each buffer is empty
   * or its forced last upload failed.
   */
  lemma UpdateHandOver<V, W>(maxConcurrency: int, batchSize: int, literal: (string, string) -> bool,
                             steps: seq<Step<V, W>>)
    requires Legal(Boot(maxConcurrency, batchSize, literal), steps)
    ensures var a := Exec(Boot(maxConcurrency, batchSize, literal), steps);
            && |a.applied| <= 1
            && (a.applied != [] ==>
                  a.line.sched.queued != [] && a.applied[0] == a.line.sched.queued[0] && ShutDown(a.line))
  {
    BootHasInv<V, W>(maxConcurrency, batchSize, literal);
    RunKeepsInv(Boot(maxConcurrency, batchSize, literal), steps);
    var a := Exec(Boot(maxConcurrency, batchSize, literal), steps);
    if a.applied != [] { ReturnedIsShutDown(a.line); }
  }

  /** Between the probes and the server nothing is lost, duplicated or made up, and every job reports once. */
  ghost predicate Accounts<V, W>(line: L.State<V, W>) {
    && R.Conserved(line.rep.probe) && R.Conserved(line.rep.snmp) && L.Delivers(line)
    && forall k :: 0 <= k < |line.runs| ==>
         L.OfferedRight(line.sched, line.pool.calls[k], line.runs[k], line.literal)
  }

  lemma InvAccounts<V, W>(line: L.State<V, W>)
    requires L.Inv(line)
    ensures Accounts(line)
  {
    R.AccountConserves(line.rep.probe);
    R.AccountConserves(line.rep.snmp);
    L.InvDelivers(line);
    forall k | 0 <= k < |line.runs|
      ensures L.OfferedRight(line.sched, line.pool.calls[k], line.runs[k], line.literal)
    {
      L.InvOffersRight(line, k);
    }
  }

  /** The accounting of results holds in every run of the whole agent, to its very end. */
  lemma AgentLosesNothing<V, W>(maxConcurrency: int, batchSize: int, literal: (string, string) -> bool,
                                steps: seq<Step<V, W>>)
    requires Legal(Boot(maxConcurrency, batchSize, literal), steps)
    ensures Accounts(Exec(Boot(maxConcurrency, batchSize, literal), steps).line)
  {
    BootHasInv<V, W>(maxConcurrency, batchSize, literal);
    RunKeepsInv(Boot(maxConcurrency, batchSize, literal), steps);
    InvAccounts(Exec(Boot(maxConcurrency, batchSize, literal), steps).line);
  }

  // ------------------------------------------------------------------ results that were offered stay so

  lemma StepStays<V, W>(a: State<V, W>, step: Step<V, W>, k: nat)
    requires L.Inv(a.line) && Enabled(a, step) && L.SettledAt(a.line, k)
    ensures L.Stays(a.line, Next(a, step).line, k)
  {
    if step.Pass? { L.StepStays(a.line, step.step, k); }
  }

  lemma {:induction false} RunStaysSettled<V, W>(a: State<V, W>, steps: seq<Step<V, W>>, k: nat)
    requires Inv(a) && Legal(a, steps) && L.SettledAt(a.line, k)
    ensures L.SettledAt(Exec(a, steps).line, k) && Exec(a, steps).line.runs[k] == a.line.runs[k]
    decreases steps
  {
    if steps != [] {
      NextKeepsInv(a, steps[0]);
      StepStays(a, steps[0], k);
      L.StaysSettled(a.line, Next(a, steps[0]).line, k);
      RunStaysSettled(Next(a, steps[0]), steps[1..], k);
    }
  }

  lemma {:induction false} RunKeepsRun<V, W>(a: State<V, W>, steps: seq<Step<V, W>>, k: nat)
    requires Legal(a, steps) && k < |a.line.runs|
    ensures Exec(a, steps).line.literal == a.line.literal
    ensures k < |Exec(a, steps).line.runs| && Exec(a, steps).line.runs[k].owner == a.line.runs[k].owner
    decreases steps
  {
    if steps != [] { RunKeepsRun(Next(a, steps[0]), steps[1..], k); }
  }

  /** Run k of the earlier line is the same run of the later one, and all of its jobs have been offered there. */
  ghost predicate StillOffered<V, W>(line: L.State<V, W>, line': L.State<V, W>, k: nat)
    requires k < |line.runs|
  {
    && k < |line'.runs| == |line'.pool.calls| && line'.runs[k].owner == line.runs[k].owner
    && L.OfferedAll(line'.sched, line'.pool.calls[k], line'.runs[k], line'.literal)
  }

  lemma OfferedFrom<V, W>(a: State<V, W>, more: seq<Step<V, W>>, k: nat)
    requires Inv(a) && Legal(a, more) && k < |a.line.runs| && L.Over(a.line.sched, a.line.runs[k].owner)
    ensures StillOffered(a.line, Exec(a, more).line, k)
  {
    RunKeepsInv(a, more);
    RunKeepsRun(a, more, k);
    L.InvSettles(a.line, k);
    RunStaysSettled(a, more, k);
    L.InvSettles(Exec(a, more).line, k);
  }

  /**
   * In every run of the agent: a call whose execution was over at some point, with its runner not
   * cancelled by then, has offered exactly one result for each job of its task, or one conclusion,
   * in every later state, through cancellation, shutdown and hand-over.
   */
  lemma OfferedForGood<V, W>(maxConcurrency: int, batchSize: int, literal: (string, string) -> bool,
                             steps: seq<Step<V, W>>, more: seq<Step<V, W>>, k: nat)
    requires Legal(Boot(maxConcurrency, batchSize, literal), steps)
    requires var a := Exec(Boot(maxConcurrency, batchSize, literal), steps);
             Legal(a, more) && k < |a.line.runs| && L.Over(a.line.sched, a.line.runs[k].owner)
    ensures var a := Exec(Boot(maxConcurrency, batchSize, literal), steps);
            StillOffered(a.line, Exec(a, more).line, k)
  {
    BootHasInv<V, W>(maxConcurrency, batchSize, literal);
    RunKeepsInv(Boot(maxConcurrency, batchSize, literal), steps);
    OfferedFrom(Exec(Boot(maxConcurrency, batchSize, literal), steps), more, k);
  }

  // ------------------------------------------------------------------ how often the update channel fires

  /** A fetch that brings an update directive. */
  predicate BringsUpdate<V, W>(step: Step<V, W>) {
    step.Pass? && step.step.Sched? && step.step.step.FetchOk? && step.step.step.resp.update.Some?
  }

  predicate SomeUpdate<V, W>(steps: seq<Step<V, W>>) {
    steps != [] && (BringsUpdate(steps[0]) || SomeUpdate(steps[1..]))
  }

  predicate UpdateAfterTake<V, W>(steps: seq<Step<V, W>>) {
    steps != [] && ((steps[0].TakeDirective? && SomeUpdate(steps[1..])) || UpdateAfterTake(steps[1..]))
  }

  lemma {:induction false} SomeUpdateIff<V, W>(steps: seq<Step<V, W>>)
    ensures SomeUpdate(steps) <==> exists j :: 0 <= j < |steps| && BringsUpdate(steps[j])
  {
    if steps != [] {
      var rest := steps[1..];
      SomeUpdateIff(rest);
      assert forall j :: 0 < j < |steps| ==> rest[j - 1] == steps[j];
      if SomeUpdate(rest) {
        var j :| 0 <= j < |rest| && BringsUpdate(rest[j]);
        assert BringsUpdate(steps[j + 1]);
      }
    }
  }

  lemma {:induction false} UpdateAfterTakeIff<V, W>(steps: seq<Step<V, W>>)
    ensures UpdateAfterTake(steps) <==>
              exists i, j :: 0 <= i < j < |steps| && steps[i].TakeDirective? && BringsUpdate(steps[j])
  {
    if steps != [] {
      var rest := steps[1..];
      SomeUpdateIff(rest);
      UpdateAfterTakeIff(rest);
      assert forall j :: 0 < j < |steps| ==> rest[j - 1] == steps[j];
      if steps[0].TakeDirective? && SomeUpdate(rest) {
        var j :| 0 <= j < |rest| && BringsUpdate(rest[j]);
        assert BringsUpdate(steps[j + 1]);
      } else if UpdateAfterTake(rest) {
        var i, j :| 0 <= i < j < |rest| && rest[i].TakeDirective? && BringsUpdate(rest[j]);
        assert steps[i + 1].TakeDirective? && BringsUpdate(steps[j + 1]);
      }
    }
  }

  /** How one step changes the channel and what was queued. */
  lemma SchedQueuesExactly(y: S.Sys, e: S.Step)
    requires S.Enabled(y, e) && !e.TakeUpdate?
    ensures var (y', fills) := (S.Apply(y, e), e.FetchOk? && e.resp.update.Some? && y.updateCh.None?);
            && y'.updateCh.Some? == (y.updateCh.Some? || fills)
            && |y'.queued| == |y.queued| + (if fills then 1 else 0)
  {
  }

  lemma StepQueues<V, W>(a: State<V, W>, step: Step<V, W>)
    requires Enabled(a, step) && !step.TakeDirective?
    ensures var (y, y') := (a.line.sched, Next(a, step).line.sched);
            var fills := BringsUpdate(step) && y.updateCh.None?;
            && y'.updateCh.Some? == (y.updateCh.Some? || fills)
            && |y'.queued| == |y.queued| + (if fills then 1 else 0)
    ensures !a.main.Waiting? ==> !Next(a, step).main.Waiting?
  {
    if step.Pass? {
      var e := step.step;
      if e.Sched? { SchedQueuesExactly(a.line.sched, e.step); }
      if e.Execute? { SchedQueuesExactly(a.line.sched, S.ReadPair(e.g)); }
      if e.Done? { SchedQueuesExactly(a.line.sched, S.Finish(e.g)); }
    }
  }

  /** Once the main goroutine does not receive any more, the channel is filled at most once. */
  lemma {:induction false} QueuedWithoutTake<V, W>(a: State<V, W>, steps: seq<Step<V, W>>)
    requires Legal(a, steps) && !a.main.Waiting?
    ensures !UpdateAfterTake(steps)
    ensures var fills := a.line.sched.updateCh.None? && SomeUpdate(steps);
            |Exec(a, steps).line.sched.queued| == |a.line.sched.queued| + (if fills then 1 else 0)
    decreases steps
  {
    if steps != [] {
      StepQueues(a, steps[0]);
      QueuedWithoutTake(Next(a, steps[0]), steps[1..]);
    }
  }

  lemma TakeEmpties<V, W>(a: State<V, W>)
    requires Enabled(a, TakeDirective)
    ensures var a' := Next(a, TakeDirective);
            a'.line.sched.updateCh.None? && a'.line.sched.queued == a.line.sched.queued && !a'.main.Waiting?
  {
  }

  lemma {:induction false} QueuedWhileWaiting<V, W>(a: State<V, W>, steps: seq<Step<V, W>>)
    requires Legal(a, steps) && a.main.Waiting?
    requires |a.line.sched.queued| == if a.line.sched.updateCh.Some? then 1 else 0
    ensures var n := |Exec(a, steps).line.sched.queued|; n <= 2 && (n == 2 <==> UpdateAfterTake(steps))
    decreases steps
  {
    if steps != [] {
      var (a', rest) := (Next(a, steps[0]), steps[1..]);
      if steps[0].TakeDirective? {
        TakeEmpties(a);
        QueuedWithoutTake(a', rest);
      } else {
        StepQueues(a, steps[0]);
        if a'.main.Waiting? { QueuedWhileWaiting(a', rest); } else { QueuedWithoutTake(a', rest); }
      }
    }
  }

  /**
   * The channel is documented to fire at most once. In every run of the agent at most two updates
   * are queued, and two exactly when a fetch after the receive brings a directive again.
   */
  lemma QueuedTwiceIff<V, W>(maxConcurrency: int, batchSize: int, literal: (string, string) -> bool,
                             steps: seq<Step<V, W>>)
    requires Legal(Boot(maxConcurrency, batchSize, literal), steps)
    ensures var n := |Exec(Boot(maxConcurrency, batchSize, literal), steps).line.sched.queued|;
            && n <= 2
            && (n == 2 <==>
                  exists i, j :: 0 <= i < j < |steps| && steps[i].TakeDirective? && BringsUpdate(steps[j]))
  {
    QueuedWhileWaiting(Boot(maxConcurrency, batchSize, literal), steps);
    UpdateAfterTakeIff(steps);
  }

  lemma {:induction false} OneMoreStep<V, W>(a: State<V, W>, steps: seq<Step<V, W>>, last: Step<V, W>)
    requires Legal(a, steps) && Enabled(Exec(a, steps), last)
    ensures Legal(a, steps + [last]) && Exec(a, steps + [last]) == Next(Exec(a, steps), last)
    decreases steps
  {
    if steps == [] {
      assert steps + [last] == [last];
      assert Legal(Next(a, last), [last][1..]);
    } else {
      assert (steps + [last])[1..] == steps[1..] + [last];
      OneMoreStep(Next(a, steps[0]), steps[1..], last);
    }
  }

  /** One pass of the scheduler over an empty task list with unchanged source addresses, back to the next fetch. */
  lemma PassesBy(y: S.Sys, resp: D.Response)
    requires y.pc == S.Fetched(resp) && y.s.runners == map[] && y.s.ips == resp.ips && resp.tasks == []
    ensures S.Enabled(y, S.SetPair)
    ensures var y1 := S.Apply(y, S.SetPair);
            && S.Enabled(y1, S.RemoveDone)
            && var y2 := S.Apply(y1, S.RemoveDone);
               && S.Enabled(y2, S.LaunchDone)
               && var y3 := S.Apply(y2, S.LaunchDone);
                  && S.Enabled(y3, S.PollTick)
                  && var y4 := S.Apply(y3, S.PollTick);
                     y4.pc.Fetching? && y4.queued == y.queued && y4.updateCh == y.updateCh
  {
  }

  lemma SchedStep<V, W>(boot: State<V, W>, steps: seq<Step<V, W>>, e: S.Step) returns (more: seq<Step<V, W>>)
    requires Legal(boot, steps) && !Exec(boot, steps).main.Ended?
    requires S.Enabled(Exec(boot, steps).line.sched, e)
    requires !e.CancelCtx? && !e.TakeUpdate? && !e.ReadPair? && !e.Finish?
    ensures Legal(boot, more) && Exec(boot, more).main == Exec(boot, steps).main
    ensures Exec(boot, more).line.sched == S.Apply(Exec(boot, steps).line.sched, e)
    ensures Exec(boot, more).line.rep == Exec(boot, steps).line.rep
    ensures Exec(boot, more).applied == Exec(boot, steps).applied
  {
    OneMoreStep(boot, steps, Pass(L.Sched(e)));
    more := steps + [Pass(L.Sched(e))];
  }

  /** The directive of the first fetch is received. */
  lemma FirstDirective<V, W>(boot: State<V, W>, resp: D.Response) returns (steps: seq<Step<V, W>>)
    requires boot.main.Waiting? && boot.line.sched == S.Initial() && resp.update.Some?
    ensures Legal(boot, steps) && Exec(boot, steps).main == Stopping(resp.update)
    ensures var y := Exec(boot, steps).line.sched;
            && y.pc == S.Fetched(resp) && y.s == S.Initial().s
            && y.queued == [resp.update.value] && y.updateCh == None
    ensures Exec(boot, steps).line.rep == boot.line.rep && Exec(boot, steps).applied == boot.applied
  {
    steps := SchedStep(boot, [], S.FetchOk(resp));
    OneMoreStep(boot, steps, TakeDirective);
    steps := steps + [TakeDirective];
  }

  lemma GoAround<V, W>(boot: State<V, W>, steps: seq<Step<V, W>>, resp: D.Response) returns (more: seq<Step<V, W>>)
    requires Legal(boot, steps) && !Exec(boot, steps).main.Ended?
    requires var y := Exec(boot, steps).line.sched;
             y.pc == S.Fetched(resp) && y.s.runners == map[] && y.s.ips == resp.ips && resp.tasks == []
    ensures Legal(boot, more) && Exec(boot, more).main == Exec(boot, steps).main
    ensures var (y, y') := (Exec(boot, steps).line.sched, Exec(boot, more).line.sched);
            y'.pc.Fetching? && y'.queued == y.queued && y'.updateCh == y.updateCh
  {
    PassesBy(Exec(boot, steps).line.sched, resp);
    more := SchedStep(boot, steps, S.SetPair);
    more := SchedStep(boot, more, S.RemoveDone);
    more := SchedStep(boot, more, S.LaunchDone);
    more := SchedStep(boot, more, S.PollTick);
  }

  /**
   * The scheduler goes once around with no task, and a second directive arrives before the context
   * is cancelled: the channel does fire twice.
   */
  lemma QueuedTwiceRun<V, W>(maxConcurrency: int, batchSize: int, literal: (string, string) -> bool, u: Update)
    returns (steps: seq<Step<V, W>>)
    ensures Legal(Boot(maxConcurrency, batchSize, literal), steps)
    ensures Exec(Boot(maxConcurrency, batchSize, literal), steps).line.sched.queued == [u, u]
  {
    var boot: State<V, W> := Boot(maxConcurrency, batchSize, literal);
    var resp := D.Response([], D.Pair("", ""), Some(u));
    steps := FirstDirective(boot, resp);
    steps := GoAround(boot, steps, resp);
    steps := SchedStep(boot, steps, S.FetchOk(resp));
  }

  // ------------------------------------------------------------------ which update is applied

  predicate Takes<V, W>(steps: seq<Step<V, W>>) {
    steps != [] && (steps[0].TakeDirective? || Takes(steps[1..]))
  }

  predicate Finishes<V, W>(steps: seq<Step<V, W>>) {
    steps != [] && (steps[0].Finish? || Finishes(steps[1..]))
  }

  lemma {:induction false} TakesIff<V, W>(steps: seq<Step<V, W>>)
    ensures Takes(steps) <==> exists i :: 0 <= i < |steps| && steps[i].TakeDirective?
    ensures Finishes(steps) <==> exists i :: 0 <= i < |steps| && steps[i].Finish?
  {
    if steps != [] {
      var rest := steps[1..];
      TakesIff(rest);
      assert forall i :: 0 < i < |steps| ==> rest[i - 1] == steps[i];
      if Takes(rest) {
        var i :| 0 <= i < |rest| && rest[i].TakeDirective?;
        assert steps[i + 1].TakeDirective?;
      }
      if Finishes(rest) {
        var i :| 0 <= i < |rest| && rest[i].Finish?;
        assert steps[i + 1].Finish?;
      }
    }
  }

  /** The content of the channel at the first receive. */
  function TakenAt<V, W>(a: State<V, W>, steps: seq<Step<V, W>>): Option<Update>
    requires Legal(a, steps)
    decreases steps
  {
    if steps == [] then None
    else if steps[0].TakeDirective? then a.line.sched.updateCh
    else TakenAt(Next(a, steps[0]), steps[1..])
  }

  function Applying(pending: Option<Update>, finished: bool): seq<Update> {
    if finished && pending.Some? then [pending.value] else []
  }

  /** After the select of the main goroutine: nothing is received any more, and the end applies what is pending. */
  lemma {:induction false} AppliedWhenLeaving<V, W>(a: State<V, W>, steps: seq<Step<V, W>>)
    requires Legal(a, steps) && a.applied == [] && (a.main.Stopping? || a.main.Joining? || a.main.Joined?)
    ensures !Takes(steps) && Exec(a, steps).applied == Applying(a.main.pending, Finishes(steps))
    decreases steps
  {
    if steps != [] {
      var a' := Next(a, steps[0]);
      if a'.main.Ended? {
        assert steps[1..] == [];
      } else {
        AppliedWhenLeaving(a', steps[1..]);
      }
    }
  }

  lemma {:induction false} AppliedWhileWaiting<V, W>(a: State<V, W>, steps: seq<Step<V, W>>)
    requires Legal(a, steps) && a.applied == [] && a.main.Waiting?
    ensures Exec(a, steps).applied == Applying(TakenAt(a, steps), Finishes(steps))
    ensures Takes(steps) <==> TakenAt(a, steps).Some?
    decreases steps
  {
    if steps != [] {
      var a' := Next(a, steps[0]);
      if a'.main.Waiting? {
        AppliedWhileWaiting(a', steps[1..]);
      } else {
        AppliedWhenLeaving(a', steps[1..]);
        if !steps[0].TakeDirective? { NothingTaken(a', steps[1..]); }
      }
    }
  }

  lemma {:induction false} NothingTaken<V, W>(a: State<V, W>, steps: seq<Step<V, W>>)
    requires Legal(a, steps) && !Takes(steps)
    ensures TakenAt(a, steps) == None
    decreases steps
  {
    if steps != [] { NothingTaken(Next(a, steps[0]), steps[1..]); }
  }

  lemma {:induction false} TakenAtPrefix<V, W>(a: State<V, W>, steps: seq<Step<V, W>>, i: nat)
    requires Legal(a, steps) && i < |steps| && steps[i].TakeDirective? && a.main.Waiting? && a.applied == []
    ensures Legal(a, steps[..i]) && Exec(a, steps[..i]).line.sched.updateCh == TakenAt(a, steps)
    decreases steps
  {
    if i == 0 {
      assert steps[..0] == [];
    } else {
      var (a', rest) := (Next(a, steps[0]), steps[1..]);
      assert rest[i - 1] == steps[i] && steps[..i][1..] == rest[..i - 1] && steps[..i][0] == steps[0];
      TakesIff(rest);
      if a'.main.Waiting? {
        TakenAtPrefix(a', rest, i - 1);
      } else {
        AppliedWhenLeaving(a', rest);
      }
    }
  }

  /**
   * Which update is applied, in every run: one if and only if a directive was received and the end
   * was reached after both Run loops had returned, and then it is the one that was in the channel
   * at the receive. A shutdown by signal applies nothing.
   */
  lemma AppliedIff<V, W>(maxConcurrency: int, batchSize: int, literal: (string, string) -> bool,
                         steps: seq<Step<V, W>>)
    requires Legal(Boot(maxConcurrency, batchSize, literal), steps)
    ensures var boot: State<V, W> := Boot(maxConcurrency, batchSize, literal);
            var applied := Exec(boot, steps).applied;
            && (applied != [] <==> (exists i :: 0 <= i < |steps| && steps[i].TakeDirective?)
                                   && (exists i :: 0 <= i < |steps| && steps[i].Finish?))
            && (applied != [] ==>
                  forall i :: 0 <= i < |steps| && steps[i].TakeDirective? ==>
                    && Legal(boot, steps[..i]) && Exec(boot, steps[..i]).line.sched.updateCh.Some?
                    && applied == [Exec(boot, steps[..i]).line.sched.updateCh.value])
  {
    var boot: State<V, W> := Boot(maxConcurrency, batchSize, literal);
    AppliedWhileWaiting(boot, steps);
    TakesIff(steps);
    forall i | 0 <= i < |steps| && steps[i].TakeDirective?
      ensures Legal(boot, steps[..i]) && Exec(boot, steps[..i]).line.sched.updateCh == TakenAt(boot, steps)
    {
      TakenAtPrefix(boot, steps, i);
    }
  }

  // ------------------------------------------------------------------ when the agent stops

  predicate Cancels<V, W>(steps: seq<Step<V, W>>) {
    steps != [] && (steps[0].Signal? || steps[0].CallStop? || Cancels(steps[1..]))
  }

  lemma {:induction false} CancelsIff<V, W>(steps: seq<Step<V, W>>)
    ensures Cancels(steps) <==> exists i :: 0 <= i < |steps| && (steps[i].Signal? || steps[i].CallStop?)
  {
    if steps != [] {
      var rest := steps[1..];
      CancelsIff(rest);
      assert forall i :: 0 < i < |steps| ==> rest[i - 1] == steps[i];
      if Cancels(rest) {
        var i :| 0 <= i < |rest| && (rest[i].Signal? || rest[i].CallStop?);
        assert steps[i + 1] == rest[i];
      }
    }
  }

  ghost predicate LeavesCancelled<V, W>(a: State<V, W>) {
    a.main.Waiting? || a.main.Stopping? || a.line.sched.ctxDone
  }

  lemma LineKeepsContext<V, W>(line: L.State<V, W>, e: L.Step<V, W>)
    requires L.Enabled(line, e) && !IsMains(e)
    ensures L.Next(line, e).sched.ctxDone == line.sched.ctxDone
  {
    match e
    case Sched(step) => S.StepAndContext(line.sched, step);
    case Execute(g, _, _) => S.StepAndContext(line.sched, S.ReadPair(g));
    case Done(g) => S.StepAndContext(line.sched, S.Finish(g));
    case _ =>
  }

  lemma StepCancels<V, W>(a: State<V, W>, step: Step<V, W>)
    requires Enabled(a, step) && LeavesCancelled(a)
    ensures var b := Next(a, step);
            && LeavesCancelled(b)
            && (b.line.sched.ctxDone <==> a.line.sched.ctxDone || step.Signal? || step.CallStop?)
  {
    if step.Pass? { LineKeepsContext(a.line, step.step); }
  }

  lemma {:induction false} RunCancels<V, W>(a: State<V, W>, steps: seq<Step<V, W>>)
    requires Legal(a, steps) && LeavesCancelled(a)
    ensures LeavesCancelled(Exec(a, steps))
    ensures Exec(a, steps).line.sched.ctxDone <==> a.line.sched.ctxDone || Cancels(steps)
    decreases steps
  {
    if steps != [] {
      StepCancels(a, steps[0]);
      RunCancels(Next(a, steps[0]), steps[1..]);
    }
  }

  /**
   * In every run the context is cancelled if and only if a signal came or main called stop after
   * receiving a directive, and main goes on from its select only in these two cases.
   */
  lemma CancelledIff<V, W>(maxConcurrency: int, batchSize: int, literal: (string, string) -> bool,
                           steps: seq<Step<V, W>>)
    requires Legal(Boot(maxConcurrency, batchSize, literal), steps)
    ensures var a := Exec(Boot(maxConcurrency, batchSize, literal), steps);
            && (a.line.sched.ctxDone <==> exists i :: 0 <= i < |steps| && (steps[i].Signal? || steps[i].CallStop?))
            && (a.main.Waiting? || a.main.Stopping? || a.line.sched.ctxDone)
  {
    RunCancels(Boot(maxConcurrency, batchSize, literal), steps);
    CancelsIff(steps);
  }

  // ------------------------------------------------------------------ the agent can always shut down

  lemma {:induction false} OneAfterTheOther<V, W>(a: State<V, W>, first: seq<Step<V, W>>, second: seq<Step<V, W>>)
    requires Legal(a, first) && Legal(Exec(a, first), second)
    ensures Legal(a, first + second) && Exec(a, first + second) == Exec(Exec(a, first), second)
    decreases first
  {
    if first == [] {
      assert first + second == second;
    } else {
      assert (first + second)[1..] == first[1..] + second;
      OneAfterTheOther(Next(a, first[0]), first[1..], second);
    }
  }

  function Passed<V, W>(steps: seq<L.Step<V, W>>): seq<Step<V, W>> {
    if steps == [] then [] else [Pass(steps[0])] + Passed(steps[1..])
  }

  /** What the line can do without the main goroutine it can do here, and nothing else changes. */
  lemma {:induction false} LineAlone<V, W>(a: State<V, W>, steps: seq<L.Step<V, W>>)
    requires L.Legal(a.line, steps) && !a.main.Ended? && forall i :: 0 <= i < |steps| ==> !IsMains(steps[i])
    ensures Legal(a, Passed(steps)) && Exec(a, Passed(steps)) == a.(line := L.Exec(a.line, steps))
    decreases steps
  {
    if steps != [] {
      LineAlone(Next(a, Pass(steps[0])), steps[1..]);
      assert Passed(steps)[1..] == Passed(steps[1..]);
    }
  }

  lemma {:induction false} NoneIsMains<V, W>(sched: seq<S.Step>, rep: seq<R.Event<L.Result<V>, L.Conclusion<W>>>)
    requires forall i :: 0 <= i < |sched| ==> !sched[i].CancelCtx? && !sched[i].TakeUpdate?
    ensures forall step :: step in L.SchedulerOnly<V, W>(sched) ==> !IsMains(step)
    ensures forall step :: step in L.ReporterOnly(rep) ==> !IsMains(step)
    decreases |sched| + |rep|
  {
    if sched != [] { NoneIsMains(sched[1..], rep); }
    if rep != [] { NoneIsMains(sched, rep[1..]); }
  }

  /** What main applies if the shutdown goes through from here. */
  function WouldApply<V, W>(a: State<V, W>): seq<Update> {
    var upd := if a.main.Waiting? then a.line.sched.updateCh else if a.main.Ended? then None else a.main.pending;
    if upd.Some? then [upd.value] else []
  }

  ghost predicate EndsWell<V, W>(a: State<V, W>, more: seq<Step<V, W>>) {
    && Legal(a, more) && more != [] && more[|more| - 1] == Finish
    && Exec(a, more).applied == a.applied + WouldApply(a)
  }

  lemma OneStepBefore<V, W>(a: State<V, W>, first: Step<V, W>, rest: seq<Step<V, W>>) returns (more: seq<Step<V, W>>)
    requires Enabled(a, first) && EndsWell(Next(a, first), rest)
    requires Next(a, first).applied == a.applied && WouldApply(Next(a, first)) == WouldApply(a)
    ensures EndsWell(a, more)
  {
    more := [first] + rest;
    assert more[1..] == rest;
  }

  lemma JoinedEnds<V, W>(a: State<V, W>) returns (more: seq<Step<V, W>>)
    requires a.main.Joined?
    ensures EndsWell(a, more)
  {
    more := [Finish];
    assert more[1..] == [];
  }

  lemma JoiningEnds<V, W>(a: State<V, W>) returns (more: seq<Step<V, W>>)
    requires a.main.Joining? && a.line.sched.ctxDone && S.NextInList(a.line.sched.pc)
    ensures EndsWell(a, more)
  {
    var sched, rep := L.CanReturn(a.line);
    var steps := L.SchedulerOnly(sched) + L.ReporterOnly(rep);
    NoneIsMains(sched, rep);
    LineAlone(a, steps);
    var b := Exec(a, Passed(steps));
    more := JoinedEnds(Next(b, Join));
    more := OneStepBefore(b, Join, more);
    OneAfterTheOther(a, Passed(steps), more);
    more := Passed(steps) + more;
  }

  lemma LeavingEnds<V, W>(a: State<V, W>) returns (more: seq<Step<V, W>>)
    requires !a.main.Ended? && !a.main.Waiting? && S.NextInList(a.line.sched.pc)
    ensures EndsWell(a, more)
  {
    if a.main.Joined? {
      more := JoinedEnds(a);
    } else if a.main.Stopping? {
      more := JoiningEnds(Next(a, CallStop));
      more := OneStepBefore(a, CallStop, more);
    } else {
      more := JoiningEnds(Next(a, Signal));
      more := OneStepBefore(a, Signal, more);
    }
  }

  lemma WaitingEnds<V, W>(a: State<V, W>) returns (more: seq<Step<V, W>>)
    requires a.main.Waiting? && S.NextInList(a.line.sched.pc)
    ensures EndsWell(a, more)
  {
    if a.line.sched.updateCh.Some? {
      more := LeavingEnds(Next(a, TakeDirective));
      more := OneStepBefore(a, TakeDirective, more);
    } else {
      var b := Next(a, Signal);
      more := LeavingEnds(Next(b, SeeCancelled));
      more := OneStepBefore(b, SeeCancelled, more);
      more := OneStepBefore(a, Signal, more);
    }
  }

  lemma NotEnded<V, W>(a: State<V, W>)
    requires Inv(a) && !a.main.Ended?
    ensures a.applied == [] && S.NextInList(a.line.sched.pc)
  {
    S.InvInList(a.line.sched);
  }

  lemma ReachedNotEnded<V, W>(maxConcurrency: int, batchSize: int, literal: (string, string) -> bool,
                              steps: seq<Step<V, W>>)
    requires Legal(Boot(maxConcurrency, batchSize, literal), steps)
    ensures var a := Exec(Boot(maxConcurrency, batchSize, literal), steps);
            a.main.Ended? || (a.applied == [] && S.NextInList(a.line.sched.pc))
  {
    var boot: State<V, W> := Boot(maxConcurrency, batchSize, literal);
    BootHasInv<V, W>(maxConcurrency, batchSize, literal);
    RunKeepsInv(boot, steps);
    if !Exec(boot, steps).main.Ended? { NotEnded(Exec(boot, steps)); }
  }

  lemma SomeEnds<V, W>(a: State<V, W>) returns (more: seq<Step<V, W>>)
    requires !a.main.Ended? && a.applied == [] && S.NextInList(a.line.sched.pc)
    ensures Legal(a, more) && more != [] && more[|more| - 1] == Finish && Exec(a, more).applied == WouldApply(a)
  {
    if a.main.Waiting? {
      more := WaitingEnds(a);
    } else {
      more := LeavingEnds(a);
    }
  }

  /**
   * From every state of every run in which main has not ended, the agent can get through its
   * graceful shutdown, and apply the update that is queued or was received.
   */
  lemma CanShutDown<V, W>(maxConcurrency: int, batchSize: int, literal: (string, string) -> bool,
                          steps: seq<Step<V, W>>) returns (more: seq<Step<V, W>>)
    requires Legal(Boot(maxConcurrency, batchSize, literal), steps)
    requires !Exec(Boot(maxConcurrency, batchSize, literal), steps).main.Ended?
    ensures var a := Exec(Boot(maxConcurrency, batchSize, literal), steps);
            var upd := if a.main.Waiting? then a.line.sched.updateCh else a.main.pending;
            && Legal(a, more) && more != [] && more[|more| - 1].Finish?
            && Exec(a, more).applied == if upd.Some? then [upd.value] else []
  {
    ReachedNotEnded(maxConcurrency, batchSize, literal, steps);
    more := SomeEnds(Exec(Boot(maxConcurrency, batchSize, literal), steps));
  }

  /**
   * In every run, while main waits for the two loops the grace period may end the process at any
   * moment, and nothing is applied then, whatever was received.
   */
  lemma GraceAppliesNothing<V, W>(maxConcurrency: int, batchSize: int, literal: (string, string) -> bool,
                                  steps: seq<Step<V, W>>)
    requires Legal(Boot(maxConcurrency, batchSize, literal), steps)
    requires Exec(Boot(maxConcurrency, batchSize, literal), steps).main.Joining?
    ensures Legal(Boot(maxConcurrency, batchSize, literal), steps + [GraceOver])
    ensures var a := Exec(Boot(maxConcurrency, batchSize, literal), steps + [GraceOver]);
            a.main.Ended? && a.applied == []
  {
    var boot: State<V, W> := Boot(maxConcurrency, batchSize, literal);
    ReachedNotEnded(maxConcurrency, batchSize, literal, steps);
    OneMoreStep(boot, steps, GraceOver);
  }

  /** Updates do get applied: a run from the boot of the agent to the end, for any update. */
  lemma AppliedRun<V, W>(maxConcurrency: int, batchSize: int, literal: (string, string) -> bool, u: Update)
    returns (steps: seq<Step<V, W>>)
    ensures Legal(Boot(maxConcurrency, batchSize, literal), steps)
    ensures Exec(Boot(maxConcurrency, batchSize, literal), steps).applied == [u]
  {
    var boot: State<V, W> := Boot(maxConcurrency, batchSize, literal);
    steps := SchedStep(boot, [], S.FetchOk(D.Response([], D.Pair("", ""), Some(u))));
    var more := CanShutDown(maxConcurrency, batchSize, literal, steps);
    OneAfterTheOther(boot, steps, more);
    steps := steps + more;
  }

  // ------------------------------------------------------------------ the line on its own

  /** What a step is for the line: that of a part, or what the main goroutine does to channel and context. */
  function LineStep<V, W>(step: Step<V, W>): seq<L.Step<V, W>> {
    match step
    case Pass(e) => [e]
    case Signal => [L.Sched(S.CancelCtx)]
    case TakeDirective => [L.Sched(S.TakeUpdate)]
    case CallStop => [L.Sched(S.CancelCtx)]
    case _ => []
  }

  function LineSteps<V, W>(steps: seq<Step<V, W>>): seq<L.Step<V, W>> {
    if steps == [] then [] else LineStep(steps[0]) + LineSteps(steps[1..])
  }

  lemma LineStepIsStep<V, W>(a: State<V, W>, step: Step<V, W>)
    requires Enabled(a, step)
    ensures var mine := LineStep(step);
            if mine == [] then Next(a, step).line == a.line
            else |mine| == 1 && L.Enabled(a.line, mine[0]) && Next(a, step).line == L.Next(a.line, mine[0])
  {
  }

  /** Every run of the agent is a run of the line, so that all that is proved there holds here. */
  lemma {:induction false} LineView<V, W>(a: State<V, W>, steps: seq<Step<V, W>>)
    requires Legal(a, steps)
    ensures L.Legal(a.line, LineSteps(steps)) && L.Exec(a.line, LineSteps(steps)) == Exec(a, steps).line
    decreases steps
  {
    if steps != [] {
      var (mine, rest) := (LineStep(steps[0]), LineSteps(steps[1..]));
      LineView(Next(a, steps[0]), steps[1..]);
      LineStepIsStep(a, steps[0]);
      assert if mine == [] then mine + rest == rest else (mine + rest)[0] == mine[0] && (mine + rest)[1..] == rest;
    }
  }
}
