/**
 * Scheduler, probe pool and reporter joined: every execution of a runner starts the call its task
 * asks for, the call is cancelled only when the runner's context is, its results are offered to
 * the reporter one by one, and only then does the runner go on.
 *
 * All steps of all runners, of the scheduler, of the reporter and of the calls interleave freely.
 */
module Pipeline {
  import opened Bags
  import opened Cadence
  import opened Expansion
  import opened Prelude
  import opened Tasks
  import S = SchedulerSystem
  import P = Pool
  import R = Reporting

  /** A probe result names its task and its job; on the wire the job is the target with its suffix. */
  datatype Result<V> = Result(taskID: int, job: Job, value: V)

  /** What an SNMP poll concludes about its device; full tells whether the system group was fetched. */
  datatype Conclusion<W> = Conclusion(deviceID: nat, full: bool, value: W)

  type Call<V, W> = P.Call<Result<V>, Conclusion<W>>

  type Pool<V, W> = P.System<Result<V>, Conclusion<W>>

  /**
   * The runner goroutine that started a call, how many it had started before, the jobs of the call,
   * and how many of its probe results the runner has offered to the reporter.
   */
  datatype Run = Run(owner: nat, nth: nat, jobs: seq<Job>, handed: nat)

  /** runs[k] belongs to call k; literal says, by task type, of which targets the host is an IP address. */
  datatype State<V, W> = State(
    literal: (string, string) -> bool, sched: S.Sys, pool: Pool<V, W>,
    rep: R.State<Result<V>, Conclusion<W>>, runs: seq<Run>)

  function Start<V, W>(maxConcurrency: int, batchSize: int, literal: (string, string) -> bool): State<V, W> {
    State(literal, S.Initial(), P.Empty(P.LimitFor(maxConcurrency)), R.NewReporter(batchSize), [])
  }

  // ------------------------------------------------------------------ what a task asks for

  datatype Work = FanOut | OneByOne | PollDevice | NoWork

  /** Dispatch by task type; a poll without SNMP block and an unknown type do nothing. */
  function WorkOf(t: Task): Work {
    if t.kind == "snmp_poll" then (if t.snmp.Some? then PollDevice else NoWork)
    else if t.kind in {"ping", "meshping", "tcpping", "httpcheck", "dnscheck", "mtr", "meshmtr"} then FanOut
    else if t.kind == "traceroute" then OneByOne
    else NoWork
  }

  function JobsFor(t: Task, literal: (string, string) -> bool): seq<Job> {
    if WorkOf(t).FanOut? || WorkOf(t).OneByOne?
    then Expand(t.targets, t.addressFamily, target => literal(t.kind, target)) else []
  }

  function ResultsOf<V>(t: Task, jobs: seq<Job>, values: seq<V>): seq<Result<V>>
    requires |jobs| == |values|
  {
    seq(|jobs|, i requires 0 <= i < |jobs| => Result(t.taskID, jobs[i], values[i]))
  }

  /** How many of the first n runs are by the given runner. */
  function Earlier(runs: seq<Run>, n: nat, owner: nat): nat
    requires n <= |runs|
  {
    if n == 0 then 0 else Earlier(runs, n - 1, owner) + (if runs[n - 1].owner == owner then 1 else 0)
  }

  /** The call of an execution of the task, its nth; values and value are what the probes would return. */
  function CallOf<V, W>(t: Task, nth: nat, jobs: seq<Job>, values: seq<V>, value: W): Call<V, W>
    requires !WorkOf(t).NoWork? && |jobs| == |values|
  {
    match WorkOf(t)
    case FanOut => P.NewFan(ResultsOf(t, jobs, values))
    case OneByOne => P.NewSerial(ResultsOf(t, jobs, values))
    case PollDevice =>
      P.NewPoll(Conclusion(t.snmp.value.deviceID, FullPoll(t.snmp.value.inventoryEveryN, nth), value))
  }

  // ------------------------------------------------------------------ the steps

  datatype Step<V, W> =
    | Sched(step: S.Step)                        // the scheduler, or a runner between executions
    | Execute(g: nat, values: seq<V>, value: W)  // runner g reads the source pair and starts its call
    | Probing(k: nat, act: P.Step)               // a step inside call k
    | Hand(k: nat)                               // the next result of call k is enqueued
    | Report(k: nat)                             // the conclusion of poll k is enqueued
    | Done(g: nat)                               // runner g returns from its execution
    | Upload(event: R.Event<Result<V>, Conclusion<W>>)

  /** The call has returned and everything it returned was offered. */
  predicate CallDone<V, W>(c: Call<V, W>, run: Run) {
    P.Complete(c) && (c.Poll? || run.handed == |c.results|)
  }

  predicate Enabled<V, W>(s: State<V, W>, step: Step<V, W>) {
    match step
    case Sched(e) => S.Enabled(s.sched, e) && !e.ReadPair? && !e.Finish?
    case Execute(g, values, _) =>
      && S.Enabled(s.sched, S.ReadPair(g)) && g < |s.sched.s.spawned|
      && |values| == |JobsFor(s.sched.s.spawned[g], s.literal)|
    case Probing(k, act) =>
      && k < |s.runs| && P.Possible(s.pool, P.Act(k, act)) && !act.Report?
      && (act.Cancel? ==> S.CtxCancelled(s.sched, s.runs[k].owner))
    case Hand(k) =>
      && k < |s.runs| && k < |s.pool.calls|
      && !s.pool.calls[k].Poll? && P.Complete(s.pool.calls[k]) && s.runs[k].handed < |s.pool.calls[k].results|
    case Report(k) => P.Possible(s.pool, P.Act(k, P.Report))
    case Done(g) =>
      && S.Enabled(s.sched, S.Finish(g))
      && forall k :: 0 <= k < |s.runs| && k < |s.pool.calls| && s.runs[k].owner == g ==>
           CallDone(s.pool.calls[k], s.runs[k])
    case Upload(e) => !e.OfferProbe? && !e.OfferSNMP? && R.Enabled(s.rep, e) && (e.Stop? ==> s.sched.ctxDone)
  }

  function Started<V, W>(s: State<V, W>, g: nat, values: seq<V>, value: W): State<V, W>
    requires Enabled(s, Execute(g, values, value))
  {
    var t := s.sched.s.spawned[g];
    if WorkOf(t).NoWork? then s
    else
      var (jobs, nth) := (JobsFor(t, s.literal), Earlier(s.runs, |s.runs|, g));
      s.(pool := s.pool.(calls := s.pool.calls + [CallOf(t, nth, jobs, values, value)]),
         runs := s.runs + [Run(g, nth, jobs, 0)])
  }

  /** One more result of the run has been offered. */
  function HandedOn(run: Run): Run {
    run.(handed := run.handed + 1)
  }

  function Next<V, W>(s: State<V, W>, step: Step<V, W>): State<V, W>
    requires Enabled(s, step)
  {
    match step
    case Sched(e) => s.(sched := S.Apply(s.sched, e))
    case Execute(g, values, value) => Started(s, g, values, value).(sched := S.Apply(s.sched, S.ReadPair(g)))
    case Probing(k, act) => s.(pool := P.After(s.pool, P.Act(k, act)))
    case Hand(k) =>
      s.(rep := R.Next(s.rep, R.OfferProbe(s.pool.calls[k].results[s.runs[k].handed])),
         runs := s.runs[k := HandedOn(s.runs[k])])
    case Report(k) =>
      s.(rep := R.Next(s.rep, R.OfferSNMP(s.pool.calls[k].conclusion)),
         pool := P.After(s.pool, P.Act(k, P.Report)))
    case Done(g) => s.(sched := S.Apply(s.sched, S.Finish(g)))
    case Upload(e) => s.(rep := R.Next(s.rep, e))
  }

  predicate Legal<V, W>(s: State<V, W>, steps: seq<Step<V, W>>)
    decreases steps
  {
    steps == [] || (Enabled(s, steps[0]) && Legal(Next(s, steps[0]), steps[1..]))
  }

  function Exec<V, W>(s: State<V, W>, steps: seq<Step<V, W>>): State<V, W>
    requires Legal(s, steps)
    decreases steps
  {
    if steps == [] then s else Exec(Next(s, steps[0]), steps[1..])
  }

  // ------------------------------------------------------------------ the invariant of one run

  /** One outcome for each job, each naming its task and job. */
  ghost predicate Fits<V>(outcome: seq<Result<V>>, taskID: int, jobs: seq<Job>) {
    && |outcome| == |jobs|
    && forall i :: 0 <= i < |jobs| ==> outcome[i].taskID == taskID && outcome[i].job == jobs[i]
  }

  /** The call is the one an execution of the task starts. */
  ghost predicate Serves<V, W>(c: Call<V, W>, run: Run, t: Task, literal: (string, string) -> bool) {
    && run.jobs == JobsFor(t, literal)
    && match WorkOf(t)
       case FanOut => c.Fan? && Fits(c.outcome, t.taskID, run.jobs)
       case OneByOne => c.Serial? && Fits(c.outcome, t.taskID, run.jobs)
       case PollDevice =>
         && c.Poll? && c.conclusion.deviceID == t.snmp.value.deviceID
         && c.conclusion.full == FullPoll(t.snmp.value.inventoryEveryN, run.nth)
       case NoWork => false
  }

  /** Results are offered only of a call that has returned. */
  ghost predicate HandedOk<V, W>(c: Call<V, W>, n: nat) {
    if c.Poll? then n == 0 else n <= |c.results| && (n > 0 ==> P.Complete(c))
  }

  ghost predicate RunOk<V, W>(y: S.Sys, c: Call<V, W>, run: Run, literal: (string, string) -> bool) {
    && run.owner < |y.gos| && run.owner < |y.s.spawned|
    && Serves(c, run, y.s.spawned[run.owner], literal)
    && HandedOk(c, run.handed)
    && (c.cancelled ==> S.CtxCancelled(y, run.owner))
    && (y.gos[run.owner].phase != S.Probing ==> CallDone(c, run))
  }

  ghost predicate RunsOk<V, W>(y: S.Sys, calls: seq<Call<V, W>>, runs: seq<Run>, literal: (string, string) -> bool) {
    && |runs| == |calls|
    && forall k :: 0 <= k < |runs| ==> RunOk(y, calls[k], runs[k], literal)
  }

  /** Run k is numbered by how many runs its runner had started before. */
  ghost predicate NthOk(runs: seq<Run>, k: nat) {
    k < |runs| && runs[k].nth == Earlier(runs, k, runs[k].owner)
  }

  ghost predicate Numbered(runs: seq<Run>) {
    forall k :: 0 <= k < |runs| ==> NthOk(runs, k)
  }

  // ------------------------------------------------------------------ what has been offered

  ghost function HandedOf<V, W>(c: Call<V, W>, n: nat): multiset<Result<V>> {
    if !c.Poll? && n <= |c.results| then multiset(c.results[..n]) else multiset{}
  }

  ghost function ReportedOf<V, W>(c: Call<V, W>): multiset<Conclusion<W>> {
    if c.Poll? then multiset(c.reported) else multiset{}
  }

  ghost function HandedBags<V, W>(calls: seq<Call<V, W>>, runs: seq<Run>): seq<multiset<Result<V>>>
    requires |calls| == |runs|
  {
    seq(|calls|, k requires 0 <= k < |calls| => HandedOf(calls[k], runs[k].handed))
  }

  /** All probe results the runners have offered. */
  ghost function HandedBag<V, W>(calls: seq<Call<V, W>>, runs: seq<Run>): multiset<Result<V>>
    requires |calls| == |runs|
  {
    Sum(HandedBags(calls, runs), |calls|)
  }

  ghost function ReportedBags<V, W>(calls: seq<Call<V, W>>): seq<multiset<Conclusion<W>>> {
    seq(|calls|, k requires 0 <= k < |calls| => ReportedOf(calls[k]))
  }

  /** All conclusions the polls have offered. */
  ghost function ReportedBag<V, W>(calls: seq<Call<V, W>>): multiset<Conclusion<W>> {
    Sum(ReportedBags(calls), |calls|)
  }

  ghost predicate Tallied<V, W>(calls: seq<Call<V, W>>, runs: seq<Run>,
                                probe: seq<Result<V>>, snmp: seq<Conclusion<W>>) {
    |calls| == |runs| && multiset(probe) == HandedBag(calls, runs) && multiset(snmp) == ReportedBag(calls)
  }

  /** What ties the parts together; probe and snmp are the results offered to the two endpoints. */
  ghost predicate Joint<V, W>(y: S.Sys, calls: seq<Call<V, W>>, runs: seq<Run>, literal: (string, string) -> bool,
                              probe: seq<Result<V>>, snmp: seq<Conclusion<W>>) {
    RunsOk(y, calls, runs, literal) && Numbered(runs) && Tallied(calls, runs, probe, snmp)
  }

  ghost predicate Inv<V, W>(s: State<V, W>) {
    && S.Inv(s.sched) && P.Inv(s.pool) && R.Inv(s.rep)
    && Joint(s.sched, s.pool.calls, s.runs, s.literal, s.rep.probe.log.offered, s.rep.snmp.log.offered)
  }

  // ------------------------------------------------------------------ scheduler steps

  /** The runner sees a scheduler state in which it stands the same, or has just begun an execution. */
  lemma RunStaysOk<V, W>(y: S.Sys, y': S.Sys, c: Call<V, W>, run: Run, literal: (string, string) -> bool)
    requires RunOk(y, c, run, literal)
    requires run.owner < |y'.gos| && run.owner < |y'.s.spawned|
    requires y'.s.spawned[run.owner] == y.s.spawned[run.owner]
    requires S.CtxCancelled(y, run.owner) ==> S.CtxCancelled(y', run.owner)
    requires y.gos[run.owner].phase == S.Probing ==> y'.gos[run.owner].phase == S.Probing || CallDone(c, run)
    ensures RunOk(y', c, run, literal)
  {
  }

  lemma SchedKeepsRuns<V, W>(y: S.Sys, e: S.Step, calls: seq<Call<V, W>>, runs: seq<Run>,
                             literal: (string, string) -> bool)
    requires S.Enabled(y, e) && !e.Finish? && RunsOk(y, calls, runs, literal)
    ensures RunsOk(S.Apply(y, e), calls, runs, literal)
  {
    forall k | 0 <= k < |runs| ensures RunOk(S.Apply(y, e), calls[k], runs[k], literal) {
      S.StepLeavesRunner(y, e, runs[k].owner);
      RunStaysOk(y, S.Apply(y, e), calls[k], runs[k], literal);
    }
  }

  lemma DoneKeepsRuns<V, W>(y: S.Sys, g: nat, calls: seq<Call<V, W>>, runs: seq<Run>,
                            literal: (string, string) -> bool)
    requires S.Enabled(y, S.Finish(g)) && RunsOk(y, calls, runs, literal)
    requires forall k :: 0 <= k < |runs| && runs[k].owner == g ==> CallDone(calls[k], runs[k])
    ensures RunsOk(S.Apply(y, S.Finish(g)), calls, runs, literal)
  {
    forall k | 0 <= k < |runs| ensures RunOk(S.Apply(y, S.Finish(g)), calls[k], runs[k], literal) {
      RunStaysOk(y, S.Apply(y, S.Finish(g)), calls[k], runs[k], literal);
    }
  }

  // ------------------------------------------------------------------ a new call

  lemma CallOfServes<V, W>(t: Task, run: Run, values: seq<V>, value: W, literal: (string, string) -> bool)
    requires !WorkOf(t).NoWork? && run.jobs == JobsFor(t, literal) && |run.jobs| == |values|
    ensures var c: Call<V, W> := CallOf(t, run.nth, run.jobs, values, value);
            && Serves(c, run, t, literal)
            && P.CallInv(c) && P.Held(c) == 0 && !c.cancelled
            && HandedOf(c, 0) == multiset{} && ReportedOf(c) == multiset{} && (c.Poll? || c.results == [])
  {
  }

  lemma NewRunIsOk<V, W>(y: S.Sys, run: Run, c: Call<V, W>, literal: (string, string) -> bool)
    requires run.owner < |y.gos| && run.owner < |y.s.spawned| && y.gos[run.owner].phase == S.Probing
    requires Serves(c, run, y.s.spawned[run.owner], literal) && run.handed == 0 && !c.cancelled
    ensures RunOk(y, c, run, literal)
  {
  }

  lemma {:induction false} EarlierFront(runs: seq<Run>, run: Run, n: nat, owner: nat)
    requires n <= |runs|
    ensures Earlier(runs + [run], n, owner) == Earlier(runs, n, owner)
  {
    if n > 0 { EarlierFront(runs, run, n - 1, owner); }
  }

  lemma NumberedMore(runs: seq<Run>, run: Run)
    requires Numbered(runs) && run.nth == Earlier(runs, |runs|, run.owner)
    ensures Numbered(runs + [run])
  {
    var runs' := runs + [run];
    forall k | 0 <= k < |runs'| ensures NthOk(runs', k) {
      EarlierFront(runs, run, k, runs'[k].owner);
      if k < |runs| { assert NthOk(runs, k); }
    }
  }

  lemma TallyNewCall<V, W>(calls: seq<Call<V, W>>, runs: seq<Run>, c: Call<V, W>, run: Run,
                           probe: seq<Result<V>>, snmp: seq<Conclusion<W>>)
    requires Tallied(calls, runs, probe, snmp)
    requires HandedOf(c, run.handed) == multiset{} && ReportedOf(c) == multiset{}
    ensures Tallied(calls + [c], runs + [run], probe, snmp)
  {
    SumAppendEmpty(HandedBags(calls, runs), HandedBags(calls + [c], runs + [run]));
    SumAppendEmpty(ReportedBags(calls), ReportedBags(calls + [c]));
  }

  lemma CallJoins<V, W>(y: S.Sys, calls: seq<Call<V, W>>, runs: seq<Run>, literal: (string, string) -> bool,
                        probe: seq<Result<V>>, snmp: seq<Conclusion<W>>, c: Call<V, W>, run: Run)
    requires Joint(y, calls, runs, literal, probe, snmp) && RunOk(y, c, run, literal)
    requires run.nth == Earlier(runs, |runs|, run.owner)
    requires HandedOf(c, run.handed) == multiset{} && ReportedOf(c) == multiset{}
    ensures Joint(y, calls + [c], runs + [run], literal, probe, snmp)
  {
    NumberedMore(runs, run);
    TallyNewCall(calls, runs, c, run, probe, snmp);
  }

  lemma WorkStartsCall<V, W>(y: S.Sys, calls: seq<Call<V, W>>, runs: seq<Run>, literal: (string, string) -> bool,
                             probe: seq<Result<V>>, snmp: seq<Conclusion<W>>, run: Run, values: seq<V>, value: W)
    requires Joint(y, calls, runs, literal, probe, snmp)
    requires run.owner < |y.gos| && run.owner < |y.s.spawned| && y.gos[run.owner].phase == S.Probing
    requires var t := y.s.spawned[run.owner];
             !WorkOf(t).NoWork? && run == Run(run.owner, Earlier(runs, |runs|, run.owner), JobsFor(t, literal), 0)
    requires |values| == |run.jobs|
    ensures var c: Call<V, W> := CallOf(y.s.spawned[run.owner], run.nth, run.jobs, values, value);
            && P.CallInv(c) && P.Held(c) == 0
            && Joint(y, calls + [c], runs + [run], literal, probe, snmp)
  {
    var t := y.s.spawned[run.owner];
    var c: Call<V, W> := CallOf(t, run.nth, run.jobs, values, value);
    CallOfServes(t, run, values, value, literal);
    NewRunIsOk(y, run, c, literal);
    CallJoins(y, calls, runs, literal, probe, snmp, c, run);
  }

  lemma ReadPairBegins(y: S.Sys, g: nat)
    requires S.Enabled(y, S.ReadPair(g))
    ensures var y' := S.Apply(y, S.ReadPair(g)); y'.s == y.s && g < |y'.gos| && y'.gos[g].phase == S.Probing
  {
  }

  lemma ExecuteKeepsInv<V, W>(s: State<V, W>, g: nat, values: seq<V>, value: W)
    requires Inv(s) && Enabled(s, Execute(g, values, value))
    ensures Inv(Next(s, Execute(g, values, value)))
  {
    var (y', t) := (S.Apply(s.sched, S.ReadPair(g)), s.sched.s.spawned[g]);
    S.StepKeepsInv(s.sched, S.ReadPair(g));
    ReadPairBegins(s.sched, g);
    SchedKeepsRuns(s.sched, S.ReadPair(g), s.pool.calls, s.runs, s.literal);
    if !WorkOf(t).NoWork? {
      var run := Run(g, Earlier(s.runs, |s.runs|, g), JobsFor(t, s.literal), 0);
      WorkStartsCall(y', s.pool.calls, s.runs, s.literal, s.rep.probe.log.offered, s.rep.snmp.log.offered,
                     run, values, value);
      P.StartKeepsInv(s.pool, CallOf(t, run.nth, run.jobs, values, value));
    }
  }

  // ------------------------------------------------------------------ steps inside a call

  /** A step of a call leaves alone what it is for and what was offered of it. */
  lemma ActLeavesJob<V, W>(c: Call<V, W>, run: Run, act: P.Step, free: bool, t: Task, literal: (string, string) -> bool)
    requires P.CallInv(c) && P.Enabled(c, act, free) && Serves(c, run, t, literal)
    ensures Serves(P.Apply(c, act, free), run, t, literal)
    ensures P.Apply(c, act, free).cancelled ==> c.cancelled || act.Cancel?
    ensures !act.Report? ==> ReportedOf(P.Apply(c, act, free)) == ReportedOf(c)
  {
  }

  lemma ActLeavesHanded<V, W>(c: Call<V, W>, run: Run, act: P.Step, free: bool)
    requires P.CallInv(c) && P.Enabled(c, act, free) && HandedOk(c, run.handed)
    ensures var c' := P.Apply(c, act, free);
            && HandedOk(c', run.handed) && HandedOf(c', run.handed) == HandedOf(c, run.handed)
            && (CallDone(c, run) ==> CallDone(c', run))
  {
    if P.Complete(c) {
      P.CompleteIsFinal(c, act, free);
    } else if run.handed == 0 {
      NothingHanded(c);
      NothingHanded(P.Apply(c, act, free));
    }
  }

  lemma NothingHanded<V, W>(c: Call<V, W>)
    ensures HandedOf(c, 0) == multiset{}
  {
  }

  lemma ActKeepsRunOk<V, W>(y: S.Sys, c: Call<V, W>, run: Run, act: P.Step, free: bool,
                            literal: (string, string) -> bool)
    requires P.CallInv(c) && P.Enabled(c, act, free) && RunOk(y, c, run, literal)
    requires act.Cancel? ==> S.CtxCancelled(y, run.owner)
    ensures RunOk(y, P.Apply(c, act, free), run, literal)
  {
    ActLeavesJob(c, run, act, free, y.s.spawned[run.owner], literal);
    ActLeavesHanded(c, run, act, free);
  }

  lemma ActKeepsRuns<V, W>(y: S.Sys, calls: seq<Call<V, W>>, runs: seq<Run>, k: nat, act: P.Step, free: bool,
                           literal: (string, string) -> bool)
    requires RunsOk(y, calls, runs, literal) && k < |runs|
    requires P.CallInv(calls[k]) && P.Enabled(calls[k], act, free)
    requires act.Cancel? ==> S.CtxCancelled(y, runs[k].owner)
    ensures RunsOk(y, calls[k := P.Apply(calls[k], act, free)], runs, literal)
  {
    ActKeepsRunOk(y, calls[k], runs[k], act, free, literal);
  }

  /** What was offered of each call is the same. */
  lemma TallySame<V, W>(calls: seq<Call<V, W>>, runs: seq<Run>, k: nat, c: Call<V, W>,
                        probe: seq<Result<V>>, snmp: seq<Conclusion<W>>)
    requires Tallied(calls, runs, probe, snmp) && k < |calls|
    requires HandedOf(c, runs[k].handed) == HandedOf(calls[k], runs[k].handed)
    requires ReportedOf(c) == ReportedOf(calls[k])
    ensures Tallied(calls[k := c], runs, probe, snmp)
  {
    SumSame(HandedBags(calls, runs), HandedBags(calls[k := c], runs), |calls|);
    SumSame(ReportedBags(calls), ReportedBags(calls[k := c]), |calls|);
  }

  lemma ActKeepsJoint<V, W>(y: S.Sys, calls: seq<Call<V, W>>, runs: seq<Run>, literal: (string, string) -> bool,
                            probe: seq<Result<V>>, snmp: seq<Conclusion<W>>, k: nat, act: P.Step, free: bool)
    requires Joint(y, calls, runs, literal, probe, snmp) && k < |runs| && !act.Report?
    requires P.CallInv(calls[k]) && P.Enabled(calls[k], act, free)
    requires act.Cancel? ==> S.CtxCancelled(y, runs[k].owner)
    ensures Joint(y, calls[k := P.Apply(calls[k], act, free)], runs, literal, probe, snmp)
  {
    var c := calls[k];
    assert RunOk(y, c, runs[k], literal);
    ActKeepsRuns(y, calls, runs, k, act, free, literal);
    ActLeavesJob(c, runs[k], act, free, y.s.spawned[runs[k].owner], literal);
    ActLeavesHanded(c, runs[k], act, free);
    TallySame(calls, runs, k, P.Apply(c, act, free), probe, snmp);
  }

  lemma ProbingKeepsJoint<V, W>(y: S.Sys, pool: Pool<V, W>, runs: seq<Run>, literal: (string, string) -> bool,
                                probe: seq<Result<V>>, snmp: seq<Conclusion<W>>, k: nat, act: P.Step)
    requires P.Inv(pool) && P.Possible(pool, P.Act(k, act)) && k < |runs| && !act.Report?
    requires Joint(y, pool.calls, runs, literal, probe, snmp) && (act.Cancel? ==> S.CtxCancelled(y, runs[k].owner))
    ensures Joint(y, P.After(pool, P.Act(k, act)).calls, runs, literal, probe, snmp)
  {
    assert P.CallInv(pool.calls[k]);
    ActKeepsJoint(y, pool.calls, runs, literal, probe, snmp, k, act, pool.occupied < pool.limit);
  }

  lemma ProbingKeepsInv<V, W>(s: State<V, W>, k: nat, act: P.Step)
    requires Inv(s) && Enabled(s, Probing(k, act))
    ensures Inv(Next(s, Probing(k, act)))
  {
    P.ActKeepsInv(s.pool, k, act);
    ProbingKeepsJoint(s.sched, s.pool, s.runs, s.literal, s.rep.probe.log.offered, s.rep.snmp.log.offered, k, act);
  }

  // ------------------------------------------------------------------ offers

  lemma TallyReport<V, W>(calls: seq<Call<V, W>>, runs: seq<Run>, k: nat, c: Call<V, W>,
                          probe: seq<Result<V>>, snmp: seq<Conclusion<W>>)
    requires Tallied(calls, runs, probe, snmp) && k < |calls|
    requires calls[k].Poll? && c.Poll? && calls[k].reported == [] && c.reported == [c.conclusion]
    ensures Tallied(calls[k := c], runs, probe, snmp + [c.conclusion])
  {
    SumSame(HandedBags(calls, runs), HandedBags(calls[k := c], runs), |calls|);
    SumGrows(ReportedBags(calls), ReportedBags(calls[k := c]), k, multiset{c.conclusion}, |calls|);
    R.BagGains(snmp, c.conclusion);
  }

  lemma ReportKeepsJoint<V, W>(y: S.Sys, pool: Pool<V, W>, runs: seq<Run>, literal: (string, string) -> bool,
                               probe: seq<Result<V>>, snmp: seq<Conclusion<W>>, k: nat)
    requires P.Inv(pool) && P.Possible(pool, P.Act(k, P.Report)) && k < |runs|
    requires Joint(y, pool.calls, runs, literal, probe, snmp)
    ensures pool.calls[k].Poll?
    ensures Joint(y, P.After(pool, P.Act(k, P.Report)).calls, runs, literal, probe, snmp + [pool.calls[k].conclusion])
  {
    var (c, free) := (pool.calls[k], pool.occupied < pool.limit);
    assert P.CallInv(c);
    ActKeepsRuns(y, pool.calls, runs, k, P.Report, free, literal);
    TallyReport(pool.calls, runs, k, P.Apply(c, P.Report, free), probe, snmp);
  }

  lemma OfferProbeLogs<A, B>(rep: R.State<A, B>, a: A)
    ensures var rep' := R.Next(rep, R.OfferProbe(a));
            rep'.probe.log.offered == rep.probe.log.offered + [a] && rep'.snmp.log.offered == rep.snmp.log.offered
  {
  }

  lemma OfferSNMPLogs<A, B>(rep: R.State<A, B>, b: B)
    ensures var rep' := R.Next(rep, R.OfferSNMP(b));
            rep'.probe.log.offered == rep.probe.log.offered && rep'.snmp.log.offered == rep.snmp.log.offered + [b]
  {
  }

  lemma ReportKeepsInv<V, W>(s: State<V, W>, k: nat)
    requires Inv(s) && Enabled(s, Report(k))
    ensures Inv(Next(s, Report(k)))
  {
    P.ActKeepsInv(s.pool, k, P.Report);
    R.NextKeepsInv(s.rep, R.OfferSNMP(s.pool.calls[k].conclusion));
    OfferSNMPLogs(s.rep, s.pool.calls[k].conclusion);
    ReportKeepsJoint(s.sched, s.pool, s.runs, s.literal, s.rep.probe.log.offered, s.rep.snmp.log.offered, k);
  }

  lemma OneMore<V, W>(c: Call<V, W>, n: nat)
    requires !c.Poll? && n < |c.results|
    ensures HandedOf(c, n + 1) == HandedOf(c, n) + multiset{c.results[n]}
  {
    OneMoreInBag(c.results, n);
  }

  lemma TallyHand<V, W>(calls: seq<Call<V, W>>, runs: seq<Run>, k: nat, run: Run,
                        probe: seq<Result<V>>, snmp: seq<Conclusion<W>>)
    requires Tallied(calls, runs, probe, snmp) && k < |calls| && !calls[k].Poll?
    requires runs[k].handed < |calls[k].results| && run.handed == runs[k].handed + 1
    ensures Tallied(calls, runs[k := run], probe + [calls[k].results[runs[k].handed]], snmp)
  {
    var v := calls[k].results[runs[k].handed];
    OneMore(calls[k], runs[k].handed);
    SumGrows(HandedBags(calls, runs), HandedBags(calls, runs[k := run]), k, multiset{v}, |calls|);
    R.BagGains(probe, v);
  }

  lemma {:induction false} EarlierSame(runs: seq<Run>, runs': seq<Run>, n: nat, owner: nat)
    requires n <= |runs| == |runs'| && forall k :: 0 <= k < |runs| ==> runs'[k].owner == runs[k].owner
    ensures Earlier(runs', n, owner) == Earlier(runs, n, owner)
  {
    if n > 0 { EarlierSame(runs, runs', n - 1, owner); }
  }

  lemma NumberedSame(runs: seq<Run>, k: nat, run: Run)
    requires Numbered(runs) && k < |runs| && run.owner == runs[k].owner && run.nth == runs[k].nth
    ensures Numbered(runs[k := run])
  {
    var runs' := runs[k := run];
    forall j | 0 <= j < |runs'| ensures NthOk(runs', j) {
      assert NthOk(runs, j);
      EarlierSame(runs, runs', j, runs[j].owner);
    }
  }

  lemma HandKeepsRunOk<V, W>(y: S.Sys, c: Call<V, W>, run: Run, literal: (string, string) -> bool)
    requires RunOk(y, c, run, literal) && !c.Poll? && P.Complete(c) && run.handed < |c.results|
    ensures RunOk(y, c, HandedOn(run), literal)
  {
  }

  lemma HandKeepsJoint<V, W>(y: S.Sys, calls: seq<Call<V, W>>, runs: seq<Run>, literal: (string, string) -> bool,
                             probe: seq<Result<V>>, snmp: seq<Conclusion<W>>, k: nat)
    requires Joint(y, calls, runs, literal, probe, snmp) && k < |runs|
    requires !calls[k].Poll? && P.Complete(calls[k]) && runs[k].handed < |calls[k].results|
    ensures Joint(y, calls, runs[k := HandedOn(runs[k])], literal,
                  probe + [calls[k].results[runs[k].handed]], snmp)
  {
    var run := HandedOn(runs[k]);
    HandKeepsRunOk(y, calls[k], runs[k], literal);
    NumberedSame(runs, k, run);
    TallyHand(calls, runs, k, run, probe, snmp);
  }

  lemma HandKeepsInv<V, W>(s: State<V, W>, k: nat)
    requires Inv(s) && Enabled(s, Hand(k))
    ensures Inv(Next(s, Hand(k)))
  {
    var v := s.pool.calls[k].results[s.runs[k].handed];
    R.NextKeepsInv(s.rep, R.OfferProbe(v));
    OfferProbeLogs(s.rep, v);
    HandKeepsJoint(s.sched, s.pool.calls, s.runs, s.literal, s.rep.probe.log.offered, s.rep.snmp.log.offered, k);
  }

  lemma UploadKeepsOffered<V, W>(rep: R.State<V, W>, e: R.Event<V, W>)
    requires !e.OfferProbe? && !e.OfferSNMP? && R.Enabled(rep, e)
    ensures R.Next(rep, e).probe.log.offered == rep.probe.log.offered
    ensures R.Next(rep, e).snmp.log.offered == rep.snmp.log.offered
  {
  }

  /** Any step of the scheduler part but the end of an execution. */
  lemma SchedMoves<V, W>(s: State<V, W>, e: S.Step)
    requires Inv(s) && S.Enabled(s.sched, e) && !e.Finish?
    ensures Inv(s.(sched := S.Apply(s.sched, e)))
  {
    S.StepKeepsInv(s.sched, e);
    SchedKeepsRuns(s.sched, e, s.pool.calls, s.runs, s.literal);
  }

  lemma DoneMoves<V, W>(s: State<V, W>, g: nat)
    requires Inv(s) && S.Enabled(s.sched, S.Finish(g))
    requires forall k :: 0 <= k < |s.runs| && s.runs[k].owner == g ==> CallDone(s.pool.calls[k], s.runs[k])
    ensures Inv(s.(sched := S.Apply(s.sched, S.Finish(g))))
  {
    S.StepKeepsInv(s.sched, S.Finish(g));
    DoneKeepsRuns(s.sched, g, s.pool.calls, s.runs, s.literal);
  }

  lemma UploadKeepsInv<V, W>(s: State<V, W>, e: R.Event<Result<V>, Conclusion<W>>)
    requires Inv(s) && Enabled(s, Upload(e))
    ensures Inv(Next(s, Upload(e)))
  {
    R.NextKeepsInv(s.rep, e);
    UploadKeepsOffered(s.rep, e);
  }

  lemma NextKeepsInv<V, W>(s: State<V, W>, step: Step<V, W>)
    requires Inv(s) && Enabled(s, step)
    ensures Inv(Next(s, step))
  {
    match step
    case Sched(e) => SchedMoves(s, e);
    case Execute(g, values, value) => ExecuteKeepsInv(s, g, values, value);
    case Probing(k, act) => ProbingKeepsInv(s, k, act);
    case Hand(k) => HandKeepsInv(s, k);
    case Report(k) => ReportKeepsInv(s, k);
    case Done(g) => DoneMoves(s, g);
    case Upload(e) => UploadKeepsInv(s, e);
  }

  lemma {:induction false} RunKeepsInv<V, W>(s: State<V, W>, steps: seq<Step<V, W>>)
    requires Inv(s) && Legal(s, steps)
    ensures Inv(Exec(s, steps))
    decreases steps
  {
    if steps != [] {
      NextKeepsInv(s, steps[0]);
      RunKeepsInv(Next(s, steps[0]), steps[1..]);
    }
  }

  lemma {:induction false} LiteralIsConstant<V, W>(s: State<V, W>, steps: seq<Step<V, W>>)
    requires Legal(s, steps)
    ensures Exec(s, steps).literal == s.literal
    decreases steps
  {
    if steps != [] { LiteralIsConstant(Next(s, steps[0]), steps[1..]); }
  }

  lemma StartHasInv<V, W>(maxConcurrency: int, batchSize: int, literal: (string, string) -> bool)
    ensures Inv<V, W>(Start(maxConcurrency, batchSize, literal))
  {
    S.InitialHasInv();
    P.EmptyHasInv<Result<V>, Conclusion<W>>(P.LimitFor(maxConcurrency));
    R.NewHasInv<Result<V>, Conclusion<W>>(batchSize);
    EmptyJoint<V, W>(S.Initial(), literal);
  }

  lemma EmptyJoint<V, W>(y: S.Sys, literal: (string, string) -> bool)
    ensures Joint<V, W>(y, [], [], literal, [], [])
  {
  }

  // ------------------------------------------------------------------ end to end

  ghost function ResultBags<V, W>(calls: seq<Call<V, W>>): seq<multiset<Result<V>>> {
    seq(|calls|, k requires 0 <= k < |calls| => if calls[k].Poll? then multiset{} else multiset(calls[k].results))
  }

  /** The results of all probe calls. */
  ghost function ResultBag<V, W>(calls: seq<Call<V, W>>): multiset<Result<V>> {
    Sum(ResultBags(calls), |calls|)
  }

  lemma AllHanded<V, W>(calls: seq<Call<V, W>>, runs: seq<Run>)
    requires |calls| == |runs| && forall k :: 0 <= k < |calls| ==> CallDone(calls[k], runs[k])
    ensures HandedBag(calls, runs) == ResultBag(calls)
  {
    forall k | 0 <= k < |calls| ensures HandedBags(calls, runs)[k] == ResultBags(calls)[k] {
      if !calls[k].Poll? { assert calls[k].results[..runs[k].handed] == calls[k].results; }
    }
    SumSame(HandedBags(calls, runs), ResultBags(calls), |calls|);
  }

  /**
   * What the runners have offered is, on each endpoint and as a multiset, what the reporter
   * refused, evicted, uploaded in finished uploads, and still holds. Once every call is done,
   * these are the results of all probe calls.
   */
  ghost predicate Delivers<V, W>(s: State<V, W>) {
    && |s.runs| == |s.pool.calls|
    && |s.rep.probe.log.settled| <= |s.rep.probe.log.accepted|
    && |s.rep.snmp.log.settled| <= |s.rep.snmp.log.accepted|
    && HandedBag(s.pool.calls, s.runs) == R.Places(s.rep.probe)
    && ReportedBag(s.pool.calls) == R.Places(s.rep.snmp)
    && ((forall k :: 0 <= k < |s.runs| ==> CallDone(s.pool.calls[k], s.runs[k])) ==>
          ResultBag(s.pool.calls) == R.Places(s.rep.probe))
  }

  lemma InvDelivers<V, W>(s: State<V, W>)
    requires Inv(s)
    ensures Delivers(s)
  {
    R.AccountAddsUp(s.rep.probe);
    R.AccountAddsUp(s.rep.snmp);
    if forall k :: 0 <= k < |s.runs| ==> CallDone(s.pool.calls[k], s.runs[k]) {
      AllHanded(s.pool.calls, s.runs);
    }
  }

  /** End to end, in every run of scheduler, runners, pool and reporter: none lost on the way, none made up. */
  lemma EndToEnd<V, W>(maxConcurrency: int, batchSize: int, literal: (string, string) -> bool, steps: seq<Step<V, W>>)
    requires Legal(Start(maxConcurrency, batchSize, literal), steps)
    ensures Delivers(Exec(Start(maxConcurrency, batchSize, literal), steps))
  {
    StartHasInv<V, W>(maxConcurrency, batchSize, literal);
    RunKeepsInv(Start(maxConcurrency, batchSize, literal), steps);
    InvDelivers(Exec(Start(maxConcurrency, batchSize, literal), steps));
  }

  // ------------------------------------------------------------------ one result for each job

  function JobsIn<V>(results: seq<Result<V>>): seq<Job> {
    seq(|results|, i requires 0 <= i < |results| => results[i].job)
  }

  lemma JobsInSplit<V>(a: seq<Result<V>>, x: Result<V>, b: seq<Result<V>>)
    ensures multiset(JobsIn(a + [x] + b)) == multiset(JobsIn(a + b)) + multiset{x.job}
  {
    assert JobsIn(a + [x] + b) == JobsIn(a) + [x.job] + JobsIn(b);
    assert JobsIn(a + b) == JobsIn(a) + JobsIn(b);
  }

  lemma BagWithout<T>(a: seq<T>, x: T, b: seq<T>)
    ensures multiset(a + [x] + b) == multiset(a + b) + multiset{x}
  {
  }

  lemma DropFromBoth<T>(a: multiset<T>, b: multiset<T>, x: T)
    requires a + multiset{x} <= b + multiset{x}
    ensures a <= b
  {
    forall y ensures a[y] <= b[y] {
      assert (a + multiset{x})[y] <= (b + multiset{x})[y];
    }
  }

  /** Fewer results have fewer jobs, counted with their multiplicity. */
  lemma {:induction false} JobsMonotone<V>(a: seq<Result<V>>, b: seq<Result<V>>)
    requires multiset(a) <= multiset(b)
    ensures multiset(JobsIn(a)) <= multiset(JobsIn(b))
  {
    if a != [] {
      var (front, x) := (a[..|a| - 1], a[|a| - 1]);
      assert a == front + [x] + [] && front == front + [];
      assert x in multiset(a);
      var i :| 0 <= i < |b| && b[i] == x;
      assert b == b[..i] + [x] + b[i + 1..];
      BagWithout(front, x, []);
      BagWithout(b[..i], x, b[i + 1..]);
      DropFromBoth(multiset(front), multiset(b[..i] + b[i + 1..]), x);
      JobsMonotone(front, b[..i] + b[i + 1..]);
      JobsInSplit(front, x, []);
      JobsInSplit(b[..i], x, b[i + 1..]);
    }
  }

  lemma SameBagSameJobs<V>(a: seq<Result<V>>, b: seq<Result<V>>)
    requires multiset(a) == multiset(b)
    ensures multiset(JobsIn(a)) == multiset(JobsIn(b))
  {
    JobsMonotone(a, b);
    JobsMonotone(b, a);
  }

  /** A call that has returned has results of its jobs only; all of them unless it was cancelled. */
  lemma ReturnedJobs<V, W>(c: Call<V, W>, run: Run, t: Task, literal: (string, string) -> bool)
    requires P.CallInv(c) && Serves(c, run, t, literal) && !c.Poll? && P.Complete(c)
    ensures multiset(JobsIn(c.results)) <= multiset(run.jobs)
    ensures forall i :: 0 <= i < |c.results| ==> c.results[i].taskID == t.taskID
    ensures !c.cancelled ==> multiset(JobsIn(c.results)) == multiset(run.jobs)
  {
    assert JobsIn(c.outcome) == run.jobs;
    P.ReturnedResults(c);
    JobsMonotone(c.results, c.outcome);
    forall i | 0 <= i < |c.results| ensures c.results[i].taskID == t.taskID {
      assert c.results[i] in multiset(c.outcome);
    }
    if !c.cancelled { SameBagSameJobs(c.results, c.outcome); }
  }

  lemma PrefixBag<T>(s: seq<T>, n: nat)
    requires n <= |s|
    ensures multiset(s[..n]) <= multiset(s)
  {
    assert s == s[..n] + s[n..];
  }

  /**
   * What was offered of a call: at most one result for each job of its task. A poll offers at most
   * one conclusion, of its own device, full when the runner's counter says so.
   */
  ghost predicate OfferedRight<V, W>(y: S.Sys, c: Call<V, W>, run: Run, literal: (string, string) -> bool) {
    && run.owner < |y.s.spawned|
    && var t := y.s.spawned[run.owner];
       if WorkOf(t).PollDevice? then
         && c.Poll? && |c.reported| <= 1
         && forall i :: 0 <= i < |c.reported| ==>
              && c.reported[i].deviceID == t.snmp.value.deviceID
              && c.reported[i].full == FullPoll(t.snmp.value.inventoryEveryN, run.nth)
       else
         && !c.Poll? && run.handed <= |c.results|
         && multiset(JobsIn(c.results[..run.handed])) <= multiset(JobsFor(t, literal))
         && (forall i :: 0 <= i < run.handed ==> c.results[i].taskID == t.taskID)
  }

  /** Everything was offered: exactly one result for each job of the task, or one conclusion. */
  ghost predicate OfferedAll<V, W>(y: S.Sys, c: Call<V, W>, run: Run, literal: (string, string) -> bool) {
    && OfferedRight(y, c, run, literal)
    && var t := y.s.spawned[run.owner];
       if WorkOf(t).PollDevice? then |c.reported| == 1
       else multiset(JobsIn(c.results[..run.handed])) == multiset(JobsFor(t, literal))
  }

  /** The runner stands between executions and has not been cancelled. */
  ghost predicate Over(y: S.Sys, g: nat) {
    g < |y.gos| && y.gos[g].phase != S.Probing && !S.CtxCancelled(y, g)
  }

  lemma ProbesOfferRight<V, W>(y: S.Sys, c: Call<V, W>, run: Run, literal: (string, string) -> bool)
    requires P.CallInv(c) && RunOk(y, c, run, literal) && !c.Poll? && P.Complete(c)
    ensures OfferedRight(y, c, run, literal)
  {
    var all := c.results;
    ReturnedJobs(c, run, y.s.spawned[run.owner], literal);
    PrefixBag(all, run.handed);
    JobsMonotone(all[..run.handed], all);
  }

  lemma RunOffersRight<V, W>(y: S.Sys, c: Call<V, W>, run: Run, literal: (string, string) -> bool)
    requires P.CallInv(c) && RunOk(y, c, run, literal)
    ensures OfferedRight(y, c, run, literal)
  {
    if !c.Poll? {
      if P.Complete(c) { ProbesOfferRight(y, c, run, literal); } else { assert JobsIn(c.results[..0]) == []; }
    }
  }

  lemma InvOffersRight<V, W>(s: State<V, W>, k: nat)
    requires Inv(s) && k < |s.runs|
    ensures |s.runs| == |s.pool.calls| && OfferedRight(s.sched, s.pool.calls[k], s.runs[k], s.literal)
    ensures NthOk(s.runs, k)
  {
    assert P.CallInv(s.pool.calls[k]) && RunOk(s.sched, s.pool.calls[k], s.runs[k], s.literal);
    RunOffersRight(s.sched, s.pool.calls[k], s.runs[k], s.literal);
  }

  // ------------------------------------------------------------------ what is over stays over

  /** Every job has its result offered; this says nothing about the runner any more. */
  ghost predicate Settled<V, W>(c: Call<V, W>, run: Run) {
    && CallDone(c, run)
    && if c.Poll? then c.reported == [c.conclusion] else multiset(JobsIn(c.results)) == multiset(run.jobs)
  }

  lemma OverIsSettled<V, W>(y: S.Sys, c: Call<V, W>, run: Run, literal: (string, string) -> bool)
    requires P.CallInv(c) && RunOk(y, c, run, literal) && Over(y, run.owner)
    ensures Settled(c, run)
  {
    if c.Poll? {
      P.PollReportsOnce(c);
    } else {
      ReturnedJobs(c, run, y.s.spawned[run.owner], literal);
    }
  }

  lemma SettledOffersAll<V, W>(y: S.Sys, c: Call<V, W>, run: Run, literal: (string, string) -> bool)
    requires P.CallInv(c) && RunOk(y, c, run, literal) && Settled(c, run)
    ensures OfferedAll(y, c, run, literal)
  {
    RunOffersRight(y, c, run, literal);
    if !c.Poll? { assert c.results[..run.handed] == c.results; }
  }

  /** The call is the same, except that its context may have been cancelled since. */
  ghost predicate SameCall<V, W>(c: Call<V, W>, c': Call<V, W>) {
    c' == c || c' == c.(cancelled := true)
  }

  lemma ActKeepsSettled<V, W>(c: Call<V, W>, run: Run, act: P.Step, free: bool)
    requires P.CallInv(c) && Settled(c, run) && P.Enabled(c, act, free)
    ensures SameCall(c, P.Apply(c, act, free))
  {
    P.CompleteIsFinal(c, act, free);
  }

  ghost predicate SettledAt<V, W>(s: State<V, W>, k: nat) {
    k < |s.runs| && k < |s.pool.calls| && Settled(s.pool.calls[k], s.runs[k])
  }

  /** The same run and call, later. */
  ghost predicate Stays<V, W>(s: State<V, W>, s': State<V, W>, k: nat)
    requires k < |s.runs| && k < |s.pool.calls|
  {
    && k < |s'.runs| && k < |s'.pool.calls| && s'.runs[k] == s.runs[k]
    && SameCall(s.pool.calls[k], s'.pool.calls[k])
  }

  lemma StaysSettled<V, W>(s: State<V, W>, s': State<V, W>, k: nat)
    requires SettledAt(s, k) && Stays(s, s', k)
    ensures SettledAt(s', k)
  {
  }

  lemma CallStepStays<V, W>(s: State<V, W>, k: nat, j: nat, act: P.Step)
    requires P.Inv(s.pool) && SettledAt(s, k) && P.Possible(s.pool, P.Act(j, act))
    ensures Stays(s, s.(pool := P.After(s.pool, P.Act(j, act))), k)
  {
    if j == k {
      assert P.CallInv(s.pool.calls[k]);
      ActKeepsSettled(s.pool.calls[k], s.runs[k], act, s.pool.occupied < s.pool.limit);
    }
  }

  lemma StepStays<V, W>(s: State<V, W>, step: Step<V, W>, k: nat)
    requires P.Inv(s.pool) && |s.runs| == |s.pool.calls| && Enabled(s, step) && SettledAt(s, k)
    ensures Stays(s, Next(s, step), k)
  {
    if step.Probing? {
      CallStepStays(s, k, step.k, step.act);
    } else if step.Report? {
      CallStepStays(s, k, step.k, P.Report);
    }
  }

  lemma {:induction false} RunStaysSettled<V, W>(s: State<V, W>, steps: seq<Step<V, W>>, k: nat)
    requires Inv(s) && Legal(s, steps) && SettledAt(s, k)
    ensures SettledAt(Exec(s, steps), k) && Exec(s, steps).runs[k] == s.runs[k]
    decreases steps
  {
    if steps != [] {
      NextKeepsInv(s, steps[0]);
      StepStays(s, steps[0], k);
      StaysSettled(s, Next(s, steps[0]), k);
      RunStaysSettled(Next(s, steps[0]), steps[1..], k);
    }
  }

  lemma InvSettles<V, W>(s: State<V, W>, k: nat)
    requires Inv(s) && k < |s.runs|
    ensures Over(s.sched, s.runs[k].owner) ==> SettledAt(s, k)
    ensures SettledAt(s, k) ==> OfferedAll(s.sched, s.pool.calls[k], s.runs[k], s.literal)
  {
    var (c, run) := (s.pool.calls[k], s.runs[k]);
    assert P.CallInv(c) && RunOk(s.sched, c, run, s.literal);
    if Over(s.sched, run.owner) { OverIsSettled(s.sched, c, run, s.literal); }
    if SettledAt(s, k) { SettledOffersAll(s.sched, c, run, s.literal); }
  }

  lemma {:induction false} RunKeepsRun<V, W>(s: State<V, W>, steps: seq<Step<V, W>>, k: nat)
    requires Legal(s, steps) && k < |s.runs|
    ensures k < |Exec(s, steps).runs| && Exec(s, steps).runs[k].owner == s.runs[k].owner
    decreases steps
  {
    if steps != [] { RunKeepsRun(Next(s, steps[0]), steps[1..], k); }
  }

  lemma ReportsOnceFrom<V, W>(s: State<V, W>, more: seq<Step<V, W>>, k: nat)
    requires Inv(s) && Legal(s, more) && k < |s.runs|
    ensures var s' := Exec(s, more);
            && k < |s'.runs| == |s'.pool.calls| && s'.runs[k].owner == s.runs[k].owner && NthOk(s'.runs, k)
            && OfferedRight(s'.sched, s'.pool.calls[k], s'.runs[k], s'.literal)
            && (Over(s.sched, s.runs[k].owner) ==>
                  OfferedAll(s'.sched, s'.pool.calls[k], s'.runs[k], s'.literal))
  {
    RunKeepsInv(s, more);
    RunKeepsRun(s, more, k);
    InvOffersRight(Exec(s, more), k);
    InvSettles(s, k);
    if Over(s.sched, s.runs[k].owner) {
      RunStaysSettled(s, more, k);
      InvSettles(Exec(s, more), k);
    }
  }

  /**
   * Every job reports once, over whole runs: call k never offers more than one result for each
   * (target, family) of its task. Once its execution is over at some state of the run, with the
   * runner not cancelled by then, it has offered exactly one for each, and so it stays for ever,
   * whatever runs, is cancelled or shut down afterwards. The n-th poll of a runner is full as its
   * cadence says.
   */
  lemma EveryJobReportsOnce<V, W>(maxConcurrency: int, batchSize: int, literal: (string, string) -> bool,
                                  steps: seq<Step<V, W>>, more: seq<Step<V, W>>, k: nat)
    requires Legal(Start(maxConcurrency, batchSize, literal), steps)
    requires var s := Exec(Start(maxConcurrency, batchSize, literal), steps); Legal(s, more) && k < |s.runs|
    ensures var s := Exec(Start(maxConcurrency, batchSize, literal), steps);
            var s' := Exec(s, more);
            && k < |s'.runs| == |s'.pool.calls| && s'.runs[k].owner == s.runs[k].owner && NthOk(s'.runs, k)
            && OfferedRight(s'.sched, s'.pool.calls[k], s'.runs[k], literal)
            && (Over(s.sched, s.runs[k].owner) ==> OfferedAll(s'.sched, s'.pool.calls[k], s'.runs[k], literal))
  {
    var start: State<V, W> := Start(maxConcurrency, batchSize, literal);
    StartHasInv<V, W>(maxConcurrency, batchSize, literal);
    RunKeepsInv(start, steps);
    LiteralIsConstant(start, steps);
    LiteralIsConstant(Exec(start, steps), more);
    ReportsOnceFrom(Exec(start, steps), more, k);
  }

  // ------------------------------------------------------------------ the parts seen on their own

  /** The steps of the scheduler part. */
  function SchedSteps<V, W>(steps: seq<Step<V, W>>): seq<S.Step> {
    if steps == [] then []
    else
      (match steps[0]
       case Sched(e) => [e]
       case Execute(g, _, _) => [S.ReadPair(g)]
       case Done(g) => [S.Finish(g)]
       case _ => []) + SchedSteps(steps[1..])
  }

  /** Every run is a run of the scheduler system, so that all that is proved there holds here. */
  lemma {:induction false} SchedulerView<V, W>(s: State<V, W>, steps: seq<Step<V, W>>)
    requires Legal(s, steps)
    ensures S.Legal(s.sched, SchedSteps(steps)) && S.Exec(s.sched, SchedSteps(steps)) == Exec(s, steps).sched
    decreases steps
  {
    if steps != [] {
      SchedulerView(Next(s, steps[0]), steps[1..]);
      var (mine, rest) := (SchedSteps(steps), SchedSteps(steps[1..]));
      assert mine != [] ==> mine == rest || mine[1..] == rest;
    }
  }

  /** The event with which an execution starts its call. */
  function StartOf<V, W>(t: Task, nth: nat, jobs: seq<Job>, values: seq<V>, value: W)
    : P.Event<Result<V>, Conclusion<W>>
    requires !WorkOf(t).NoWork? && |jobs| == |values|
  {
    match WorkOf(t)
    case FanOut => P.StartFan(ResultsOf(t, jobs, values))
    case OneByOne => P.StartSerial(ResultsOf(t, jobs, values))
    case PollDevice =>
      P.StartPoll(Conclusion(t.snmp.value.deviceID, FullPoll(t.snmp.value.inventoryEveryN, nth), value))
  }

  /** What a step is for the pool. */
  function PoolEvent<V, W>(s: State<V, W>, step: Step<V, W>): seq<P.Event<Result<V>, Conclusion<W>>>
    requires Enabled(s, step)
  {
    match step
    case Execute(g, values, value) =>
      var t := s.sched.s.spawned[g];
      if WorkOf(t).NoWork? then []
      else [StartOf(t, Earlier(s.runs, |s.runs|, g), JobsFor(t, s.literal), values, value)]
    case Probing(k, act) => [P.Act(k, act)]
    case Report(k) => [P.Act(k, P.Report)]
    case _ => []
  }

  function PoolEvents<V, W>(s: State<V, W>, steps: seq<Step<V, W>>): seq<P.Event<Result<V>, Conclusion<W>>>
    requires Legal(s, steps)
    decreases steps
  {
    if steps == [] then [] else PoolEvent(s, steps[0]) + PoolEvents(Next(s, steps[0]), steps[1..])
  }

  lemma PoolStep<V, W>(s: State<V, W>, step: Step<V, W>)
    requires Enabled(s, step)
    ensures var mine := PoolEvent(s, step);
            if mine == [] then Next(s, step).pool == s.pool
            else |mine| == 1 && P.Possible(s.pool, mine[0]) && Next(s, step).pool == P.After(s.pool, mine[0])
  {
  }

  /** Every run is a run of the pool. */
  lemma {:induction false} PoolView<V, W>(s: State<V, W>, steps: seq<Step<V, W>>)
    requires Legal(s, steps)
    ensures P.Legal(s.pool, PoolEvents(s, steps)) && P.Exec(s.pool, PoolEvents(s, steps)) == Exec(s, steps).pool
    decreases steps
  {
    if steps != [] {
      var (mine, rest) := (PoolEvent(s, steps[0]), PoolEvents(Next(s, steps[0]), steps[1..]));
      PoolView(Next(s, steps[0]), steps[1..]);
      PoolStep(s, steps[0]);
      assert if mine == [] then mine + rest == rest else (mine + rest)[0] == mine[0] && (mine + rest)[1..] == rest;
    }
  }

  /** The events of the reporter: what is handed over and reported is offered, in this order. */
  function ReporterEvents<V, W>(s: State<V, W>, steps: seq<Step<V, W>>): seq<R.Event<Result<V>, Conclusion<W>>>
    requires Legal(s, steps)
    decreases steps
  {
    if steps == [] then []
    else
      (match steps[0]
       case Hand(k) => [R.OfferProbe(s.pool.calls[k].results[s.runs[k].handed])]
       case Report(k) => [R.OfferSNMP(s.pool.calls[k].conclusion)]
       case Upload(e) => [e]
       case _ => []) + ReporterEvents(Next(s, steps[0]), steps[1..])
  }

  /** Every run is a run of the reporter. */
  lemma {:induction false} ReporterView<V, W>(s: State<V, W>, steps: seq<Step<V, W>>)
    requires Legal(s, steps)
    ensures R.Legal(s.rep, ReporterEvents(s, steps))
    ensures R.Exec(s.rep, ReporterEvents(s, steps)) == Exec(s, steps).rep
    decreases steps
  {
    if steps != [] {
      ReporterView(Next(s, steps[0]), steps[1..]);
      var (mine, rest) := (ReporterEvents(s, steps), ReporterEvents(Next(s, steps[0]), steps[1..]));
      assert mine != [] ==> mine == rest || mine[1..] == rest;
    }
  }

  // ------------------------------------------------------------------ executions start calls

  /** Probe types that fan out over their jobs. */
  predicate FansOut(kind: string) {
    || kind == "ping" || kind == "meshping" || kind == "tcpping" || kind == "httpcheck"
    || kind == "dnscheck" || kind == "mtr" || kind == "meshmtr"
  }

  /** Whether an execution of the task does anything. */
  predicate DoesWork(t: Task) {
    FansOut(t.kind) || t.kind == "traceroute" || (t.kind == "snmp_poll" && t.snmp.Some?)
  }

  /** The outcome of the new call: the value of every job, in the order of the expansion, and no other. */
  ghost predicate ProbesJobs<V>(outcome: seq<Result<V>>, run: Run, t: Task, values: seq<V>,
                                literal: (string, string) -> bool) {
    && run.jobs == Expand(t.targets, t.addressFamily, target => literal(t.kind, target))
    && (forall job :: job in run.jobs <==>
          Expansion.Wanted(t.targets, t.addressFamily, target => literal(t.kind, target), job))
    && |outcome| == |run.jobs| == |values|
    && forall i :: 0 <= i < |values| ==> outcome[i] == Result(t.taskID, run.jobs[i], values[i])
  }

  /** From s to s' one run of g was added, with the call that its task asks for, not begun. */
  ghost predicate StartsCall<V, W>(s: State<V, W>, s': State<V, W>, g: nat, values: seq<V>, value: W)
    requires g < |s.sched.s.spawned|
  {
    var t := s.sched.s.spawned[g];
    var n := |s.runs|;
    && |s.pool.calls| == n && |s'.runs| == |s'.pool.calls| == n + 1
    && s'.runs[..n] == s.runs && s'.pool.calls[..n] == s.pool.calls
    && var (run, c) := (s'.runs[n], s'.pool.calls[n]);
       && run.owner == g && run.handed == 0 && !c.cancelled
       && if FansOut(t.kind) then
            c.Fan? && c.workers == [] && c.results == [] && ProbesJobs(c.outcome, run, t, values, s.literal)
          else if t.kind == "traceroute" then
            c.Serial? && c.next == 0 && c.results == [] && ProbesJobs(c.outcome, run, t, values, s.literal)
          else
            && c.Poll? && c.at == P.Acquiring && c.reported == [] && t.kind == "snmp_poll" && t.snmp.Some?
            && c.conclusion.deviceID == t.snmp.value.deviceID && c.conclusion.value == value
  }

  lemma JobsAreExpansion(t: Task, literal: (string, string) -> bool)
    requires FansOut(t.kind) || t.kind == "traceroute"
    ensures var jobs := JobsFor(t, literal);
            && jobs == Expand(t.targets, t.addressFamily, target => literal(t.kind, target))
            && forall job :: job in jobs <==>
                 Expansion.Wanted(t.targets, t.addressFamily, target => literal(t.kind, target), job)
  {
    var lit := target => literal(t.kind, target);
    forall job
      ensures job in Expand(t.targets, t.addressFamily, lit) <==>
                Expansion.Wanted(t.targets, t.addressFamily, lit, job)
    {
      ExpandMembers(t.targets, t.addressFamily, lit, job);
    }
  }

  lemma ExecuteStarts<V, W>(s: State<V, W>, g: nat, values: seq<V>, value: W)
    requires Enabled(s, Execute(g, values, value)) && |s.runs| == |s.pool.calls|
    ensures var (t, s') := (s.sched.s.spawned[g], Next(s, Execute(g, values, value)));
            if DoesWork(t) then StartsCall(s, s', g, values, value)
            else s'.runs == s.runs && s'.pool == s.pool
  {
    var t := s.sched.s.spawned[g];
    if FansOut(t.kind) || t.kind == "traceroute" { JobsAreExpansion(t, s.literal); }
  }

  /**
   * In every run, an execution of a probe task or of a poll task with an SNMP block starts exactly
   * one call, of the runner itself and of the right kind, with one job for each target and family of
   * its task; an execution of any other task starts none. It can happen whenever the runner has been
   * chosen to execute.
   */
  lemma ExecutionStartsCall<V, W>(maxConcurrency: int, batchSize: int, literal: (string, string) -> bool,
                                  steps: seq<Step<V, W>>, g: nat, values: seq<V>, value: W)
    requires Legal(Start(maxConcurrency, batchSize, literal), steps)
    requires Enabled(Exec(Start(maxConcurrency, batchSize, literal), steps), Execute(g, values, value))
    ensures var s := Exec(Start(maxConcurrency, batchSize, literal), steps);
            var (t, s') := (s.sched.s.spawned[g], Next(s, Execute(g, values, value)));
            && s.literal == literal
            && if DoesWork(t) then StartsCall(s, s', g, values, value)
               else s'.runs == s.runs && s'.pool == s.pool
  {
    StartHasInv<V, W>(maxConcurrency, batchSize, literal);
    RunKeepsInv(Start(maxConcurrency, batchSize, literal), steps);
    LiteralIsConstant(Start(maxConcurrency, batchSize, literal), steps);
    ExecuteStarts(Exec(Start(maxConcurrency, batchSize, literal), steps), g, values, value);
  }

  /** In every run a runner that has been chosen to execute can do so, whatever its probes will return. */
  lemma ChosenCanExecute<V, W>(maxConcurrency: int, batchSize: int, literal: (string, string) -> bool,
                               steps: seq<Step<V, W>>, g: nat, values: seq<V>, value: W)
    requires Legal(Start(maxConcurrency, batchSize, literal), steps)
    requires S.At(Exec(Start(maxConcurrency, batchSize, literal), steps).sched, g, S.Chosen)
    ensures var s := Exec(Start(maxConcurrency, batchSize, literal), steps);
            && g < |s.sched.s.spawned|
            && var t := s.sched.s.spawned[g];
               Enabled(s, Execute(g, values, value)) <==>
                 |values| == if FansOut(t.kind) || t.kind == "traceroute"
                             then |Expand(t.targets, t.addressFamily, target => literal(t.kind, target))| else 0
  {
    StartHasInv<V, W>(maxConcurrency, batchSize, literal);
    RunKeepsInv(Start(maxConcurrency, batchSize, literal), steps);
    LiteralIsConstant(Start(maxConcurrency, batchSize, literal), steps);
    ChosenEnabled(Exec(Start(maxConcurrency, batchSize, literal), steps), g, values, value);
  }

  lemma ChosenEnabled<V, W>(s: State<V, W>, g: nat, values: seq<V>, value: W)
    requires S.At(s.sched, g, S.Chosen) && g < |s.sched.s.spawned|
    ensures var t := s.sched.s.spawned[g];
            Enabled(s, Execute(g, values, value)) <==>
              |values| == if FansOut(t.kind) || t.kind == "traceroute"
                          then |Expand(t.targets, t.addressFamily, target => s.literal(t.kind, target))| else 0
  {
    var t := s.sched.s.spawned[g];
    if FansOut(t.kind) || t.kind == "traceroute" { JobsAreExpansion(t, s.literal); }
  }

  /** The context of a call is that of its runner: a call can be cancelled exactly when the runner or the agent is. */
  lemma CancelReachesCalls<V, W>(s: State<V, W>, k: nat)
    requires k < |s.runs| == |s.pool.calls|
    ensures Enabled(s, Probing(k, P.Cancel)) <==> s.sched.ctxDone || s.runs[k].owner in s.sched.s.cancelled
    ensures Enabled(s, Probing(k, P.Cancel)) ==> Next(s, Probing(k, P.Cancel)).pool.calls[k].cancelled
  {
  }

  /** The two readings of a task's startup offset agree. */
  lemma OffsetsAgree(t: Task)
    ensures S.HasOffset(t) <==> StartupOffset(t.taskID, t.kind, t.intervalSeconds).Some?
  {
  }

  function Executions<V, W>(steps: seq<Step<V, W>>, g: nat): nat {
    if steps == [] then 0 else (if steps[0].Execute? && steps[0].g == g then 1 else 0) + Executions(steps[1..], g)
  }

  lemma {:induction false} SpawnedStays<V, W>(s: State<V, W>, steps: seq<Step<V, W>>)
    requires Legal(s, steps)
    ensures s.sched.s.spawned <= Exec(s, steps).sched.s.spawned
    decreases steps
  {
    if steps != [] {
      SpawnedStep(s, steps[0]);
      SpawnedStays(Next(s, steps[0]), steps[1..]);
    }
  }

  lemma SpawnedStep<V, W>(s: State<V, W>, step: Step<V, W>)
    requires Enabled(s, step)
    ensures s.sched.s.spawned <= Next(s, step).sched.s.spawned
  {
    if step.Sched? && !S.IsRunnerStep(step.step) { S.SchedulerOnlyAdds(s.sched, step.step); }
    if step.Sched? && S.IsRunnerStep(step.step) { S.RunnerMoves(s.sched, step.step); }
  }

  lemma RunsOfStep<V, W>(s: State<V, W>, step: Step<V, W>, g: nat)
    requires Enabled(s, step) && |s.runs| == |s.pool.calls|
    ensures var s' := Next(s, step);
            && |s'.runs| == |s'.pool.calls|
            && Earlier(s'.runs, |s'.runs|, g) == Earlier(s.runs, |s.runs|, g)
               + (if step.Execute? && step.g == g && DoesWork(s.sched.s.spawned[g]) then 1 else 0)
  {
    var s' := Next(s, step);
    if step.Execute? {
      ExecuteStarts(s, step.g, step.values, step.value);
      if DoesWork(s.sched.s.spawned[step.g]) {
        assert s'.runs == s.runs + [s'.runs[|s.runs|]];
        EarlierFront(s.runs, s'.runs[|s.runs|], |s.runs|, g);
      }
    } else {
      EarlierSame(s.runs, s'.runs, |s.runs|, g);
    }
  }

  lemma {:induction false} RunsOfSteps<V, W>(s: State<V, W>, steps: seq<Step<V, W>>, g: nat)
    requires Legal(s, steps) && |s.runs| == |s.pool.calls| && g < |Exec(s, steps).sched.s.spawned|
    ensures var s' := Exec(s, steps);
            Earlier(s'.runs, |s'.runs|, g) == Earlier(s.runs, |s.runs|, g)
              + (if DoesWork(s'.sched.s.spawned[g]) then Executions(steps, g) else 0)
    decreases steps
  {
    if steps != [] {
      RunsOfStep(s, steps[0], g);
      SpawnedStays(s, steps);
      RunsOfSteps(Next(s, steps[0]), steps[1..], g);
    }
  }

  /** In every run the calls of a runner are as many as its executions, if its task does anything, else none. */
  lemma CallsCountExecutions<V, W>(maxConcurrency: int, batchSize: int, literal: (string, string) -> bool,
                                   steps: seq<Step<V, W>>, g: nat)
    requires Legal(Start(maxConcurrency, batchSize, literal), steps)
    requires g < |Exec(Start(maxConcurrency, batchSize, literal), steps).sched.s.spawned|
    ensures var s := Exec(Start(maxConcurrency, batchSize, literal), steps);
            Earlier(s.runs, |s.runs|, g) == if DoesWork(s.sched.s.spawned[g]) then Executions(steps, g) else 0
  {
    RunsOfSteps(Start(maxConcurrency, batchSize, literal), steps, g);
  }

  // ------------------------------------------------------------------ executions move on

  /** A step by which executions come to their end. */
  predicate IsProgress<V, W>(step: Step<V, W>) {
    (step.Probing? && !step.act.Cancel?) || step.Hand? || step.Report? || step.Done?
  }

  lemma PoolMoves<V, W>(s: State<V, W>, k: nat)
    requires P.Inv(s.pool) && s.pool.limit >= 1 && |s.runs| == |s.pool.calls|
    requires k < |s.runs| && !P.Complete(s.pool.calls[k])
    ensures exists step: Step<V, W> :: IsProgress(step) && Enabled(s, step)
  {
    P.SomeoneMoves(s.pool, k);
    var j, act: P.Step :| 0 <= j < |s.pool.calls| && !act.Cancel? && P.Possible(s.pool, P.Act(j, act));
    var step: Step<V, W> := if act.Report? then Report(j) else Probing(j, act);
    assert IsProgress(step) && Enabled(s, step);
  }

  lemma HandMoves<V, W>(s: State<V, W>, k: nat)
    requires k < |s.runs| == |s.pool.calls| && HandedOk(s.pool.calls[k], s.runs[k].handed)
    requires P.Complete(s.pool.calls[k]) && !CallDone(s.pool.calls[k], s.runs[k])
    ensures exists step: Step<V, W> :: IsProgress(step) && Enabled(s, step)
  {
    var hand: Step<V, W> := Hand(k);
    assert IsProgress(hand) && Enabled(s, hand);
  }

  lemma ReturnMoves<V, W>(s: State<V, W>, g: nat)
    requires S.At(s.sched, g, S.Probing) && |s.runs| == |s.pool.calls|
    requires forall k :: 0 <= k < |s.runs| && s.runs[k].owner == g ==> CallDone(s.pool.calls[k], s.runs[k])
    ensures exists step: Step<V, W> :: IsProgress(step) && Enabled(s, step)
  {
    var done: Step<V, W> := Done(g);
    assert IsProgress(done) && Enabled(s, done);
  }

  lemma ExecutionMoves<V, W>(s: State<V, W>, g: nat)
    requires P.Inv(s.pool) && s.pool.limit >= 1 && RunsOk(s.sched, s.pool.calls, s.runs, s.literal)
    requires S.At(s.sched, g, S.Probing)
    ensures exists step: Step<V, W> :: IsProgress(step) && Enabled(s, step)
  {
    if forall k :: 0 <= k < |s.runs| && s.runs[k].owner == g ==> CallDone(s.pool.calls[k], s.runs[k]) {
      ReturnMoves(s, g);
    } else {
      var k :| 0 <= k < |s.runs| && s.runs[k].owner == g && !CallDone(s.pool.calls[k], s.runs[k]);
      assert RunOk(s.sched, s.pool.calls[k], s.runs[k], s.literal);
      if P.Complete(s.pool.calls[k]) { HandMoves(s, k); } else { PoolMoves(s, k); }
    }
  }

  /** The loops end only on a cancelled context. */
  ghost predicate EndsCancelled<V, W>(s: State<V, W>) {
    !s.rep.mode.Looping? || s.sched.pc.Stopping? || s.sched.pc.Returned? ==> s.sched.ctxDone
  }

  lemma ReporterStops<A, B>(rep: R.State<A, B>, e: R.Event<A, B>)
    requires R.Enabled(rep, e) && rep.mode.Looping? && !e.Stop?
    ensures R.Next(rep, e).mode.Looping?
  {
  }

  lemma StepEndsCancelled<V, W>(s: State<V, W>, step: Step<V, W>)
    requires Enabled(s, step) && EndsCancelled(s)
    ensures EndsCancelled(Next(s, step))
  {
    match step
    case Sched(e) => S.StepAndContext(s.sched, e);
    case Execute(g, _, _) => S.StepAndContext(s.sched, S.ReadPair(g));
    case Probing(_, _) =>
    case Hand(_) =>
    case Report(_) =>
    case Done(g) => S.StepAndContext(s.sched, S.Finish(g));
    case Upload(e) => if s.rep.mode.Looping? && !e.Stop? { ReporterStops(s.rep, e); }
  }

  lemma {:induction false} RunEndsCancelled<V, W>(s: State<V, W>, steps: seq<Step<V, W>>)
    requires Legal(s, steps) && EndsCancelled(s)
    ensures EndsCancelled(Exec(s, steps))
    decreases steps
  {
    if steps != [] {
      StepEndsCancelled(s, steps[0]);
      RunEndsCancelled(Next(s, steps[0]), steps[1..]);
    }
  }

  /** In every run neither Run loop stops before the context is cancelled. */
  lemma StopsOnlyCancelled<V, W>(maxConcurrency: int, batchSize: int, literal: (string, string) -> bool,
                                 steps: seq<Step<V, W>>)
    requires Legal(Start(maxConcurrency, batchSize, literal), steps)
    ensures var s := Exec(Start(maxConcurrency, batchSize, literal), steps);
            s.sched.ctxDone || (s.rep.mode.Looping? && !s.sched.pc.Stopping? && !s.sched.pc.Returned?)
  {
    RunEndsCancelled(Start(maxConcurrency, batchSize, literal), steps);
  }

  // ------------------------------------------------------------------ executions end

  /** What a call still costs in steps, and the results its runner has not offered yet. */
  function Owed<V, W>(c: Call<V, W>, run: Run): nat {
    2 * P.Cost(c) + (if c.Poll? || |c.results| <= run.handed then 0 else |c.results| - run.handed)
  }

  function TotalOwed<V, W>(calls: seq<Call<V, W>>, runs: seq<Run>): nat
    requires |calls| == |runs|
  {
    if calls == [] then 0 else Owed(calls[0], runs[0]) + TotalOwed(calls[1..], runs[1..])
  }

  function Executing(gos: seq<S.Goroutine>): nat {
    if gos == [] then 0 else (if gos[0].phase == S.Probing then 1 else 0) + Executing(gos[1..])
  }

  lemma {:induction false} OwedUpdate<V, W>(calls: seq<Call<V, W>>, runs: seq<Run>, k: nat, c: Call<V, W>, run: Run)
    requires k < |calls| == |runs|
    ensures TotalOwed(calls[k := c], runs[k := run]) + Owed(calls[k], runs[k]) == TotalOwed(calls, runs) + Owed(c, run)
  {
    if k == 0 {
      assert calls[k := c][1..] == calls[1..] && runs[k := run][1..] == runs[1..];
    } else {
      assert calls[k := c][1..] == calls[1..][k - 1 := c] && runs[k := run][1..] == runs[1..][k - 1 := run];
      OwedUpdate(calls[1..], runs[1..], k - 1, c, run);
    }
  }

  lemma {:induction false} ExecutingUpdate(gos: seq<S.Goroutine>, g: nat, go: S.Goroutine)
    requires g < |gos| && gos[g].phase == S.Probing && go.phase != S.Probing
    ensures Executing(gos[g := go]) < Executing(gos)
  {
    if g == 0 {
      assert gos[g := go][1..] == gos[1..];
    } else {
      assert gos[g := go][1..] == gos[1..][g - 1 := go];
      ExecutingUpdate(gos[1..], g - 1, go);
    }
  }

  /** An upper bound on the steps by which the executions that are going on come to their end. */
  function Left<V, W>(s: State<V, W>): nat {
    (if |s.runs| == |s.pool.calls| then TotalOwed(s.pool.calls, s.runs) else 0) + Executing(s.sched.gos)
  }

  /** A step inside a call lowers what is owed, although it may add a result to offer. */
  lemma ActOwes<V, W>(c: Call<V, W>, run: Run, act: P.Step, free: bool)
    requires P.Enabled(c, act, free) && !act.Cancel?
    ensures Owed(P.Apply(c, act, free), run) < Owed(c, run)
  {
    P.StepCosts(c, act, free);
  }

  lemma PoolStepLeaves<V, W>(s: State<V, W>, k: nat, act: P.Step)
    requires |s.runs| == |s.pool.calls| && P.Possible(s.pool, P.Act(k, act)) && !act.Cancel?
    ensures var calls := P.After(s.pool, P.Act(k, act)).calls;
            |calls| == |s.runs| && TotalOwed(calls, s.runs) < TotalOwed(s.pool.calls, s.runs)
  {
    var free := s.pool.occupied < s.pool.limit;
    ActOwes(s.pool.calls[k], s.runs[k], act, free);
    OwedUpdate(s.pool.calls, s.runs, k, P.Apply(s.pool.calls[k], act, free), s.runs[k]);
    assert s.runs[k := s.runs[k]] == s.runs;
  }

  lemma HandLeaves<V, W>(s: State<V, W>, k: nat)
    requires |s.runs| == |s.pool.calls| && Enabled(s, Hand(k))
    ensures TotalOwed(s.pool.calls, s.runs[k := HandedOn(s.runs[k])]) < TotalOwed(s.pool.calls, s.runs)
  {
    OwedUpdate(s.pool.calls, s.runs, k, s.pool.calls[k], HandedOn(s.runs[k]));
    assert s.pool.calls[k := s.pool.calls[k]] == s.pool.calls;
  }

  lemma ProgressLeavesLess<V, W>(s: State<V, W>, step: Step<V, W>)
    requires |s.runs| == |s.pool.calls| && IsProgress(step) && Enabled(s, step)
    ensures var s' := Next(s, step);
            |s'.runs| == |s'.pool.calls| && Left(s') < Left(s)
  {
    match step
    case Probing(k, act) => PoolStepLeaves(s, k, act);
    case Report(k) => PoolStepLeaves(s, k, P.Report);
    case Hand(k) => HandLeaves(s, k);
    case Done(g) => ExecutingUpdate(s.sched.gos, g, s.sched.gos[g].(phase := S.Ticking));
  }

  lemma {:induction false} ProgressIsBounded<V, W>(s: State<V, W>, more: seq<Step<V, W>>)
    requires |s.runs| == |s.pool.calls| && Legal(s, more) && forall i :: 0 <= i < |more| ==> IsProgress(more[i])
    ensures |more| <= Left(s)
    decreases more
  {
    if more != [] {
      ProgressLeavesLess(s, more[0]);
      ProgressIsBounded(Next(s, more[0]), more[1..]);
    }
  }

  ghost predicate NoneExecutes<V, W>(s: State<V, W>) {
    && (forall g :: 0 <= g < |s.sched.gos| ==> s.sched.gos[g].phase != S.Probing)
    && |s.runs| == |s.pool.calls| && forall k :: 0 <= k < |s.runs| ==> CallDone(s.pool.calls[k], s.runs[k])
  }

  lemma NobodyExecutes<V, W>(s: State<V, W>)
    requires RunsOk(s.sched, s.pool.calls, s.runs, s.literal)
    requires forall g: nat :: !S.At(s.sched, g, S.Probing)
    ensures NoneExecutes(s)
  {
    forall g | 0 <= g < |s.sched.gos| ensures s.sched.gos[g].phase != S.Probing {
      assert !S.At(s.sched, g, S.Probing);
    }
    forall k | 0 <= k < |s.runs| ensures CallDone(s.pool.calls[k], s.runs[k]) {
      assert RunOk(s.sched, s.pool.calls[k], s.runs[k], s.literal);
    }
  }

  lemma {:induction false} OneMoreStep<V, W>(s: State<V, W>, steps: seq<Step<V, W>>, last: Step<V, W>)
    requires Legal(s, steps) && Enabled(Exec(s, steps), last)
    ensures Legal(s, steps + [last]) && Exec(s, steps + [last]) == Next(Exec(s, steps), last)
    decreases steps
  {
    if steps == [] {
      assert steps + [last] == [last];
      assert Legal(Next(s, last), [last][1..]);
    } else {
      assert (steps + [last])[1..] == steps[1..] + [last];
      OneMoreStep(Next(s, steps[0]), steps[1..], last);
    }
  }

  lemma OneStepBefore<V, W>(s: State<V, W>, first: Step<V, W>, rest: seq<Step<V, W>>) returns (more: seq<Step<V, W>>)
    requires Enabled(s, first) && Legal(Next(s, first), rest)
    ensures more == [first] + rest && Legal(s, more) && Exec(s, more) == Exec(Next(s, first), rest)
  {
    more := [first] + rest;
    assert more[1..] == rest;
  }

  /** In every run: someone executes and can get nearer to the end, or nobody executes. */
  lemma NextProgress<V, W>(maxConcurrency: int, batchSize: int, literal: (string, string) -> bool,
                           steps: seq<Step<V, W>>) returns (next: Option<Step<V, W>>)
    requires Legal(Start(maxConcurrency, batchSize, literal), steps)
    ensures var s := Exec(Start(maxConcurrency, batchSize, literal), steps);
            && |s.runs| == |s.pool.calls|
            && if next.None? then NoneExecutes(s)
               else IsProgress(next.value) && Enabled(s, next.value) && Left(Next(s, next.value)) < Left(s)
  {
    var start: State<V, W> := Start(maxConcurrency, batchSize, literal);
    StartHasInv<V, W>(maxConcurrency, batchSize, literal);
    RunKeepsInv(start, steps);
    PoolView(start, steps);
    P.LimitIsConstant(start.pool, PoolEvents(start, steps));
    var s := Exec(start, steps);
    if g: nat :| S.At(s.sched, g, S.Probing) {
      ExecutionMoves(s, g);
      var step: Step<V, W> :| IsProgress(step) && Enabled(s, step);
      ProgressLeavesLess(s, step);
      next := Some(step);
    } else {
      NobodyExecutes(s);
      next := None;
    }
  }

  lemma {:induction false} WayToTheEnd<V, W>(maxConcurrency: int, batchSize: int, literal: (string, string) -> bool,
                                             steps: seq<Step<V, W>>) returns (more: seq<Step<V, W>>)
    requires Legal(Start(maxConcurrency, batchSize, literal), steps)
    ensures var s := Exec(Start(maxConcurrency, batchSize, literal), steps);
            Legal(s, more) && NoneExecutes(Exec(s, more)) && forall i :: 0 <= i < |more| ==> IsProgress(more[i])
    decreases Left(Exec(Start(maxConcurrency, batchSize, literal), steps))
  {
    more := [];
    var next := NextProgress(maxConcurrency, batchSize, literal, steps);
    if next.Some? {
      OneMoreStep(Start(maxConcurrency, batchSize, literal), steps, next.value);
      more := WayToTheEnd(maxConcurrency, batchSize, literal, steps + [next.value]);
      more := OneStepBefore(Exec(Start(maxConcurrency, batchSize, literal), steps), next.value, more);
    }
  }

  /**
   * Executions end. From every state of every run, for every configured limit, the steps by which
   * executions come to their end are bounded in number, and they can be continued until no runner
   * executes and every call has returned with all its results offered.
   */
  lemma ExecutionsEnd<V, W>(maxConcurrency: int, batchSize: int, literal: (string, string) -> bool,
                            steps: seq<Step<V, W>>) returns (bound: nat, finish: seq<Step<V, W>>)
    requires Legal(Start(maxConcurrency, batchSize, literal), steps)
    ensures var s := Exec(Start(maxConcurrency, batchSize, literal), steps);
            && Legal(s, finish) && NoneExecutes(Exec(s, finish))
            && (forall i :: 0 <= i < |finish| ==> IsProgress(finish[i]))
            && forall more ::
                 Legal(s, more) && (forall i :: 0 <= i < |more| ==> IsProgress(more[i])) ==> |more| <= bound
  {
    var start: State<V, W> := Start(maxConcurrency, batchSize, literal);
    var s := Exec(start, steps);
    finish := WayToTheEnd(maxConcurrency, batchSize, literal, steps);
    var _ := NextProgress(maxConcurrency, batchSize, literal, steps);
    bound := Left(s);
    forall more | Legal(s, more) && forall i :: 0 <= i < |more| ==> IsProgress(more[i]) ensures |more| <= bound {
      ProgressIsBounded(s, more);
    }
  }

  // ------------------------------------------------------------------ what the parts can do on their own

  lemma {:induction false} OneAfterTheOther<V, W>(s: State<V, W>, first: seq<Step<V, W>>, second: seq<Step<V, W>>)
    requires Legal(s, first) && Legal(Exec(s, first), second)
    ensures Legal(s, first + second) && Exec(s, first + second) == Exec(Exec(s, first), second)
    decreases first
  {
    if first == [] {
      assert first + second == second;
    } else {
      assert (first + second)[1..] == first[1..] + second;
      OneAfterTheOther(Next(s, first[0]), first[1..], second);
    }
  }

  function SchedulerOnly<V, W>(es: seq<S.Step>): seq<Step<V, W>> {
    if es == [] then [] else [Sched(es[0])] + SchedulerOnly(es[1..])
  }

  function ReporterOnly<V, W>(es: seq<R.Event<Result<V>, Conclusion<W>>>): seq<Step<V, W>> {
    if es == [] then [] else [Upload(es[0])] + ReporterOnly(es[1..])
  }

  /** What the scheduler can do alone it can do here, and nothing else changes; likewise the reporter. */
  lemma {:induction false} SchedulerAlone<V, W>(s: State<V, W>, es: seq<S.Step>)
    requires S.Legal(s.sched, es) && forall i :: 0 <= i < |es| ==> !es[i].ReadPair? && !es[i].Finish?
    ensures Legal(s, SchedulerOnly<V, W>(es))
    ensures Exec(s, SchedulerOnly<V, W>(es)) == s.(sched := S.Exec(s.sched, es))
    decreases es
  {
    if es != [] {
      SchedulerAlone(Next(s, Sched(es[0])), es[1..]);
      assert SchedulerOnly<V, W>(es)[1..] == SchedulerOnly<V, W>(es[1..]);
    }
  }

  lemma {:induction false} ReporterAlone<V, W>(s: State<V, W>, es: seq<R.Event<Result<V>, Conclusion<W>>>)
    requires R.Legal(s.rep, es)
    requires forall i :: 0 <= i < |es| ==> !R.IsOffer(es[i]) && (es[i].Stop? ==> s.sched.ctxDone)
    ensures Legal(s, ReporterOnly(es)) && Exec(s, ReporterOnly(es)) == s.(rep := R.Exec(s.rep, es))
    decreases es
  {
    if es != [] {
      ReporterAlone(Next(s, Upload(es[0])), es[1..]);
      assert ReporterOnly(es)[1..] == ReporterOnly(es[1..]);
    }
  }

  /** Once the context is cancelled, both Run loops can get to their return. */
  lemma CanReturn<V, W>(s: State<V, W>) returns (sched: seq<S.Step>, rep: seq<R.Event<Result<V>, Conclusion<W>>>)
    requires s.sched.ctxDone && S.NextInList(s.sched.pc)
    ensures var more := SchedulerOnly(sched) + ReporterOnly(rep);
            && Legal(s, more)
            && Exec(s, more).sched.pc.Returned? && Exec(s, more).rep.mode.Exited?
    ensures forall i :: 0 <= i < |sched| ==> !sched[i].CancelCtx? && !sched[i].TakeUpdate?
  {
    sched := S.WayToReturn(s.sched);
    SchedulerAlone(s, sched);
    var s1 := Exec(s, SchedulerOnly(sched));
    S.ExecKeepsCancelled(s.sched, sched);
    rep := R.WayToExit(s.rep);
    ReporterAlone(s1, rep);
    OneAfterTheOther(s, SchedulerOnly(sched), ReporterOnly(rep));
  }

  /**
   * In every run, until the reporter is told to stop, it can make up for an outage: everything that
   * runners have offered and that was not refused or evicted can still be uploaded, while scheduler,
   * runners and probes do nothing.
   */
  lemma CatchesUp<V, W>(maxConcurrency: int, batchSize: int, literal: (string, string) -> bool,
                        steps: seq<Step<V, W>>) returns (more: seq<Step<V, W>>)
    requires Legal(Start(maxConcurrency, batchSize, literal), steps)
    requires Exec(Start(maxConcurrency, batchSize, literal), steps).rep.mode.Looping?
    ensures var s := Exec(Start(maxConcurrency, batchSize, literal), steps);
            && Legal(s, more)
            && var s' := Exec(s, more);
               && s' == s.(rep := s'.rep)
               && R.OnlyUploads(s.rep.probe, s'.rep.probe) && s'.rep.probe.queue == [] && s'.rep.probe.batch.buf == []
               && R.OnlyUploads(s.rep.snmp, s'.rep.snmp) && s'.rep.snmp.queue == [] && s'.rep.snmp.batch.buf == []
  {
    var start: State<V, W> := Start(maxConcurrency, batchSize, literal);
    ReporterView(start, steps);
    var events := R.RecoversFromOutage(batchSize, ReporterEvents(start, steps));
    ReporterAlone(Exec(start, steps), events);
    more := ReporterOnly(events);
  }
}
