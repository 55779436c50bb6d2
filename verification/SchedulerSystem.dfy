/**
 * The scheduler goroutine and all probe goroutines it ever started, as one transition system.
 *
 * Every loop round of reconcile is a step of its own, and any step of any runner may fall
 * between two of them. A cancel and the map update next to it are one step: the map is local
 * to the scheduler goroutine, so no runner can see the instant between the two.
 */
module SchedulerSystem {
  import opened Prelude
  import opened Tasks
  import opened Updater
  import opened Scheduling

  /** Where a runner stands: startup offset, chosen to execute, probing, waiting for a tick, gone. */
  datatype Phase = Offset | Chosen | Probing | Ticking | Exited

  /** A runner and the source pairs it has read so far, one for each execution. */
  datatype Goroutine = Goroutine(phase: Phase, seen: seq<Pair>)

  datatype Pc =
    | Fetching
    | Fetched(resp: Response)
    | Wiping(resp: Response)
    | Removing(resp: Response)
    | Launching(resp: Response, next: nat)
    | Selecting
    | Stopping
    | Returned

  /**
   * `start` is the state in which the current reconcile began, `served` the initial pair and
   * the pairs of all responses acted on, `queued` every update ever put on the channel.
   */
  datatype Sys = Sys(
    s: State, start: State, pc: Pc, gos: seq<Goroutine>, ctxDone: bool,
    updateCh: Option<Update>, queued: seq<Update>, served: set<Pair>)

  datatype Step =
    | FetchFail | FetchOk(resp: Response) | SetPair
    | WipeOne(id: int) | WipeDone | RemoveOne(id: int) | RemoveDone | LaunchOne | LaunchDone
    | PollTick | CancelCtx | BeginStop | StopOne(id: int) | StopDone | TakeUpdate
    | Begin(g: nat) | ReadPair(g: nat) | Finish(g: nat) | Tick(g: nat) | Quit(g: nat)

  function Initial(): Sys {
    var s := State(map[], Pair("", ""), [], {});
    Sys(s, s, Fetching, [], false, None, [], {s.ips})
  }

  predicate HasOffset(t: Task) {
    t.kind == "snmp_poll" && t.intervalSeconds > 1
  }

  predicate At(y: Sys, g: nat, phase: Phase) {
    g < |y.gos| && y.gos[g].phase == phase
  }

  predicate CtxCancelled(y: Sys, g: nat) {
    y.ctxDone || g in y.s.cancelled
  }

  predicate Enabled(y: Sys, step: Step) {
    match step
    case FetchFail => y.pc.Fetching?
    case FetchOk(_) => y.pc.Fetching?
    case SetPair => y.pc.Fetched?
    case WipeOne(id) => y.pc.Wiping? && id in y.s.runners
    case WipeDone => y.pc.Wiping? && y.s.runners.Keys == {}
    case RemoveOne(id) => y.pc.Removing? && id in y.s.runners && id !in Ids(y.pc.resp.tasks)
    case RemoveDone => y.pc.Removing? && y.s.runners.Keys <= Ids(y.pc.resp.tasks)
    case LaunchOne => y.pc.Launching? && y.pc.next < |y.pc.resp.tasks|
    case LaunchDone => y.pc.Launching? && y.pc.next == |y.pc.resp.tasks|
    case PollTick => y.pc.Selecting?
    case CancelCtx => true
    case BeginStop => y.pc.Selecting? && y.ctxDone
    case StopOne(id) => y.pc.Stopping? && id in y.s.runners
    case StopDone => y.pc.Stopping? && forall id :: id in y.s.runners ==> y.s.runners[id].gid in y.s.cancelled
    case TakeUpdate => y.updateCh.Some?
    case Begin(g) => At(y, g, Offset)
    case ReadPair(g) => At(y, g, Chosen)
    case Finish(g) => At(y, g, Probing)
    // The select may take a pending tick although the context is cancelled.
    case Tick(g) => At(y, g, Ticking)
    case Quit(g) =>
      && CtxCancelled(y, g)
      && (At(y, g, Ticking) || (At(y, g, Offset) && g < |y.s.spawned| && HasOffset(y.s.spawned[g])))
  }

  function Move(y: Sys, g: nat, phase: Phase): Sys
    requires g < |y.gos|
  {
    y.(gos := y.gos[g := y.gos[g].(phase := phase)])
  }

  function Apply(y: Sys, step: Step): Sys
    requires Enabled(y, step)
  {
    match step
    case FetchFail => y.(pc := Selecting)
    case FetchOk(resp) =>
      var sent := resp.update.Some? && y.updateCh.None?;
      y.(pc := Fetched(resp), start := y.s,
         updateCh := Offered(y.updateCh, resp.update),
         queued := if sent then y.queued + [resp.update.value] else y.queued)
    case SetPair =>
      var resp := y.pc.resp;
      y.(s := y.s.(ips := resp.ips), served := y.served + {resp.ips},
         pc := if y.s.ips != resp.ips then Wiping(resp) else Removing(resp))
    case WipeOne(id) => y.(s := Removed(y.s, id))
    case WipeDone => y.(pc := Removing(y.pc.resp))
    case RemoveOne(id) => y.(s := Removed(y.s, id))
    case RemoveDone => y.(pc := Launching(y.pc.resp, 0))
    case LaunchOne =>
      var s' := Launch(y.s, y.pc.resp.tasks[y.pc.next]);
      y.(s := s', pc := Launching(y.pc.resp, y.pc.next + 1),
         gos := if |s'.spawned| == |y.s.spawned| then y.gos else y.gos + [Goroutine(Offset, [])])
    case LaunchDone => y.(pc := Selecting)
    case PollTick => y.(pc := Fetching)
    case CancelCtx => y.(ctxDone := true)
    case BeginStop => y.(pc := Stopping)
    case StopOne(id) => y.(s := y.s.(cancelled := y.s.cancelled + {y.s.runners[id].gid}))
    case StopDone => y.(pc := Returned)
    case TakeUpdate => y.(updateCh := None)
    case Begin(g) => Move(y, g, Chosen)
    case ReadPair(g) =>
      // snmp_poll tasks bind no source address.
      var seen := if g < |y.s.spawned| && y.s.spawned[g].kind == "snmp_poll" then y.gos[g].seen
                   else y.gos[g].seen + [y.s.ips];
      y.(gos := y.gos[g := Goroutine(Probing, seen)])
    case Finish(g) => Move(y, g, Ticking)
    case Tick(g) => Move(y, g, Chosen)
    case Quit(g) => Move(y, g, Exited)
  }

  predicate Legal(y: Sys, steps: seq<Step>)
    decreases steps
  {
    steps == [] || (Enabled(y, steps[0]) && Legal(Apply(y, steps[0]), steps[1..]))
  }

  function Exec(y: Sys, steps: seq<Step>): Sys
    requires Legal(y, steps)
    decreases steps
  {
    if steps == [] then y else Exec(Apply(y, steps[0]), steps[1..])
  }

  // ------------------------------------------------------------------ the invariant

  /** How far the current reconcile has come, measured against the whole-reconcile functions. */
  ghost predicate Progress(y: Sys) {
    match y.pc
    case Fetched(resp) => y.s == y.start
    case Wiping(resp) =>
      var s1 := y.start.(ips := resp.ips);
      && resp.ips != y.start.ips
      && y.s.runners.Keys <= s1.runners.Keys
      && y.s == CancelAll(s1, s1.runners.Keys - y.s.runners.Keys)
    case Removing(resp) =>
      var s2 := AfterWipe(y.start, resp);
      && y.s.runners.Keys <= s2.runners.Keys
      && s2.runners.Keys - y.s.runners.Keys !! Ids(resp.tasks)
      && y.s == CancelAll(s2, s2.runners.Keys - y.s.runners.Keys)
    case Launching(resp, next) =>
      && next <= |resp.tasks|
      && y.s == LaunchAll(AfterRemove(y.start, resp), resp.tasks[..next])
    case _ => true
  }

  /** Every uncancelled runner has only ever read the current pair. */
  ghost predicate ReadsCurrent(y: Sys) {
    forall g, k :: 0 <= g < |y.gos| && 0 <= k < |y.gos[g].seen| && g !in y.s.cancelled ==>
      y.gos[g].seen[k] == y.s.ips
  }

  ghost predicate ReadsServed(y: Sys) {
    && y.s.ips in y.served
    && forall g, k :: 0 <= g < |y.gos| && 0 <= k < |y.gos[g].seen| ==> y.gos[g].seen[k] in y.served
  }

  ghost predicate UncancelledTracked(s: State) {
    forall g: nat :: g < |s.spawned| && g !in s.cancelled ==> Tracked(s, g)
  }

  /** A runner goroutine only ends once its context is cancelled. */
  ghost predicate ExitedCancelled(y: Sys) {
    forall g :: 0 <= g < |y.gos| && y.gos[g].phase == Exited ==> CtxCancelled(y, g)
  }

  ghost predicate Inv(y: Sys) {
    && |y.gos| == |y.s.spawned|
    && ExitedCancelled(y)
    && Progress(y)
    && (if y.pc.Stopping? || y.pc.Returned? then UncancelledTracked(y.s) else Bijection(y.s))
    && (y.pc.Returned? ==> forall id :: id in y.s.runners ==> y.s.runners[id].gid in y.s.cancelled)
    && ReadsServed(y)
    && (!y.pc.Wiping? ==> ReadsCurrent(y))
  }

  lemma SetPairKeepsInv(y: Sys)
    requires Inv(y) && Enabled(y, SetPair)
    ensures Inv(Apply(y, SetPair))
  {
    var resp := y.pc.resp;
    var s1 := y.s.(ips := resp.ips);
    CancelNone(s1);
    assert s1.runners.Keys - s1.runners.Keys == {};
    assert Bijection(s1) by {
      forall id | id in s1.runners ensures EntryOk(s1, id) { assert EntryOk(y.s, id); }
      forall g: nat | g < |s1.spawned| && g !in s1.cancelled ensures Tracked(s1, g) { assert Tracked(y.s, g); }
    }
  }

  lemma CancelStepKeepsInv(y: Sys, step: Step)
    requires Inv(y) && Enabled(y, step) && (step.WipeOne? || step.RemoveOne?)
    ensures Inv(Apply(y, step))
  {
    var id := step.id;
    var base := if step.WipeOne? then y.start.(ips := y.pc.resp.ips) else AfterWipe(y.start, y.pc.resp);
    var gone := base.runners.Keys - y.s.runners.Keys;
    CancelOneMore(base, gone, id);
    assert base.runners.Keys - (y.s.runners.Keys - {id}) == gone + {id};
    CancelOneKeepsBijection(y.s, id);
  }

  lemma PhaseDoneKeepsInv(y: Sys, step: Step)
    requires Inv(y) && Enabled(y, step) && (step.WipeDone? || step.RemoveDone?)
    ensures Inv(Apply(y, step))
  {
    var y' := Apply(y, step);
    var resp := y.pc.resp;
    var s2 := AfterWipe(y.start, resp);
    if step.WipeDone? {
      var s1 := y.start.(ips := resp.ips);
      assert s1.runners.Keys - y.s.runners.Keys == s1.runners.Keys;
      assert y.s == s2;
      CancelNone(s2);
      assert s2.runners.Keys - y.s.runners.Keys == {};
      assert ReadsCurrent(y') by {
        forall g: nat | g < |y.s.spawned| ensures g in y.s.cancelled {
          assert g !in y.s.cancelled ==> Tracked(y.s, g);
        }
      }
    } else {
      assert s2.runners.Keys - y.s.runners.Keys == s2.runners.Keys - Ids(resp.tasks);
      assert resp.tasks[..0] == [];
    }
  }

  lemma LaunchAdds(s: State, t: Task)
    ensures var s' := Launch(s, t);
            && s'.ips == s.ips && s.cancelled <= s'.cancelled
            && (s'.spawned == s.spawned || s'.spawned == s.spawned + [t])
  {
  }

  /** A goroutine joins, or none; more may be cancelled. */
  lemma NewcomerStaysGood(y: Sys, y': Sys)
    requires ExitedCancelled(y) && ReadsServed(y) && ReadsCurrent(y)
    requires y'.gos == y.gos || y'.gos == y.gos + [Goroutine(Offset, [])]
    requires y'.s.ips == y.s.ips && y.s.cancelled <= y'.s.cancelled
    requires y'.ctxDone == y.ctxDone && y'.served == y.served
    ensures ExitedCancelled(y') && ReadsServed(y') && ReadsCurrent(y')
  {
    assert forall g :: 0 <= g < |y.gos| ==> y'.gos[g] == y.gos[g];
  }

  lemma LaunchStepKeepsInv(y: Sys)
    requires Inv(y) && Enabled(y, LaunchOne)
    ensures Inv(Apply(y, LaunchOne))
  {
    var (resp, n, y') := (y.pc.resp, y.pc.next, Apply(y, LaunchOne));
    LaunchKeepsBijection(y.s, resp.tasks[n]);
    LaunchAdds(y.s, resp.tasks[n]);
    NewcomerStaysGood(y, y');
    assert Progress(y') by { assert resp.tasks[..n + 1][..n] == resp.tasks[..n]; }
  }

  lemma StopStepKeepsInv(y: Sys, step: Step)
    requires Inv(y) && Enabled(y, step) && (step.BeginStop? || step.StopOne? || step.StopDone?)
    ensures Inv(Apply(y, step))
  {
    var y' := Apply(y, step);
    forall g: nat | g < |y'.s.spawned| && g !in y'.s.cancelled ensures Tracked(y'.s, g) {
      assert Tracked(y.s, g);
    }
  }

  /** Only the goroutines change, and they stay good. */
  lemma GoroutinesKeepInv(y: Sys, gos: seq<Goroutine>)
    requires Inv(y) && |gos| == |y.gos|
    requires var y' := y.(gos := gos); ExitedCancelled(y') && ReadsServed(y') && (!y.pc.Wiping? ==> ReadsCurrent(y'))
    ensures Inv(y.(gos := gos))
  {
  }

  lemma RunnerStepKeepsInv(y: Sys, step: Step)
    requires Inv(y) && Enabled(y, step)
    requires IsRunnerStep(step)
    ensures Inv(Apply(y, step))
  {
    var (y', g) := (Apply(y, step), step.g);
    RunnerMoves(y, step);
    ExitsStayGood(y, y', g);
    SeenStaysGood(y, y', g);
    GoroutinesKeepInv(y, y'.gos);
  }

  /** A step of runner g changes nothing but runner g, which may read the current pair or exit when cancelled. */
  lemma RunnerMoves(y: Sys, step: Step)
    requires Enabled(y, step)
    requires IsRunnerStep(step)
    ensures var (y', g) := (Apply(y, step), step.g);
            && y' == y.(gos := y'.gos) && |y'.gos| == |y.gos| && g < |y.gos|
            && (forall h :: 0 <= h < |y.gos| && h != g ==> y'.gos[h] == y.gos[h])
            && (y'.gos[g].seen == y.gos[g].seen || y'.gos[g].seen == y.gos[g].seen + [y.s.ips])
            && (y'.gos[g].phase == Exited ==> CtxCancelled(y, g))
            && (y.gos[g].phase == Probing ==> y'.gos[g].phase == if step.Finish? then Ticking else Probing)
  {
  }

  lemma ExitsStayGood(y: Sys, y': Sys, g: nat)
    requires ExitedCancelled(y) && g < |y.gos| && y' == y.(gos := y'.gos) && |y'.gos| == |y.gos|
    requires forall h :: 0 <= h < |y.gos| && h != g ==> y'.gos[h] == y.gos[h]
    requires y'.gos[g].phase == Exited ==> CtxCancelled(y, g)
    ensures ExitedCancelled(y')
  {
  }

  lemma SeenStaysGood(y: Sys, y': Sys, g: nat)
    requires |y.gos| == |y.s.spawned| && ReadsServed(y) && (!y.pc.Wiping? ==> ReadsCurrent(y))
    requires g < |y.gos| && y' == y.(gos := y'.gos) && |y'.gos| == |y.gos|
    requires forall h :: 0 <= h < |y.gos| && h != g ==> y'.gos[h] == y.gos[h]
    requires y'.gos[g].seen == y.gos[g].seen || y'.gos[g].seen == y.gos[g].seen + [y.s.ips]
    ensures ReadsServed(y') && (!y.pc.Wiping? ==> ReadsCurrent(y'))
  {
  }

  lemma StepKeepsInv(y: Sys, step: Step)
    requires Inv(y) && Enabled(y, step)
    ensures Inv(Apply(y, step))
  {
    match step
    case SetPair => SetPairKeepsInv(y);
    case WipeOne(_) => CancelStepKeepsInv(y, step);
    case RemoveOne(_) => CancelStepKeepsInv(y, step);
    case WipeDone => PhaseDoneKeepsInv(y, step);
    case RemoveDone => PhaseDoneKeepsInv(y, step);
    case LaunchOne => LaunchStepKeepsInv(y);
    case BeginStop => StopStepKeepsInv(y, step);
    case StopOne(_) => StopStepKeepsInv(y, step);
    case StopDone => StopStepKeepsInv(y, step);
    case Begin(_) => RunnerStepKeepsInv(y, step);
    case ReadPair(_) => RunnerStepKeepsInv(y, step);
    case Finish(_) => RunnerStepKeepsInv(y, step);
    case Tick(_) => RunnerStepKeepsInv(y, step);
    case Quit(_) => RunnerStepKeepsInv(y, step);
    case _ =>
  }

  predicate IsRunnerStep(step: Step) {
    step.Begin? || step.ReadPair? || step.Finish? || step.Tick? || step.Quit?
  }

  lemma SchedulerOnlyAdds(y: Sys, step: Step)
    requires Enabled(y, step) && !IsRunnerStep(step)
    ensures var y' := Apply(y, step);
            && y.gos <= y'.gos && y.s.spawned <= y'.s.spawned
            && y.s.cancelled <= y'.s.cancelled && (y.ctxDone ==> y'.ctxDone)
  {
    if step.LaunchOne? { LaunchAdds(y.s, y.pc.resp.tasks[y.pc.next]); }
  }

  /** No step but Finish takes a runner out of an execution, and none changes its task or revives its context. */
  lemma StepLeavesRunner(y: Sys, step: Step, g: nat)
    requires Enabled(y, step) && !step.Finish? && g < |y.gos| && g < |y.s.spawned|
    ensures var y' := Apply(y, step);
            && g < |y'.gos| && g < |y'.s.spawned| && y'.s.spawned[g] == y.s.spawned[g]
            && (CtxCancelled(y, g) ==> CtxCancelled(y', g))
            && (y.gos[g].phase == Probing ==> y'.gos[g].phase == Probing)
  {
    if IsRunnerStep(step) { RunnerMoves(y, step); } else { SchedulerOnlyAdds(y, step); }
  }

  lemma InitialHasInv()
    ensures Inv(Initial())
  {
  }

  lemma {:induction false} RunKeepsInv(y: Sys, steps: seq<Step>)
    requires Inv(y) && Legal(y, steps)
    ensures Inv(Exec(y, steps))
    decreases steps
  {
    if steps != [] {
      StepKeepsInv(y, steps[0]);
      RunKeepsInv(Apply(y, steps[0]), steps[1..]);
    }
  }

  // ------------------------------------------------------------------ the theorems

  lemma ReturnedIsCancelled(y: Sys)
    requires Inv(y) && y.pc.Returned?
    ensures forall g: nat :: g < |y.s.spawned| ==> g in y.s.cancelled
  {
    assert UncancelledTracked(y.s);
  }

  /**
   * In every reachable state in which the scheduler has not begun to stop, uncancelled
   * goroutines and map entries are in bijection, and while the context lives the goroutine of
   * every entry is alive; once Run has returned, none is uncancelled.
   */
  lemma NoOrphans(steps: seq<Step>)
    requires Legal(Initial(), steps)
    ensures var y := Exec(Initial(), steps);
            && |y.gos| == |y.s.spawned|
            && (!y.pc.Stopping? && !y.pc.Returned? ==>
                  && Bijection(y.s)
                  && forall id :: id in y.s.runners && !y.ctxDone ==> y.gos[y.s.runners[id].gid].phase != Exited)
            && (y.pc.Returned? ==> forall g: nat :: g < |y.s.spawned| ==> g in y.s.cancelled)
  {
    RunKeepsInv(Initial(), steps);
    var y := Exec(Initial(), steps);
    if y.pc.Returned? { ReturnedIsCancelled(y); }
    if !y.pc.Stopping? && !y.pc.Returned? {
      assert forall id :: id in y.s.runners ==> EntryOk(y.s, id);
    }
  }

  lemma LaunchReplaces(s: State, t: Task, id: int)
    requires id in s.runners && s.runners[id].task.taskID == id
    ensures var s' := Launch(s, t);
            (id in s'.runners && s'.runners[id] == s.runners[id]) || s.runners[id].gid in s'.cancelled
  {
  }

  lemma EntryStaysOrCancelled(y: Sys, step: Step, id: int)
    requires Inv(y) && Enabled(y, step) && id in y.s.runners
    ensures var y' := Apply(y, step);
            (id in y'.s.runners && y'.s.runners[id] == y.s.runners[id]) || y.s.runners[id].gid in y'.s.cancelled
  {
    if step.LaunchOne? {
      assert EntryOk(y.s, id);
      LaunchReplaces(y.s, y.pc.resp.tasks[y.pc.next], id);
    }
  }

  /** In every run a goroutine leaves the map, or has its entry replaced, only in a step that cancels it. */
  lemma LeavesOnlyCancelled(steps: seq<Step>, step: Step, id: int)
    requires Legal(Initial(), steps)
    requires var y := Exec(Initial(), steps); Enabled(y, step) && id in y.s.runners
    ensures var y := Exec(Initial(), steps);
            var y' := Apply(y, step);
            (id in y'.s.runners && y'.s.runners[id] == y.s.runners[id]) || y.s.runners[id].gid in y'.s.cancelled
  {
    RunKeepsInv(Initial(), steps);
    EntryStaysOrCancelled(Exec(Initial(), steps), step, id);
  }

  /**
   * Every source pair an execution reads is the initial pair or came whole from one response;
   * and a runner that is not cancelled has read the same pair at every execution. Only while a
   * changed pair is still being wiped may a runner, about to be cancelled, have read both.
   */
  lemma ReadsOneServedPair(steps: seq<Step>, g: nat)
    requires Legal(Initial(), steps) && g < |Exec(Initial(), steps).gos|
    ensures var y := Exec(Initial(), steps);
            && (forall k :: 0 <= k < |y.gos[g].seen| ==> y.gos[g].seen[k] in y.served)
            && (g !in y.s.cancelled && !y.pc.Wiping? ==>
                  forall k :: 0 <= k < |y.gos[g].seen| ==> y.gos[g].seen[k] == y.s.ips)
  {
    RunKeepsInv(Initial(), steps);
  }

  /** `served` is no more than the initial pair and the pairs of the responses that were fetched. */
  ghost predicate FromResponses(y: Sys, steps: seq<Step>) {
    forall p :: p in y.served ==>
      p == Initial().s.ips || exists k :: 0 <= k < |steps| && steps[k].FetchOk? && steps[k].resp.ips == p
  }

  predicate InReconcile(pc: Pc) {
    pc.Fetched? || pc.Wiping? || pc.Removing? || pc.Launching?
  }

  lemma {:induction false} ServedFromResponses(y: Sys, steps: seq<Step>, past: seq<Step>)
    requires Legal(y, steps) && FromResponses(y, past)
    requires InReconcile(y.pc) ==> FetchOk(y.pc.resp) in past
    ensures FromResponses(Exec(y, steps), past + steps)
    decreases steps
  {
    if steps == [] {
      assert past + steps == past;
    } else {
      var y' := Apply(y, steps[0]);
      var past' := past + [steps[0]];
      assert forall k :: 0 <= k < |past| ==> past'[k] == past[k];
      assert past'[|past|] == steps[0];
      assert past' + steps[1..] == past + steps;
      assert FromResponses(y', past') by {
        forall p | p in y'.served && p != Initial().s.ips
          ensures exists k :: 0 <= k < |past'| && past'[k].FetchOk? && past'[k].resp.ips == p
        {
          if p in y.served {
            var k :| 0 <= k < |past| && past[k].FetchOk? && past[k].resp.ips == p;
            assert past'[k] == past[k];
          } else {
            var k :| 0 <= k < |past| && past[k] == FetchOk(y.pc.resp);
            assert past'[k] == past[k];
          }
        }
      }
      ServedFromResponses(y', steps[1..], past');
    }
  }

  /** The pairs of `served` all come from the run itself. */
  lemma ServedIsHonest(steps: seq<Step>)
    requires Legal(Initial(), steps)
    ensures FromResponses(Exec(Initial(), steps), steps)
  {
    ServedFromResponses(Initial(), steps, []);
    assert [] + steps == steps;
  }

  lemma {:induction false} ReconcileCarriesOn(y: Sys, steps: seq<Step>)
    requires Legal(y, steps) && InReconcile(y.pc)
    requires forall k :: 0 <= k < |steps| ==> !steps[k].LaunchDone?
    ensures var z := Exec(y, steps); InReconcile(z.pc) && z.pc.resp == y.pc.resp && z.start == y.start
    decreases steps
  {
    if steps != [] {
      ReconcileCarriesOn(Apply(y, steps[0]), steps[1..]);
    }
  }

  lemma ReconcileFrom(y: Sys, resp: Response, during: seq<Step>)
    requires Inv(y) && Enabled(y, FetchOk(resp)) && Legal(Apply(y, FetchOk(resp)), during)
    requires Enabled(Exec(Apply(y, FetchOk(resp)), during), LaunchDone)
    requires forall k :: 0 <= k < |during| ==> !during[k].LaunchDone?
    ensures Exec(Apply(y, FetchOk(resp)), during).s == Reconciled(y.s, resp)
  {
    var y1 := Apply(y, FetchOk(resp));
    StepKeepsInv(y, FetchOk(resp));
    RunKeepsInv(y1, during);
    ReconcileCarriesOn(y1, during);
    assert resp.tasks[..|resp.tasks|] == resp.tasks;
  }

  /**
   * However runner steps fall between the rounds of a reconcile, from the fetch to the end of the
   * start loop it changes map, pair, goroutines and cancellations exactly as the sequential
   * function does; runner steps commute with it.
   */
  lemma InterleavedReconcileIsAtomic(before: seq<Step>, resp: Response, during: seq<Step>)
    requires Legal(Initial(), before)
    requires var y := Exec(Initial(), before);
             && Enabled(y, FetchOk(resp))
             && Legal(Apply(y, FetchOk(resp)), during)
             && Enabled(Exec(Apply(y, FetchOk(resp)), during), LaunchDone)
    requires forall k :: 0 <= k < |during| ==> !during[k].LaunchDone?
    ensures var y := Exec(Initial(), before);
            Apply(Exec(Apply(y, FetchOk(resp)), during), LaunchDone).s == Reconciled(y.s, resp)
  {
    RunKeepsInv(Initial(), before);
    ReconcileFrom(Exec(Initial(), before), resp, during);
  }

  // ------------------------------------------------------------------ the life of a runner

  function Times(steps: seq<Step>, step: Step): nat {
    if steps == [] then 0 else (if steps[0] == step then 1 else 0) + Times(steps[1..], step)
  }

  function InPhase(y: Sys, g: nat, phase: Phase): nat {
    if At(y, g, phase) then 1 else 0
  }

  lemma StepOfLife(y: Sys, step: Step, g: nat)
    requires Enabled(y, step)
    ensures var y' := Apply(y, step);
            && InPhase(y, g, Chosen) + (if step == Begin(g) || step == Tick(g) then 1 else 0)
               == InPhase(y', g, Chosen) + (if step == ReadPair(g) then 1 else 0)
            && InPhase(y, g, Probing) + (if step == ReadPair(g) then 1 else 0)
               == InPhase(y', g, Probing) + (if step == Finish(g) then 1 else 0)
  {
    if !IsRunnerStep(step) { SchedulerKeepsPhases(y, step); }
  }

  lemma SchedulerKeepsPhases(y: Sys, step: Step)
    requires Enabled(y, step) && !IsRunnerStep(step)
    ensures var y' := Apply(y, step);
            y'.gos == y.gos || y'.gos == y.gos + [Goroutine(Offset, [])]
  {
  }

  lemma {:induction false} LifeFrom(y: Sys, steps: seq<Step>, g: nat)
    requires Legal(y, steps)
    ensures var y' := Exec(y, steps);
            && InPhase(y, g, Chosen) + Times(steps, Begin(g)) + Times(steps, Tick(g))
               == InPhase(y', g, Chosen) + Times(steps, ReadPair(g))
            && InPhase(y, g, Probing) + Times(steps, ReadPair(g))
               == InPhase(y', g, Probing) + Times(steps, Finish(g))
    decreases steps
  {
    if steps != [] {
      StepOfLife(y, steps[0], g);
      LifeFrom(Apply(y, steps[0]), steps[1..], g);
    }
  }

  lemma {:induction false} NoSecondBegin(y: Sys, steps: seq<Step>, g: nat)
    requires Legal(y, steps)
    ensures Times(steps, Begin(g)) <= 1
    ensures g < |y.gos| && y.gos[g].phase != Offset ==> Times(steps, Begin(g)) == 0
    decreases steps
  {
    if steps != [] {
      if !IsRunnerStep(steps[0]) { SchedulerKeepsPhases(y, steps[0]); }
      NoSecondBegin(Apply(y, steps[0]), steps[1..], g);
    }
  }

  /**
   * In every run, a runner begins at most once, executes once for its beginning and once for every
   * tick it takes, and every execution ends before the next begins.
   */
  lemma RunnerLife(steps: seq<Step>, g: nat)
    requires Legal(Initial(), steps)
    ensures var y := Exec(Initial(), steps);
            && Times(steps, Begin(g)) <= 1
            && Times(steps, Begin(g)) + Times(steps, Tick(g))
               == Times(steps, ReadPair(g)) + (if At(y, g, Chosen) then 1 else 0)
            && Times(steps, ReadPair(g)) == Times(steps, Finish(g)) + (if At(y, g, Probing) then 1 else 0)
  {
    LifeFrom(Initial(), steps, g);
    NoSecondBegin(Initial(), steps, g);
  }

  /**
   * In every run, an execution of a probe task reads exactly one pair, the current one; an SNMP
   * poll binds no source address and reads none.
   */
  lemma ExecutionReadsCurrentPair(steps: seq<Step>, g: nat)
    requires Legal(Initial(), steps) && Enabled(Exec(Initial(), steps), ReadPair(g))
    ensures var y := Exec(Initial(), steps);
            var y' := Apply(y, ReadPair(g));
            && g < |y.s.spawned| && |y'.gos| == |y.gos|
            && y'.gos[g].seen == y.gos[g].seen + (if y.s.spawned[g].kind == "snmp_poll" then [] else [y.s.ips])
            && forall h :: 0 <= h < |y.gos| && h != g ==> y'.gos[h] == y.gos[h]
  {
    RunKeepsInv(Initial(), steps);
  }

  // ------------------------------------------------------------------ the scheduler is never stuck

  /** The scheduler goroutine has a step to take; while it stops, one that cancels a runner it has not cancelled. */
  ghost predicate SchedulerMoves(y: Sys) {
    exists step: Step ::
      && !IsRunnerStep(step) && !step.CancelCtx? && !step.TakeUpdate? && Enabled(y, step)
      && (step.StopOne? ==> y.s.runners[step.id].gid !in y.s.cancelled)
  }

  lemma ReconcileMoves(y: Sys)
    requires y.pc.Wiping? || y.pc.Removing? || (y.pc.Launching? && y.pc.next <= |y.pc.resp.tasks|)
    ensures SchedulerMoves(y)
  {
    if y.pc.Wiping? && y.s.runners.Keys == {} {
      assert Enabled(y, WipeDone);
    } else if y.pc.Wiping? {
      var id := SomeOutside(y.s.runners.Keys, {});
      assert Enabled(y, WipeOne(id));
    } else if y.pc.Removing? && y.s.runners.Keys <= Ids(y.pc.resp.tasks) {
      assert Enabled(y, RemoveDone);
    } else if y.pc.Removing? {
      var id := SomeOutside(y.s.runners.Keys, Ids(y.pc.resp.tasks));
      assert Enabled(y, RemoveOne(id));
    } else {
      assert Enabled(y, if y.pc.next < |y.pc.resp.tasks| then LaunchOne else LaunchDone);
    }
  }

  lemma StopMoves(y: Sys)
    requires y.pc.Stopping?
    ensures SchedulerMoves(y)
  {
    if forall id :: id in y.s.runners ==> y.s.runners[id].gid in y.s.cancelled {
      assert Enabled(y, StopDone);
    } else {
      var id :| id in y.s.runners && y.s.runners[id].gid !in y.s.cancelled;
      assert Enabled(y, StopOne(id));
    }
  }

  /** In every run the scheduler can go on until it has returned. */
  lemma SchedulerNeverStuck(steps: seq<Step>)
    requires Legal(Initial(), steps)
    ensures var y := Exec(Initial(), steps); y.pc.Returned? || SchedulerMoves(y)
  {
    RunKeepsInv(Initial(), steps);
    var y := Exec(Initial(), steps);
    match y.pc
    case Fetching => assert Enabled(y, FetchFail);
    case Fetched(_) => assert Enabled(y, SetPair);
    case Selecting => assert Enabled(y, PollTick);
    case Stopping => StopMoves(y);
    case Returned =>
    case _ => ReconcileMoves(y);
  }

  /** What is left to do on the way to the return: the rounds of the loops ahead of each other, then their rounds. */
  function Stage(pc: Pc): nat {
    match pc
    case Fetched(_) => 6
    case Wiping(_) => 5
    case Removing(_) => 4
    case Launching(_, _) => 3
    case Fetching => 3
    case Selecting => 2
    case Stopping => 1
    case Returned => 0
  }

  function Uncancelled(s: State): set<int> {
    set id | id in s.runners && s.runners[id].gid !in s.cancelled
  }

  function Rounds(y: Sys): int {
    match y.pc
    case Wiping(_) => |y.s.runners.Keys|
    case Removing(_) => |y.s.runners.Keys|
    case Launching(resp, next) => |resp.tasks| - next
    case Selecting => if y.ctxDone then 0 else 1
    case Stopping => |Uncancelled(y.s)|
    case _ => 0
  }

  predicate NextInList(pc: Pc) {
    pc.Launching? ==> pc.next <= |pc.resp.tasks|
  }

  /** A step of the scheduler, or the signal, that brings the return nearer. */
  predicate Nearer(y: Sys, step: Step) {
    && !IsRunnerStep(step) && !step.TakeUpdate? && (step.CancelCtx? ==> !y.ctxDone) && Enabled(y, step)
    && var y' := Apply(y, step);
       && NextInList(y'.pc) && (y.ctxDone ==> y'.ctxDone)
       && (Stage(y'.pc) < Stage(y.pc) || (Stage(y'.pc) == Stage(y.pc) && 0 <= Rounds(y') < Rounds(y)))
  }

  lemma WipeNearer(y: Sys) returns (step: Step)
    requires y.pc.Wiping?
    ensures Nearer(y, step)
  {
    step := WipeDone;
    if y.s.runners.Keys != {} {
      var id := SomeOutside(y.s.runners.Keys, {});
      step := WipeOne(id);
      assert Removed(y.s, id).runners.Keys == y.s.runners.Keys - {id};
    }
  }

  lemma RemoveNearer(y: Sys) returns (step: Step)
    requires y.pc.Removing?
    ensures Nearer(y, step)
  {
    step := RemoveDone;
    if !(y.s.runners.Keys <= Ids(y.pc.resp.tasks)) {
      var id := SomeOutside(y.s.runners.Keys, Ids(y.pc.resp.tasks));
      step := RemoveOne(id);
      assert Removed(y.s, id).runners.Keys == y.s.runners.Keys - {id};
    }
  }

  lemma StopNearer(y: Sys) returns (step: Step)
    requires y.pc.Stopping?
    ensures Nearer(y, step)
  {
    step := StopDone;
    if !(Uncancelled(y.s) <= {}) {
      var id := SomeOutside(Uncancelled(y.s), {});
      step := StopOne(id);
      SubsetSize(Uncancelled(Apply(y, step).s), Uncancelled(y.s) - {id});
    } else {
      forall id | id in y.s.runners ensures y.s.runners[id].gid in y.s.cancelled {
        assert id !in Uncancelled(y.s);
      }
    }
  }

  lemma SomeNearer(y: Sys) returns (step: Step)
    requires !y.pc.Returned? && NextInList(y.pc)
    ensures Nearer(y, step)
  {
    match y.pc
    case Fetching => step := FetchFail;
    case Fetched(_) => step := SetPair;
    case Wiping(_) => step := WipeNearer(y);
    case Removing(_) => step := RemoveNearer(y);
    case Launching(resp, next) => step := if next < |resp.tasks| then LaunchOne else LaunchDone;
    case Selecting => step := if y.ctxDone then BeginStop else CancelCtx;
    case Stopping => step := StopNearer(y);
  }

  lemma {:induction false} WayToReturn(y: Sys) returns (more: seq<Step>)
    requires NextInList(y.pc)
    ensures Legal(y, more) && Exec(y, more).pc.Returned?
    ensures forall i :: 0 <= i < |more| ==>
              !IsRunnerStep(more[i]) && !more[i].TakeUpdate? && (more[i].CancelCtx? ==> !y.ctxDone)
    decreases Stage(y.pc), Rounds(y)
  {
    more := [];
    if !y.pc.Returned? {
      var step := SomeNearer(y);
      var rest := WayToReturn(Apply(y, step));
      more := [step] + rest;
      assert more[1..] == rest;
    }
  }

  /** Only CancelCtx touches the context, and the scheduler stops only on a cancelled one. */
  lemma StepAndContext(y: Sys, step: Step)
    requires Enabled(y, step)
    ensures var y' := Apply(y, step);
            && y'.ctxDone == (y.ctxDone || step.CancelCtx?)
            && (y'.pc.Stopping? || y'.pc.Returned? ==> y.pc.Stopping? || y.pc.Returned? || y.ctxDone)
  {
  }

  lemma InvInList(y: Sys)
    requires Inv(y)
    ensures NextInList(y.pc)
  {
  }

  lemma {:induction false} ExecKeepsCancelled(y: Sys, steps: seq<Step>)
    requires Legal(y, steps) && y.ctxDone
    ensures Exec(y, steps).ctxDone
    decreases steps
  {
    if steps != [] { ExecKeepsCancelled(Apply(y, steps[0]), steps[1..]); }
  }

  /** From every state of every run the scheduler can get to its return without a step of any runner. */
  lemma SchedulerCanReturn(steps: seq<Step>) returns (more: seq<Step>)
    requires Legal(Initial(), steps)
    ensures Legal(Exec(Initial(), steps), more) && Exec(Exec(Initial(), steps), more).pc.Returned?
    ensures forall i :: 0 <= i < |more| ==> !IsRunnerStep(more[i])
  {
    RunKeepsInv(Initial(), steps);
    more := WayToReturn(Exec(Initial(), steps));
  }

  /** What runner g, started with task t, can do. */
  ghost predicate CanMove(y: Sys, g: nat, t: Task)
    requires g < |y.gos|
  {
    var phase := y.gos[g].phase;
    && (phase == Offset <==> Enabled(y, Begin(g)))
    && (phase == Chosen <==> Enabled(y, ReadPair(g)))
    && (phase == Probing <==> Enabled(y, Finish(g)))
    && (phase == Ticking <==> Enabled(y, Tick(g)))
    && (Enabled(y, Quit(g)) <==>
          && (y.ctxDone || g in y.s.cancelled)
          && (phase == Ticking || (phase == Offset && t.kind == "snmp_poll" && t.intervalSeconds > 1)))
  }

  lemma EachHasTask(steps: seq<Step>)
    requires Legal(Initial(), steps)
    ensures |Exec(Initial(), steps).gos| == |Exec(Initial(), steps).s.spawned|
  {
    RunKeepsInv(Initial(), steps);
  }

  lemma RunnerCanMove(y: Sys, g: nat)
    requires g < |y.gos| == |y.s.spawned|
    ensures CanMove(y, g, y.s.spawned[g])
  {
  }

  /**
   * What a runner can do, in every run: begin, execute, end its execution, take a tick; and leave
   * exactly when its own or the agent's context is cancelled, while it waits for a tick or, if it
   * has one, for its startup offset. Cancelling the agent's context cancels that of every runner.
   */
  lemma RunnersCanMove(steps: seq<Step>, g: nat)
    requires Legal(Initial(), steps) && g < |Exec(Initial(), steps).gos|
    ensures var y := Exec(Initial(), steps);
            && |y.gos| == |y.s.spawned| && CanMove(y, g, y.s.spawned[g])
            && CtxCancelled(Apply(y, CancelCtx), g)
  {
    EachHasTask(steps);
    RunnerCanMove(Exec(Initial(), steps), g);
  }
}
