/**
 * Task reconciliation: the map from TaskID to running probe goroutine, and how one response
 * of the server changes it.
 *
 * A goroutine is named by its position in `spawned`, the list of tasks ever started, so the
 * same number always means the very same goroutine; `cancelled` holds the goroutines whose
 * own cancel function has been called.
 */
module Scheduling {
  import opened Prelude
  import opened Tasks
  import opened Updater

  datatype Pair = Pair(v4: string, v6: string)

  datatype Response = Response(tasks: seq<Task>, ips: Pair, update: Option<Update>)

  datatype Runner = Runner(gid: nat, task: Task)

  datatype State = State(runners: map<int, Runner>, ips: Pair, spawned: seq<Task>, cancelled: set<nat>)

  // ------------------------------------------------------------------ single steps

  function Removed(s: State, id: int): State
    requires id in s.runners
  {
    s.(runners := s.runners - {id}, cancelled := s.cancelled + {s.runners[id].gid})
  }

  function Start(s: State, t: Task): State {
    s.(runners := s.runners[t.taskID := Runner(|s.spawned|, t)], spawned := s.spawned + [t])
  }

  /** One round of the start loop: restart a changed runner, start a missing one. */
  function Launch(s: State, t: Task): State {
    var s1 := if t.taskID in s.runners && Differs(s.runners[t.taskID].task, t)
              then Removed(s, t.taskID) else s;
    if t.taskID in s1.runners then s1 else Start(s1, t)
  }

  // ------------------------------------------------------------------ the phases of reconcile

  function Ids(tasks: seq<Task>): set<int> {
    set t | t in tasks :: t.taskID
  }

  function Gids(runners: map<int, Runner>, ids: set<int>): set<nat> {
    set id | id in runners && id in ids :: runners[id].gid
  }

  function CancelAll(s: State, ids: set<int>): State {
    s.(runners := s.runners - ids, cancelled := s.cancelled + Gids(s.runners, ids))
  }

  function AfterWipe(s: State, resp: Response): State {
    var s1 := s.(ips := resp.ips);
    if s.ips != resp.ips then CancelAll(s1, s1.runners.Keys) else s1
  }

  function AfterRemove(s: State, resp: Response): State {
    var s2 := AfterWipe(s, resp);
    CancelAll(s2, s2.runners.Keys - Ids(resp.tasks))
  }

  function LaunchAll(s: State, tasks: seq<Task>): State {
    if tasks == [] then s
    else Launch(LaunchAll(s, tasks[..|tasks| - 1]), tasks[|tasks| - 1])
  }

  /** The whole effect of a reconcile whose fetch succeeded. */
  function Reconciled(s: State, resp: Response): State {
    LaunchAll(AfterRemove(s, resp), resp.tasks)
  }

  /** The one-place update channel: a second directive is ignored while one is queued. */
  function Offered(ch: Option<Update>, upd: Option<Update>): Option<Update> {
    if upd.Some? && ch.None? then upd else ch
  }

  lemma CancelOneMore(s: State, ids: set<int>, id: int)
    requires id in s.runners && id !in ids
    ensures Removed(CancelAll(s, ids), id) == CancelAll(s, ids + {id})
  {
    assert s.runners - ids - {id} == s.runners - (ids + {id});
    assert Gids(s.runners, ids + {id}) == Gids(s.runners, ids) + {s.runners[id].gid};
  }

  lemma CancelNone(s: State)
    ensures CancelAll(s, {}) == s
  {
    assert s.runners - {} == s.runners;
    assert Gids(s.runners, {}) == {};
  }

  // ------------------------------------------------------------------ the goroutine invariant

  /** The map entry of an id is the runner of that id, with the task it was started with. */
  ghost predicate EntryOk(s: State, id: int)
    requires id in s.runners
  {
    var r := s.runners[id];
    && r.task.taskID == id
    && r.gid < |s.spawned| && s.spawned[r.gid] == r.task
    && r.gid !in s.cancelled
  }

  ghost predicate Tracked(s: State, g: nat)
    requires g < |s.spawned|
  {
    var id := s.spawned[g].taskID;
    id in s.runners && s.runners[id].gid == g
  }

  /**
   * Entries of the map and uncancelled goroutines are in bijection, same id and same task:
   * every entry names an uncancelled goroutine, and every uncancelled goroutine is the one
   * named by the entry of its id.
   */
  ghost predicate Bijection(s: State) {
    && (forall id :: id in s.runners ==> EntryOk(s, id))
    && (forall g: nat :: g < |s.spawned| && g !in s.cancelled ==> Tracked(s, g))
    && (forall g :: g in s.cancelled ==> g < |s.spawned|)
  }

  lemma CancelAllKeepsBijection(s: State, ids: set<int>)
    requires Bijection(s)
    ensures Bijection(CancelAll(s, ids))
  {
    var r := CancelAll(s, ids);
    forall id | id in r.runners ensures EntryOk(r, id) {
      assert EntryOk(s, id);
      assert forall other :: other in s.runners ==> EntryOk(s, other);
    }
    forall g: nat | g < |r.spawned| && g !in r.cancelled ensures Tracked(r, g) {
      assert Tracked(s, g);
    }
    forall g | g in r.cancelled ensures g < |r.spawned| {
      if g !in s.cancelled {
        var id :| id in s.runners && id in ids && s.runners[id].gid == g;
        assert EntryOk(s, id);
      }
    }
  }

  lemma CancelOneKeepsBijection(s: State, id: int)
    requires Bijection(s) && id in s.runners
    ensures Bijection(Removed(s, id))
  {
    CancelNone(s);
    CancelOneMore(s, {}, id);
    CancelAllKeepsBijection(s, {id});
    assert {} + {id} == {id};
  }

  lemma StartKeepsBijection(s: State, t: Task)
    requires Bijection(s) && t.taskID !in s.runners
    ensures Bijection(Start(s, t))
  {
    var r := Start(s, t);
    forall id | id in r.runners ensures EntryOk(r, id) {
      if id != t.taskID { assert EntryOk(s, id); }
    }
    forall g: nat | g < |r.spawned| && g !in r.cancelled ensures Tracked(r, g) {
      if g < |s.spawned| { assert Tracked(s, g); }
    }
  }

  lemma LaunchKeepsBijection(s: State, t: Task)
    requires Bijection(s)
    ensures Bijection(Launch(s, t))
  {
    if t.taskID in s.runners {
      CancelOneKeepsBijection(s, t.taskID);
      StartKeepsBijection(Removed(s, t.taskID), t);
    } else {
      StartKeepsBijection(s, t);
    }
  }

  lemma {:induction false} LaunchAllKeepsBijection(s: State, tasks: seq<Task>)
    requires Bijection(s)
    ensures Bijection(LaunchAll(s, tasks))
  {
    if tasks != [] {
      LaunchAllKeepsBijection(s, tasks[..|tasks| - 1]);
      LaunchKeepsBijection(LaunchAll(s, tasks[..|tasks| - 1]), tasks[|tasks| - 1]);
    }
  }

  lemma AfterWipeKeepsBijection(s: State, resp: Response)
    requires Bijection(s)
    ensures Bijection(AfterWipe(s, resp))
  {
    var s1 := s.(ips := resp.ips);
    assert Bijection(s1) by {
      forall id | id in s1.runners ensures EntryOk(s1, id) { assert EntryOk(s, id); }
      forall g: nat | g < |s1.spawned| && g !in s1.cancelled ensures Tracked(s1, g) { assert Tracked(s, g); }
    }
    CancelAllKeepsBijection(s1, s1.runners.Keys);
  }

  lemma ReconciledKeepsBijection(s: State, resp: Response)
    requires Bijection(s)
    ensures Bijection(AfterRemove(s, resp)) && Bijection(Reconciled(s, resp))
  {
    AfterWipeKeepsBijection(s, resp);
    var s2 := AfterWipe(s, resp);
    CancelAllKeepsBijection(s2, s2.runners.Keys - Ids(resp.tasks));
    LaunchAllKeepsBijection(AfterRemove(s, resp), resp.tasks);
  }

  // ------------------------------------------------------------------ the map after a reconcile

  /** The task of the last list element that carries the id. */
  ghost predicate IsLast(tasks: seq<Task>, id: int, t: Task) {
    exists k :: 0 <= k < |tasks| && tasks[k] == t && t.taskID == id
                && forall j :: k < j < |tasks| ==> tasks[j].taskID != id
  }

  lemma IsLastSnoc(front: seq<Task>, t: Task, id: int, task: Task)
    requires if t.taskID == id then task == t else IsLast(front, id, task)
    ensures IsLast(front + [t], id, task)
  {
    var tasks := front + [t];
    if t.taskID == id {
      assert tasks[|front|] == t;
    } else {
      var k :| 0 <= k < |front| && front[k] == task && task.taskID == id
               && forall j :: k < j < |front| ==> front[j].taskID != id;
      assert tasks[k] == task;
    }
  }

  lemma IdsSnoc(tasks: seq<Task>)
    requires tasks != []
    ensures var (front, t) := (tasks[..|tasks| - 1], tasks[|tasks| - 1]);
            tasks == front + [t] && Ids(tasks) == Ids(front) + {t.taskID}
  {
    var (front, t) := (tasks[..|tasks| - 1], tasks[|tasks| - 1]);
    assert tasks == front + [t];
    forall id | id in Ids(front) + {t.taskID} ensures id in Ids(tasks) {
      if id == t.taskID { assert t in tasks; }
    }
  }

  lemma LaunchTasks(s: State, t: Task)
    requires Bijection(s)
    ensures var r := Launch(s, t);
            && r.runners.Keys == s.runners.Keys + {t.taskID}
            && r.runners[t.taskID].task == t
            && forall id :: id in s.runners && id != t.taskID ==> r.runners[id] == s.runners[id]
  {
    if t.taskID in s.runners { assert EntryOk(s, t.taskID); }
  }

  lemma LastWinsSnoc(q: State, r: State, front: seq<Task>, t: Task)
    requires t.taskID in r.runners && r.runners[t.taskID].task == t
    requires forall id :: id in q.runners && id != t.taskID ==> id in r.runners && r.runners[id] == q.runners[id]
    requires forall id :: id in Ids(front) ==> id in q.runners && IsLast(front, id, q.runners[id].task)
    ensures forall id :: id in Ids(front) || id == t.taskID ==>
              id in r.runners && IsLast(front + [t], id, r.runners[id].task)
  {
    forall id | id in Ids(front) || id == t.taskID
      ensures id in r.runners && IsLast(front + [t], id, r.runners[id].task)
    {
      if id != t.taskID { assert r.runners[id] == q.runners[id]; }
      IsLastSnoc(front, t, id, r.runners[id].task);
    }
  }

  lemma {:induction false} LaunchAllTasks(s: State, tasks: seq<Task>)
    requires Bijection(s)
    ensures var r := LaunchAll(s, tasks);
            && r.runners.Keys == s.runners.Keys + Ids(tasks)
            && forall id :: id in Ids(tasks) ==> IsLast(tasks, id, r.runners[id].task)
  {
    if tasks != [] {
      var n := |tasks| - 1;
      var front, t := tasks[..n], tasks[n];
      LaunchAllTasks(s, front);
      LaunchAllKeepsBijection(s, front);
      LaunchTasks(LaunchAll(s, front), t);
      IdsSnoc(tasks);
      LastWinsSnoc(LaunchAll(s, front), LaunchAll(s, tasks), front, t);
    }
  }

  /**
   * After a successful reconcile the map is exactly the last-wins map of the returned list,
   * whatever was running before and however often a TaskID repeats.
   */
  lemma ReconciledIsLastWins(s: State, resp: Response)
    requires Bijection(s)
    ensures var r := Reconciled(s, resp);
            && r.ips == resp.ips
            && r.runners.Keys == Ids(resp.tasks)
            && forall id :: id in r.runners ==> IsLast(resp.tasks, id, r.runners[id].task)
  {
    ReconciledKeepsBijection(s, resp);
    LaunchAllTasks(AfterRemove(s, resp), resp.tasks);
    LaunchAllKeepsIps(AfterRemove(s, resp), resp.tasks);
  }

  lemma {:induction false} LaunchAllKeepsIps(s: State, tasks: seq<Task>)
    ensures LaunchAll(s, tasks).ips == s.ips
    ensures s.spawned <= LaunchAll(s, tasks).spawned
    ensures s.cancelled <= LaunchAll(s, tasks).cancelled
  {
    if tasks != [] { LaunchAllKeepsIps(s, tasks[..|tasks| - 1]); }
  }

  // ------------------------------------------------------------------ which goroutines survive

  /** Every list element with the id carries exactly this task. */
  ghost predicate OnlyAs(tasks: seq<Task>, id: int, t: Task) {
    forall k :: 0 <= k < |tasks| && tasks[k].taskID == id ==> tasks[k] == t
  }

  lemma OnlyAsSnoc(front: seq<Task>, t: Task, id: int, task: Task)
    ensures OnlyAs(front + [t], id, task) <==> OnlyAs(front, id, task) && (t.taskID == id ==> t == task)
  {
    var tasks := front + [t];
    assert forall k :: 0 <= k < |front| ==> tasks[k] == front[k];
    assert tasks[|front|] == t;
  }

  lemma LaunchSpares(s: State, t: Task, id: int)
    requires id in s.runners && EntryOk(s, id) && (t.taskID in s.runners ==> EntryOk(s, t.taskID))
    requires forall other :: other in s.runners && s.runners[other].gid == s.runners[id].gid ==> other == id
    ensures var (r, entry) := (Launch(s, t), s.runners[id]);
            && (entry.gid !in r.cancelled <==> (t.taskID == id ==> t == entry.task))
            && (entry.gid !in r.cancelled ==> id in r.runners && r.runners[id] == entry)
  {
  }

  lemma LaunchOnlyCancels(s: State, t: Task)
    ensures s.cancelled <= Launch(s, t).cancelled
  {
  }

  lemma GidsDiffer(s: State, id: int)
    requires Bijection(s) && id in s.runners
    ensures EntryOk(s, id)
    ensures forall other :: other in s.runners && s.runners[other].gid == s.runners[id].gid ==> other == id
  {
    assert forall other :: other in s.runners ==> EntryOk(s, other);
  }

  lemma {:induction false} LaunchAllKeeps(s: State, tasks: seq<Task>, id: int)
    requires Bijection(s) && id in s.runners
    ensures var r := LaunchAll(s, tasks);
            && (s.runners[id].gid !in r.cancelled <==> OnlyAs(tasks, id, s.runners[id].task))
            && (OnlyAs(tasks, id, s.runners[id].task) ==> id in r.runners && r.runners[id] == s.runners[id])
  {
    assert EntryOk(s, id);
    if tasks != [] {
      var n := |tasks| - 1;
      var front, t := tasks[..n], tasks[n];
      LaunchAllKeeps(s, front, id);
      LaunchAllKeepsBijection(s, front);
      LaunchAllKeepsIps(s, front);
      assert tasks == front + [t];
      var (task, q) := (s.runners[id].task, LaunchAll(s, front));
      OnlyAsSnoc(front, t, id, task);
      LaunchOnlyCancels(q, t);
      if OnlyAs(front, id, task) {
        GidsDiffer(q, id);
        if t.taskID in q.runners { assert EntryOk(q, t.taskID); }
        LaunchSpares(q, t, id);
      }
    }
  }

  /**
   * A running goroutine survives a reconcile, as the very same goroutine, if and only if both
   * source IPs are unchanged and the list has its id, every time with an equal task.
   */
  lemma SurvivesIff(s: State, resp: Response, id: int)
    requires Bijection(s) && id in s.runners
    ensures var r := Reconciled(s, resp);
            && (s.runners[id].gid !in r.cancelled
                <==> resp.ips == s.ips && id in Ids(resp.tasks) && OnlyAs(resp.tasks, id, s.runners[id].task))
            && (s.runners[id].gid !in r.cancelled ==> id in r.runners && r.runners[id] == s.runners[id])
  {
    ReconciledKeepsBijection(s, resp);
    AfterWipeKeepsBijection(s, resp);
    var s3 := AfterRemove(s, resp);
    LaunchAllKeepsIps(s3, resp.tasks);
    assert EntryOk(s, id);
    if resp.ips == s.ips && id in Ids(resp.tasks) {
      assert s3.runners[id] == s.runners[id];
      LaunchAllKeeps(s3, resp.tasks, id);
    } else {
      var s1 := s.(ips := resp.ips);
      if resp.ips != s.ips {
        assert s.runners[id].gid in Gids(s1.runners, s1.runners.Keys);
      } else {
        assert s.runners[id].gid in Gids(s1.runners, s1.runners.Keys - Ids(resp.tasks));
      }
    }
  }

  /** No id occurs with two different tasks. */
  ghost predicate Consistent(tasks: seq<Task>) {
    forall i, j :: 0 <= i < |tasks| && 0 <= j < |tasks| && tasks[i].taskID == tasks[j].taskID ==> tasks[i] == tasks[j]
  }

  lemma {:induction false} LaunchAllIdle(s: State, tasks: seq<Task>)
    requires forall k :: 0 <= k < |tasks| ==>
               tasks[k].taskID in s.runners && s.runners[tasks[k].taskID].task == tasks[k]
    ensures LaunchAll(s, tasks) == s
  {
    if tasks != [] {
      LaunchAllIdle(s, tasks[..|tasks| - 1]);
      assert tasks[|tasks| - 1].taskID in s.runners;
    }
  }

  /**
   * Reconciling the same response twice starts and cancels nothing the second time, if and only
   * if no id occurs in it with two different tasks.
   */
  lemma RepeatIsIdleIff(s: State, resp: Response)
    requires Bijection(s)
    ensures var r := Reconciled(s, resp);
            Reconciled(r, resp) == r <==> Consistent(resp.tasks)
  {
    var r, tasks := Reconciled(s, resp), resp.tasks;
    ReconciledKeepsBijection(s, resp);
    ReconciledIsLastWins(s, resp);
    if Consistent(tasks) {
      forall k | 0 <= k < |tasks|
        ensures tasks[k].taskID in r.runners && r.runners[tasks[k].taskID].task == tasks[k]
      {
        assert tasks[k] in tasks;
        assert tasks[k].taskID in Ids(tasks);
        assert IsLast(tasks, tasks[k].taskID, r.runners[tasks[k].taskID].task);
      }
      assert r.runners.Keys - Ids(tasks) == {};
      CancelNone(r);
      LaunchAllIdle(r, tasks);
    } else {
      var i, j :| 0 <= i < |tasks| && 0 <= j < |tasks| && tasks[i].taskID == tasks[j].taskID && tasks[i] != tasks[j];
      var id := tasks[i].taskID;
      assert tasks[i] in tasks;
      assert id in Ids(tasks);
      SurvivesIff(r, resp, id);
      assert !OnlyAs(tasks, id, r.runners[id].task);
      assert EntryOk(r, id);
    }
  }

  // ------------------------------------------------------------------ sequences of polls

  /** None is a failed fetch. */
  function Polled(s: State, fetched: Option<Response>): State {
    if fetched.Some? then Reconciled(s, fetched.value) else s
  }

  function PollAll(s: State, polls: seq<Option<Response>>): State
    decreases polls
  {
    if polls == [] then s else PollAll(Polled(s, polls[0]), polls[1..])
  }

  /** The response leaves the goroutine of this id, task and source pair alone. */
  ghost predicate Undisturbed(fetched: Option<Response>, id: int, t: Task, ips: Pair) {
    fetched.Some? ==>
      && fetched.value.ips == ips
      && id in Ids(fetched.value.tasks)
      && OnlyAs(fetched.value.tasks, id, t)
  }

  lemma {:induction false} CancelledStays(s: State, polls: seq<Option<Response>>)
    requires Bijection(s)
    ensures s.cancelled <= PollAll(s, polls).cancelled
    ensures Bijection(PollAll(s, polls))
    decreases polls
  {
    if polls != [] {
      if polls[0].Some? {
        ReconciledKeepsBijection(s, polls[0].value);
        LaunchAllKeepsIps(AfterRemove(s, polls[0].value), polls[0].value.tasks);
      }
      CancelledStays(Polled(s, polls[0]), polls[1..]);
    }
  }

  /**
   * A goroutine survives a whole series of polls if and only if its task and both source IPs
   * stay constant in every poll that succeeds; failed fetches do not matter.
   */
  lemma {:induction false} SurvivesPollsIff(s: State, polls: seq<Option<Response>>, id: int)
    requires Bijection(s) && id in s.runners
    ensures var (g, t) := (s.runners[id].gid, s.runners[id].task);
            var r := PollAll(s, polls);
            && (g !in r.cancelled <==> forall k :: 0 <= k < |polls| ==> Undisturbed(polls[k], id, t, s.ips))
            && (g !in r.cancelled ==> id in r.runners && r.runners[id] == s.runners[id])
    decreases polls
  {
    assert EntryOk(s, id);
    if polls != [] {
      var (g, t) := (s.runners[id].gid, s.runners[id].task);
      var s' := Polled(s, polls[0]);
      var rest := polls[1..];
      assert forall k :: 0 <= k < |rest| ==> rest[k] == polls[k + 1];
      if polls[0].Some? {
        SurvivesIff(s, polls[0].value, id);
        ReconciledKeepsBijection(s, polls[0].value);
        LaunchAllKeepsIps(AfterRemove(s, polls[0].value), polls[0].value.tasks);
      }
      assert g !in s'.cancelled <==> Undisturbed(polls[0], id, t, s.ips);
      if g !in s'.cancelled {
        SurvivesPollsIff(s', rest, id);
        assert s'.ips == s.ips;
        if forall k :: 0 <= k < |rest| ==> Undisturbed(rest[k], id, t, s.ips) {
          forall k | 0 <= k < |polls| ensures Undisturbed(polls[k], id, t, s.ips) {
            if k > 0 { assert polls[k] == rest[k - 1]; }
          }
        }
      } else {
        CancelledStays(s', rest);
      }
    }
  }

  // ------------------------------------------------------------------ the running scheduler

  /** The map from id to the last task with that id. */
  method Wanted(tasks: seq<Task>) returns (wanted: map<int, Task>)
    ensures wanted.Keys == Ids(tasks)
    ensures forall id :: id in wanted ==> IsLast(tasks, id, wanted[id])
  {
    wanted := map[];
    for i := 0 to |tasks|
      invariant wanted.Keys == Ids(tasks[..i])
      invariant forall id :: id in wanted ==> IsLast(tasks[..i], id, wanted[id])
    {
      ghost var before := wanted;
      wanted := wanted[tasks[i].taskID := tasks[i]];
      IdsSnoc(tasks[..i + 1]);
      assert tasks[..i + 1][..i] == tasks[..i];
      forall id | id in wanted ensures IsLast(tasks[..i + 1], id, wanted[id]) {
        IsLastSnoc(tasks[..i], tasks[i], id, wanted[id]);
      }
    }
    assert tasks[..|tasks|] == tasks;
  }

  /** The scheduler; `runners` is the map that Run owns and hands to reconcile. */
  class Scheduler {
    var runners: map<int, Runner>
    var sourceIPv4: string
    var sourceIPv6: string
    var updateCh: Option<Update>
    var spawned: seq<Task>
    var cancelled: set<nat>

    constructor ()
      ensures View() == State(map[], Pair("", ""), [], {}) && updateCh == None
    {
      runners, sourceIPv4, sourceIPv6, updateCh, spawned, cancelled := map[], "", "", None, [], {};
    }

    ghost function View(): State
      reads this
    {
      State(runners, Pair(sourceIPv4, sourceIPv6), spawned, cancelled)
    }

    method CancelAndDelete(id: int)
      requires id in runners
      modifies `runners, `cancelled
      ensures View() == Removed(old(View()), id)
    {
      cancelled := cancelled + {runners[id].gid};
      runners := runners - {id};
    }

    /** Cancels and deletes the entries of all the given ids, in whatever order the map yields them. */
    method CancelEach(ids: set<int>)
      requires ids <= runners.Keys
      modifies `runners, `cancelled
      ensures View() == CancelAll(old(View()), ids)
    {
      ghost var s := View();
      CancelNone(s);
      var todo := ids;
      while todo != {}
        invariant todo <= ids
        invariant View() == CancelAll(s, ids - todo)
      {
        var id := Pick(todo);
        CancelOneMore(s, ids - todo, id);
        assert ids - todo + {id} == ids - (todo - {id});
        CancelAndDelete(id);
        todo := todo - {id};
      }
      assert ids - {} == ids;
    }

    /** Restarts a changed runner and starts a missing one; an equal one is left running. */
    method LaunchOne(t: Task)
      modifies `runners, `spawned, `cancelled
      ensures View() == Launch(old(View()), t)
    {
      if t.taskID in runners {
        var changed := TaskChanged(runners[t.taskID].task, t);
        if changed {
          CancelAndDelete(t.taskID);
        }
      }
      if t.taskID !in runners {
        runners := runners[t.taskID := Runner(|spawned|, t)];
        spawned := spawned + [t];
      }
    }

    method LaunchEach(tasks: seq<Task>)
      modifies `runners, `spawned, `cancelled
      ensures View() == LaunchAll(old(View()), tasks)
    {
      ghost var s := View();
      for i := 0 to |tasks|
        invariant View() == LaunchAll(s, tasks[..i])
      {
        assert tasks[..i + 1][..i] == tasks[..i];
        LaunchOne(tasks[i]);
      }
      assert tasks[..|tasks|] == tasks;
    }

    method Reconcile(fetched: Option<Response>)
      modifies this
      ensures View() == Polled(old(View()), fetched)
      ensures updateCh == if fetched.Some? then Offered(old(updateCh), fetched.value.update) else old(updateCh)
    {
      ghost var s := View();
      if fetched.None? {
        return;
      }
      var resp := fetched.value;
      if resp.update.Some? && updateCh.None? {
        updateCh := resp.update;
      }

      var prev := Pair(sourceIPv4, sourceIPv6);
      sourceIPv4, sourceIPv6 := resp.ips.v4, resp.ips.v6;
      if prev.v4 != resp.ips.v4 || prev.v6 != resp.ips.v6 {
        CancelEach(runners.Keys);
      }
      assert View() == AfterWipe(s, resp);

      var wanted := Wanted(resp.tasks);
      CancelEach(runners.Keys - wanted.Keys);
      assert View() == AfterRemove(s, resp);
      LaunchEach(resp.tasks);
    }

    /**
     * Reconciles once at startup and once per tick until the context is cancelled, then cancels
     * every runner: no goroutine it started is left uncancelled.
     */
    method Run(first: Option<Response>, ticks: seq<Option<Response>>)
      requires Bijection(View())
      modifies this
      ensures runners == PollAll(old(View()), [first] + ticks).runners
      ensures spawned == PollAll(old(View()), [first] + ticks).spawned
      ensures forall g: nat :: g in cancelled <==> g < |spawned|
    {
      ghost var s := View();
      CancelledStays(s, [first]);
      Reconcile(first);
      for i := 0 to |ticks|
        invariant View() == PollAll(s, [first] + ticks[..i])
      {
        Reconcile(ticks[i]);
        PollAllSnoc(s, [first] + ticks[..i], ticks[i]);
        assert [first] + ticks[..i] + [ticks[i]] == [first] + ticks[..i + 1];
      }
      assert ticks[..|ticks|] == ticks;
      CancelledStays(s, [first] + ticks);
      ghost var end := View();
      var todo := runners.Keys;
      while todo != {}
        invariant todo <= runners.Keys
        invariant runners == end.runners && spawned == end.spawned
        invariant cancelled == end.cancelled + Gids(end.runners, end.runners.Keys - todo)
      {
        var id := Pick(todo);
        assert Gids(end.runners, end.runners.Keys - (todo - {id}))
            == Gids(end.runners, end.runners.Keys - todo) + {end.runners[id].gid};
        cancelled := cancelled + {runners[id].gid};
        todo := todo - {id};
      }
      forall g: nat | g < |spawned| ensures g in cancelled {
        if g !in end.cancelled { assert Tracked(end, g); }
      }
      forall g | g in cancelled ensures g < |spawned| {
        if g !in end.cancelled {
          var id :| id in end.runners && end.runners[id].gid == g;
          assert EntryOk(end, id);
        }
      }
    }
  }

  lemma {:induction false} PollAllSnoc(s: State, polls: seq<Option<Response>>, last: Option<Response>)
    ensures PollAll(s, polls + [last]) == Polled(PollAll(s, polls), last)
    decreases polls
  {
    if polls == [] {
      assert polls + [last] == [last];
      assert PollAll(Polled(s, last), [last][1..]) == Polled(s, last);
    } else {
      assert (polls + [last])[1..] == polls[1..] + [last];
      PollAllSnoc(Polled(s, polls[0]), polls[1..], last);
    }
  }
}
