/**
 * The reporter: two bounded queues that drop the newest result, each feeding a retry buffer
 * that drops the oldest, one upload loop, and a final drain.
 *
 * Producers may offer results between any two steps of the loop, before and after it returns.
 */
module Reporting {
  import opened Prelude
  import opened Bags
  import opened Batches

  /** Capacity of the queues and of the retry buffers. */
  function MaxBuf(batchSize: int): (n: nat)
    ensures n >= 1000
    ensures -TWO_63 <= 10 * batchSize < TWO_63 ==> n == if 10 * batchSize > 1000 then 10 * batchSize else 1000
  {
    var c := Wrap64(batchSize * 10);
    if c < 1000 then 1000 else c
  }

  /** How an upload attempt can end. */
  datatype Outcome = MarshalFailed | BadRequest | NetworkError | Status(code: int)

  /** Whether the batch is finished with: accepted, or dropped because a retry cannot help. */
  predicate UploadDone(o: Outcome)
    ensures !UploadDone(o) <==> o.NetworkError? || (o.Status? && (o.code >= 500 || o.code == 429))
  {
    match o
    case MarshalFailed => true
    case BadRequest => true
    case NetworkError => false
    case Status(code) =>
      if code == 200 then true
      else if code >= 500 || code == 429 then false
      else true
  }

  /** What the documentation of post says: drop on 200 and on 4xx other than 429. */
  predicate DropDocumented(code: int) {
    code == 200 || (400 <= code < 500 && code != 429)
  }

  /** The code drops as documented exactly on 200 and from 400 on: 204 and 302 are dropped too. */
  lemma DropsAsDocumentedIff(code: int)
    ensures (UploadDone(Status(code)) <==> DropDocumented(code)) <==> code == 200 || code >= 400
    ensures UploadDone(Status(204)) && !DropDocumented(204) && UploadDone(Status(302)) && !DropDocumented(302)
  {
  }

  // ------------------------------------------------------------------ one endpoint

  /** What became of an accepted result that has left the buffer. */
  datatype Fate = Evicted | Finished(upload: nat)

  /** A batch handed to the upload, whether the flush was forced, the clock before it, and how it ended. */
  datatype Attempt<T> = Attempt(batch: seq<T>, forced: bool, at: int, done: bool)

  /**
   * History of an endpoint: all results offered, those refused at a full queue, those accepted;
   * the fate of each accepted result that has left the buffer; the contents of the finished
   * uploads; and all attempts to upload, failed ones too.
   */
  datatype Log<T> = Log(
    offered: seq<T>, refused: seq<T>, accepted: seq<T>, settled: seq<Fate>,
    uploads: seq<seq<T>>, attempts: seq<Attempt<T>>)

  function NewLog<T>(): Log<T> {
    Log([], [], [], [], [], [])
  }

  datatype Endpoint<T> = Endpoint(cap: nat, queue: seq<T>, batch: Batch<T>, log: Log<T>)

  /** The clock before an upload, how it ends, and the clock after it. */
  datatype Env = Env(now: int, outcome: Outcome, after: int)

  function NewEndpoint<T>(batchSize: int): Endpoint<T> {
    Endpoint(MaxBuf(batchSize), [], Fresh(MaxBuf(batchSize)), NewLog())
  }

  function Repeat<T>(x: T, n: nat): seq<T> {
    seq(n, _ => x)
  }

  function Offer<T>(e: Endpoint<T>, v: T): Endpoint<T> {
    var l := e.log.(offered := e.log.offered + [v]);
    if |e.queue| < e.cap then e.(queue := e.queue + [v], log := l.(accepted := l.accepted + [v]))
    else e.(log := l.(refused := l.refused + [v]))
  }

  /** The oldest queued result moves to the buffer, which may evict its oldest. */
  function Take<T>(e: Endpoint<T>): Endpoint<T>
    requires e.queue != []
  {
    var b := Added(e.batch, e.queue[0]);
    var dropped := if |b.buf| <= |e.batch.buf| then |e.batch.buf| + 1 - |b.buf| else 0;
    e.(queue := e.queue[1..], batch := b,
       log := e.log.(settled := e.log.settled + Repeat(Evicted, dropped)))
  }

  /** A batch was handed to the upload; when that is done with it, its results are settled. */
  function Sent<T>(l: Log<T>, a: Attempt<T>): Log<T> {
    var l1 := l.(attempts := l.attempts + [a]);
    if a.done
    then l1.(settled := l.settled + Repeat(Finished(|l.uploads|), |a.batch|), uploads := l.uploads + [a.batch])
    else l1
  }

  function Upload<T>(e: Endpoint<T>, force: bool, env: Env): Endpoint<T> {
    var done := UploadDone(env.outcome);
    e.(batch := Flushed(e.batch, force, env.now, done, env.after),
       log := if Attempts(e.batch, force, env.now)
              then Sent(e.log, Attempt(e.batch.buf, force, env.now, done)) else e.log)
  }

  /** One round of the loop that received a result. */
  function Receive<T>(e: Endpoint<T>, batchSize: int, env: Env): Endpoint<T>
    requires e.queue != []
  {
    var e1 := Take(e);
    if |e1.batch.buf| >= batchSize then Upload(e1, false, env) else e1
  }

  // ------------------------------------------------------------------ accounting

  /** The values whose fate is f, in order. */
  function With<T>(vals: seq<T>, fates: seq<Fate>, f: Fate): seq<T>
    requires |vals| == |fates|
  {
    if vals == [] then []
    else
      var n := |vals| - 1;
      With(vals[..n], fates[..n], f) + (if fates[n] == f then [vals[n]] else [])
  }

  /** The values that went out in some finished upload, in order. */
  function Delivered<T>(vals: seq<T>, fates: seq<Fate>): seq<T>
    requires |vals| == |fates|
  {
    if vals == [] then []
    else
      var n := |vals| - 1;
      Delivered(vals[..n], fates[..n]) + (if fates[n].Finished? then [vals[n]] else [])
  }

  function Concat<T>(ss: seq<seq<T>>): seq<T> {
    if ss == [] then [] else Concat(ss[..|ss| - 1]) + ss[|ss| - 1]
  }

  /** The accepted results that have no fate yet are those of the buffer, then those of the queue. */
  ghost predicate Rest<T>(accepted: seq<T>, n: nat, buf: seq<T>, queue: seq<T>) {
    n <= |accepted| && accepted[n..] == buf + queue
  }

  ghost predicate Placed<T>(e: Endpoint<T>) {
    Rest(e.log.accepted, |e.log.settled|, e.batch.buf, e.queue)
  }

  /** vals are the settled results: the finished uploads are made of them as their fates say. */
  ghost predicate Booked<T>(vals: seq<T>, fates: seq<Fate>, uploads: seq<seq<T>>)
    requires |vals| == |fates|
  {
    && (forall i :: 0 <= i < |fates| && fates[i].Finished? ==> fates[i].upload < |uploads|)
    && (forall u :: 0 <= u < |uploads| ==> uploads[u] == With(vals, fates, Finished(u)))
    && Concat(uploads) == Delivered(vals, fates)
  }

  ghost predicate Accounted<T>(e: Endpoint<T>) {
    var l := e.log;
    && |e.queue| <= e.cap && |e.batch.buf| <= e.batch.max
    && multiset(l.offered) == multiset(l.refused) + multiset(l.accepted)
    && Placed(e)
    && Booked(l.accepted[..|l.settled|], l.settled, l.uploads)
  }

  lemma BlockFront<T>(vals: seq<T>, fates: seq<Fate>, block: seq<T>, g: Fate)
    requires |vals| == |fates| && block != []
    ensures var (all, fs, n) := (vals + block, fates + Repeat(g, |block|), |block| - 1);
            && all[..|all| - 1] == vals + block[..n] && all[|all| - 1] == block[n]
            && fs[..|fs| - 1] == fates + Repeat(g, n) && fs[|fs| - 1] == g
            && block == block[..n] + [block[n]]
  {
  }

  lemma {:induction false} WithBlock<T>(vals: seq<T>, fates: seq<Fate>, block: seq<T>, g: Fate, f: Fate)
    requires |vals| == |fates|
    ensures With(vals + block, fates + Repeat(g, |block|), f)
         == With(vals, fates, f) + (if f == g then block else [])
    decreases |block|
  {
    if block == [] {
      assert vals + block == vals && fates + Repeat(g, 0) == fates;
    } else {
      WithBlock(vals, fates, block[..|block| - 1], g, f);
      BlockFront(vals, fates, block, g);
    }
  }

  lemma {:induction false} DeliveredBlock<T>(vals: seq<T>, fates: seq<Fate>, block: seq<T>, g: Fate)
    requires |vals| == |fates|
    ensures Delivered(vals + block, fates + Repeat(g, |block|))
         == Delivered(vals, fates) + (if g.Finished? then block else [])
    decreases |block|
  {
    if block == [] {
      assert vals + block == vals && fates + Repeat(g, 0) == fates;
    } else {
      DeliveredBlock(vals, fates, block[..|block| - 1], g);
      BlockFront(vals, fates, block, g);
    }
  }

  lemma {:induction false} WithAbsent<T>(vals: seq<T>, fates: seq<Fate>, f: Fate)
    requires |vals| == |fates| && f !in fates
    ensures With(vals, fates, f) == []
  {
    if vals != [] { WithAbsent(vals[..|vals| - 1], fates[..|vals| - 1], f); }
  }

  lemma RestGains<T>(accepted: seq<T>, n: nat, buf: seq<T>, queue: seq<T>, v: T)
    requires Rest(accepted, n, buf, queue)
    ensures Rest(accepted + [v], n, buf, queue + [v]) && (accepted + [v])[..n] == accepted[..n]
  {
    assert (accepted + [v])[n..] == accepted[n..] + [v];
    assert buf + (queue + [v]) == buf + queue + [v];
  }

  lemma RestMoves<T>(accepted: seq<T>, n: nat, buf: seq<T>, queue: seq<T>)
    requires Rest(accepted, n, buf, queue) && queue != []
    ensures Rest(accepted, n, buf + [queue[0]], queue[1..])
  {
    assert buf + queue == buf + [queue[0]] + queue[1..];
  }

  lemma RestLoses<T>(accepted: seq<T>, n: nat, buf: seq<T>, queue: seq<T>, k: nat)
    requires Rest(accepted, n, buf, queue) && k <= |buf|
    ensures n + k <= |accepted| && accepted[..n + k] == accepted[..n] + buf[..k]
    ensures Rest(accepted, n + k, buf[k..], queue)
  {
    assert |accepted| - n == |buf + queue|;
    assert accepted[n..][..k] == (buf + queue)[..k] == buf[..k];
    assert accepted[..n + k] == accepted[..n] + accepted[n..][..k];
    assert accepted[n + k..] == accepted[n..][k..];
    assert (buf + queue)[k..] == buf[k..] + queue;
  }

  lemma RestEmptied<T>(accepted: seq<T>, n: nat, buf: seq<T>, queue: seq<T>)
    requires Rest(accepted, n, buf, queue)
    ensures n + |buf| <= |accepted| && accepted[..n + |buf|] == accepted[..n] + buf
    ensures Rest(accepted, n + |buf|, [], queue)
  {
    RestLoses(accepted, n, buf, queue, |buf|);
    assert buf[..|buf|] == buf && buf[|buf|..] == [];
  }

  lemma BagGains<T>(s: seq<T>, v: T)
    ensures multiset(s + [v]) == multiset(s) + multiset{v}
  {
  }

  lemma OfferKeepsAccount<T>(e: Endpoint<T>, v: T)
    requires Accounted(e)
    ensures Accounted(Offer(e, v))
  {
    var l := e.log;
    BagGains(l.offered, v);
    if |e.queue| < e.cap {
      BagGains(l.accepted, v);
      RestGains(l.accepted, |l.settled|, e.batch.buf, e.queue, v);
    } else {
      BagGains(l.refused, v);
    }
  }

  lemma BookEvicted<T>(vals: seq<T>, fates: seq<Fate>, uploads: seq<seq<T>>, v: T)
    requires |vals| == |fates| && Booked(vals, fates, uploads)
    ensures Booked(vals + [v], fates + Repeat(Evicted, 1), uploads)
  {
    var fates' := fates + Repeat(Evicted, 1);
    forall u | 0 <= u < |uploads| ensures uploads[u] == With(vals + [v], fates', Finished(u)) {
      WithBlock(vals, fates, [v], Evicted, Finished(u));
    }
    DeliveredBlock(vals, fates, [v], Evicted);
  }

  lemma BookFinished<T>(vals: seq<T>, fates: seq<Fate>, uploads: seq<seq<T>>, b: seq<T>)
    requires |vals| == |fates| && Booked(vals, fates, uploads)
    ensures Booked(vals + b, fates + Repeat(Finished(|uploads|), |b|), uploads + [b])
  {
    var k := |uploads|;
    var (fates', uploads') := (fates + Repeat(Finished(k), |b|), uploads + [b]);
    forall u | 0 <= u <= k ensures uploads'[u] == With(vals + b, fates', Finished(u)) {
      WithBlock(vals, fates, b, Finished(k), Finished(u));
      if u == k { WithAbsent(vals, fates, Finished(k)); }
    }
    DeliveredBlock(vals, fates, b, Finished(k));
    assert uploads'[..k] == uploads;
  }

  lemma NewestOfOneMore<T>(buf: seq<T>, v: T, max: nat)
    requires |buf| <= max && max >= 1
    ensures Newest(buf + [v], max) == if |buf| < max then buf + [v] else (buf + [v])[1..]
  {
  }

  lemma TakeKeepsAccount<T>(e: Endpoint<T>)
    requires Accounted(e) && e.queue != [] && e.batch.max >= 1
    ensures Accounted(Take(e))
  {
    var (l, b, v) := (e.log, e.batch.buf, e.queue[0]);
    NewestOfOneMore(b, v, e.batch.max);
    RestMoves(l.accepted, |l.settled|, b, e.queue);
    if |b| < e.batch.max {
      assert Take(e).log.settled == l.settled;
    } else {
      RestLoses(l.accepted, |l.settled|, b + [v], e.queue[1..], 1);
      BookEvicted(l.accepted[..|l.settled|], l.settled, l.uploads, (b + [v])[0]);
      assert (b + [v])[..1] == [(b + [v])[0]];
    }
  }

  lemma FinishedKeepsBooks<T>(l: Log<T>, a: Attempt<T>, queue: seq<T>)
    requires Rest(l.accepted, |l.settled|, a.batch, queue) && a.done
    requires Booked(l.accepted[..|l.settled|], l.settled, l.uploads)
    ensures var l' := Sent(l, a);
            && Rest(l'.accepted, |l'.settled|, [], queue)
            && Booked(l'.accepted[..|l'.settled|], l'.settled, l'.uploads)
  {
    var (n, b) := (|l.settled|, a.batch);
    assert |Sent(l, a).settled| == n + |b|;
    RestEmptied(l.accepted, n, b, queue);
    BookFinished(l.accepted[..n], l.settled, l.uploads, b);
  }

  lemma UploadKeepsAccount<T>(e: Endpoint<T>, force: bool, env: Env)
    requires Accounted(e)
    ensures Accounted(Upload(e, force, env))
  {
    if Attempts(e.batch, force, env.now) && UploadDone(env.outcome) {
      FinishedKeepsBooks(e.log, Attempt(e.batch.buf, force, env.now, true), e.queue);
    }
  }

  // ------------------------------------------------------------------ the reporter

  /** Exited records how many results each endpoint had accepted when the final drain ended. */
  datatype Mode = Looping | Draining | Exited(probeMark: nat, snmpMark: nat)

  datatype State<R, S> = State(batchSize: int, probe: Endpoint<R>, snmp: Endpoint<S>, mode: Mode)

  datatype Event<R, S> =
    | OfferProbe(r: R) | OfferSNMP(s: S)
    | GetProbe(env: Env) | GetSNMP(env: Env) | Tick(env1: Env, env2: Env)
    | Stop | Exit(env1: Env, env2: Env)

  function NewReporter<R, S>(batchSize: int): State<R, S> {
    State(batchSize, NewEndpoint(batchSize), NewEndpoint(batchSize), Looping)
  }

  /** The drain only ends when the select finds both queues empty. */
  predicate Enabled<R, S>(p: State<R, S>, e: Event<R, S>) {
    match e
    case OfferProbe(_) => true
    case OfferSNMP(_) => true
    case GetProbe(_) => !p.mode.Exited? && |p.probe.queue| > 0
    case GetSNMP(_) => !p.mode.Exited? && |p.snmp.queue| > 0
    case Tick(_, _) => p.mode.Looping?
    case Stop => p.mode.Looping?
    case Exit(_, _) => p.mode.Draining? && |p.probe.queue| == 0 && |p.snmp.queue| == 0
  }

  function Next<R, S>(p: State<R, S>, e: Event<R, S>): State<R, S>
    requires Enabled(p, e)
  {
    match e
    case OfferProbe(r) => p.(probe := Offer(p.probe, r))
    case OfferSNMP(s) => p.(snmp := Offer(p.snmp, s))
    case GetProbe(env) =>
      p.(probe := if p.mode.Looping? then Receive(p.probe, p.batchSize, env) else Take(p.probe))
    case GetSNMP(env) =>
      p.(snmp := if p.mode.Looping? then Receive(p.snmp, p.batchSize, env) else Take(p.snmp))
    case Tick(env1, env2) => p.(probe := Upload(p.probe, false, env1), snmp := Upload(p.snmp, false, env2))
    case Stop => p.(mode := Draining)
    case Exit(env1, env2) =>
      p.(probe := Upload(p.probe, true, env1), snmp := Upload(p.snmp, true, env2),
         mode := Exited(|p.probe.log.accepted|, |p.snmp.log.accepted|))
  }

  predicate Legal<R, S>(p: State<R, S>, events: seq<Event<R, S>>)
    decreases events
  {
    events == [] || (Enabled(p, events[0]) && Legal(Next(p, events[0]), events[1..]))
  }

  function Exec<R, S>(p: State<R, S>, events: seq<Event<R, S>>): State<R, S>
    requires Legal(p, events)
    decreases events
  {
    if events == [] then p else Exec(Next(p, events[0]), events[1..])
  }

  /** The delay is positive exactly while a backoff instant is set. */
  ghost predicate BackoffOk<T>(b: Batch<T>) {
    b.retryDelay >= 0 && (b.retryDelay == 0 <==> b.retryAt.None?)
  }

  /** A full batch that is still in the buffer failed to upload at the last attempt. */
  ghost predicate FullMeansFailed<T>(b: Batch<T>, batchSize: int) {
    |b.buf| >= batchSize ==> b.retryDelay > 0
  }

  /** The instants of the failed attempts since the last finished one. */
  function Streak<T>(attempts: seq<Attempt<T>>): seq<int> {
    if attempts == [] || attempts[|attempts| - 1].done then []
    else Streak(attempts[..|attempts| - 1]) + [attempts[|attempts| - 1].at]
  }

  function DoneBatches<T>(attempts: seq<Attempt<T>>): seq<seq<T>> {
    if attempts == [] then []
    else
      var (front, a) := (attempts[..|attempts| - 1], attempts[|attempts| - 1]);
      DoneBatches(front) + (if a.done then [a.batch] else [])
  }

  /** The delay counts the failures of the streak, and the finished uploads are the attempts that were done. */
  ghost predicate Logged<T>(e: Endpoint<T>) {
    && e.batch.retryDelay == DelayAfter(|Streak(e.log.attempts)|)
    && e.log.uploads == DoneBatches(e.log.attempts)
  }

  ghost predicate LastFailed<T>(e: Endpoint<T>) {
    e.log.attempts != [] && !e.log.attempts[|e.log.attempts| - 1].done
  }

  /** The last attempt was forced, carried exactly what is still in the buffer, and failed. */
  ghost predicate ForcedFailed<T>(e: Endpoint<T>) {
    && e.log.attempts != []
    && var a := e.log.attempts[|e.log.attempts| - 1];
       a.batch == e.batch.buf && a.forced && !a.done
  }

  /** After the final drain: all that was accepted by then was taken, and what is left failed the forced upload. */
  ghost predicate DrainedTo<T>(e: Endpoint<T>, mark: nat) {
    && |e.log.settled| + |e.batch.buf| == mark
    && (e.batch.buf == [] || ForcedFailed(e))
  }

  /** An eviction leaves the buffer full, and it stays full until an upload finishes. */
  ghost predicate EvictsOnlyWhenFull<T>(e: Endpoint<T>) {
    var fates := e.log.settled;
    fates != [] && fates[|fates| - 1].Evicted? ==> |e.batch.buf| == e.batch.max
  }

  ghost predicate BatchInv<T>(e: Endpoint<T>, batchSize: int, mode: Mode, mark: nat) {
    && e.batch.max >= 1
    && BackoffOk(e.batch)
    && Logged(e)
    && EvictsOnlyWhenFull(e)
    && (mode.Looping? && batchSize >= 1 ==> FullMeansFailed(e.batch, batchSize))
    && (mode.Exited? ==> DrainedTo(e, mark))
  }

  ghost predicate EndpointInv<T>(e: Endpoint<T>, batchSize: int, mode: Mode, mark: nat) {
    Accounted(e) && BatchInv(e, batchSize, mode, mark)
  }

  function ProbeMark(mode: Mode): nat {
    if mode.Exited? then mode.probeMark else 0
  }

  function SNMPMark(mode: Mode): nat {
    if mode.Exited? then mode.snmpMark else 0
  }

  ghost predicate Inv<R, S>(p: State<R, S>) {
    && EndpointInv(p.probe, p.batchSize, p.mode, ProbeMark(p.mode))
    && EndpointInv(p.snmp, p.batchSize, p.mode, SNMPMark(p.mode))
  }

  lemma AttemptLogged<T>(attempts: seq<Attempt<T>>, a: Attempt<T>)
    ensures Streak(attempts + [a]) == if a.done then [] else Streak(attempts) + [a.at]
    ensures DoneBatches(attempts + [a]) == DoneBatches(attempts) + (if a.done then [a.batch] else [])
  {
    assert (attempts + [a])[..|attempts|] == attempts;
  }

  lemma UploadKeepsLog<T>(e: Endpoint<T>, force: bool, env: Env)
    requires Logged(e) && BackoffOk(e.batch)
    ensures Logged(Upload(e, force, env)) && BackoffOk(Upload(e, force, env).batch)
  {
    var n := |Streak(e.log.attempts)|;
    AttemptLogged(e.log.attempts, Attempt(e.batch.buf, force, env.now, UploadDone(env.outcome)));
    NextDelayIsNext(n);
    DelayGrows(n + 1);
  }

  lemma DelayMeansFailed<T>(e: Endpoint<T>)
    requires Logged(e)
    ensures e.batch.retryDelay > 0 <==> LastFailed(e)
  {
    DelayGrows(|Streak(e.log.attempts)|);
  }

  lemma OfferLeaves<T>(e: Endpoint<T>, v: T)
    ensures var e' := Offer(e, v);
            && e'.batch == e.batch && e'.log.settled == e.log.settled
            && e'.log.attempts == e.log.attempts && e'.log.uploads == e.log.uploads
  {
  }

  lemma BatchInvSame<T>(e: Endpoint<T>, e': Endpoint<T>, batchSize: int, mode: Mode, mark: nat)
    requires BatchInv(e, batchSize, mode, mark)
    requires e'.batch == e.batch && e'.log.settled == e.log.settled
    requires e'.log.attempts == e.log.attempts && e'.log.uploads == e.log.uploads
    ensures BatchInv(e', batchSize, mode, mark)
  {
  }

  lemma OfferKeepsInv<T>(e: Endpoint<T>, batchSize: int, mode: Mode, mark: nat, v: T)
    requires EndpointInv(e, batchSize, mode, mark)
    ensures EndpointInv(Offer(e, v), batchSize, mode, mark)
  {
    OfferKeepsAccount(e, v);
    OfferLeaves(e, v);
    BatchInvSame(e, Offer(e, v), batchSize, mode, mark);
  }

  lemma TakeKeepsInv<T>(e: Endpoint<T>, batchSize: int)
    requires EndpointInv(e, batchSize, Draining, 0) && e.queue != []
    ensures EndpointInv(Take(e), batchSize, Draining, 0)
  {
    TakeKeepsAccount(e);
  }

  lemma UploadKeepsInv<T>(e: Endpoint<T>, batchSize: int, env: Env)
    requires EndpointInv(e, batchSize, Draining, 0)
    ensures EndpointInv(Upload(e, false, env), batchSize, Draining, 0)
    ensures FullMeansFailed(e.batch, batchSize) && batchSize >= 1 ==>
              FullMeansFailed(Upload(e, false, env).batch, batchSize)
  {
    UploadKeepsAccount(e, false, env);
    UploadKeepsLog(e, false, env);
  }

  lemma ReceiveKeepsInv<T>(e: Endpoint<T>, batchSize: int, env: Env)
    requires EndpointInv(e, batchSize, Looping, 0) && e.queue != []
    ensures EndpointInv(Receive(e, batchSize, env), batchSize, Looping, 0)
  {
    TakeKeepsInv(e, batchSize);
    UploadKeepsInv(Take(e), batchSize, env);
  }

  lemma ExitKeepsInv<T>(e: Endpoint<T>, batchSize: int, env: Env, mode: Mode)
    requires EndpointInv(e, batchSize, Draining, 0) && e.queue == [] && mode.Exited?
    ensures EndpointInv(Upload(e, true, env), batchSize, mode, |e.log.accepted|)
  {
    UploadKeepsAccount(e, true, env);
    UploadKeepsLog(e, true, env);
  }

  lemma NextKeepsInv<R, S>(p: State<R, S>, e: Event<R, S>)
    requires Inv(p) && Enabled(p, e)
    ensures Inv(Next(p, e))
  {
    match e
    case OfferProbe(r) => OfferKeepsInv(p.probe, p.batchSize, p.mode, ProbeMark(p.mode), r);
    case OfferSNMP(s) => OfferKeepsInv(p.snmp, p.batchSize, p.mode, SNMPMark(p.mode), s);
    case GetProbe(env) =>
      if p.mode.Looping? { ReceiveKeepsInv(p.probe, p.batchSize, env); } else { TakeKeepsInv(p.probe, p.batchSize); }
    case GetSNMP(env) =>
      if p.mode.Looping? { ReceiveKeepsInv(p.snmp, p.batchSize, env); } else { TakeKeepsInv(p.snmp, p.batchSize); }
    case Tick(env1, env2) =>
      UploadKeepsInv(p.probe, p.batchSize, env1);
      UploadKeepsInv(p.snmp, p.batchSize, env2);
    case Stop =>
    case Exit(env1, env2) =>
      ExitKeepsInv(p.probe, p.batchSize, env1, Next(p, e).mode);
      ExitKeepsInv(p.snmp, p.batchSize, env2, Next(p, e).mode);
  }

  lemma NewHasInv<R, S>(batchSize: int)
    ensures Inv<R, S>(NewReporter(batchSize))
  {
  }

  lemma {:induction false} RunKeepsInv<R, S>(p: State<R, S>, events: seq<Event<R, S>>)
    requires Inv(p) && Legal(p, events)
    ensures Inv(Exec(p, events))
    decreases events
  {
    if events != [] {
      NextKeepsInv(p, events[0]);
      RunKeepsInv(Next(p, events[0]), events[1..]);
    }
  }

  // ------------------------------------------------------------------ the theorems

  /** Where an accepted result is. */
  datatype Place = InQueue | InBuffer | Left(fate: Fate)

  function PlaceOf<T>(e: Endpoint<T>, i: nat): Place
    requires i < |e.log.accepted|
  {
    var l := e.log;
    if i < |l.settled| then Left(l.settled[i])
    else if i < |l.settled| + |e.batch.buf| then InBuffer
    else InQueue
  }

  /** idx picks the elements of a out of b, from left to right. */
  ghost predicate Picks<T>(idx: seq<nat>, a: seq<T>, b: seq<T>) {
    && |idx| == |a|
    && (forall i :: 0 <= i < |idx| ==> idx[i] < |b| && b[idx[i]] == a[i])
    && (forall i, j :: 0 <= i < j < |idx| ==> idx[i] < idx[j])
  }

  ghost predicate IsSubsequence<T>(a: seq<T>, b: seq<T>) {
    exists idx: seq<nat> :: Picks(idx, a, b)
  }

  lemma PicksFromPrefix<T>(idx: seq<nat>, a: seq<T>, b: seq<T>)
    requires b != [] && Picks(idx, a, b[..|b| - 1])
    ensures Picks(idx, a, b)
    ensures Picks(idx + [|b| - 1], a + [b[|b| - 1]], b)
  {
    var front := b[..|b| - 1];
    assert forall i :: 0 <= i < |front| ==> front[i] == b[i];
    assert forall i :: 0 <= i < |idx| ==> b[idx[i]] == front[idx[i]];
  }

  lemma {:induction false} DeliveredIsSubsequence<T>(vals: seq<T>, fates: seq<Fate>) returns (idx: seq<nat>)
    requires |vals| == |fates|
    ensures Picks(idx, Delivered(vals, fates), vals)
  {
    if vals == [] {
      idx := [];
    } else {
      var n := |vals| - 1;
      idx := DeliveredIsSubsequence(vals[..n], fates[..n]);
      PicksFromPrefix(idx, Delivered(vals[..n], fates[..n]), vals);
      if fates[n].Finished? { idx := idx + [n]; }
    }
  }

  lemma AppendSubsequence<T>(idx: seq<nat>, a: seq<T>, b: seq<T>, tail: seq<T>)
    requires Picks(idx, a, b)
    ensures IsSubsequence(a + tail, b + tail)
  {
    var more: seq<nat> := seq(|tail|, i requires i >= 0 => |b| + i);
    assert Picks(idx + more, a + tail, b + tail);
  }

  /** Per endpoint, in any state the invariant covers: nothing is lost silently, duplicated or reordered. */
  ghost predicate Conserved<T>(e: Endpoint<T>) {
    var l := e.log;
    // each offered result was refused at a full queue or accepted
    && multiset(l.offered) == multiset(l.refused) + multiset(l.accepted)
    // each accepted result is in the one place PlaceOf names, and the places hold nothing else
    && Placed(e)
    && (forall i :: 0 <= i < |l.accepted| ==>
          match PlaceOf(e, i)
          case Left(Finished(u)) => u < |l.uploads|
          case Left(Evicted) => true
          case InBuffer => e.batch.buf[i - |l.settled|] == l.accepted[i]
          case InQueue => e.queue[i - |l.settled| - |e.batch.buf|] == l.accepted[i])
    && (forall u :: 0 <= u < |l.uploads| ==>
          l.uploads[u] == With(l.accepted[..|l.settled|], l.settled, Finished(u)))
    // finished uploads, then buffer, then queue keep the order in which results were accepted
    && IsSubsequence(Concat(l.uploads) + (e.batch.buf + e.queue), l.accepted)
  }

  lemma AccountConserves<T>(e: Endpoint<T>)
    requires Accounted(e)
    ensures Conserved(e)
  {
    var l := e.log;
    var idx := DeliveredIsSubsequence(l.accepted[..|l.settled|], l.settled);
    AppendSubsequence(idx, Concat(l.uploads), l.accepted[..|l.settled|], e.batch.buf + e.queue);
    assert l.accepted == l.accepted[..|l.settled|] + l.accepted[|l.settled|..];
    PlacesAgree(e);
  }

  lemma PlacesAgree<T>(e: Endpoint<T>)
    requires Placed(e)
    ensures forall i :: |e.log.settled| <= i < |e.log.accepted| ==>
              var k := i - |e.log.settled|;
              (e.batch.buf + e.queue)[k] == e.log.accepted[i]
  {
  }

  /** Conservation over every run of producers and reporter, and per endpoint. */
  lemma NothingLost<R, S>(batchSize: int, events: seq<Event<R, S>>)
    requires Legal(NewReporter(batchSize), events)
    ensures var p := Exec(NewReporter(batchSize), events);
            Conserved(p.probe) && Conserved(p.snmp)
  {
    RunKeepsInv(NewReporter(batchSize), events);
    var p := Exec(NewReporter(batchSize), events);
    AccountConserves(p.probe);
    AccountConserves(p.snmp);
  }

  lemma {:induction false} FatesAddUp<T>(vals: seq<T>, fates: seq<Fate>)
    requires |vals| == |fates|
    ensures multiset(vals) == multiset(With(vals, fates, Evicted)) + multiset(Delivered(vals, fates))
  {
    if vals != [] {
      var n := |vals| - 1;
      var (front, fates', v) := (vals[..n], fates[..n], multiset{vals[n]});
      FatesAddUp(front, fates');
      assert vals == front + [vals[n]];
      var (evicted, delivered) := (With(front, fates', Evicted), Delivered(front, fates'));
      if fates[n].Evicted? {
        BagGains(evicted, vals[n]);
        assert delivered + [] == delivered;
        SwapLast(multiset(evicted), multiset(delivered), v);
      } else {
        BagGains(delivered, vals[n]);
        assert evicted + [] == evicted;
        Regroup(multiset(evicted), multiset(delivered), v);
      }
    }
  }

  lemma BagOfRest<T>(accepted: seq<T>, n: nat, buf: seq<T>, queue: seq<T>)
    requires Rest(accepted, n, buf, queue)
    ensures multiset(accepted) == multiset(accepted[..n]) + (multiset(buf) + multiset(queue))
  {
    assert accepted == accepted[..n] + (buf + queue);
  }

  lemma RegroupAll<T>(r: multiset<T>, e: multiset<T>, u: multiset<T>, b: multiset<T>, q: multiset<T>)
    ensures r + ((e + u) + (b + q)) == r + e + u + b + q
  {
  }

  /** Where the results offered to an endpoint are: refused, evicted, uploaded, buffered or queued. */
  function Places<T>(e: Endpoint<T>): multiset<T>
    requires |e.log.settled| <= |e.log.accepted|
  {
    multiset(e.log.refused)
    + multiset(With(e.log.accepted[..|e.log.settled|], e.log.settled, Evicted))
    + multiset(Concat(e.log.uploads)) + multiset(e.batch.buf) + multiset(e.queue)
  }

  lemma AccountAddsUp<T>(e: Endpoint<T>)
    requires Accounted(e)
    ensures multiset(e.log.offered) == Places(e)
  {
    var l := e.log;
    var vals := l.accepted[..|l.settled|];
    FatesAddUp(vals, l.settled);
    BagOfRest(l.accepted, |l.settled|, e.batch.buf, e.queue);
    RegroupAll(multiset(l.refused), multiset(With(vals, l.settled, Evicted)), multiset(Concat(l.uploads)),
               multiset(e.batch.buf), multiset(e.queue));
  }

  /** The same as a sum, in every run: offered = refused + evicted + uploaded + buffered + queued. */
  lemma OfferedAddsUp<R, S>(batchSize: int, events: seq<Event<R, S>>)
    requires Legal(NewReporter(batchSize), events)
    ensures var p := Exec(NewReporter(batchSize), events);
            && |p.probe.log.settled| <= |p.probe.log.accepted| && |p.snmp.log.settled| <= |p.snmp.log.accepted|
            && multiset(p.probe.log.offered) == Places(p.probe)
            && multiset(p.snmp.log.offered) == Places(p.snmp)
  {
    RunKeepsInv(NewReporter(batchSize), events);
    var p := Exec(NewReporter(batchSize), events);
    AccountAddsUp(p.probe);
    AccountAddsUp(p.snmp);
  }

  /** How many accepted results were evicted after the last finished upload. */
  function EvictedSince(fates: seq<Fate>): (n: nat)
    ensures n <= |fates| && forall i :: |fates| - n <= i < |fates| ==> fates[i].Evicted?
    ensures n < |fates| ==> fates[|fates| - n - 1].Finished?
  {
    if fates == [] || fates[|fates| - 1].Finished? then 0 else 1 + EvictedSince(fates[..|fates| - 1])
  }

  /** The buffer is the newest max of the results taken from the queue since the last finished upload. */
  ghost predicate HoldsNewest<T>(e: Endpoint<T>) {
    var (l, b) := (e.log, e.batch);
    var (k, n) := (|l.settled| - EvictedSince(l.settled), |l.settled| + |b.buf|);
    0 <= k <= n <= |l.accepted| && b.buf == Newest(l.accepted[k..n], b.max)
  }

  lemma NewestOfRest<T>(accepted: seq<T>, n: nat, buf: seq<T>, queue: seq<T>, k: nat, max: nat)
    requires Rest(accepted, n, buf, queue) && k <= n && |buf| <= max && (k < n ==> |buf| == max)
    ensures n + |buf| <= |accepted| && buf == Newest(accepted[k..n + |buf|], max)
  {
    assert buf == accepted[n..n + |buf|] by {
      assert accepted[n..][..|buf|] == (buf + queue)[..|buf|];
    }
    var s := accepted[k..n + |buf|];
    assert |s| > max ==> s[|s| - max..] == accepted[n..n + |buf|];
  }

  lemma PlacedHoldsNewest<T>(e: Endpoint<T>)
    requires Placed(e) && |e.batch.buf| <= e.batch.max && EvictsOnlyWhenFull(e)
    ensures HoldsNewest(e)
  {
    var l := e.log;
    NewestOfRest(l.accepted, |l.settled|, e.batch.buf, e.queue, |l.settled| - EvictedSince(l.settled), e.batch.max);
  }

  /** The retry buffer refines "keep the newest", in every run, the final drain included. */
  lemma BufferIsNewest<R, S>(batchSize: int, events: seq<Event<R, S>>)
    requires Legal(NewReporter(batchSize), events)
    ensures var p := Exec(NewReporter(batchSize), events);
            HoldsNewest(p.probe) && HoldsNewest(p.snmp)
  {
    RunKeepsInv(NewReporter(batchSize), events);
    var p := Exec(NewReporter(batchSize), events);
    PlacedHoldsNewest(p.probe);
    PlacedHoldsNewest(p.snmp);
  }

  /** From one state to the next at most n results each were handed to an upload or finished in one. */
  ghost predicate SmallUploads<T>(e: Endpoint<T>, e': Endpoint<T>, n: int) {
    && e.log.attempts <= e'.log.attempts && e.log.uploads <= e'.log.uploads
    && (forall u :: |e.log.attempts| <= u < |e'.log.attempts| ==> |e'.log.attempts[u].batch| <= n)
    && (forall u :: |e.log.uploads| <= u < |e'.log.uploads| ==> |e'.log.uploads[u]| <= n)
  }

  lemma SmallUpload<T>(e: Endpoint<T>, force: bool, env: Env, n: int)
    requires |e.batch.buf| <= n
    ensures SmallUploads(e, Upload(e, force, env), n)
  {
  }

  lemma SmallReceive<T>(e: Endpoint<T>, batchSize: int, env: Env)
    requires BatchInv(e, batchSize, Looping, 0) && batchSize >= 1 && e.batch.retryDelay == 0 && e.queue != []
    ensures SmallUploads(e, Receive(e, batchSize, env), batchSize)
  {
    assert |Take(e).batch.buf| <= |e.batch.buf| + 1;
    SmallUpload(Take(e), false, env, batchSize);
  }

  lemma SmallIdle<T>(e: Endpoint<T>, e': Endpoint<T>, n: int)
    requires e'.log.attempts == e.log.attempts && e'.log.uploads == e.log.uploads
    ensures SmallUploads(e, e', n)
  {
  }

  lemma SmallStep<R, S>(p: State<R, S>, e: Event<R, S>)
    requires BatchInv(p.probe, p.batchSize, Looping, 0) && BatchInv(p.snmp, p.batchSize, Looping, 0)
    requires p.batchSize >= 1 && p.mode.Looping? && Enabled(p, e)
    ensures p.probe.batch.retryDelay == 0 ==> SmallUploads(p.probe, Next(p, e).probe, p.batchSize)
    ensures p.snmp.batch.retryDelay == 0 ==> SmallUploads(p.snmp, Next(p, e).snmp, p.batchSize)
  {
    if e.GetProbe? {
      if p.probe.batch.retryDelay == 0 { SmallReceive(p.probe, p.batchSize, e.env); }
      SmallIdle(p.snmp, p.snmp, p.batchSize);
    } else if e.GetSNMP? {
      if p.snmp.batch.retryDelay == 0 { SmallReceive(p.snmp, p.batchSize, e.env); }
      SmallIdle(p.probe, p.probe, p.batchSize);
    } else if e.Tick? {
      if p.probe.batch.retryDelay == 0 { SmallUpload(p.probe, false, e.env1, p.batchSize); }
      if p.snmp.batch.retryDelay == 0 { SmallUpload(p.snmp, false, e.env2, p.batchSize); }
    } else {
      SmallIdle(p.probe, Next(p, e).probe, p.batchSize);
      SmallIdle(p.snmp, Next(p, e).snmp, p.batchSize);
    }
  }

  /**
   * Outside an outage batches stay small: with BatchSize >= 1, in every run of the loop, an upload
   * that starts while its endpoint has no backoff set carries at most BatchSize results, whether
   * it then finishes or fails.
   */
  lemma BatchesStaySmall<R, S>(batchSize: int, events: seq<Event<R, S>>, e: Event<R, S>)
    requires batchSize >= 1 && Legal(NewReporter(batchSize), events)
    requires var p := Exec(NewReporter(batchSize), events); p.mode.Looping? && Enabled(p, e)
    ensures var p := Exec(NewReporter(batchSize), events);
            && (p.probe.batch.retryDelay == 0 ==> SmallUploads(p.probe, Next(p, e).probe, batchSize))
            && (p.snmp.batch.retryDelay == 0 ==> SmallUploads(p.snmp, Next(p, e).snmp, batchSize))
  {
    RunKeepsInv(NewReporter(batchSize), events);
    BatchSizeIsConstant(NewReporter(batchSize), events);
    SmallStep(Exec(NewReporter(batchSize), events), e);
  }

  /** Between rounds of the loop a buffer of BatchSize or more means that the last attempt failed. */
  lemma FullBufferMeansOutage<R, S>(batchSize: int, events: seq<Event<R, S>>)
    requires batchSize >= 1 && Legal(NewReporter(batchSize), events)
    ensures var p := Exec(NewReporter(batchSize), events);
            p.mode.Looping? ==>
              && (|p.probe.batch.buf| >= batchSize ==> LastFailed(p.probe))
              && (|p.snmp.batch.buf| >= batchSize ==> LastFailed(p.snmp))
  {
    RunKeepsInv(NewReporter(batchSize), events);
    BatchSizeIsConstant(NewReporter(batchSize), events);
    DelayMeansFailed(Exec(NewReporter(batchSize), events).probe);
    DelayMeansFailed(Exec(NewReporter(batchSize), events).snmp);
  }

  lemma {:induction false} BatchSizeIsConstant<R, S>(p: State<R, S>, events: seq<Event<R, S>>)
    requires Legal(p, events)
    ensures Exec(p, events).batchSize == p.batchSize
    decreases events
  {
    if events != [] { BatchSizeIsConstant(Next(p, events[0]), events[1..]); }
  }

  /** Only what was accepted after the drain is queued; the buffer is empty or its forced last upload failed. */
  ghost predicate Stranded<T>(e: Endpoint<T>, mark: nat) {
    && mark <= |e.log.accepted| && e.queue == e.log.accepted[mark..]
    && (e.batch.buf == [] || ForcedFailed(e))
  }

  lemma DrainedIsStranded<T>(e: Endpoint<T>, mark: nat)
    requires Placed(e) && DrainedTo(e, mark)
    ensures Stranded(e, mark)
  {
    RestEmptied(e.log.accepted, |e.log.settled|, e.batch.buf, e.queue);
  }

  /**
   * Once the loop has returned, in every run, every result accepted before the final drain ended
   * has left the queue, the buffer is empty or its forced last upload failed, and the queue holds
   * exactly the results accepted since, which stay there.
   */
  lemma StrandedAfterExit<R, S>(batchSize: int, events: seq<Event<R, S>>)
    requires Legal(NewReporter(batchSize), events)
    ensures var p := Exec(NewReporter(batchSize), events);
            p.mode.Exited? ==> Stranded(p.probe, p.mode.probeMark) && Stranded(p.snmp, p.mode.snmpMark)
  {
    RunKeepsInv(NewReporter(batchSize), events);
    var p := Exec(NewReporter(batchSize), events);
    if p.mode.Exited? {
      DrainedIsStranded(p.probe, p.mode.probeMark);
      DrainedIsStranded(p.snmp, p.mode.snmpMark);
    }
  }

  /**
   * Delay and instant after an event: as before when nothing was attempted, cleared by a finished
   * upload, and after the k-th failure in a row the delay of k failures from the clock after it.
   */
  ghost predicate Rescheduled<T>(e: Endpoint<T>, e': Endpoint<T>, env: Env) {
    if |e'.log.attempts| == |e.log.attempts| then e'.batch.retryAt == e.batch.retryAt
    else if UploadDone(env.outcome) then e'.batch.retryAt == None
    else e'.batch.retryAt == Some(env.after + DelayAfter(|Streak(e'.log.attempts)|))
  }

  lemma UploadReschedules<T>(e: Endpoint<T>, force: bool, env: Env)
    requires Logged(e)
    ensures Rescheduled(e, Upload(e, force, env), env)
  {
    AttemptLogged(e.log.attempts, Attempt(e.batch.buf, force, env.now, UploadDone(env.outcome)));
    NextDelayIsNext(|Streak(e.log.attempts)|);
  }

  /**
   * What the end of the drain does: everything accepted and not settled yet is in the buffer, and
   * exactly one attempt is made with all of it, whatever the backoff; none when there is nothing.
   */
  ghost predicate ForcedOnce<T>(e: Endpoint<T>, e': Endpoint<T>, env: Env) {
    var (buf, done) := (e.batch.buf, UploadDone(env.outcome));
    && |e.log.settled| <= |e.log.accepted| && buf == e.log.accepted[|e.log.settled|..]
    && e'.log.attempts == e.log.attempts + (if buf == [] then [] else [Attempt(buf, true, env.now, done)])
    && e'.batch.buf == (if done then [] else buf)
    && Rescheduled(e, e', env)
  }

  lemma ExitForcesOnce<T>(e: Endpoint<T>, env: Env)
    requires Placed(e) && e.queue == [] && Logged(e)
    ensures ForcedOnce(e, Upload(e, true, env), env)
  {
    UploadReschedules(e, true, env);
    assert e.batch.buf + e.queue == e.batch.buf;
  }

  /** In every run, when the drain ends each endpoint gets one forced upload of all that is left. */
  lemma DrainForcesUpload<R, S>(batchSize: int, events: seq<Event<R, S>>, env1: Env, env2: Env)
    requires Legal(NewReporter(batchSize), events)
    requires Enabled(Exec(NewReporter(batchSize), events), Exit(env1, env2))
    ensures var p := Exec(NewReporter(batchSize), events);
            var p' := Next(p, Exit(env1, env2));
            ForcedOnce(p.probe, p'.probe, env1) && ForcedOnce(p.snmp, p'.snmp, env2)
  {
    RunKeepsInv(NewReporter(batchSize), events);
    ExitForcesOnce(Exec(NewReporter(batchSize), events).probe, env1);
    ExitForcesOnce(Exec(NewReporter(batchSize), events).snmp, env2);
  }

  /**
   * What a tick does to an endpoint: outside the backoff window a non-empty buffer is attempted
   * whole, and nothing else is. What is still buffered afterwards is either exactly the batch of
   * the last attempt, which has just failed, or was not attempted because its instant to retry is
   * later than the clock of the tick.
   */
  ghost predicate AfterTick<T>(e: Endpoint<T>, e': Endpoint<T>, env: Env) {
    var (buf, done) := (e.batch.buf, UploadDone(env.outcome));
    var waits := e.batch.retryAt.Some? && e.batch.retryAt.value > env.now;
    && e'.log.attempts == e.log.attempts + (if buf == [] || waits then [] else [Attempt(buf, false, env.now, done)])
    && (e'.batch.buf == [] || (waits && e'.batch == e.batch && LastFailed(e))
        || (LastFailed(e') && e'.log.attempts[|e'.log.attempts| - 1].batch == e'.batch.buf))
    && Rescheduled(e, e', env)
  }

  lemma TickOn<T>(e: Endpoint<T>, env: Env)
    requires BackoffOk(e.batch) && Logged(e)
    ensures AfterTick(e, Upload(e, false, env), env)
  {
    UploadReschedules(e, false, env);
    DelayMeansFailed(e);
  }

  /** In every run, what a tick uploads and what it leaves. */
  lemma TickUploadsOrWaits<R, S>(batchSize: int, events: seq<Event<R, S>>, env1: Env, env2: Env)
    requires Legal(NewReporter(batchSize), events)
    requires Enabled(Exec(NewReporter(batchSize), events), Tick(env1, env2))
    ensures var p := Exec(NewReporter(batchSize), events);
            var p' := Next(p, Tick(env1, env2));
            AfterTick(p.probe, p'.probe, env1) && AfterTick(p.snmp, p'.snmp, env2)
  {
    RunKeepsInv(NewReporter(batchSize), events);
    TickOn(Exec(NewReporter(batchSize), events).probe, env1);
    TickOn(Exec(NewReporter(batchSize), events).snmp, env2);
  }

  /**
   * What a receive does to an endpoint. The oldest queued result joins the buffer, of which the
   * newest max are kept. In the loop, when these are at least batchSize and the instant to retry is
   * not later than the clock, exactly one unforced attempt is made with all of them; otherwise, and
   * always in the drain, none.
   */
  ghost predicate AfterReceive<T>(e: Endpoint<T>, e': Endpoint<T>, looping: bool, batchSize: int, env: Env)
    requires e.queue != [] && 1 <= e.batch.max
  {
    var n := if |e.batch.buf| + 1 < e.batch.max then |e.batch.buf| + 1 else e.batch.max;
    var newest := (e.batch.buf + [e.queue[0]])[|e.batch.buf| + 1 - n..];
    var done := UploadDone(env.outcome);
    var sends := looping && n >= batchSize && (e.batch.retryAt.None? || e.batch.retryAt.value <= env.now);
    && e'.queue == e.queue[1..]
    && e'.log.attempts == e.log.attempts + (if sends then [Attempt(newest, false, env.now, done)] else [])
    && e'.batch.buf == (if sends && done then [] else newest)
    && Rescheduled(e, e', env)
  }

  lemma TakeKeepsNewest<T>(e: Endpoint<T>)
    requires e.queue != [] && 1 <= e.batch.max && |e.batch.buf| <= e.batch.max
    ensures var n := if |e.batch.buf| + 1 < e.batch.max then |e.batch.buf| + 1 else e.batch.max;
            var e' := Take(e);
            && e'.batch == e.batch.(buf := (e.batch.buf + [e.queue[0]])[|e.batch.buf| + 1 - n..])
            && |e'.batch.buf| == n && e'.queue == e.queue[1..]
            && e'.log.attempts == e.log.attempts && e'.log.uploads == e.log.uploads
  {
  }

  lemma UploadDoes<T>(e: Endpoint<T>, env: Env)
    requires e.batch.buf != []
    ensures var (e', done) := (Upload(e, false, env), UploadDone(env.outcome));
            var sends := e.batch.retryAt.None? || e.batch.retryAt.value <= env.now;
            && e'.queue == e.queue
            && e'.log.attempts == e.log.attempts + (if sends then [Attempt(e.batch.buf, false, env.now, done)] else [])
            && e'.batch.buf == (if sends && done then [] else e.batch.buf)
  {
  }

  lemma ReceiveIsRight<T>(e: Endpoint<T>, batchSize: int, env: Env)
    requires e.queue != [] && 1 <= e.batch.max && |e.batch.buf| <= e.batch.max && Logged(e)
    ensures AfterReceive(e, Receive(e, batchSize, env), true, batchSize, env)
  {
    TakeKeepsNewest(e);
    UploadDoes(Take(e), env);
    UploadReschedules(Take(e), false, env);
  }

  lemma DrainReceiveIsRight<T>(e: Endpoint<T>, batchSize: int, env: Env)
    requires e.queue != [] && 1 <= e.batch.max && |e.batch.buf| <= e.batch.max
    ensures AfterReceive(e, Take(e), false, batchSize, env)
  {
    TakeKeepsNewest(e);
  }

  /** The endpoint can hold a result and its history is kept. */
  ghost predicate Ready<T>(e: Endpoint<T>) {
    1 <= e.batch.max && |e.batch.buf| <= e.batch.max && Logged(e)
  }

  /** A receive on one endpoint leaves the other alone. */
  ghost predicate ReceiveStep<R, S>(p: State<R, S>, e: Event<R, S>, p': State<R, S>)
    requires Ready(p.probe) && Ready(p.snmp) && Enabled(p, e) && (e.GetProbe? || e.GetSNMP?)
  {
    if e.GetProbe?
    then AfterReceive(p.probe, p'.probe, p.mode.Looping?, p.batchSize, e.env) && p'.snmp == p.snmp
    else AfterReceive(p.snmp, p'.snmp, p.mode.Looping?, p.batchSize, e.env) && p'.probe == p.probe
  }

  lemma ReceiveStepIsRight<R, S>(p: State<R, S>, e: Event<R, S>)
    requires Ready(p.probe) && Ready(p.snmp) && Enabled(p, e) && (e.GetProbe? || e.GetSNMP?)
    ensures ReceiveStep(p, e, Next(p, e))
  {
    if e.GetProbe? {
      ReceiveIsRight(p.probe, p.batchSize, e.env);
      DrainReceiveIsRight(p.probe, p.batchSize, e.env);
    } else {
      ReceiveIsRight(p.snmp, p.batchSize, e.env);
      DrainReceiveIsRight(p.snmp, p.batchSize, e.env);
    }
  }

  lemma InvIsReady<T>(e: Endpoint<T>, batchSize: int, mode: Mode, mark: nat)
    requires EndpointInv(e, batchSize, mode, mark)
    ensures Ready(e)
  {
  }

  /**
   * In every run: what a receive uploads, in the loop and in the drain, on the endpoint it serves;
   * the other endpoint is left alone.
   */
  lemma ReceiveUploadsIff<R, S>(batchSize: int, events: seq<Event<R, S>>, e: Event<R, S>)
    requires Legal(NewReporter(batchSize), events) && (e.GetProbe? || e.GetSNMP?)
    requires Enabled(Exec(NewReporter(batchSize), events), e)
    ensures var p := Exec(NewReporter(batchSize), events);
            && p.batchSize == batchSize && Ready(p.probe) && Ready(p.snmp)
            && ReceiveStep(p, e, Next(p, e))
  {
    RunKeepsInv(NewReporter(batchSize), events);
    BatchSizeIsConstant(NewReporter(batchSize), events);
    var p := Exec(NewReporter(batchSize), events);
    InvIsReady(p.probe, p.batchSize, p.mode, ProbeMark(p.mode));
    InvIsReady(p.snmp, p.batchSize, p.mode, SNMPMark(p.mode));
    ReceiveStepIsRight(p, e);
  }

  // ------------------------------------------------------------------ after an outage

  /** An upload that the server takes, with the clock not before the endpoint's instant to retry. */
  function Healthy<T>(e: Endpoint<T>): Env {
    var now := if e.batch.retryAt.Some? then e.batch.retryAt.value else 0;
    Env(now, Status(200), now)
  }

  ghost predicate Clear<T>(e: Endpoint<T>) {
    e.batch.buf == [] && e.batch.max >= 1
  }

  /** From e to e' results were only taken and uploaded; none was refused or evicted. */
  ghost predicate OnlyUploads<T>(e: Endpoint<T>, e': Endpoint<T>) {
    var (l, l') := (e.log, e'.log);
    && l'.offered == l.offered && l'.refused == l.refused && l'.accepted == l.accepted
    && l.settled <= l'.settled && forall i :: |l.settled| <= i < |l'.settled| ==> l'.settled[i].Finished?
  }

  lemma TickClears<T>(e: Endpoint<T>)
    requires e.batch.max >= 1
    ensures var e' := Upload(e, false, Healthy(e));
            Clear(e') && OnlyUploads(e, e') && e'.queue == e.queue
  {
  }

  lemma ClearStays<T>(e: Endpoint<T>)
    requires Clear(e)
    ensures Upload(e, false, Healthy(e)) == e
  {
  }

  lemma ReceiveAndTick<T>(e: Endpoint<T>, batchSize: int)
    requires Clear(e) && e.queue != []
    ensures var e1 := Receive(e, batchSize, Healthy(e));
            var e2 := Upload(e1, false, Healthy(e1));
            Clear(e2) && OnlyUploads(e, e2) && e2.queue == e.queue[1..]
  {
  }

  lemma {:induction false} UploadQueued<R, S>(p: State<R, S>) returns (more: seq<Event<R, S>>)
    requires p.mode.Looping? && Clear(p.probe) && Clear(p.snmp)
    ensures Legal(p, more) && forall i :: 0 <= i < |more| ==> IsGet(more[i]) || more[i].Tick?
    ensures var p' := Exec(p, more);
            && OnlyUploads(p.probe, p'.probe) && p'.probe.queue == [] && p'.probe.batch.buf == []
            && OnlyUploads(p.snmp, p'.snmp) && p'.snmp.queue == [] && p'.snmp.batch.buf == []
    decreases |p.probe.queue| + |p.snmp.queue|
  {
    more := [];
    if p.probe.queue != [] || p.snmp.queue != [] {
      var get := if p.probe.queue != [] then GetProbe(Healthy(p.probe)) else GetSNMP(Healthy(p.snmp));
      var p1 := Next(p, get);
      var tick := Tick(Healthy(p1.probe), Healthy(p1.snmp));
      var p2 := Next(p1, tick);
      if p.probe.queue != [] {
        ReceiveAndTick(p.probe, p.batchSize);
        ClearStays(p.snmp);
      } else {
        ReceiveAndTick(p.snmp, p.batchSize);
        ClearStays(p.probe);
      }
      var rest := UploadQueued(p2);
      more := TwoBefore(p, get, tick, rest);
    }
  }

  lemma TwoBefore<R, S>(p: State<R, S>, first: Event<R, S>, second: Event<R, S>, rest: seq<Event<R, S>>)
    returns (events: seq<Event<R, S>>)
    requires Enabled(p, first) && Enabled(Next(p, first), second) && Legal(Next(Next(p, first), second), rest)
    ensures events == [first, second] + rest
    ensures Legal(p, events) && Exec(p, events) == Exec(Next(Next(p, first), second), rest)
  {
    events := [first, second] + rest;
    assert events[1..] == [second] + rest && events[1..][1..] == rest;
  }

  lemma TickAndUpload<R, S>(p: State<R, S>) returns (more: seq<Event<R, S>>)
    requires p.mode.Looping? && p.probe.batch.max >= 1 && p.snmp.batch.max >= 1
    ensures Legal(p, more) && forall i :: 0 <= i < |more| ==> IsGet(more[i]) || more[i].Tick?
    ensures var p' := Exec(p, more);
            && OnlyUploads(p.probe, p'.probe) && p'.probe.queue == [] && p'.probe.batch.buf == []
            && OnlyUploads(p.snmp, p'.snmp) && p'.snmp.queue == [] && p'.snmp.batch.buf == []
  {
    var tick := Tick(Healthy(p.probe), Healthy(p.snmp));
    TickClears(p.probe);
    TickClears(p.snmp);
    var rest := UploadQueued(Next(p, tick));
    more := [tick] + rest;
    assert more[1..] == rest;
  }

  /**
   * In every run the loop can make up for an outage: with a server that answers and the clock past
   * the instants to retry, receives and ticks alone upload everything that was queued or buffered,
   * and nothing more is refused or evicted.
   */
  lemma RecoversFromOutage<R, S>(batchSize: int, events: seq<Event<R, S>>) returns (more: seq<Event<R, S>>)
    requires Legal(NewReporter(batchSize), events) && Exec(NewReporter(batchSize), events).mode.Looping?
    ensures var p := Exec(NewReporter(batchSize), events);
            && Legal(p, more) && (forall i :: 0 <= i < |more| ==> IsGet(more[i]) || more[i].Tick?)
            && var p' := Exec(p, more);
               && OnlyUploads(p.probe, p'.probe) && p'.probe.queue == [] && p'.probe.batch.buf == []
               && OnlyUploads(p.snmp, p'.snmp) && p'.snmp.queue == [] && p'.snmp.batch.buf == []
  {
    RunKeepsInv(NewReporter(batchSize), events);
    var p := Exec(NewReporter(batchSize), events);
    InvIsReady(p.probe, p.batchSize, p.mode, ProbeMark(p.mode));
    InvIsReady(p.snmp, p.batchSize, p.mode, SNMPMark(p.mode));
    more := TickAndUpload(p);
  }

  /** From any state the reporter gets to its return without another offer. */
  lemma {:induction false} WayToExit<R, S>(p: State<R, S>) returns (more: seq<Event<R, S>>)
    ensures Legal(p, more) && Exec(p, more).mode.Exited?
    ensures forall i :: 0 <= i < |more| ==> !IsOffer(more[i])
    decreases !p.mode.Exited?, p.mode.Looping?, |p.probe.queue| + |p.snmp.queue|
  {
    more := [];
    if !p.mode.Exited? {
      var env := Env(0, NetworkError, 0);
      var e := if p.mode.Looping? then Stop else if p.probe.queue != [] then GetProbe(env)
               else if p.snmp.queue != [] then GetSNMP(env) else Exit(env, env);
      var rest := WayToExit(Next(p, e));
      more := [e] + rest;
      assert more[1..] == rest;
    }
  }

  // ------------------------------------------------------------------ backoff over whole runs

  /** In every run the delay of an endpoint after k failures in a row is min(5 * 2^(k-1), 120) seconds. */
  lemma DelayInRuns<R, S>(batchSize: int, events: seq<Event<R, S>>)
    requires Legal(NewReporter(batchSize), events)
    ensures var p := Exec(NewReporter(batchSize), events);
            && p.probe.batch.retryDelay == DelayAfter(|Streak(p.probe.log.attempts)|)
            && p.snmp.batch.retryDelay == DelayAfter(|Streak(p.snmp.log.attempts)|)
  {
    RunKeepsInv(NewReporter(batchSize), events);
  }

  predicate Forward(env: Env) { env.now <= env.after }

  /** No clock goes backwards during an upload. */
  predicate ClockForward<R, S>(e: Event<R, S>) {
    match e
    case GetProbe(env) => Forward(env)
    case GetSNMP(env) => Forward(env)
    case Tick(env1, env2) => Forward(env1) && Forward(env2)
    case _ => true
  }

  /** The failures of the streak are a delay apart, and the next attempt has to wait as long. */
  ghost predicate Timed<T>(e: Endpoint<T>) {
    var f := Streak(e.log.attempts);
    && e.batch.retryDelay == DelayAfter(|f|)
    && Spread(f)
    && (f != [] ==> e.batch.retryAt.Some? && e.batch.retryAt.value >= f[|f| - 1] + DelayAfter(|f|))
  }

  lemma UploadKeepsTimed<T>(e: Endpoint<T>, env: Env)
    requires Timed(e) && Forward(env)
    ensures Timed(Upload(e, false, env))
  {
    var f := Streak(e.log.attempts);
    if Attempts(e.batch, false, env.now) {
      AttemptLogged(e.log.attempts, Attempt(e.batch.buf, false, env.now, UploadDone(env.outcome)));
      NextDelayIsNext(|f|);
      if !UploadDone(env.outcome) { SpreadAppend(f, env.now); }
    }
  }

  lemma NextKeepsTimed<R, S>(p: State<R, S>, e: Event<R, S>)
    requires Enabled(p, e) && ClockForward(e) && Timed(p.probe) && Timed(p.snmp) && !e.Exit?
    ensures Timed(Next(p, e).probe) && Timed(Next(p, e).snmp)
  {
    if e.GetProbe? {
      UploadKeepsTimed(Take(p.probe), e.env);
    } else if e.GetSNMP? {
      UploadKeepsTimed(Take(p.snmp), e.env);
    } else if e.Tick? {
      UploadKeepsTimed(p.probe, e.env1);
      UploadKeepsTimed(p.snmp, e.env2);
    }
  }

  lemma {:induction false} RunKeepsTimed<R, S>(p: State<R, S>, events: seq<Event<R, S>>)
    requires Legal(p, events) && Timed(p.probe) && Timed(p.snmp)
    requires forall i :: 0 <= i < |events| ==> ClockForward(events[i])
    requires !Exec(p, events).mode.Exited?
    ensures Timed(Exec(p, events).probe) && Timed(Exec(p, events).snmp)
    decreases events
  {
    if events != [] {
      if events[0].Exit? {
        ExitIsFinal(Next(p, events[0]), events[1..]);
      } else {
        NextKeepsTimed(p, events[0]);
        RunKeepsTimed(Next(p, events[0]), events[1..]);
      }
    }
  }

  /**
   * In every run up to the end of the drain, with a clock that does not go backwards, any k >= 6
   * failures in a row of an endpoint span at least 155 + 120 (k - 6) seconds.
   */
  lemma BackoffInRuns<R, S>(batchSize: int, events: seq<Event<R, S>>, i: nat, k: nat)
    requires Legal(NewReporter(batchSize), events) && !Exec(NewReporter(batchSize), events).mode.Exited?
    requires forall j :: 0 <= j < |events| ==> ClockForward(events[j])
    requires k >= 6
    ensures var p := Exec(NewReporter(batchSize), events);
            var (f, g) := (Streak(p.probe.log.attempts), Streak(p.snmp.log.attempts));
            && (i + k <= |f| ==> f[i + k - 1] - f[i] >= (155 + 120 * (k - 6)) * SECOND)
            && (i + k <= |g| ==> g[i + k - 1] - g[i] >= (155 + 120 * (k - 6)) * SECOND)
  {
    RunKeepsTimed(NewReporter(batchSize), events);
    var p := Exec(NewReporter(batchSize), events);
    var (f, g) := (Streak(p.probe.log.attempts), Streak(p.snmp.log.attempts));
    if i + k <= |f| { SpreadSpans(f, i, k); }
    if i + k <= |g| { SpreadSpans(g, i, k); }
  }

  // ------------------------------------------------------------------ losses need an overflow

  /** A refusal or an eviction means that more than the capacity was offered in all. */
  ghost predicate LossIsOverflow<T>(e: Endpoint<T>, max: nat) {
    && e.cap == max && e.batch.max == max
    && (e.log.refused != [] || Evicted in e.log.settled ==> |e.log.offered| > max)
  }

  lemma OfferedCount<T>(e: Endpoint<T>)
    requires Accounted(e)
    ensures |e.log.offered| == |e.log.refused| + |e.log.accepted|
  {
    assert |multiset(e.log.offered)| == |multiset(e.log.refused)| + |multiset(e.log.accepted)|;
  }

  lemma OfferLoss<T>(e: Endpoint<T>, v: T, max: nat)
    requires Accounted(e) && LossIsOverflow(e, max)
    ensures LossIsOverflow(Offer(e, v), max)
  {
    OfferedCount(e);
  }

  lemma TakeLoss<T>(e: Endpoint<T>, max: nat)
    requires Accounted(e) && LossIsOverflow(e, max) && e.queue != []
    ensures LossIsOverflow(Take(e), max)
  {
    OfferedCount(e);
  }

  lemma UploadLoss<T>(e: Endpoint<T>, force: bool, env: Env, max: nat)
    requires LossIsOverflow(e, max)
    ensures LossIsOverflow(Upload(e, force, env), max)
  {
  }

  lemma NextLoss<R, S>(p: State<R, S>, e: Event<R, S>, max: nat)
    requires Inv(p) && Enabled(p, e) && LossIsOverflow(p.probe, max) && LossIsOverflow(p.snmp, max)
    ensures LossIsOverflow(Next(p, e).probe, max) && LossIsOverflow(Next(p, e).snmp, max)
  {
    match e
    case OfferProbe(r) => OfferLoss(p.probe, r, max);
    case OfferSNMP(s) => OfferLoss(p.snmp, s, max);
    case GetProbe(env) => TakeLoss(p.probe, max); UploadLoss(Take(p.probe), false, env, max);
    case GetSNMP(env) => TakeLoss(p.snmp, max); UploadLoss(Take(p.snmp), false, env, max);
    case Tick(env1, env2) => UploadLoss(p.probe, false, env1, max); UploadLoss(p.snmp, false, env2, max);
    case Stop =>
    case Exit(env1, env2) => UploadLoss(p.probe, true, env1, max); UploadLoss(p.snmp, true, env2, max);
  }

  lemma {:induction false} RunLoss<R, S>(p: State<R, S>, events: seq<Event<R, S>>, max: nat)
    requires Inv(p) && Legal(p, events) && LossIsOverflow(p.probe, max) && LossIsOverflow(p.snmp, max)
    ensures LossIsOverflow(Exec(p, events).probe, max) && LossIsOverflow(Exec(p, events).snmp, max)
    decreases events
  {
    if events != [] {
      NextKeepsInv(p, events[0]);
      NextLoss(p, events[0], max);
      RunLoss(Next(p, events[0]), events[1..], max);
    }
  }

  /**
   * As long as no more than max(10 * BatchSize, 1000) results have been offered to an endpoint,
   * none has been refused and none evicted, whatever the uploads did.
   */
  lemma NoLossBelowCapacity<R, S>(batchSize: int, events: seq<Event<R, S>>)
    requires Legal(NewReporter(batchSize), events)
    ensures var p := Exec(NewReporter(batchSize), events);
            && (|p.probe.log.offered| <= MaxBuf(batchSize) ==>
                  p.probe.log.refused == [] && Evicted !in p.probe.log.settled)
            && (|p.snmp.log.offered| <= MaxBuf(batchSize) ==>
                  p.snmp.log.refused == [] && Evicted !in p.snmp.log.settled)
  {
    RunLoss(NewReporter(batchSize), events, MaxBuf(batchSize));
  }

  // ------------------------------------------------------------------ the drain ends

  function Count<R, S>(events: seq<Event<R, S>>, p: Event<R, S> -> bool): nat {
    if events == [] then 0 else (if p(events[0]) then 1 else 0) + Count(events[1..], p)
  }

  predicate IsOffer<R, S>(e: Event<R, S>) { e.OfferProbe? || e.OfferSNMP? }

  predicate IsGet<R, S>(e: Event<R, S>) { e.GetProbe? || e.GetSNMP? }

  /**
   * The drain takes no more results than were queued when it began plus those still offered, so
   * with finitely many offers it ends; and it never gets stuck: it can take a result or end.
   */
  lemma {:induction false} DrainTerminates<R, S>(p: State<R, S>, events: seq<Event<R, S>>)
    requires Legal(p, events) && p.mode.Draining? && Exec(p, events).mode.Draining?
    ensures Count(events, IsGet) <= |p.probe.queue| + |p.snmp.queue| + Count(events, IsOffer)
    ensures forall env: Env ::
              var q := Exec(p, events);
              Enabled(q, GetProbe(env)) || Enabled(q, GetSNMP(env)) || Enabled(q, Exit(env, env))
    decreases events
  {
    if events != [] {
      var p' := Next(p, events[0]);
      if p'.mode.Exited? {
        ExitIsFinal(p', events[1..]);
      } else {
        DrainTerminates(p', events[1..]);
      }
    }
  }

  lemma {:induction false} ExitIsFinal<R, S>(p: State<R, S>, events: seq<Event<R, S>>)
    requires Legal(p, events) && p.mode.Exited?
    ensures Exec(p, events).mode == p.mode
    decreases events
  {
    if events != [] { ExitIsFinal(Next(p, events[0]), events[1..]); }
  }

  // ------------------------------------------------------------------ the running reporter

  class Reporter<R, S> {
    const batchSize: int
    const cap: nat
    var queue: seq<R>
    var snmpQueue: seq<S>
    const results: PendingBatch<R>
    const snmp: PendingBatch<S>
    ghost var probeLog: Log<R>
    ghost var snmpLog: Log<S>
    ghost var mode: Mode

    constructor (batchSize: int)
      ensures Valid() && fresh(results) && fresh(snmp) && View() == NewReporter(batchSize)
    {
      var c := batchSize * 10;
      c := Wrap64(c);
      if c < 1000 {
        c := 1000;
      }
      this.batchSize, cap, queue, snmpQueue := batchSize, c, [], [];
      var r := new PendingBatch<R>(c);
      var s := new PendingBatch<S>(c);
      results, snmp := r, s;
      probeLog, snmpLog, mode := NewLog(), NewLog(), Looping;
    }

    ghost predicate Valid() {
      results as object != snmp
    }

    ghost function View(): State<R, S>
      reads this, results, snmp
    {
      State(batchSize, Endpoint(cap, queue, results.View(), probeLog),
            Endpoint(cap, snmpQueue, snmp.View(), snmpLog), mode)
    }

    method Enqueue(result: R)
      modifies `queue, `probeLog
      ensures View() == Next(old(View()), OfferProbe(result))
    {
      probeLog := probeLog.(offered := probeLog.offered + [result]);
      if |queue| < cap {
        queue := queue + [result];
        probeLog := probeLog.(accepted := probeLog.accepted + [result]);
      } else {
        probeLog := probeLog.(refused := probeLog.refused + [result]);
      }
    }

    method EnqueueSNMP(result: S)
      modifies `snmpQueue, `snmpLog
      ensures View() == Next(old(View()), OfferSNMP(result))
    {
      snmpLog := snmpLog.(offered := snmpLog.offered + [result]);
      if |snmpQueue| < cap {
        snmpQueue := snmpQueue + [result];
        snmpLog := snmpLog.(accepted := snmpLog.accepted + [result]);
      } else {
        snmpLog := snmpLog.(refused := snmpLog.refused + [result]);
      }
    }

    /** Takes the oldest queued result into the buffer; the history notes an eviction. */
    method TakeProbe()
      requires Valid() && |queue| > 0
      modifies `queue, `probeLog, results
      ensures View() == old(View()).(probe := Take(old(View()).probe))
    {
      ghost var before := |results.buf|;
      var res := queue[0];
      queue := queue[1..];
      results.Add(res);
      ghost var dropped := if |results.buf| <= before then before + 1 - |results.buf| else 0;
      probeLog := probeLog.(settled := probeLog.settled + Repeat(Evicted, dropped));
    }

    method TakeSNMP()
      requires Valid() && |snmpQueue| > 0
      modifies `snmpQueue, `snmpLog, snmp
      ensures View() == old(View()).(snmp := Take(old(View()).snmp))
    {
      ghost var before := |snmp.buf|;
      var res := snmpQueue[0];
      snmpQueue := snmpQueue[1..];
      snmp.Add(res);
      ghost var dropped := if |snmp.buf| <= before then before + 1 - |snmp.buf| else 0;
      snmpLog := snmpLog.(settled := snmpLog.settled + Repeat(Evicted, dropped));
    }

    /** Flushes the probe buffer; the history notes the batch that Flush handed to the upload. */
    method FlushProbe(force: bool, env: Env)
      requires Valid()
      modifies `probeLog, results
      ensures View() == old(View()).(probe := Upload(old(View()).probe, force, env))
    {
      var sent := results.Flush(force, env.now, UploadDone(env.outcome), env.after);
      if sent.Some? {
        probeLog := Sent(probeLog, Attempt(sent.value, force, env.now, UploadDone(env.outcome)));
      }
    }

    method FlushSNMP(force: bool, env: Env)
      requires Valid()
      modifies `snmpLog, snmp
      ensures View() == old(View()).(snmp := Upload(old(View()).snmp, force, env))
    {
      var sent := snmp.Flush(force, env.now, UploadDone(env.outcome), env.after);
      if sent.Some? {
        snmpLog := Sent(snmpLog, Attempt(sent.value, force, env.now, UploadDone(env.outcome)));
      }
    }

    method OnResult(env: Env)
      requires Valid() && Enabled(View(), GetProbe(env)) && mode.Looping?
      modifies `queue, `probeLog, results
      ensures View() == Next(old(View()), GetProbe(env))
    {
      TakeProbe();
      if |results.buf| >= batchSize {
        FlushProbe(false, env);
      }
    }

    method OnSNMPResult(env: Env)
      requires Valid() && Enabled(View(), GetSNMP(env)) && mode.Looping?
      modifies `snmpQueue, `snmpLog, snmp
      ensures View() == Next(old(View()), GetSNMP(env))
    {
      TakeSNMP();
      if |snmp.buf| >= batchSize {
        FlushSNMP(false, env);
      }
    }

    /** Flushes both buffers: on a tick, or forced at the end of the drain. */
    method FlushBoth(force: bool, env1: Env, env2: Env)
      requires Valid()
      modifies `probeLog, `snmpLog, results, snmp
      ensures View() == old(View()).(probe := Upload(old(View()).probe, force, env1),
                                     snmp := Upload(old(View()).snmp, force, env2))
    {
      FlushProbe(force, env1);
      FlushSNMP(force, env2);
    }

    /** One pass of the loop, or of the drain inside it: the case its select picks. */
    method Select(event: Event<R, S>, draining: bool) returns (stillDraining: bool)
      requires Valid() && Enabled(View(), event) && (draining <==> mode.Draining?)
      modifies this, results, snmp
      ensures View() == Next(old(View()), event) && (stillDraining <==> mode.Draining?)
    {
      stillDraining := draining;
      match event {
        case OfferProbe(r) => Enqueue(r);
        case OfferSNMP(s) => EnqueueSNMP(s);
        case GetProbe(env) => if draining { TakeProbe(); } else { OnResult(env); }
        case GetSNMP(env) => if draining { TakeSNMP(); } else { OnSNMPResult(env); }
        case Tick(env1, env2) => FlushBoth(false, env1, env2);
        case Stop => stillDraining, mode := true, Draining;
        case Exit(env1, env2) =>
          ghost var marks := Exited(|probeLog.accepted|, |snmpLog.accepted|);
          FlushBoth(true, env1, env2);
          stillDraining, mode := false, marks;
      }
    }

    /**
     * The upload loop with the drain inside it, driven by the events its selects pick; the offers
     * of concurrent producers stand between them. Returns early when the script ends first.
     */
    method Run(script: seq<Event<R, S>>)
      requires Valid() && mode.Looping? && Legal(View(), script)
      modifies this, results, snmp
      ensures View() == Exec(old(View()), script)
    {
      ghost var start := View();
      var draining := false;
      ExecPrefix(start, script, 0);
      for i := 0 to |script|
        invariant Valid() && (draining <==> mode.Draining?)
        invariant Legal(start, script[..i]) && View() == Exec(start, script[..i])
        invariant Legal(View(), script[i..])
      {
        ExecPrefix(start, script, i + 1);
        draining := Select(script[i], draining);
      }
      assert script[..|script|] == script;
    }
  }

  /** Executing one more event of a legal script. */
  lemma {:induction false} ExecPrefix<R, S>(p: State<R, S>, script: seq<Event<R, S>>, i: nat)
    requires i <= |script| && Legal(p, script)
    ensures Legal(p, script[..i]) && Legal(Exec(p, script[..i]), script[i..])
    ensures i > 0 ==>
              && Legal(p, script[..i - 1]) && Enabled(Exec(p, script[..i - 1]), script[i - 1])
              && Exec(p, script[..i]) == Next(Exec(p, script[..i - 1]), script[i - 1])
    decreases script
  {
    if i > 0 {
      var (p', rest) := (Next(p, script[0]), script[1..]);
      ExecPrefix(p', rest, i - 1);
      assert script[..i][1..] == rest[..i - 1];
      assert rest[i - 1..] == script[i..];
      if i > 1 {
        assert script[..i - 1][1..] == rest[..i - 2];
      } else {
        assert script[..0] == [] && rest[..0] == [];
      }
    } else {
      assert script[..0] == [] && script[0..] == script;
    }
  }
}
