/** Matching traceroute replies to probes, and the hop loop built on it. */
module Traceroute {
  import opened Prelude
  import opened Expansion

  const MAX_HOPS := 30
  const TWO_16 := 0x1_0000

  type Byte = x: int | 0 <= x < 256

  // ------------------------------------------------------------------ TimeExceeded payloads

  /** Two bytes, most significant first: int(hi)<<8 | int(lo). */
  function Word(hi: Byte, lo: Byte): int {
    hi * 256 + lo
  }

  function Echoes(inner: seq<Byte>, id: int, sequence: int): bool
    requires |inner| >= 8
  {
    Word(inner[4], inner[5]) == id && Word(inner[6], inner[7]) == sequence
  }

  /** Whether a TimeExceeded payload embeds the echo request with this id and sequence number. */
  function MatchesEcho(data: seq<Byte>, isV4: bool, id: int, sequence: int): bool {
    if isV4 then
      if |data| < 1 then false
      else
        var ihl := data[0] % 16 * 4;
        if ihl < 20 || |data| < ihl + 8 then false else Echoes(data[ihl..], id, sequence)
    else
      if |data| < 40 + 8 then false else Echoes(data[40..], id, sequence)
  }

  predicate IsWord(n: int) { 0 <= n < TWO_16 }

  function Bytes(n: int): (b: seq<Byte>)
    requires IsWord(n)
    ensures |b| == 2 && Word(b[0], b[1]) == n
  {
    [n / 256, n % 256]
  }

  /** An IP header as the payload carries it: IHL 5 to 15 words for IPv4, 40 bytes for IPv6. */
  predicate IsHeader(header: seq<Byte>, isV4: bool) {
    if isV4 then |header| >= 20 && |header| == header[0] % 16 * 4 else |header| == 40
  }

  /** Header, then type, code and checksum, then id and sequence, then whatever follows. */
  function Embedded(header: seq<Byte>, lead: seq<Byte>, id: int, sequence: int, rest: seq<Byte>): seq<Byte>
    requires |lead| == 4 && IsWord(id) && IsWord(sequence)
  {
    header + (lead + Bytes(id) + Bytes(sequence) + rest)
  }

  /** The payload of any embedded echo matches exactly its own id and sequence number. */
  lemma EmbeddedMatchesIff(header: seq<Byte>, lead: seq<Byte>, id: int, sequence: int, rest: seq<Byte>,
                           isV4: bool, id': int, sequence': int)
    requires IsHeader(header, isV4) && |lead| == 4 && IsWord(id) && IsWord(sequence)
    ensures MatchesEcho(Embedded(header, lead, id, sequence, rest), isV4, id', sequence')
            <==> id == id' && sequence == sequence'
  {
    var data := Embedded(header, lead, id, sequence, rest);
    var inner := lead + Bytes(id) + Bytes(sequence) + rest;
    assert data[|header|..] == inner;
    assert inner[4] == Bytes(id)[0] && inner[5] == Bytes(id)[1];
    assert inner[6] == Bytes(sequence)[0] && inner[7] == Bytes(sequence)[1];
  }

  lemma BytesOfWord(hi: Byte, lo: Byte)
    ensures IsWord(Word(hi, lo)) && Bytes(Word(hi, lo)) == [hi, lo]
  {
  }

  /** Conversely, every byte string that matches is the payload of such an embedded echo. */
  lemma MatchesOnlyEmbedded(data: seq<Byte>, isV4: bool, id: int, sequence: int)
    requires MatchesEcho(data, isV4, id, sequence)
    ensures IsWord(id) && IsWord(sequence)
    ensures exists header, lead, rest ::
              IsHeader(header, isV4) && |lead| == 4 && data == Embedded(header, lead, id, sequence, rest)
  {
    var n := if isV4 then data[0] % 16 * 4 else 40;
    var (header, inner) := (data[..n], data[n..]);
    var (lead, rest) := (inner[..4], inner[8..]);
    BytesOfWord(inner[4], inner[5]);
    BytesOfWord(inner[6], inner[7]);
    assert inner == lead + [inner[4], inner[5]] + [inner[6], inner[7]] + rest;
    assert data == header + inner;
    assert inner == lead + Bytes(id) + Bytes(sequence) + rest;
    assert IsHeader(header, isV4) && data == Embedded(header, lead, id, sequence, rest);
  }

  /**
   * On bytes: after the IP header, of at least five words for IPv4 and of 40 bytes for IPv6, the
   * identifier is the fifth and sixth byte and the sequence number the seventh and eighth, high byte
   * first.
   */
  lemma MatchesOnBytes(isV4: bool, data: seq<Byte>, id: int, sequence: int)
    ensures MatchesEcho(data, isV4, id, sequence) <==>
              && |data| >= 1
              && var n := if isV4 then data[0] as int % 16 * 4 else 40;
                 && n >= 20 && |data| >= n + 8
                 && id == 256 * (data[n + 4] as int) + data[n + 5] as int
                 && sequence == 256 * (data[n + 6] as int) + data[n + 7] as int
  {
  }

  /** The IPv4 payload of the echo with identifier 0x1234 and sequence number 0x0007 matches these and no others. */
  lemma MatchesExample(id: int, sequence: int)
    ensures var header := [0x45, 0, 0, 28, 0, 1, 0, 0, 1, 1, 0, 0, 10, 0, 0, 1, 10, 0, 0, 2];
            MatchesEcho(header + [8, 0, 0xE5, 0xC4, 0x12, 0x34, 0x00, 0x07], true, id, sequence)
            <==> id == 0x1234 && sequence == 7
  {
    var header: seq<Byte> := [0x45, 0, 0, 28, 0, 1, 0, 0, 1, 1, 0, 0, 10, 0, 0, 1, 10, 0, 0, 2];
    var data := header + [8, 0, 0xE5, 0xC4, 0x12, 0x34, 0x00, 0x07];
    assert data[0] == 0x45 && |data| == 28;
    assert data[20..][4..8] == [0x12, 0x34, 0x00, 0x07];
  }

  // ------------------------------------------------------------------ identifiers

  /** The process-wide uint32 counter that hands out echo identifiers. */
  class TraceIDs {
    var counter: int

    constructor ()
      ensures counter == 0
    {
      counter := 0;
    }

    method Draw() returns (id: int)
      modifies this
      ensures counter == (old(counter) + 1) % TWO_32 && id == counter % TWO_16
    {
      counter := (counter + 1) % TWO_32;
      id := counter % TWO_16;
    }

    /** The identifiers of n runs, in the order in which they draw. */
    method DrawMany(n: nat) returns (ids: seq<int>)
      requires 0 <= counter < TWO_32
      modifies this
      ensures 0 <= counter < TWO_32 && counter == (old(counter) + n) % TWO_32
      ensures |ids| == n && forall k :: 0 <= k < n ==> ids[k] == DrawnAfter(old(counter), k)
    {
      ids := [];
      for i := 0 to n
        invariant counter == (old(counter) + i) % TWO_32
        invariant |ids| == i && forall k :: 0 <= k < i ==> ids[k] == DrawnAfter(old(counter), k)
      {
        var id := Draw();
        ids := ids + [id];
      }
    }
  }

  /** The identifier of draw k, counted from 0, when the counter starts at the given value. */
  function DrawnAfter(start: nat, k: nat): (id: int)
    ensures IsWord(id)
  {
    (start + k + 1) % TWO_32 % TWO_16
  }

  lemma SameRemainderIff(x: nat, y: nat, n: int)
    requires n > 0
    ensures x % n == y % n <==> (x - y) % n == 0
  {
    var d := x / n - y / n;
    assert x - y == d * n + (x % n - y % n);
    if x % n >= y % n {
      DivModUnique(x - y, d, x % n - y % n, n);
    } else {
      assert (d - 1) * n == d * n - n;
      DivModUnique(x - y, d - 1, x % n - y % n + n, n);
    }
  }

  /** Two draws give the same identifier exactly when they are a multiple of 65536 draws apart, also across the wrap. */
  lemma DrawsRepeatIff(start: nat, i: nat, j: nat)
    ensures DrawnAfter(start, i) == DrawnAfter(start, j) <==> (i - j) % TWO_16 == 0
  {
    var (x, y) := (start + i + 1, start + j + 1);
    ModOfMod(x, TWO_32, TWO_16);
    ModOfMod(y, TWO_32, TWO_16);
    SameRemainderIff(x, y, TWO_16);
  }

  /** The first identifier of a process is 1; 0 comes after 65535, and after the wrap of the counter. */
  lemma FirstDraws()
    ensures DrawnAfter(0, 0) == 1 && DrawnAfter(0, 0xFFFE) == 0xFFFF && DrawnAfter(0, 0xFFFF) == 0
    ensures DrawnAfter(0xFFFF_FFFF, 0) == 0
  {
  }

  lemma NearDrawsDiffer(start: nat, i: nat, j: nat)
    requires i < j < i + TWO_16
    ensures DrawnAfter(start, i) != DrawnAfter(start, j)
  {
    DrawsRepeatIff(start, i, j);
  }

  // ------------------------------------------------------------------ one hop

  /** A received ICMP message after parsing; Garbled does not parse. */
  datatype Message = Garbled | TimeExceeded(data: seq<Byte>) | Echo(id: int, sequence: int) | Other

  datatype Reply = Reply(peer: string, msg: Message, rttMs: real)

  datatype Hop = Hop(ttl: int, ip: string, rttMs: real, timeout: bool)

  /** What the environment decides about one hop: cancelled before it, sent at all, the replies before the deadline. */
  datatype HopEnv = HopEnv(cancelled: bool, sent: bool, replies: seq<Reply>)

  /** A reply to the probe of this run with this TTL. */
  predicate Accepted(r: Reply, isV4: bool, id: int, ttl: int) {
    match r.msg
    case TimeExceeded(data) => MatchesEcho(data, isV4, id, ttl)
    case Echo(i, s) => i == id && s == ttl
    case _ => false
  }

  ghost predicate FirstAccepted(replies: seq<Reply>, k: int, isV4: bool, id: int, ttl: int) {
    && 0 <= k < |replies| && Accepted(replies[k], isV4, id, ttl)
    && forall j :: 0 <= j < k ==> !Accepted(replies[j], isV4, id, ttl)
  }

  /** The hop reports the first accepted reply, or a timeout when nothing was sent or none was accepted. */
  ghost predicate HopFrom(hop: Hop, env: HopEnv, isV4: bool, id: int, ttl: int) {
    && hop.ttl == ttl
    && (if hop.timeout then
          && hop.ip == "" && hop.rttMs == 0.0
          && (env.sent ==> forall k :: 0 <= k < |env.replies| ==> !Accepted(env.replies[k], isV4, id, ttl))
        else
          env.sent && exists k ::
            FirstAccepted(env.replies, k, isV4, id, ttl)
            && hop.ip == env.replies[k].peer && hop.rttMs == env.replies[k].rttMs)
  }

  method ProbeHop(env: HopEnv, isV4: bool, ttl: int, id: int) returns (ip: string, rttMs: real, timeout: bool)
    ensures HopFrom(Hop(ttl, ip, rttMs, timeout), env, isV4, id, ttl)
  {
    if !env.sent {
      return "", 0.0, true;
    }
    for i := 0 to |env.replies|
      invariant forall j :: 0 <= j < i ==> !Accepted(env.replies[j], isV4, id, ttl)
    {
      var r := env.replies[i];
      match r.msg {
        case TimeExceeded(data) =>
          if MatchesEcho(data, isV4, id, ttl) {
            assert FirstAccepted(env.replies, i, isV4, id, ttl);
            return r.peer, r.rttMs, false;
          }
        case Echo(i', s) =>
          if i' == id && s == ttl {
            assert FirstAccepted(env.replies, i, isV4, id, ttl);
            return r.peer, r.rttMs, false;
          }
        case Garbled =>
        case Other =>
      }
    }
    return "", 0.0, true;
  }

  // ------------------------------------------------------------------ the hop loop

  /**
   * TTLs are recorded from 1 without gaps, each hop as its replies say; the loop ends early only at
   * the destination or on cancellation; success, reached and latency agree and speak of the last hop.
   */
  ghost predicate HopsRight(hops: seq<Hop>, reached: bool, success: bool, latencyMs: Option<real>,
                            dst: string, isV4: bool, id: int, envs: seq<HopEnv>) {
    && |hops| <= 30 == |envs|
    && (forall k :: 0 <= k < |hops| ==> HopFrom(hops[k], envs[k], isV4, id, k + 1) && !envs[k].cancelled)
    && (reached <==> hops != [] && !hops[|hops| - 1].timeout && hops[|hops| - 1].ip == dst)
    && (forall k :: 0 <= k < |hops| - 1 ==> hops[k].timeout || hops[k].ip != dst)
    && success == reached
    && latencyMs == (if reached then Some(hops[|hops| - 1].rttMs) else None)
    && (!reached && |hops| < 30 ==> envs[|hops|].cancelled)
  }

  /** The hop loop of one traceroute. envs[k] is what happens at TTL k + 1. */
  method TraceHops(dst: string, isV4: bool, id: int, envs: seq<HopEnv>)
    returns (hops: seq<Hop>, reached: bool, success: bool, latencyMs: Option<real>)
    requires |envs| == MAX_HOPS
    ensures HopsRight(hops, reached, success, latencyMs, dst, isV4, id, envs)
  {
    hops, reached, success, latencyMs := [], false, false, None;
    for ttl := 1 to MAX_HOPS + 1
      invariant |hops| == ttl - 1 && !reached && !success && latencyMs == None
      invariant forall k :: 0 <= k < |hops| ==>
        && HopFrom(hops[k], envs[k], isV4, id, k + 1) && !envs[k].cancelled
        && (hops[k].timeout || hops[k].ip != dst)
    {
      if envs[ttl - 1].cancelled {
        return;
      }
      var ip, rttMs, timeout := ProbeHop(envs[ttl - 1], isV4, ttl, id);
      hops := hops + [Hop(ttl, ip, rttMs, timeout)];
      if !timeout && ip == dst {
        reached, success, latencyMs := true, true, Some(rttMs);
        return;
      }
    }
  }

  /** A reply to one probe: an expiry that embeds the probe, or an echo with its id and sequence number. */
  ghost predicate ReplyTo(r: Reply, isV4: bool, id: int, ttl: int) {
    match r.msg
    case TimeExceeded(data) =>
      IsWord(id) && IsWord(ttl) && exists header, lead, rest ::
        IsHeader(header, isV4) && |lead| == 4 && data == Embedded(header, lead, id, ttl, rest)
    case Echo(i, s) => i == id && s == ttl
    case _ => false
  }

  lemma AcceptedIffReplyTo(r: Reply, isV4: bool, id: int, ttl: int)
    ensures Accepted(r, isV4, id, ttl) <==> ReplyTo(r, isV4, id, ttl)
  {
    if r.msg.TimeExceeded? {
      if Accepted(r, isV4, id, ttl) { MatchesOnlyEmbedded(r.msg.data, isV4, id, ttl); }
      if ReplyTo(r, isV4, id, ttl) {
        var header, lead, rest :|
          IsHeader(header, isV4) && |lead| == 4 && r.msg.data == Embedded(header, lead, id, ttl, rest);
        EmbeddedMatchesIff(header, lead, id, ttl, rest, isV4, id, ttl);
      }
    }
  }

  /**
   * Two runs that drew their identifiers within 65536 draws of each other never accept each
   * other's replies, and no hop of a run accepts the reply to another hop.
   */
  lemma RepliesStayApart(start: nat, i: nat, j: nat, r: Reply, isV4: bool, ttl: int, ttl': int)
    requires i <= j < i + TWO_16
    requires Accepted(r, isV4, DrawnAfter(start, i), ttl) && Accepted(r, isV4, DrawnAfter(start, j), ttl')
    ensures i == j && ttl == ttl'
  {
    if i < j { NearDrawsDiffer(start, i, j); }
  }

  // ------------------------------------------------------------------ the targets of a task

  /** How many of the first slots were granted in a row; a refusal means the context was cancelled. */
  function Granted(slots: seq<bool>): nat {
    if slots == [] || !slots[0] then 0 else 1 + Granted(slots[1..])
  }

  lemma {:induction false} GrantedPrefix(slots: seq<bool>, n: nat)
    requires n <= |slots| && forall k :: 0 <= k < n ==> slots[k]
    ensures Granted(slots) >= n
    ensures Granted(slots) <= |slots|
    ensures n < |slots| && !slots[n] ==> Granted(slots) == n
  {
    if slots != [] {
      GrantedPrefix(slots[1..], if n > 0 then n - 1 else 0);
    }
  }

  /**
   * What one traceroute meets: how many identifiers other runs draw before it does, whether it gets
   * an address and a socket, and its hops.
   */
  datatype TraceEnv = TraceEnv(others: nat, ready: bool, dst: string, isV4: bool, hops: seq<HopEnv>)

  /** id is None when the run ended before it drew one. */
  datatype Trace = Trace(
    job: Job, id: Option<int>, hops: seq<Hop>, reached: bool, success: bool, latencyMs: Option<real>)

  ghost predicate RightTrace(t: Trace, job: Job, env: TraceEnv, id: int) {
    && t.job == job
    && if env.ready
       then t.id == Some(id) && HopsRight(t.hops, t.reached, t.success, t.latencyMs, env.dst, env.isV4, id, env.hops)
       else t == Trace(job, None, [], false, false, None)
  }

  /** How many identifiers are drawn, by anyone, from the start until before trace k comes to draw. */
  function DrawsBefore(envs: seq<TraceEnv>, k: nat): nat
    requires k <= |envs|
  {
    if k == 0 then 0
    else DrawsBefore(envs, k - 1) + envs[k - 1].others + (if envs[k - 1].ready then 1 else 0)
  }

  /** The number of trace k's own draw. */
  function DrawOf(envs: seq<TraceEnv>, k: nat): nat
    requires k < |envs|
  {
    DrawsBefore(envs, k) + envs[k].others
  }

  /** The counter after n draws. */
  function CounterAt(start: nat, n: nat): nat {
    (start + n) % TWO_32
  }

  lemma CounterOn(start: nat, m: nat, n: nat)
    ensures CounterAt(CounterAt(start, m), n) == CounterAt(start, m + n)
  {
    var (q, x) := ((start + m) / TWO_32, (start + m) % TWO_32);
    assert start + (m + n) == q * TWO_32 + (x + n);
    MultipleDropsOut(x + n, q, TWO_32);
  }

  lemma DrawnOn(start: nat, m: nat, n: nat)
    ensures DrawnAfter(CounterAt(start, m), n) == DrawnAfter(start, m + n)
  {
    CounterOn(start, m, n + 1);
  }

  /** One traceroute, with the draws of other runs that fall before its own; n draws have gone before. */
  method TraceOne(ids: TraceIDs, job: Job, env: TraceEnv, ghost start: nat, ghost n: nat) returns (t: Trace)
    requires ids.counter == CounterAt(start, n) && |env.hops| == MAX_HOPS
    modifies ids
    ensures ids.counter == CounterAt(start, n + env.others + (if env.ready then 1 else 0))
    ensures RightTrace(t, job, env, DrawnAfter(start, n + env.others))
  {
    DrawnOn(start, n, env.others);
    CounterOn(start, n, env.others);
    CounterOn(start, n + env.others, 1);
    var _ := ids.DrawMany(env.others);
    if !env.ready {
      return Trace(job, None, [], false, false, None);
    }
    var id := ids.Draw();
    var hops, reached, success, latencyMs := TraceHops(env.dst, env.isV4, id, env.hops);
    t := Trace(job, Some(id), hops, reached, success, latencyMs);
  }

  /** Trace k, when the counter starts at the given value. */
  ghost predicate TraceOk(results: seq<Trace>, jobs: seq<Job>, envs: seq<TraceEnv>, start: nat, k: nat) {
    && k < |results| && k < |jobs| && k < |envs|
    && RightTrace(results[k], jobs[k], envs[k], DrawnAfter(start, DrawOf(envs, k)))
  }

  ghost predicate RightTraces(results: seq<Trace>, jobs: seq<Job>, envs: seq<TraceEnv>, start: nat) {
    forall k :: 0 <= k < |results| ==> TraceOk(results, jobs, envs, start, k)
  }

  lemma OneMoreTrace(results: seq<Trace>, jobs: seq<Job>, envs: seq<TraceEnv>, start: nat, t: Trace)
    requires RightTraces(results, jobs, envs, start) && |results| < |jobs| == |envs|
    requires var k := |results|; RightTrace(t, jobs[k], envs[k], DrawnAfter(start, DrawOf(envs, k)))
    ensures RightTraces(results + [t], jobs, envs, start)
  {
    forall k | 0 <= k < |results + [t]| ensures TraceOk(results + [t], jobs, envs, start, k) {
      if k < |results| { assert TraceOk(results, jobs, envs, start, k); }
    }
  }

  /**
   * Targets and families are traced one after the other, each under a slot and with an identifier of
   * its own; the first refused slot ends the task with the results so far.
   */
  method RunTraceroute(ids: TraceIDs, targets: seq<string>, addressFamily: string, literal: string -> bool,
                       slots: seq<bool>, envs: seq<TraceEnv>) returns (results: seq<Trace>)
    requires |slots| == |envs| == |Expand(targets, addressFamily, literal)| && 0 <= ids.counter < TWO_32
    requires forall k :: 0 <= k < |envs| ==> |envs[k].hops| == MAX_HOPS
    modifies ids
    ensures |results| == Granted(slots)
    ensures RightTraces(results, Expand(targets, addressFamily, literal), envs, old(ids.counter))
  {
    ghost var start: nat := ids.counter;
    var jobs := ExpandJobs(targets, addressFamily, literal);
    results := [];
    for i := 0 to |jobs|
      invariant ids.counter == CounterAt(start, DrawsBefore(envs, i))
      invariant |results| == i && forall k :: 0 <= k < i ==> slots[k]
      invariant RightTraces(results, jobs, envs, start)
    {
      GrantedPrefix(slots, i);
      if !slots[i] {
        return;
      }
      var t := TraceOne(ids, jobs[i], envs[i], start, DrawsBefore(envs, i));
      OneMoreTrace(results, jobs, envs, start, t);
      results := results + [t];
    }
    GrantedPrefix(slots, |jobs|);
  }

  lemma {:induction false} DrawsAdvance(envs: seq<TraceEnv>, i: nat, j: nat)
    requires i < j <= |envs| && envs[i].ready
    ensures DrawOf(envs, i) < DrawsBefore(envs, j)
  {
    if i + 1 < j { DrawsAdvance(envs, i, j - 1); }
  }

  /**
   * Two traces of one task with fewer than 65536 draws between them never accept each other's
   * replies, whatever other tasks trace at the same time.
   */
  lemma TracesStayApart(start: nat, envs: seq<TraceEnv>, i: nat, j: nat, t: Trace, t': Trace, job: Job, job': Job,
                        r: Reply, isV4: bool, ttl: int, ttl': int)
    requires i < j < |envs| && envs[i].ready && envs[j].ready && DrawOf(envs, j) < DrawOf(envs, i) + TWO_16
    requires RightTrace(t, job, envs[i], DrawnAfter(start, DrawOf(envs, i)))
    requires RightTrace(t', job', envs[j], DrawnAfter(start, DrawOf(envs, j)))
    ensures !(Accepted(r, isV4, t.id.value, ttl) && Accepted(r, isV4, t'.id.value, ttl'))
  {
    DrawsAdvance(envs, i, j);
    if Accepted(r, isV4, t.id.value, ttl) && Accepted(r, isV4, t'.id.value, ttl') {
      RepliesStayApart(start, DrawOf(envs, i), DrawOf(envs, j), r, isV4, ttl, ttl');
    }
  }
}
