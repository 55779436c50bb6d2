# Verified model of the NMS agent core

The agent polls a server for probe tasks, runs one goroutine per task, shares one limiter among all
probes, batches the results with retry, renews its certificate and replaces its own binary on the
server's request. This project models that machinery in Dafny and proves what it keeps in every
interleaving, run and crash. `dafny verify dfyconfig.toml` checks it.

| file | models |
|---|---|
| `Tasks.dfy`, `Scheduling.dfy` | the task payload, the comparison that forces a restart, and reconciliation of the runner map |
| `SchedulerSystem.dfy` | reconciliation round by round, interleaved with every step of every runner, up to the return of `Run` |
| `Cadence.dfy` | startup stagger and the fast/slow cadence of SNMP runners |
| `Expansion.dfy`, `Pool.dfy` | target expansion, the limiter, `runJobs`, serial traceroutes and polls |
| `Batches.dfy`, `Reporting.dfy` | retry buffer and backoff; queues, upload loop, final drain |
| `Pipeline.dfy` | scheduler, runners, pool and reporter joined: every execution starts a call, every result goes to its endpoint |
| `Agent.dfy` | all of that with the main goroutine, up to the update hand-over |
| `Bags.dfy` | sums of multisets, with which results are counted |
| `Oids.dfy`, `Interfaces.dfy` | OID parsing and the join of ifTable and ifXTable |
| `Traceroute.dfy` | reply matching over raw bytes, identifiers, hop loop |
| `Directory.dfy`, `Credentials.dfy`, `Renewal.dfy` | a directory that remembers every state, crash-safe writes, enrolment, renewals, concurrent dials |
| `Updater.dfy` | download, check and installation of a new binary |

How it is built. Code that updates state is a class or a method; its contract ties the new state to a
function of the old one, and the properties are lemmas about that function. Concurrency is a
transition system: `Enabled`/`Possible` says which step can be taken, `Apply`/`Next`/`After` what it
does, `Legal` and `Exec` are runs of any length, and every theorem quantifies over all of them. A
goroutine is the position in the list of all goroutines ever started, so equal numbers mean the very
same goroutine. What the environment decides (fetch results, clocks, upload outcomes, packets,
walks, random file name suffixes) is a parameter or a non-deterministic choice. In `Reporting`
results may be offered between any two steps, also after the return; in `Pipeline` and `Agent` only
the runners offer them, one by one, as their executions return.

Where the code and its comments differ, the code is modelled:

- `post` is documented to discard on 200 and other 4xx; it discards on every status except 429 and
  5xx, so also on 204 and 302, and does as documented exactly on 200 and from 400 on
  (`Reporting.DropsAsDocumentedIff`, internal/reporter/reporter.go:195-240).
- the update channel is documented to fire at most once; `Agent.QueuedTwiceRun` is a run in which it
  is filled twice, and `Agent.QueuedTwiceIff` says when: exactly when a fetch after the receive brings
  a directive again, and never a third time. At most one update is applied, the first one queued.
- "near-atomic" enrolment (internal/cert/cert.go:124-129): that `HasCerts` never accepts an
  interrupted enrolment holds exactly when no `agent_id` file was there before.
- an upgrade is checked by digest before it is installed, but the digest is of the download, not of
  the file; the two are equal exactly when the announced size does not exceed the body or the
  preallocation failed.
- reconciling an unchanged response is idle exactly when no TaskID occurs in it with two different
  tasks; otherwise the runner of that id restarts on every poll.
- the full-inventory rule survives the wrap of the 64-bit poll counter exactly when the period
  divides 2^64.

## Model

| member | source | states |
|---|---|---|
| Tasks.SNMPParamsChanged | internal/scheduler/scheduler.go:205-226 | the field list is complete: false exactly for equal blocks, nil included |
| Tasks.TaskChanged | internal/scheduler/scheduler.go:177-199 | a runner must restart exactly when some field other than TaskID differs |
| Scheduling.Scheduler.Reconcile | internal/scheduler/scheduler.go:103-172 | a failed fetch changes nothing; a successful one, whatever order the map is walked in, has the effect of the three phases; a second directive is ignored while one is queued |
| Scheduling.Scheduler.Run | internal/scheduler/scheduler.go:76-98 | startup and tick reconciles in order, and when it returns no goroutine is left uncancelled |
| Scheduling.Wanted | internal/scheduler/scheduler.go:135-138 | the wanted map is last-wins over repeated ids |
| Scheduling.ReconciledIsLastWins | internal/scheduler/scheduler.go:135-168 | afterwards the runner map has exactly the ids of the list, each with the task of its last occurrence |
| Scheduling.ReconciledKeepsBijection | internal/scheduler/scheduler.go:125-168 | entries and uncancelled goroutines stay in bijection, same id and same task |
| Scheduling.SurvivesIff | internal/scheduler/scheduler.go:100-102 | the very same goroutine goes on if and only if both source IPs are unchanged and every occurrence of its id carries an equal task |
| Scheduling.RepeatIsIdleIff | internal/scheduler/scheduler.go:151-168 | the same response twice starts and cancels nothing if and only if no id occurs with two different tasks |
| Scheduling.SurvivesPollsIff | internal/scheduler/scheduler.go:103-168 | over any series of polls a goroutine survives if and only if its task and both IPs are constant in every successful one |
| SchedulerSystem.StepKeepsInv | internal/scheduler/scheduler.go:103-172 | every single step, of the scheduler or of any runner, keeps the whole invariant |
| SchedulerSystem.NoOrphans | internal/scheduler/scheduler.go:76-98 | in every reachable state before stopping the bijection holds and the goroutine of every entry is alive while the context is; after the return all are cancelled |
| SchedulerSystem.LeavesOnlyCancelled | internal/scheduler/scheduler.go:129-160 | in every run an entry disappears or is replaced only in a step that cancels its goroutine |
| SchedulerSystem.ReadsOneServedPair | internal/scheduler/scheduler.go:312-319 | every pair an execution reads was served whole, and an uncancelled runner has read the same pair each time, except while a changed pair is being wiped |
| SchedulerSystem.ServedIsHonest | internal/scheduler/scheduler.go:118-123 | a served pair is the initial one or that of one fetched response of the run |
| SchedulerSystem.InterleavedReconcileIsAtomic | internal/scheduler/scheduler.go:103-168 | with any runner steps in between, a reconcile has exactly the effect of the sequential one |
| SchedulerSystem.ExecutionReadsCurrentPair | internal/scheduler/scheduler.go:299-319 | in every run an execution of a probe task adds exactly the pair served at that moment to what its runner has read; one of a poll reads none |
| SchedulerSystem.RunnerLife | internal/scheduler/scheduler.go:276-291 | in every run a runner starts at most once, and its executions are the first one and one per tick taken, each begun and ended in turn |
| SchedulerSystem.RunnersCanMove | internal/scheduler/scheduler.go:267-291 | in every run, from each position a runner can take exactly the steps the code has there, and none once returned; cancelling the context reaches every runner |
| SchedulerSystem.SchedulerNeverStuck | internal/scheduler/scheduler.go:76-172 | in every run the scheduler can take a step until it has returned |
| SchedulerSystem.SchedulerCanReturn | internal/scheduler/scheduler.go:83-98 | from every state of every run the scheduler can get to its return, whatever the runners do not do |
| Cadence.RunTask | internal/scheduler/scheduler.go:261-291 | an SNMP runner with an interval above one second waits TaskID % interval first, any other runner not at all; the ticker runs at the interval, 60 seconds when it is not positive; what every execution does; a runner cancelled during its offset executes nothing |
| Cadence.LifeHasOneFullPollEach | internal/scheduler/scheduler.go:298-310 | of what such a runner executes for an SNMP task with period N > 1, the first execution is a full poll and any N consecutive ones before the wrap contain exactly one |
| Cadence.OtherLives | internal/scheduler/scheduler.go:298-319 | with period N <= 1 every execution is a full poll; an SNMP task without its block does nothing, and any other task dispatches each time |
| Cadence.StaggerIsBalanced | internal/scheduler/scheduler.go:255-274 | m tasks with consecutive ids put floor or ceiling of m / interval starts into each second |
| Cadence.ExactlyOneFullPoll | internal/scheduler/scheduler.go:294-309 | the first poll is full and any N consecutive attempts before the wrap contain exactly one full poll |
| Cadence.OneFullPollAcrossWrapIff | internal/scheduler/scheduler.go:276-289 | across the wrap of the counter this goes on if and only if N divides 2^64 |
| Expansion.ExpandJobs | internal/probe/probe.go:172-181 | the nested loops build the expansion of the whole target list in order |
| Expansion.ExpandMembers | internal/probe/probe.go:225-242 | each target yields exactly the families its selector asks for; literal addresses ignore the selector |
| Expansion.ExpandDistinct | internal/probe/probe.go:213-223 | without repeated targets no (target, family) job repeats |
| Expansion.ExpandInOrder | internal/probe/probe.go:172-181 | a list is expanded target by target in order, repetitions included |
| Expansion.ExpandOne | internal/probe/probe.go:225-242 | the jobs of one target, with families and labels literally, IPv4 before IPv6 |
| Pool.LimitFor | internal/scheduler/scheduler.go:54-57 | the limit is the configured one when positive, else 20 |
| Pool.SlotsAreHolders | internal/probe/probe.go:117-138 | in every run occupied slots are those of the probes holding one, never above the limit; each acquired slot is released once or still held |
| Pool.OneSlotEach | internal/probe/probe.go:126-138 | in every run each goroutine has acquired as often as it released, or once more while it holds the slot; one that waits for a slot holds none |
| Pool.SendNeverBlocks | internal/probe/probe.go:183-196 | in every run a worker about to send finds room, and the channel is not closed yet |
| Pool.NoDeadlock | internal/probe/probe.go:126-135 | for every configured limit and in every run, an incomplete call can move when a slot is free, else some holder can move |
| Pool.RunJobsIsSequentialMap | internal/probe/probe.go:183-204 | results are a permutation of the outcomes of the jobs that got a slot; of all jobs without cancellation |
| Pool.RunJobsCoversTask | internal/probe/probe.go:163-205 | in every run, whatever each probe returns, the results are those of some jobs of the task's expansion, each job at most once, and of every job exactly once without cancellation |
| Pool.EveryCallIsRight | internal/probe/traceroute.go:46-61 | in every run each returned call is right: a fan-out as above, a serial traceroute returns a prefix of its outcomes, all of them unless cancelled, a poll reports once or was cancelled |
| Batches.PendingBatch.Add | internal/reporter/reporter.go:92-99 | appends and keeps the newest max |
| Batches.PendingBatch.Flush | internal/reporter/reporter.go:103-122 | what is sent, and buffer, delay and backoff instant afterwards |
| Batches.KeepsTheNewest | internal/reporter/reporter.go:81-99 | after any history the buffer is exactly the newest max of the values added since the last finished upload |
| Batches.DelayCountsFailures | internal/reporter/reporter.go:113-121 | after k consecutive failures the delay is min(5 * 2^(k-1), 120) seconds; zero exactly when no instant is set |
| Batches.RetryInstant | internal/reporter/reporter.go:113-121 | after any history the instant to retry is the clock after the latest failure plus the delay for the failures in a row, and none after a success |
| Batches.BackoffSpan | internal/reporter/reporter.go:101-122 | k >= 6 consecutive unforced failures span at least 155 + 120 (k - 6) seconds |
| Reporting.MaxBuf | internal/reporter/reporter.go:44-48 | max(10 * BatchSize, 1000) while the product fits 64 bits, and at least 1000 always |
| Reporting.UploadDone | internal/reporter/reporter.go:195-241 | a batch is kept exactly after a network error, 429 or 5xx |
| Reporting.DropsAsDocumentedIff | internal/reporter/reporter.go:191-241 | a status is treated as documented if and only if it is 200 or at least 400; 204 and 302 are not |
| Reporting.Reporter.Enqueue | internal/reporter/reporter.go:61-68 | accepted when the queue has room, else refused; nothing else changes |
| Reporting.Reporter.Run | internal/reporter/reporter.go:128-173 | the loop with its drain follows the event system for every legal script of events; the recorded uploads are the batches that Flush handed out; what the events do is stated by the rows below |
| Reporting.NothingLost | internal/reporter/reporter.go:61-173 | in every run each offered result is in exactly one place: refused, queued, buffered, evicted or in one finished upload; uploads, buffer and queue keep the order of acceptance |
| Reporting.OfferedAddsUp | internal/reporter/reporter.go:61-122 | in every run offered results are, as a multiset, refused + evicted + uploaded + buffered + queued |
| Reporting.BufferIsNewest | internal/reporter/reporter.go:81-99 | in every run the buffer is the newest max of the results taken since the last finished upload |
| Reporting.BatchesStaySmall | internal/reporter/reporter.go:140-154 | in every run of the loop with BatchSize >= 1, an upload that starts with no backoff set on its endpoint, finished or failed, carries at most BatchSize results |
| Reporting.FullBufferMeansOutage | internal/reporter/reporter.go:138-154 | in every run, between rounds of the loop with BatchSize >= 1, a buffer of BatchSize or more means that the last attempt in the history failed |
| Reporting.ReceiveUploadsIff | internal/reporter/reporter.go:140-150 | in every run a receive takes the oldest queued result into the buffer, the newest max kept, and makes exactly one unforced attempt, of that whole buffer, if it has reached BatchSize and no instant to retry is later than the clock; otherwise no attempt, as always in the drain; the other endpoint is untouched |
| Reporting.RecoversFromOutage | internal/reporter/reporter.go:125-154 | in every run the loop can make up for an outage: receives and ticks with a server that answers upload all that was queued or buffered, and nothing more is refused or evicted |
| Reporting.TickUploadsOrWaits | internal/reporter/reporter.go:152-154 | in every run a tick attempts the whole non-empty buffer once unless its instant to retry is later than the clock of the tick; what is buffered afterwards is the batch that has just failed, or is unchanged and waits for that instant; the next instant is exactly the clock after a failure plus the delay |
| Reporting.DelayInRuns | internal/reporter/reporter.go:103-122 | in every run an endpoint's delay after k failed attempts in a row is min(5 * 2^(k-1), 120) seconds |
| Reporting.BackoffInRuns | internal/reporter/reporter.go:101-122 | in every run up to the end of the drain, with a clock that does not go backwards, k >= 6 failed attempts in a row span at least 155 + 120 (k - 6) seconds |
| Reporting.NoLossBelowCapacity | internal/reporter/reporter.go:44-56 | while no more results than the capacity have been offered in all, none is refused or evicted |
| Reporting.DrainForcesUpload | internal/reporter/reporter.go:165-168 | in every run the end of the drain makes exactly one attempt per endpoint, forced, with every accepted result not evicted or uploaded before; none when there is none |
| Reporting.StrandedAfterExit | internal/reporter/reporter.go:156-170 | after the return the queue holds exactly what was accepted since the drain ended; each buffer is empty, or the last attempt was forced, carried exactly that buffer and failed |
| Reporting.DrainTerminates | internal/reporter/reporter.go:159-170 | the drain takes at most what was queued plus what is still offered, and can always take a result or end |
| Pool.CompleteIsFinal | internal/probe/probe.go:198-204 | a call that has returned takes no further step |
| Pool.CallsEnd | internal/probe/probe.go:183-205 | in every continuation of a run a call takes at most eight steps per job and a constant more |
| Pool.CancelledNeverWaits | internal/probe/probe.go:126-135 | in every run a cancelled call that has not returned can take a step, whatever holds the slots |
| Pipeline.EndToEnd | internal/scheduler/scheduler.go:298-323 | in every run of fan-outs, traceroutes and polls together, what runners have offered to each of the two endpoints is, as a multiset, what that endpoint refused, evicted, uploaded in finished uploads and still holds; with all calls done these are the results of all probe calls |
| Pipeline.EveryJobReportsOnce | internal/scheduler/scheduler.go:312-322 | in every run a call never offers more than one result for each (target, family) of its task; if at some state its execution is over and the runner not cancelled, then in that state and in every later one it has offered exactly one for each; a poll likewise one conclusion, of its own device, full exactly when the runner's count of executions says so |
| Pipeline.ExecutionStartsCall | internal/scheduler/scheduler.go:298-322 | in every run an execution of a fan-out kind, a traceroute or a poll with its block starts exactly one call, owned by that runner, of the right shape, for the jobs of its expansion; any other execution starts none |
| Pipeline.CallsCountExecutions | internal/scheduler/scheduler.go:298-322 | in every run a runner of such a task owns as many calls as it has executed, any other none |
| Pipeline.ChosenCanExecute | internal/scheduler/scheduler.go:298-319 | in every run a runner that has begun or taken a tick can execute, with any outcome for each of its jobs |
| Pipeline.ExecutionsEnd | internal/scheduler/scheduler.go:319-322 | from every state of every run, for every configured limit, the steps that bring executions to their end are bounded in number, and can be taken until no runner executes and every call has returned with all its results offered: neither deadlock nor livelock |
| Pipeline.CatchesUp | internal/reporter/reporter.go:125-154 | in every run of the joined system, until the reporter is told to stop, all that runners have offered, and that was not refused or evicted before, can still be uploaded while everything else stands still |
| Pipeline.CancelReachesCalls | internal/scheduler/scheduler.go:319 | a call sees a cancellation exactly when its runner or the whole context is cancelled |
| Pipeline.StopsOnlyCancelled | internal/reporter/reporter.go:156 | in every run neither Run loop stops before the context is cancelled |
| Pipeline.SchedulerView | internal/scheduler/scheduler.go:76-172 | the scheduler part of every run is a run of `SchedulerSystem`, step for step |
| Pipeline.PoolView | internal/probe/probe.go:117-205 | the probe part of every run is a run of `Pool` |
| Pipeline.ReporterView | internal/reporter/reporter.go:128-173 | the reporter part of every run is a run of `Reporting` |
| Agent.UpdateHandOver | main.go:309-344 | in every run at most one update is applied, the first queued, only after both loops returned, with all goroutines cancelled and both endpoints drained: everything accepted by then taken, each buffer empty or its forced last upload failed |
| Agent.AppliedIff | main.go:311-344 | in every run an update is applied if and only if main received one and got through its shutdown, and it is the one that was in the channel at the receive; so a signalled shutdown applies nothing |
| Agent.CancelledIff | main.go:309-318 | in every run the context is cancelled if and only if a signal came or main called stop after a receive, and only then does main leave its select |
| Agent.CanShutDown | main.go:311-344 | from every state of every run before the end of main, the graceful shutdown can be completed, and then applies exactly the update that was queued or received |
| Agent.GraceAppliesNothing | main.go:328-334 | in every run, while main waits for the loops the grace period may end the process at any moment, and nothing is applied then |
| Agent.AppliedRun | main.go:311-344 | for every update, a run that applies it |
| Agent.LineView | main.go:291-307 | the run of the agent without its main goroutine is a run of `Pipeline` |
| Agent.QueuedTwiceIff | internal/scheduler/scheduler.go:66-70 | in every run at most two updates are queued, and two if and only if a fetch that brings an update comes after the receive |
| Agent.QueuedTwiceRun | internal/scheduler/scheduler.go:110-116 | a run in which two are queued |
| Agent.AgentLosesNothing | main.go:291-345 | in every run of the whole agent, to its end, both endpoints account for every result offered, and no job of a call has more than one |
| Agent.OfferedForGood | main.go:295-345 | in every run of the agent a call whose execution was over at some point, its runner not cancelled by then, has offered exactly one result for each job in every later state, through shutdown and hand-over |
| Oids.ParseOfRendered | internal/probe/snmp.go:260-276 | the name of a cell below an entry, with or without leading dot, parses back to its column and index |
| Oids.ParseOnlyCells | internal/probe/snmp.go:263-275 | only names of that form parse: entry, column, index, separated by dots, both numbers read by Atoi |
| Oids.AtoiOfSigned | internal/probe/snmp.go:271-272 | Atoi accepts a sign and the whole 64-bit range, and nothing outside it |
| Interfaces.CollectInterfaces | internal/probe/snmp.go:216-353 | fails exactly when the ifTable walk fails, else returns the joined table: the 512 smallest indices, ascending, each row as the cells of both walks describe it |
| Interfaces.TableIsUnique | internal/probe/snmp.go:325-352 | that contract determines the result |
| Interfaces.CellsAreLast | internal/probe/snmp.go:260-278 | a cell is the last variable with its column and index, and every parsed variable counts |
| Interfaces.NamesBelong | internal/probe/snmp.go:205-208 | names below 1.3.6.1.2.1.2.2.1 and 1.3.6.1.2.1.31.1.1.1 are the cells of the two walks |
| Interfaces.DescrIsName | internal/probe/snmp.go:285-287 | in the table of any two walks, the last text of column 2 for an index without ifName is, trimmed, the name of that row, and the row is there unless the cap cut it off |
| Interfaces.IfNameIsName | internal/probe/snmp.go:308-310 | the same for an ifName that is not blank, whatever ifTable says |
| Interfaces.IfAliasIsAlias | internal/probe/snmp.go:319-320 | the same for ifAlias |
| Interfaces.PermutedWalkSameTable | internal/probe/snmp.go:280-323 | permuting walks without repeated cells leaves the table unchanged |
| Interfaces.TrimSpaceKeepsTheMiddle | internal/probe/snmp.go:239-247 | trimming takes away white space at the ends only |
| Interfaces.DecodesText | internal/probe/snmp.go:239-247 | a variable with text decodes to it without the white space at its ends, any other to the empty text |
| Interfaces.DecodesNumber | internal/probe/snmp.go:248-259 | a number decodes to the 64-bit values congruent to it, signed and unsigned, the latter to the low bits of its magnitude; any other variable to 0 |
| Traceroute.EmbeddedMatchesIff | internal/probe/traceroute.go:187-212 | any embedded echo, with any IPv4 header length or a 40-byte IPv6 header and any trailing bytes, matches exactly its own id and sequence number |
| Traceroute.MatchesOnlyEmbedded | internal/probe/traceroute.go:192-212 | only such payloads match |
| Traceroute.MatchesOnBytes | internal/probe/traceroute.go:192-212 | on any bytes: header length, minimum size, and both numbers read high byte first |
| Traceroute.MatchesExample | internal/probe/traceroute.go:187-191 | a literal IPv4 header and echo match the identifier 0x1234 and sequence number 7, and nothing else |
| Traceroute.TraceIDs.DrawMany | internal/probe/traceroute.go:107 | the identifiers of successive runs, from a 32-bit counter that wraps |
| Traceroute.FirstDraws | internal/probe/traceroute.go:107 | the first identifier of a process is 1, the 65536th is 0 |
| Traceroute.DrawsRepeatIff | internal/probe/traceroute.go:42-44 | two draws agree exactly when they are a multiple of 65536 draws apart, across the wrap too |
| Traceroute.ProbeHop | internal/probe/traceroute.go:135-185 | a hop reports the first accepted reply, else a timeout |
| Traceroute.TraceHops | internal/probe/traceroute.go:107-132 | TTLs 1..k without gap, k <= 30; reached exactly when the last hop is the destination and no earlier one is; success and latency agree; an early end means destination or cancellation |
| Traceroute.RunTraceroute | internal/probe/traceroute.go:46-133 | targets and families are traced in order, each under one slot and with its own identifier from the shared counter, other runs drawing in between; each trace is right for its hops; the first refused slot ends the task with the results so far |
| Traceroute.TracesStayApart | internal/probe/traceroute.go:42-61 | two traces of one task fewer than 65536 draws apart never accept the same reply |
| Traceroute.AcceptedIffReplyTo | internal/probe/traceroute.go:171-183 | accepted replies are exactly the replies to the probe of this run and TTL |
| Traceroute.RepliesStayApart | internal/probe/traceroute.go:42-44 | runs within 65536 draws, and hops of one run, never accept each other's replies |
| Credentials.WriteCredFiles | internal/cert/cert.go:130-166 | succeeds if and only if no file operation fails; at every crash point the targets are the old directory with a prefix of the files in place, each complete; a staging failure changes no target; an error after successful removals leaves no temporary file |
| Credentials.CrashSafeEntry | internal/cert/cert.go:117-166 | at every crash point each written name has its old entry or the complete new file with its mode, and once new it stays new |
| Renewal.InterruptedEnrolmentShowsIff | internal/cert/cert.go:51-58 | no stage before the last passes `HasCerts` if and only if there was no agent_id |
| Renewal.Enroll | internal/cert/cert.go:64-115 | nothing is touched on a bad response; a usable one succeeds if and only if no file operation fails; at every crash point each of the four files, with its literal mode, is the old or the complete new one; from a directory without agent_id every crash state with `HasCerts` has all four files of this enrolment |
| Renewal.Renew | internal/cert/cert.go:198-242 | a pair that fails the check is never written; a usable one is renewed if and only if no file operation fails, and then client.crt (0644) and client.key (0600) are the new ones, and ca.crt (0644) the new CA or, when none was sent, the old entry; at every crash point each is completely old or completely new, and ca.crt untouched when none was sent |
| Renewal.RenewalLoop | main.go:178-195 | over any number of serial renewals, failing anywhere, every state has a certificate and a key of definite generations that only advance, the key never ahead; round i renews if and only if its response is usable and no file operation of it fails, and then both files are of its generation |
| Renewal.DialHoldsOneGeneration | internal/cert/cert.go:247-260 | a dial that passes the pair check holds certificate and key of one generation, no older than any fully installed before it began |
| Renewal.DialAfterRenewal | internal/cert/cert.go:247-260 | after round i has renewed, such a dial holds generation i or a later one |
| Updater.Installer.Apply | internal/updater/updater.go:29-64 | the executable changes exactly when the digest of the body is the wanted one and the last steps work, and then becomes the file on disk; a temporary file is left only when an attempt fails and its removal fails too |
| Updater.InstalledIsHashedIff | internal/updater/updater.go:84-111 | the installed bytes are the hashed bytes if and only if the announced size does not exceed the body or the preallocation failed; otherwise they are those bytes followed by zeros up to that size |

## Left out

- HTTP, TLS, DNS, JSON and sockets: their results are parameters; X509KeyPair is an arbitrary relation and the digest an arbitrary function.
- The bodies of ping, tcpping, httpcheck, dnscheck and mtr: wrappers over libraries, each only the outcome of a job.
- Resolution and source selection (`resolveTargetIP`, `sourceIPForIP`, `pickSourceIP`), `classifySNMPError`, `decodeOIDValue`, the OID list of a poll and the public-IP refresh (`setIPs`): single-branch facts.
- Configuration, logging, command line and log rotation.
- Liveness under a fair scheduler: a cancelled runner may take a pending tick over cancellation any number of times, so the end of a shutdown is shown to be reachable from every state, not to be reached; the drain is shown to end only for finitely many offers.
- Steady-state phase of SNMP polls: the ticker starts after a first execution of unknown length.
- SchedulerSystem.StepKeepsInv: a cancel and the neighbouring map update are one step, because only the scheduler goroutine sees the map; a panic in a probe is not modelled.
- Pool.EveryCallIsRight: the outcome of a job is fixed in advance but unknown, so a probe whose result depends on when it runs is covered, one that fails to return is not.
- Pipeline.EndToEnd: reading the source pair and starting the call are one step, since the jobs do not depend on the pair; `literal` stands for the test whether a target's host is an IP address.
- Cadence.RunTask: offset and interval are whole seconds; the overflow of a 64-bit nanosecond duration, beyond 292 years, is not modelled.
- Reporting.Reporter.Run: a receive or tick and its upload are one event; offers that arrive during an upload commute with it because an upload does not touch the queues.
- Reporting.NothingLost: "finished" covers accepted and discarded uploads alike, as the code treats them alike.
- Agent.UpdateHandOver: what the update then does is `Updater`; a failed update and a restart both end the process.
- Interfaces.CollectInterfaces: what the SNMP library converts a value to is given with the variable; sorting is an insertion sort in place of the library's.
- Renewal.RenewalLoop: when a renewal is due is left to the caller; the start is an installed pair, which the client construction at startup insists on.
- Traceroute.RunTraceroute: address resolution and opening the socket are one yes or no of the environment; latencies are real numbers.
- Credentials.WriteCredFiles: crash states assume that directory operations reach the disk in order; the code never syncs.
- Updater.Installer.Apply: how the process is replaced; only whether that worked.
- The in-place reuse of the buffer's backing array after a finished upload: uploads read it synchronously, so values are enough.
