# gum: a verified model of the job store and its schedules

gum is a durable job queue. Jobs are deployed into projects; runs of a job are enqueued
by callers, created by a schedule tick, or replayed; runners lease runs, work on them
under a lease that their heartbeats renew, and report how each attempt ended. A run whose
runner goes quiet is recovered and tried again.

This project models that machine in Dafny and proves what it is relied on for. It covers

* the in-memory store, as a class whose methods update its maps in place (`Store`), each
  method proved against a function from the state it finds to the state it leaves
  (`Transitions`), and the properties of those functions over one call (`Invariant`,
  `Steps`, `Recovery`) and over whole runs under a clock that never goes back (`Traces`,
  `Capacity`, `RateWindow`, `Ticks`, `Renewal`, `Dedupe`, `HealthHistory`, `Waiting`); what
  the calls answer and write is said over the fields of requests and records, without the
  functions that compute it, in `Requests`, `Eligibility`, `Outcomes` and `Recovery`;
* the Postgres store's lease, completion, recovery, heartbeat and cancel transactions as
  small steps over row locks and committed reads (`PgProtocol`), with the properties that
  every interleaving keeps (`PgSafety`, `PgCapacity`), what the commits go by and write
  (`PgCalls`), what an undisturbed call can always do (`PgAlone`), and what becomes of
  function health when completions overlap (`PgHealth`);
* schedules, retries and rate-limit specs (`Cron`, `Schedule`, `ScheduleText`,
  `RetryPolicy`, `RateLimit`, `Text`). The cron fields follow the crontab entry format of the INPUT
  FILES section of the crontab utility in POSIX.1-2017, with steps and Sunday as 7. Local
  time is an arbitrary function from instants to in-range fields, so what is proved holds
  for every time zone;
* the service's check of rate-limit pools (`Service`), provider health (`ProviderHealth`)
  and the runner's secret redaction (`Redaction`).

Ids drawn from a counter are the counter's values; ids chosen by callers are strings.
Choices that the code leaves to hash-map order - which eligible run a lease scan meets
first, the order in which a tick visits jobs, the order of secrets - are arbitrary.

`Steps.Enabled` says what the store's callers see to. Rate-limit specs parse, because the
service checks them (crates/gum-api/src/service.rs:30). A completion reports a terminal
status; that is the runner's promise alone: gum's runner sends no other
(crates/gum-runner/src/execution.rs:98-265), the service passes on what it gets
(crates/gum-api/src/service.rs:474-485), the in-memory store notices too late and the
Postgres store not at all. A trace (`Traces.IsTrace`) is any sequence of enabled steps from
the empty store; a Postgres trace (`PgCapacity.IsPgTrace`) is any interleaving whatever, and
its theorems name the promise as a premise (`PgCapacity.AllTerminal`).

## Where the promise has a limit

Some promises fail on a side of the code, and there the project gives the exact side.

* In the in-memory store a completion with a status that is not terminal, or for a job
  whose rate-limit spec does not parse, is answered with an error but leaves the attempt
  and its lease written and the run untouched (`Invariant.CompleteKeepsInvExactly`).
* In the Postgres store such a spec rolls the completion back, but one whose status is not
  terminal commits and breaks the links (`PgSafety.PgCompleteKeepsInvExactly`,
  `PgSafety.StepKeepsSoundExactly`): reported as running, the attempt stays running while
  its run is queued again, and the next grant gives the run a second running attempt
  (`PgSafety.RunningCompletionDoublesUp`).
* The Postgres store reads a function's health without a lock, so of two overlapping
  completions of one job one can lose the other's failure (`PgHealth.OverlapLosesFailure`).
  A commit is the in-memory call exactly when the record it read and the committed one
  agree on the fields that the report carries over (`PgHealth.PgCompletionIsAtomic`), and
  always when no other completion of the job committed since its read
  (`PgHealth.PgLoneCompletionIsTheCall`); without overlaps health tells the history
  (`PgHealth.PgHealthTellsTheHistory`).
* The pool check looks at one deploy at a time; two deploys can leave a pool with two
  definitions (`Service.ValidatedDeployKeepsPools`, `Service.PoolsCanDivergeAcrossDeploys`).
* A secret that overlaps the marker "[REDACTED]" can survive redaction
  (`Redaction.BracketFreeExactly`, `Redaction.OneValueExactly`).
* A search for the next fire time gives up exactly where five 366-day years follow without
  one and time does not end before they do (`Cron.GivesUpExactly`); listing due times
  fails exactly when such a gap follows a fire time it passes
  (`Schedule.DueFromFailsExactly`), and a tick succeeds exactly when every job it visits
  has a schedule that parses and meets no such gap (`Ticks.TickSucceedsExactly`).
* The interval loop ends, from every start, exactly when now is not the top of the time
  range (`Schedule.IntervalLoopEndsExactly`).
* Backoff stops growing at the sixth attempt (`RetryPolicy.BackoffGrowsExactly`).
* Run-key scopes of two callers can collide exactly when what one puts in front of its
  keys begins with what the other does, which takes a colon in an id
  (`Dedupe.ScopesCanCollideExactly`, `Dedupe.ScopesMeetExactly`).
* The size checks of the in-memory store saturate at 32 bits
  (`Capacity.SizeCheckExactly`); the Postgres store's do not.
* A probe applied to a record read earlier writes the state and score the whole history
  means exactly when it succeeds, or the failures it forgets make no difference to them
  (`ProviderHealth.StaleProbeExactly`). Its times have conditions of their own, and a
  probe that succeeds can still get them wrong (`ProviderHealth.StaleProbeTimesExactly`,
  `ProviderHealth.StaleSuccessForgets`).
* The scopes of two rate limits can share a key, of which the status then lists one,
  exactly when what one project puts in front of its pools begins with what the other does
  (`Waiting.ScopeKeysMeetExactly`).
* The heartbeat loop leaves room for a missed beat and for requests that take some time
  only from three seconds of lease time on (`Renewal.LoopFitsExactly`).
* A cancel in Postgres leaves the run's failure class and retry time as they were, where
  the in-memory store clears them (`PgAlone.CancelCommits`, `Requests.CancelAnswersExactly`).

## Model

| member | source | states |
|---|---|---|
| `Traces.NoWorkIsOrphaned` | crates/gum-store/src/memory.rs:136-212 | In every reachable state a run is running exactly when it has a running attempt, never has two, and that attempt holds an open lease that points back at it and names the same runner. |
| `Traces.AttemptsAreNumbered` | crates/gum-store/src/memory.rs:1284-1322 | In every reachable state the attempts of a run carry the numbers 1 to its attempt count, each exactly once, and the count never exceeds the run's maximum. |
| `Traces.ProgressIsBounded` | crates/gum-store/src/memory.rs:1453-1464 | Over any run of the store a job run changes status or attempt count at most twice its maximum number of attempts, and nothing about it changes once it is terminal. |
| `Traces.CompletionIsFenced` | crates/gum-store/src/memory.rs:1342-1406 | A completion succeeds exactly when the attempt is running on the caller's runner, its lease has not expired and a requested cancellation is honoured; any error leaves the store as it was. |
| `Traces.CompletedAtMostOnce` | crates/gum-store/src/memory.rs:1342-1406 | Over any run of the store an attempt is completed at most once, and never after recovery finished it. |
| `Traces.FinishesOnce` | crates/gum-store/src/memory.rs:1378-1394 | Whatever finishes an attempt, only one step of a run of the store ever does. |
| `Traces.StartsAreInThePast` | crates/gum-store/src/memory.rs:1284-1322 | In every reachable state no attempt started later than the last step's clock. |
| `Outcomes.CompletionDecidesRun` | crates/gum-store/src/memory.rs:1378-1464 | An accepted completion ends the attempt as reported and releases its lease; the run ends Succeeded exactly when the report says so, Canceled exactly when it says so, is queued again exactly after a failure or time-out with attempts left and a class other than user code and provider credentials, and otherwise ends Failed or TimedOut as reported. |
| `Outcomes.StatusTellsAttempts` | crates/gum-store/src/memory.rs:1284-1464 | In every reachable state a run with attempts is Running, Succeeded, Failed or TimedOut exactly when its latest attempt is (the latter two when no other is to follow), and all attempts before the latest failed or timed out. |
| `Outcomes.SucceededExactly` | crates/gum-store/src/memory.rs:1453-1464 | In every reachable state a run has succeeded if and only if one of its attempts has, and that is the one numbered by its attempt count. |
| `Outcomes.RequeuedRunWaits` | crates/gum-store/src/queries.rs:641-699 | A run that is queued again waits 30 s for its function after the third or a later failure in a row against it, and otherwise the tabled seconds for its class and attempt plus up to a fifth more. |
| `Outcomes.BackoffIsTabled` | crates/gum-store/src/queries.rs:701-732 | The delay is that of a table of seconds by failure class and attempt number, plus a jitter below a fifth of it. |
| `Invariant.RunningRunsAreLeased` | crates/gum-store/src/memory.rs:1154-1330 | In a state that satisfies the invariant, running runs, running attempts and open leases belong to one another one to one. |
| `Invariant.CompleteKeepsInvExactly` | crates/gum-store/src/memory.rs:1378-1456 | A completion that passes its checks keeps the invariant if and only if its status is terminal and its job's rate-limit spec parses. |
| `Invariant.CompleteWrites` | crates/gum-store/src/memory.rs:1378-1464 | A completion writes one attempt, its lease, one run and one health record, answers what it wrote, and leaves the run finished or queued with attempts left. |
| `Invariant.TakeAttemptsKeepsInv` | crates/gum-store/src/memory.rs:136-212 | Failing any set of running attempts as lost keeps runs, attempts and leases linked, although the code overwrites the run's status unconditionally. |
| `Invariant.TakenTogether` | crates/gum-store/src/memory.rs:156-208 | A lease is taken exactly when its attempt is, and the run of a running attempt only together with that attempt. |
| `Invariant.GrantKeepsInv` | crates/gum-store/src/memory.rs:1284-1322 | Leasing a queued run keeps the invariant: next number, fresh open lease, run running. |
| `Invariant.CancelKeepsInv` | crates/gum-store/src/memory.rs:1469-1530 | Cancelling keeps the invariant: a queued run ends, a running one is only marked. |
| `Invariant.HeartbeatKeepsInv` | crates/gum-store/src/memory.rs:641-675 | A heartbeat keeps the invariant, also when it stops at a lease that is not its own. |
| `Invariant.TickKeepsInv` | crates/gum-store/src/memory.rs:1540-1604 | A tick keeps the invariant and the jobs, also when it stops at an error half way. |
| `Steps.StepKeepsInv` | crates/gum-store/src/memory.rs:428-1604 | Every enabled call of the store keeps the invariant. |
| `Steps.StepEvolves` | crates/gum-store/src/memory.rs:428-1604 | Every enabled call moves records only forwards: none disappears, links never change, finished runs, finished attempts and released leases stay as they are, and new ones start afresh. |
| `Steps.StepIsQuiet` | crates/gum-store/src/memory.rs:428-1604 | Of the calls other than heartbeat and registration none touches runners or the expiry of a lease, only a deploy touches jobs, only enqueueing run keys, only a completion health, and only leasing opens attempts. |
| `Recovery.RecoveryTakesExactlyTheLost` | crates/gum-store/src/memory.rs:136-212 | Recovery changes exactly the attempts it judges lost (which these are, over leases and runners, is `RecoverySortsTheRunning`), exactly their leases and exactly their runs, and nothing else. |
| `Recovery.RecoveryIsIdempotent` | crates/gum-store/src/memory.rs:136-212 | Recovering again at the same time changes nothing. |
| `Recovery.RecoverySortsTheRunning` | crates/gum-store/src/memory.rs:136-212 | Recovery leaves alone every running attempt whose lease has time left and whose runner, if registered, was heard from within its timeout; it fails all other running ones, releases their leases and requeues or fails their runs by the attempts left; so whatever runs afterwards is alive. |
| `Renewal.BeatsPerLease` | crates/gum-runner/src/main.rs:548-551 | The runner beats once a second up to three seconds of lease time and three times a lease from there on; an interval fits inside the lease exactly from two seconds, two intervals exactly from three. |
| `Renewal.OnlyCompletionOrLossFinishes` | crates/gum-store/src/memory.rs:136-212 | Apart from its own completion and a recovery that finds it lost, no step finishes an attempt. |
| `Renewal.ExpiryMovesByRenewal` | crates/gum-store/src/memory.rs:641-675 | Only a heartbeat of the lease's own runner moves an open lease's expiry, and a successful one that lists the lease moves it to a lease time from now. |
| `Renewal.TimelyRunnerKeepsAttempt` | crates/gum-store/src/memory.rs:136-212 | A runner with steady settings whose heartbeats for the lease are less than the lease time apart, and that is heard from at all within the heartbeat timeout, keeps its attempt running until the attempt is completed. |
| `Renewal.RoundGap` | crates/gum-runner/src/main.rs:294-308 | In a loop that sleeps an interval and then waits for a request of bounded length, good beats with at most one failed round between them reach the store at most two intervals and three such lengths apart. |
| `Renewal.RoundGapIsTight` | crates/gum-runner/src/main.rs:294-308 | That bound is reached: a late reply, a failed round and a slow one. |
| `Renewal.LoopFitsExactly` | crates/gum-runner/src/main.rs:548-551 | Some request time leaves two intervals and three requests inside the lease exactly from three seconds of lease time. |
| `Renewal.HeartbeatLoopKeepsAttempt` | crates/gum-runner/src/main.rs:294-308 | A runner whose rounds follow the loop's schedule with at most one failure in a row, the reply of the grant first, never loses its attempt, as long as two intervals and three request times fit inside the lease, and inside the heartbeat timeout together with the time before the grant. |
| `Capacity.CapacityIsKept` | crates/gum-store/src/memory.rs:1168-1252 | Over any run of the store that tightens no size, every reachable state keeps each runner within its slots, cpu and memory and each job within its concurrency limit. |
| `Capacity.CapacityAfterGrant` | crates/gum-store/src/memory.rs:1168-1252 | A grant to a run that the lease scan lets through stays within every runner's and job's capacity. |
| `Capacity.SizeCheckExactly` | crates/gum-store/src/memory.rs:1209-1232 | The saturating size check refuses exactly what does not fit, except that a size at the 32-bit maximum refuses nothing. |
| `Capacity.LeaseIsRecoverThenGrant` | crates/gum-store/src/memory.rs:1154-1330 | A lease step is a recovery followed by at most one grant, to a run the scan judged leasable on a runner with a free slot. |
| `Eligibility.LeaseAnswersExactly` | crates/gum-store/src/memory.rs:1154-1330 | After recovery a lease call hands out a run only with a free slot and nothing against the run, with the records of its next attempt; answers nothing only when the slots are taken or something - retry time, job, hold, class, cores, memory, concurrency or quota - stands against every queued run; and fails only for an unknown runner. |
| `Eligibility.ScanJudgesByObstacles` | crates/gum-store/src/memory.rs:1180-1277 | The scan passes over a queued run if and only if one of these, over fields and counted attempts, stands against it. |
| `Eligibility.StartedRunsHadNoObstacle` | crates/gum-store/src/memory.rs:1180-1277 | Over any run of the store a run is only started by a registered runner of the class its enabled job asks for, with nothing against it. |
| `Eligibility.LoadsCountWhatIsInUse` | crates/gum-store/src/memory.rs:1169-1250 | The sums of the lease call are the numbers of running attempts, of the cores and megabytes they take, one core and 512 MB where a job names none, and of a job's running attempts. |
| `Eligibility.StartsAreLoad` | crates/gum-store/src/memory.rs:90-111 | The starts counted for a rate limit are those since then of the same job, or of jobs of the project that name the pool. |
| `RateWindow.RateLimitsAreKept` | crates/gum-store/src/memory.rs:1254-1274 | As long as pools keep one definition and redeploys tighten no rate of a job that was there - a limit may rise, a window shrink, a spec go - in every reachable state no closed window of a scope's length holds more starts of the scope, shared pools included, than its limit. |
| `RateWindow.WindowAfterGrant` | crates/gum-store/src/memory.rs:90-111 | A start that the rate check admits keeps every window of every scope within its limit. |
| `RateWindow.ScopeMatesAgree` | crates/gum-store/src/memory.rs:90-111 | Jobs that share a pool scope have the same limit and window and see the same scope. |
| `Dedupe.ScopeIsInjective` | crates/gum-store/src/memory.rs:72-74 | When project and job ids hold no colon, two callers share a key scope exactly when project, job and key agree. |
| `Dedupe.ScopesMeetExactly` | crates/gum-store/src/memory.rs:72-74 | Two callers share a key scope if and only if one head of project and job begins with the other and the rest of the longer head stands at the front of the other's key. |
| `Dedupe.ScopesCanCollideExactly` | crates/gum-store/src/memory.rs:72-74 | Some keys of two callers share a scope if and only if one head of project and job begins with the other. |
| `Dedupe.ScopesCanCollide` | crates/gum-store/src/memory.rs:72-74 | A family of collisions: moving a colon between project and job id leaves the scope of every key as it is. |
| `Dedupe.KeyIsRetained` | crates/gum-store/src/memory.rs:1071-1119 | From the enqueue that created a keyed run the key stands for that run until its retention time has passed. |
| `Dedupe.SameKeySameRun` | crates/gum-store/src/memory.rs:1071-1119 | Asking again within 86,400,000 ms changes nothing and either fails a job check or answers the run created first. |
| `Dedupe.CreationsAreSpaced` | crates/gum-store/src/queries.rs:598-600 | Two runs created for one key scope are at least the retention time apart. |
| `Requests.EnqueueAnswersExactly` | crates/gum-store/src/memory.rs:1053-1120 | An enqueue is refused exactly for a missing, disabled or mismatched job, answers the remembered run of an unexpired key, and otherwise adds a queued run of the job, due after the delay asked for, and remembers its key for a day. |
| `Requests.DelayIsRespected` | crates/gum-store/src/memory.rs:1097-1097 | Over any run of the store a run enqueued with a delay is not started before the delay is over. |
| `Requests.ReplayAnswersExactly` | crates/gum-store/src/memory.rs:1122-1152 | A replay adds a fresh queued run with the job, deploy and attempts of its source, which it names, or refuses an unknown one. |
| `Requests.TickMakes` | crates/gum-store/src/memory.rs:1562-1600 | Every run a tick adds is a fresh queued run of an enabled job with a schedule, for that job's project, deploy and retries. |
| `Requests.DeployAnswersExactly` | crates/gum-store/src/memory.rs:428-482 | A deploy writes the job that the last entry for its id describes, enabled and under a fresh deploy id, and leaves jobs it does not name; an unknown project is refused. |
| `Requests.HeartbeatAnswersExactly` | crates/gum-store/src/memory.rs:641-675 | A heartbeat stores the runner as it reports itself and renews exactly its open listed leases up to the first that is unknown or another runner's, which it reports. |
| `Requests.RegistrationWrites` | crates/gum-store/src/memory.rs:113-134 | A registration stores the runner as it reports itself, seen now. |
| `Requests.CancelAnswersExactly` | crates/gum-store/src/memory.rs:1469-1530 | A cancel ends a queued run as Canceled, marks the one running attempt of a running run and its lease, and refuses a run that is unknown or over. |
| `Requests.CompletionRefusesExactly` | crates/gum-store/src/memory.rs:1342-1377 | A completion is refused for an unknown or finished attempt, a cancellation not honoured, another runner's attempt or an expired lease, in this order, and for nothing else. |
| `HealthHistory.HealthTellsTheHistory` | crates/gum-store/src/memory.rs:331-426 | In every reachable state a job's health record tells its completions so far: the counter is the infrastructure failures since the last success, the state its 3/5 threshold, since when that of the completion that last changed it, and a hold exists exactly when not Healthy and ends 30 s after the last such failure. |
| `HealthHistory.NextSignalTells` | crates/gum-store/src/memory.rs:331-426 | One more completion keeps the health record in step with the history. |
| `HealthHistory.HeldJobsAreNotStarted` | crates/gum-store/src/memory.rs:1180-1202 | No run of a job is started within 30 s of the latest of three or more infrastructure failures since its last success. |
| `HealthHistory.RetryTimesAreRespected` | crates/gum-store/src/memory.rs:1180-1202 | A queued run with a retry time keeps it and is not started before it. |
| `HealthHistory.RequeueDelay` | crates/gum-store/src/memory.rs:1407-1464 | A completion that requeues its run sets a retry time strictly after now and less than 360,000 ms away. |
| `Ticks.ReachableStatesFireOnce` | crates/gum-store/src/memory.rs:1540-1604 | In every reachable state no job has two scheduled runs with the same fire time, whatever was redeployed in between. |
| `Ticks.ScheduleRunsCreatesAll` | crates/gum-store/src/memory.rs:1562-1600 | Every due time gets its own new run, so the check for an existing run never fires, and the latest scheduled time becomes the last due one. |
| `Ticks.TickFiresExactlyTheDue` | crates/gum-store/src/memory.rs:1540-1604 | A successful tick adds, for each job it visits, exactly the due fire times. |
| `Ticks.TickFiresByTheClock` | crates/gum-store/src/memory.rs:1540-1604 | A successful tick gives exactly the enabled jobs with a schedule new runs, for exactly the instants up to now that lie whole intervals after, or that the cron line fires at after, the latest fire time or else the creation of the job. |
| `Ticks.TickSucceedsExactly` | crates/gum-store/src/memory.rs:1540-1604 | A tick succeeds if and only if every scheduled job it visits has a schedule that parses and no long gap follows the time it is looked at from or any fire time up to now. |
| `Ticks.TickingTwiceIsTickingOnce` | crates/gum-store/src/memory.rs:1540-1604 | When ticking at t2 succeeds, ticking at t1 and then at t2 succeeds too and fires every job at exactly the same times, in whatever order jobs are visited. |
| `Waiting.ActiveRunsAreCounted` | crates/gum-store/src/memory.rs:76-88 | The distinct active runs that the concurrency status lists are as many as the running attempts that the lease step counts. |
| `Waiting.ListRateLimitStatus` | crates/gum-store/src/memory.rs:944-1051 | The status list fails exactly when some spec does not parse, and otherwise holds one status per scope key, each as the first visited job with that key sees its scope, and misses no key. |
| `Waiting.ScopeKeysMeetExactly` | crates/gum-store/src/queries.rs:505-510 | Two scopes share a key if and only if they are one job's, or two pools' where one project's head begins with the other's and the rest of the longer head stands at the front of the other pool. |
| `Waiting.KeysNameScopes` | crates/gum-store/src/queries.rs:505-510 | When project ids hold no colon, two jobs with a spec share a key exactly when they share a scope. |
| `Waiting.WaitingExactly` | crates/gum-store/src/memory.rs:978-1025 | A status counts the starts on its quota, and lists a run as waiting exactly when the quota is spent and the run is queued for a job that shares it, with no retry time ahead, not held, and below its job's concurrency limit. |
| `Waiting.ReportedWaitersAreRefused` | crates/gum-api/src/service.rs:593-619 | In a just-recovered state a queued run reported as waiting on concurrency or a rate limit is one that the lease step would refuse at that instant for any runner, given one definition per pool. |
| `Waiting.RateWaiterIsRefused` | crates/gum-store/src/memory.rs:1254-1274 | A run that a rate-limit status lists as waiting is passed over by the lease scan. |
| `Service.ValidateRateLimitPools` | crates/gum-api/src/service.rs:570-591 | The check passes if and only if every spec parses and no two specs name one pool in different words. |
| `Service.ValidatedDeployKeepsPools` | crates/gum-api/src/service.rs:26-35 | A deploy that passed the check keeps one definition per pool if and only if every job it leaves behind in the project agrees with it on the pools both use. |
| `Service.PoolsCanDivergeAcrossDeploys` | crates/gum-api/src/service.rs:570-591 | Two deploys that both pass the check can leave a pool with two definitions. |
| `Service.FittingDeploysKeepRates` | crates/gum-api/src/service.rs:26-35 | When every deploy passes the check and fits the jobs it leaves behind, and redeploys tighten no rate of a job that was there, every reachable state keeps the rate limits. |
| `Service.LastEntryStays` | crates/gum-store/src/memory.rs:430-485 | After a deploy the job table holds, for each id it names, the last entry with that id. |
| `Store.MemoryStore.RegisterDeploy` | crates/gum-store/src/memory.rs:430-485 | Overwrites the jobs of the deploy and removes none; keeps the invariant. |
| `Store.MemoryStore.UpsertRunner` | crates/gum-store/src/memory.rs:113-134 | Replaces the runner's record and changes nothing else. |
| `Store.MemoryStore.HeartbeatRunner` | crates/gum-store/src/memory.rs:641-675 | Refreshes the runner and renews the listed open leases in order, stopping with an error at the first unknown or foreign one. |
| `Store.MemoryStore.EnqueueRun` | crates/gum-store/src/memory.rs:1053-1120 | Answers the run behind an unexpired key, or creates a queued run and its key. |
| `Store.MemoryStore.ReplayRun` | crates/gum-store/src/memory.rs:1122-1152 | Creates a fresh queued run that points at its source. |
| `Store.MemoryStore.RecoverLostAttempts` | crates/gum-store/src/memory.rs:136-212 | The loop over lost attempts leaves the state that taking all of them at once means, and reports their runs. |
| `Store.MemoryStore.SelectRun` | crates/gum-store/src/memory.rs:1179-1283 | The scan, in any order, finds a leasable run, or an unparseable spec, or establishes that every run is to be passed over. |
| `Store.MemoryStore.GrantLease` | crates/gum-store/src/memory.rs:1284-1322 | Opens the next attempt of a queued run under a new lease and marks the run running. |
| `Store.MemoryStore.LeaseNextAttempt` | crates/gum-store/src/memory.rs:1154-1330 | Recovers, checks the runner and its slots, scans and grants, as the specification function says. |
| `Store.MemoryStore.CompleteAttempt` | crates/gum-store/src/memory.rs:1332-1467 | Checks, then writes attempt, lease, health and run, including what later errors leave behind. |
| `Store.MemoryStore.CancelRun` | crates/gum-store/src/memory.rs:1469-1530 | Ends a queued run, marks the one running attempt and its lease of a running run, and refuses a finished one. |
| `Store.MemoryStore.ScheduleJob` | crates/gum-store/src/memory.rs:1562-1600 | Creates one run per due time that has none yet. |
| `Store.MemoryStore.TickSchedules` | crates/gum-store/src/memory.rs:1540-1604 | Visits every enabled scheduled job once, in any order, and stops at the first error. |
| `PgCapacity.PgNoTwoLiveAttempts` | crates/gum-store/src/pg.rs:1672-1700 | Under every interleaving in which the completions that commit report terminal statuses, a run is running exactly when it has a running attempt and never has two. |
| `PgCapacity.PgCapacityIsKept` | crates/gum-store/src/pg.rs:1615-1735 | Under every such interleaving that tightens no size each runner stays within its slots, cpu and memory, because every check a leasing transaction made still holds while it keeps the runner row locked. |
| `PgCapacity.PgLeaseIsAtomic` | crates/gum-store/src/pg.rs:1650-1843 | When no size is tightened, at the commit of a lease the chosen run is still queued as read, the runner is as read and still has the slot, cpu and memory, and the commit is the in-memory grant on the committed records. |
| `PgHealth.PgCompletionIsAtomic` | crates/gum-store/src/pg.rs:1852-2058 | At the commit of a completion every check still passes, and the commit is the in-memory call on the committed records if and only if the health it read and the committed health agree on the fields it carries over: last failure and healthy-since after a success; count (up to saturation), last success and since when in the state to come after an infrastructure failure; everything otherwise, where no record stands for a blank one. |
| `PgHealth.CommittedCountExactly` | crates/gum-store/src/pg.rs:352-445 | The failure counter that a completion's commit leaves is the one the committed health asks for if and only if it reports a success or the count it read is still the committed one (or both are saturated). |
| `PgHealth.OverlapLosesFailure` | crates/gum-store/src/pg.rs:352-445 | Two completions of one job that have both read its health and both report an infrastructure failure raise the failure count by one between them. |
| `PgHealth.HealthChangesByCommit` | crates/gum-store/src/pg.rs:1852-2058 | A job's health changes only where a completion of that job commits. |
| `PgHealth.SignalWasRead` | crates/gum-store/src/pg.rs:352-380 | Whatever interleaves, what an open completion will write was made from the health that was committed at its own read. |
| `PgHealth.PgLoneCompletionIsTheCall` | crates/gum-store/src/pg.rs:1852-2058 | A completion commits what the in-memory call does to the committed records when no other completion of its job committed since it read the health, whatever else interleaves. |
| `PgHealth.PgHealthTellsTheHistory` | crates/gum-store/src/pg.rs:352-445 | Over an interleaving in which no completions of the job overlap in this way, its health record tells the completions in the order of their commits, as in the in-memory store. |
| `PgCapacity.PgRecoveryIsAtomic` | crates/gum-store/src/pg.rs:2148-2249 | At the commit of a recovery the attempts it locked are all still running and the commit is the in-memory recovery of exactly those. |
| `PgCapacity.PgEndsOnce` | crates/gum-store/src/pg.rs:1852-2249 | Over a whole run of the database with terminal reports at most one commit, by completion or by recovery, ends an attempt. |
| `PgCapacity.OneLeasePerRunner` | crates/gum-store/src/pg.rs:1615-1634 | Two transactions never lease for one runner at the same time. |
| `PgCapacity.LoadsFallElsewhere` | crates/gum-store/src/pg.rs:1636-1735 | With job sizes not growing, no step but the runner's own lease commit raises the runner's counted slots, cpu or memory. |
| `PgCalls.PgGrantsGoByTheQuery` | crates/gum-store/src/pg.rs:1650-1713 | Under every interleaving a run that a lease commits to was, by the records committed when the candidate query started, queued with no retry time ahead, its job enabled, not held and below its concurrency limit, and the job as read asks for no other class than the runner's. |
| `PgCalls.PgRecoveryFailsTheLost` | crates/gum-store/src/pg.rs:2148-2249 | Under every interleaving a recovery that commits fails exactly the attempts it took, all of them still running and past their lease or with a runner stale by the records its query found. |
| `PgCalls.PgCompletionDecidesRun` | crates/gum-store/src/pg.rs:1852-2058 | Under every interleaving the commit of a completion finds its attempt open under a lease that had not run out, ends it as reported, and decides its run by the report as the in-memory call does. |
| `PgCalls.PgBeatRenewsItsOwn` | crates/gum-store/src/pg.rs:926-998 | Under every interleaving a heartbeat stores the runner as it reports itself and moves the expiry of open leases of its own and of nothing else. |
| `PgCalls.PgCancelEndsOrMarks` | crates/gum-store/src/pg.rs:2060-2146 | Under every interleaving a cancel ends a run that is still queued, or marks the running attempt of a running run and its lease. |
| `PgAlone.FittingRunCanBeLeased` | crates/gum-store/src/pg.rs:1604-1850 | Undisturbed, a lease call can hand out any run that nothing but its rate limit could stand against, with the records of the in-memory grant. |
| `PgAlone.AcceptedReportCommits` | crates/gum-store/src/pg.rs:1852-2058 | Undisturbed, a report that the in-memory store accepts commits to the same records. |
| `PgAlone.RecoveryTakesAll` | crates/gum-store/src/pg.rs:2148-2249 | Undisturbed, a recovery can take all that is lost and leaves what the in-memory one does. |
| `PgAlone.HeartbeatCommits` | crates/gum-store/src/pg.rs:926-998 | Undisturbed, a heartbeat whose leases are the runner's own leaves what the in-memory one does. |
| `PgAlone.CancelCommits` | crates/gum-store/src/pg.rs:2060-2146 | Undisturbed, a cancel of a queued or running run commits, as in memory but for the run's failure class, retry time and what it waits for, which stay. |
| `PgSafety.StepKeepsSoundExactly` | crates/gum-store/src/pg.rs:926-2249 | Whatever statement any transaction takes next, the database stays sound - records linked, no stale reads - if and only if the step is not the commit of a completion with a status that is not terminal. |
| `PgSafety.StepKeepsReads` | crates/gum-store/src/pg.rs:926-2249 | After any step whatever, every row a transaction has locked is still as it read it. |
| `PgSafety.StepKeepsSound` | crates/gum-store/src/pg.rs:926-2249 | A step that keeps the database sound moves the committed records only forwards. |
| `PgSafety.PgCompleteKeepsInvExactly` | crates/gum-store/src/pg.rs:1852-2058 | A completion commits whatever status it reports, and keeps the links between runs, attempts and leases if and only if that status is terminal. |
| `PgSafety.RunningCompletionDoublesUp` | crates/gum-store/src/pg.rs:1919-2050 | A completion that reports its attempt as running queues the run again and leaves the attempt running, so that the next grant of the run, to any runner, makes two running attempts. |
| `PgSafety.StepSparesOthers` | crates/gum-store/src/pg.rs:926-2249 | A step of one transaction, whatever it reports, leaves the locks of every other and the rows behind them alone. |
| `PgSafety.CompletionStillPasses` | crates/gum-store/src/pg.rs:1862-1918 | With its rows locked a completion still passes every check it made. |
| `PgSafety.RecoveryStillTakes` | crates/gum-store/src/pg.rs:2154-2248 | With its rows locked a recovery's commit, decided by the counts it read, is the one the committed counts call for. |
| `PgSafety.ChosenFits` | crates/gum-store/src/pg.rs:1780-1843 | The attempt a lease inserts carries the committed run's next number. |
| `Cron.ParseField` | crates/gum-store/src/queries.rs:312-355 | The parsing loop never indexes out of range, ends, and computes the union of the comma segments; its closing check for an empty field never fires. |
| `Cron.FieldMeaning` | crates/gum-store/src/queries.rs:312-361 | A field is accepted if and only if every comma segment is, and then allows a value exactly when some segment reaches it from its start in whole steps, always within range. |
| `Cron.MarkSegment` | crates/gum-store/src/queries.rs:337-345 | The inner loop marks exactly the values the segment covers, also when adding the step would overflow. |
| `ScheduleText.FiresByWords` | crates/gum-store/src/queries.rs:395-430 | A cron line fires at the whole minutes whose local minute, hour and month its first, second and fourth words reach and whose day the day words that are no star do; of two such it is enough that one does. |
| `ScheduleText.TwoDayWordsUnite` | crates/gum-store/src/queries.rs:418-429 | With both days restricted a line fires exactly when the line without the one restriction does or the line without the other. |
| `ScheduleText.SegmentReads` | crates/gum-store/src/queries.rs:432-492 | A star covers the whole range, a number itself, a range its numbers, with a step every so-manieth from the first, 7 standing for Sunday; a number out of range, a falling range and a step of zero are refused. |
| `ScheduleText.IntervalReads` | crates/gum-store/src/queries.rs:177-198 | A number and s, m, h or d is an interval of so many seconds, minutes, hours or days. |
| `ScheduleText.CronTextReads` | crates/gum-store/src/queries.rs:268-310 | Behind "cron:" stands a line for UTC, or "tz=", a zone, a semicolon and a line for that zone. |
| `Cron.NextMatchAfter` | crates/gum-store/src/queries.rs:378-394 | The candidate loop ends and computes the bounded search. |
| `Cron.NextMatchIsLeast` | crates/gum-store/src/queries.rs:378-430 | The search returns the least minute-aligned match after its cursor, answers none only when there is none at all, and finds what the next five 366-day years hold. |
| `Cron.GivesUpExactly` | crates/gum-store/src/queries.rs:378-394 | The search answers an error if and only if the next five 366-day years hold no fire time and the time range does not end before they do. |
| `Cron.FebruaryThirtyFirstGivesUp` | crates/gum-store/src/queries.rs:378-394 | An instance: "0 0 31 2 *" parses, and in every zone without a 31 February each search that the end of time does not cut short is an error. |
| `Schedule.RecurringDueTimes` | crates/gum-store/src/queries.rs:228-267 | Both loops end and compute the due times. |
| `Schedule.DueFromExact` | crates/gum-store/src/queries.rs:228-267 | When the searches succeed, the due times are exactly the fire times after the cursor and up to now, strictly ascending, none missed. |
| `Schedule.DueFromSplits` | crates/gum-store/src/queries.rs:228-267 | Asking at t1 and again at t2 from where the first answer stopped finds what asking once at t2 finds. |
| `Schedule.DueFromFailsExactly` | crates/gum-store/src/queries.rs:254-264 | The answer is an error if and only if a gap of five 366-day years without a fire time follows the start or some fire time up to now. |
| `Schedule.NextFireIsLeast` | crates/gum-store/src/queries.rs:240-264 | Both kinds of schedule fire next at the least fire time, and later fire times look the same from there. |
| `Schedule.IntervalLoopEndsExactly` | crates/gum-store/src/queries.rs:242-248 | From every start the interval loop ends if and only if now is below the largest time there is. |
| `RetryPolicy.BackoffBounds` | crates/gum-store/src/queries.rs:701-732 | For every failure class and hash the delay lies in [2000, 360000) ms. |
| `RetryPolicy.BackoffGrowsExactly` | crates/gum-store/src/queries.rs:701-732 | The delay grows from attempt n to n + 1 whatever the hashes if and only if 1 <= n < 6. |
| `RetryPolicy.RequeueIsDelayed` | crates/gum-store/src/queries.rs:602-699 | A failed attempt leaves its run queued exactly when attempts remain and its class is retryable, and then the retry time lies strictly between now and six minutes on. |
| `RetryPolicy.CappedBackoffTable` | crates/gum-store/src/queries.rs:701-718 | The capped delay grows by at least a fifth per attempt up to its cap, which is what jitter of under a fifth cannot undo. |
| `RateLimit.SpecRoundTrip` | crates/gum-store/src/queries.rs:512-546 | Every expressible spec, pool names with colons included, survives being written down and parsed back. |
| `Text.SplitPieces` | crates/gum-store/src/queries.rs:326-327 | Splitting yields pieces without the separator that join up to the text again. |
| `Text.TrimStrips` | crates/gum-store/src/queries.rs:270-270 | Trimming takes the space off both ends of a text and nothing else. |
| `ProviderHealth.RecordTellsHistory` | crates/gum-scheduler/src/probes.rs:212-297 | For any mix of requests and probes applied one after the other the down score is the failures since the last success up to ten, the provider is Down exactly from three on, and the times are those of the last success, the last failure and the check that last changed the state. |
| `ProviderHealth.ProviderTable.ApplySignal` | crates/gum-store/src/memory.rs:214-325 | A request signal is added to the history of the provider with the slug, whose record goes on being the one its history leads to; nothing changes when there is none. |
| `ProviderHealth.ProviderTable.ApplyProbe` | crates/gum-store/src/memory.rs:542-570 | A probe judged by the record it replaces is added to the provider's history in the same way, and an unknown provider changes nothing. |
| `ProviderHealth.DegradedScoreCanGoNegative` | crates/gum-store/src/memory.rs:255-262 | Good checks take two from the degraded score without a lower bound of zero. |
| `ProviderHealth.DegradedScoreCounts` | crates/gum-store/src/memory.rs:255-262 | Failed checks and slow probes raise the degraded score by one each up to ten, and good ones after them take off two each. |
| `ProviderHealth.StaleProbeExactly` | crates/gum-scheduler/src/probes.rs:50-112 | A probe applied to an older record writes the state the whole history means if and only if it succeeds or both histories have, or both lack, two failures in a row; and the score if and only if it succeeds or the failures agree up to nine. |
| `ProviderHealth.StaleProbeTimesExactly` | crates/gum-scheduler/src/probes.rs:50-112 | It writes the history's last success if and only if it succeeds or none was reported meanwhile at another time, the last failure likewise, and the last change if and only if the older and the whole history enter the states they come to at the same time. |
| `ProviderHealth.StaleSuccessForgets` | crates/gum-scheduler/src/probes.rs:50-112 | An instance: a failure reported while a successful probe is out leaves no trace in the times. |
| `ProviderHealth.StaleProbeForgets` | crates/gum-scheduler/src/probes.rs:50-112 | An instance: three failures reported while a probe is out are forgotten by it. |
| `Redaction.RedactSecrets` | crates/gum-runner/src/execution.rs:321-345 | The loop computes one pass per distinct secret, longest first. |
| `Redaction.MarkerFreeSecretsAreHidden` | crates/gum-runner/src/execution.rs:321-345 | A secret that cannot overlap the marker occurs nowhere in the output, for every text and every other secret: its pass removes it and no other pass brings it back. |
| `Redaction.BracketFreeExactly` | crates/gum-runner/src/execution.rs:321-345 | For secrets without brackets every text is clean of every secret if and only if no secret lies inside "REDACTED". |
| `Redaction.OneValueExactly` | crates/gum-runner/src/execution.rs:321-345 | A single secret, brackets or not, is hidden in every text if and only if it cannot stick out of the marker unmatched. |
| `Redaction.BracketsCanLeak` | crates/gum-runner/src/execution.rs:321-345 | The secret "]x" survives in some text. |
| `Redaction.WholeSecretIsHidden` | crates/gum-runner/src/execution.rs:334-342 | Because longer secrets go first, a text that is a secret becomes the bare marker even when another secret lies inside it. |
| `Redaction.NothingToHide` | crates/gum-runner/src/execution.rs:336-342 | A text in which no secret occurs is shown as it is. |
| `Redaction.SortIsPermutation` | crates/gum-runner/src/execution.rs:334-334 | Sorting by byte length neither drops nor adds a secret. |

## Left out

- RateWindow.RateLimitsAreKept: takes one definition per pool, and redeploys that tighten no rate of an existing job - lower no limit, lengthen no window, change no pool - as premises; a redeploy may do either (crates/gum-store/src/memory.rs:455-479). The service's share of the first premise is `Service.ValidatedDeployKeepsPools`, and `Service.FittingDeploysKeepRates` puts the two together.
- Capacity.CapacityIsKept: takes sizes that are never tightened as a premise; a redeploy can grow a job and a heartbeat can shrink a runner below what is already placed.
- PgCapacity.PgNoTwoLiveAttempts: takes terminal reports as a premise, because a completion that reports anything else commits; `PgSafety.StepKeepsSoundExactly` says that this is the only step that breaks the links.
- PgCapacity.PgCapacityIsKept: says nothing of job concurrency and rate limits, for which the code locks no row, nor of deadlocks, which Postgres ends by rolling a transaction back.
- Schedule.RecurringDueTimes: requires a time below the largest 64-bit one, where the interval loop does not end.
- Renewal.TimelyRunnerKeepsAttempt: is about a runner that stays registered with the same settings and a clock below the largest 64-bit time.
- Renewal.HeartbeatLoopKeepsAttempt: covers the time while the loop goes on; the runner stops its heartbeats before it sends logs and the completion, and nothing makes it send one before it leases, so the time since the last beat before the grant is a premise.
- PgHealth.PgHealthTellsTheHistory: takes terminal reports and completions that do not overlap as premises; `PgHealth.OverlapLosesFailure` is what happens otherwise.
- ProviderHealth.RecordTellsHistory: bounds the degraded score from above only, because it can go negative.
- ProviderHealth.ProviderTable.ApplyProbe: reads and replaces a record in one go; probes that replace a record read earlier are `ProviderHealth.StaleProbeExactly` and `ProviderHealth.StaleProbeTimesExactly`.
- Waiting.ListRateLimitStatus: lists the statuses in the order of the visit, where the code sorts them by kind and key.
- Store.MemoryStore.CompleteAttempt: keeps the invariant for terminal statuses and parseable specs, which is exactly where it is kept.
- Recovery requeues a run whose cancellation was requested, and a heartbeat revives an expired lease that was not yet recovered; the model does both and claims neither is prevented.
- One call reads the clock once in the model, where the code reads it several times; finish times differ by that much.
- Additions that the code leaves unchecked (`retries + 1`, `now + delay`, lease seconds times 1000) are unbounded here; saturating ones saturate.
- The sums of active cpu and memory are unbounded here, where the in-memory store adds in 32 bits; window starts are plain differences, where the code saturates.
- The Postgres store counts a pool's starts by the text before the first colon of a spec, the parser by the last; rate limits are not part of the Postgres model.
- The hash behind the jitter is any number; failure messages, log lines and JSON payloads are left out of the records.
- Calendar arithmetic of the time-zone library: local time is an arbitrary function of the instant. An interval whose last character is not ASCII makes the code panic; the model answers an error.
- Raw writes of function and provider health (`set_function_health`, `set_provider_health` with made-up values) are not steps of a trace.
- PgAlone.FittingRunCanBeLeased: leaves rate limits aside, which the Postgres model does not count.
- In Postgres the run keys' advisory lock, provider-health rows, and rate limits; enqueue, replay and ticks are single inserts of a queued run. The unique index on run and attempt number is not modelled; it does not stop the second attempt of `PgSafety.RunningCompletionDoublesUp`, whose number is new.
- The loop that runs the HTTP probes, probe configuration and `probe_due`.
- Deploy status, log, recent-run and lease listings, control leases and runtime preparation.
- HTTP handlers, clients, the command line, the terminal UI, bundles, process spawning, virtual environments and secret encryption.
