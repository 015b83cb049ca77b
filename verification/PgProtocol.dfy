/**
 The Postgres store: the same calls, but each one a transaction of several statements
 that interleaves with the others. A statement reads what is committed at that moment; a
 row locked FOR UPDATE stays locked until its transaction ends; writes take effect when
 it commits. Every step below is one statement, or one lock that a statement takes on its
 way; any transaction may take the next step, and any may be rolled back at any time. A
 query that locks its rows one by one judges the tables it does not lock by the snapshot
 it started from.

 Proved for every interleaving in which completions report terminal statuses: the
 committed records keep the invariant of the in-memory store, every row a transaction
 has locked is still as it read it, and the runner row lock alone keeps each runner
 within its slots, cpu and memory. Nothing in a completion checks its status, and with
 any other status the invariant is lost.
 */
module PgProtocol {
  import opened Domain
  import opened RetryPolicy
  import opened Loads
  import opened Transitions
  import opened Invariant

  datatype Row =
    | RunnerRow(runnerId: string)
    | RunRow(runId: Id)
    | AttemptRow(attemptId: Id)
    | LeaseRow(leaseId: Id)
    | HealthRow(jobId: string)

  type TxId = nat

  /** How far a leasing transaction has come with its checks. */
  datatype LeasePhase =
    | Counting
    | Counted
    | Scanning
    | JobRead(run: Run, job: Job)
    | CpuFits(run: Run, job: Job)
    | Chosen(run: Run, job: Job)
  {
    predicate ForRun() { JobRead? || CpuFits? || Chosen? }
  }

  /** What a completion has read of its job's health, without a lock, and will write. */
  datatype HealthSignal = HealthSignal(read: Option<FunctionHealth>, signaled: FunctionHealth, written: bool)

  /** An open transaction: the call it serves and the rows it has read under lock. */
  datatype Tx =
    | Leasing(runner: Runner, snapshot: MemoryState, asOf: Millis, seen: map<Id, Run>, phase: LeasePhase)
    | Completing(p: CompleteParams, attempt: Attempt, lease: Option<Lease>, now: Millis, run: Option<Run>,
                 signal: Option<HealthSignal>)
    | Recovering(at: Millis, runners: map<string, Runner>, taken: set<Id>, lostRuns: map<Id, Run>)
    | Beating(beat: RunnerParams, renewed: set<Id>)
    | Canceling(target: Run, marked: Option<Attempt>, revoked: bool)

  datatype Db = Db(state: MemoryState, locks: map<Row, TxId>, txs: map<TxId, Tx>)

  predicate Holds(db: Db, row: Row, id: TxId) { row in db.locks && db.locks[row] == id }

  predicate Free(db: Db, row: Row, id: TxId) { row in db.locks ==> db.locks[row] == id }

  function Ended(db: Db, id: TxId, state: MemoryState): Db {
    Db(state, map row | row in db.locks && db.locks[row] != id :: db.locks[row], db.txs - {id})
  }

  predicate IsLeasing(db: Db, id: TxId) { id in db.txs && db.txs[id].Leasing? }

  predicate IsCompleting(db: Db, id: TxId) { id in db.txs && db.txs[id].Completing? }

  predicate IsRecovering(db: Db, id: TxId) { id in db.txs && db.txs[id].Recovering? }

  predicate IsBeating(db: Db, id: TxId) { id in db.txs && db.txs[id].Beating? }

  predicate IsCanceling(db: Db, id: TxId) { id in db.txs && db.txs[id].Canceling? }

  // ----- lease_next_attempt -----

  predicate BeginLease(db: Db, id: TxId, w: string, after: Db) {
    && id !in db.txs && w in db.state.runners && RunnerRow(w) !in db.locks
    && after == Db(db.state, db.locks[RunnerRow(w) := id],
                   db.txs[id := Leasing(db.state.runners[w], db.state, 0, map[], Counting)])
  }

  predicate CountSlots(db: Db, id: TxId, after: Db) {
    && IsLeasing(db, id) && db.txs[id].phase.Counting?
    && var tx := db.txs[id];
       after == if Load(db.state, RunnerSlots(tx.runner.id)) >= tx.runner.maxConcurrentLeases
                then Ended(db, id, db.state) else db.(txs := db.txs[id := tx.(phase := Counted)])
  }

  /** The WHERE clause of the candidate query. */
  predicate IsCandidate(s: MemoryState, run: Run, now: Millis) {
    && run.status.Queued?
    && (run.retryAfter.Some? ==> run.retryAfter.value <= now)
    && run.jobId in s.jobs && s.jobs[run.jobId].enabled && !OnHold(s, run.jobId, now)
    && var limit := s.jobs[run.jobId].concurrencyLimit;
       limit.Some? ==> Load(s, JobRunning(run.jobId)) < limit.value
  }

  /** The candidate query starts. */
  predicate QueryCandidates(db: Db, id: TxId, now: Millis, after: Db) {
    && IsLeasing(db, id) && db.txs[id].phase.Counted?
    && after == db.(txs := db.txs[id := db.txs[id].(phase := Scanning, snapshot := db.state, asOf := now)])
  }

  /** FOR UPDATE SKIP LOCKED: rows that another transaction holds are passed over. A row
      that changed since the query started is judged as it is now, everything else as it
      was then. */
  predicate LockCandidate(db: Db, id: TxId, r: Id, after: Db) {
    && IsLeasing(db, id) && db.txs[id].phase.Scanning?
    && r in db.state.runs && RunRow(r) !in db.locks
    && var tx := db.txs[id];
       && r in tx.snapshot.runs && IsCandidate(tx.snapshot, tx.snapshot.runs[r], tx.asOf)
       && IsCandidate(tx.snapshot, db.state.runs[r], tx.asOf)
       && after == Db(db.state, db.locks[RunRow(r) := id], db.txs[id := tx.(seen := tx.seen[r := db.state.runs[r]])])
  }

  /** The next candidate's job is read; a runner of another class is no use to it. */
  predicate ReadJob(db: Db, id: TxId, r: Id, after: Db) {
    && IsLeasing(db, id) && db.txs[id].phase.Scanning? && r in db.txs[id].seen
    && db.txs[id].seen[r].jobId in db.state.jobs
    && var tx := db.txs[id];
       var job := db.state.jobs[tx.seen[r].jobId];
       var suits := job.computeClass.Some? ==> tx.runner.computeClass == job.computeClass.value;
       after == if suits then db.(txs := db.txs[id := tx.(phase := JobRead(tx.seen[r], job))]) else db
  }

  predicate CheckCpu(db: Db, id: TxId, after: Db) {
    && IsLeasing(db, id) && db.txs[id].phase.JobRead?
    && var tx := db.txs[id];
       var fits := Load(db.state, RunnerCpu(tx.runner.id)) + tx.phase.job.Cpu() <= tx.runner.cpuCores;
       after == db.(txs := db.txs[id := tx.(phase := if fits then CpuFits(tx.phase.run, tx.phase.job) else Scanning)])
  }

  predicate CheckMemory(db: Db, id: TxId, after: Db) {
    && IsLeasing(db, id) && db.txs[id].phase.CpuFits?
    && var tx := db.txs[id];
       var fits := Load(db.state, RunnerMemory(tx.runner.id)) + tx.phase.job.Memory() <= tx.runner.memoryMb;
       after == db.(txs := db.txs[id := tx.(phase := if fits then Chosen(tx.phase.run, tx.phase.job) else Scanning)])
  }

  /** The rate limit refuses the chosen run and the scan goes on. */
  predicate PassOver(db: Db, id: TxId, after: Db) {
    && IsLeasing(db, id) && db.txs[id].phase.Chosen?
    && after == db.(txs := db.txs[id := db.txs[id].(phase := Scanning)])
  }

  /** The new records as the statements write them: the run is updated in place, but the
      attempt's number comes from the run as it was read. */
  function PgGrant(s: MemoryState, run: Run, w: string, expiresAt: Millis, now: Millis): Leased
    requires run.id in s.runs
  {
    Leased(LeasedRun(s.runs[run.id]),
           Attempt(s.ids + 1, run.id, run.attemptCount + 1, AttemptRunning, Some(s.ids + 2), Some(w), now, None, None, None),
           Lease(s.ids + 2, s.ids + 1, w, expiresAt, None, None, None))
  }

  predicate CommitLease(db: Db, id: TxId, expiresAt: Millis, now: Millis, after: Db) {
    && IsLeasing(db, id) && db.txs[id].phase.Chosen? && db.txs[id].phase.run.id in db.state.runs
    && var g := PgGrant(db.state, db.txs[id].phase.run, db.txs[id].runner.id, expiresAt, now);
       after == Ended(db, id, AfterGrant(db.state, g))
  }

  // ----- complete_attempt -----

  predicate AttemptPasses(attempt: Attempt, p: CompleteParams) {
    && attempt.finishedAt.None? && !attempt.status.Terminal()
    && (attempt.cancelRequestedAt.Some? ==> p.status.AttemptCanceled?)
    && attempt.runnerId == Some(p.runnerId) && attempt.leaseId.Some?
  }

  /** Nothing here or later looks at the status that is reported. */
  predicate BeginComplete(db: Db, id: TxId, p: CompleteParams, after: Db) {
    && id !in db.txs && p.attemptId in db.state.attempts && AttemptRow(p.attemptId) !in db.locks
    && AttemptPasses(db.state.attempts[p.attemptId], p)
    && after == Db(db.state, db.locks[AttemptRow(p.attemptId) := id],
                   db.txs[id := Completing(p, db.state.attempts[p.attemptId], None, 0, None, None)])
  }

  predicate LockLease(db: Db, id: TxId, now: Millis, after: Db) {
    && IsCompleting(db, id) && db.txs[id].lease.None? && db.txs[id].attempt.leaseId.Some?
    && var l := db.txs[id].attempt.leaseId.value;
       && l in db.state.leases && LeaseRow(l) !in db.locks
       && db.state.leases[l].Open() && db.state.leases[l].expiresAt > now
       && after == Db(db.state, db.locks[LeaseRow(l) := id],
                      db.txs[id := db.txs[id].(lease := Some(db.state.leases[l]), now := now)])
  }

  predicate LockRun(db: Db, id: TxId, after: Db) {
    && IsCompleting(db, id) && db.txs[id].lease.Some? && db.txs[id].run.None?
    && var r := db.txs[id].attempt.runId;
       && r in db.state.runs && RunRow(r) !in db.locks
       && after == Db(db.state, db.locks[RunRow(r) := id], db.txs[id := db.txs[id].(run := Some(db.state.runs[r]))])
  }

  /** The job's health is read without a lock; a job that can not be read ends the call. */
  predicate ReadHealth(db: Db, id: TxId, after: Db) {
    && IsCompleting(db, id) && db.txs[id].run.Some? && db.txs[id].signal.None?
    && var tx := db.txs[id];
       var jobId := tx.run.value.jobId;
       && jobId in db.state.jobs && Parses(db.state.jobs[jobId].rateLimitSpec)
       && var read := HealthOf(db.state, jobId);
          var signaled := AfterSignal(read, jobId, tx.p.failureClass, tx.p.status, tx.now);
          after == db.(txs := db.txs[id := tx.(signal := Some(HealthSignal(read, signaled, false)))])
  }

  /** The upsert of the health record locks its row until the end. */
  predicate WriteHealth(db: Db, id: TxId, after: Db) {
    && IsCompleting(db, id) && db.txs[id].run.Some? && db.txs[id].signal.Some? && !db.txs[id].signal.value.written
    && var tx := db.txs[id];
       var row := HealthRow(tx.run.value.jobId);
       && row !in db.locks
       && after == Db(db.state, db.locks[row := id],
                      db.txs[id := tx.(signal := Some(tx.signal.value.(written := true)))])
  }

  predicate ReadyToCommit(s: MemoryState, tx: Tx) {
    && tx.Completing? && tx.lease.Some? && tx.run.Some? && tx.signal.Some? && tx.signal.value.written
    && tx.p.attemptId in s.attempts && tx.lease.value.id in s.leases && tx.run.value.id in s.runs
  }

  function PgDisposition(tx: Tx, hash: nat): Disposition
    requires tx.Completing? && tx.run.Some? && tx.signal.Some?
  {
    ComputeDisposition(tx.run.value.attemptCount, tx.run.value.maxAttempts, tx.p.status, tx.p.failureClass,
                       Some(tx.signal.value.signaled), hash, tx.now)
  }

  /** What the completing statements write; the disposition follows the run and the health
      as they were read. */
  function PgFinished(s: MemoryState, tx: Tx, hash: nat): MemoryState
    requires ReadyToCommit(s, tx)
  {
    var a, l, r := tx.p.attemptId, tx.lease.value.id, tx.run.value.id;
    s.(attempts := s.attempts[a := FinishedAttempt(s.attempts[a], tx.p, tx.now)],
       leases := s.leases[l := s.leases[l].(ackedAt := Some(tx.now), releasedAt := Some(tx.now))],
       runs := s.runs[r := DisposedRun(s.runs[r], PgDisposition(tx, hash))],
       health := s.health[tx.run.value.jobId := tx.signal.value.signaled])
  }

  predicate CommitComplete(db: Db, id: TxId, hash: nat, after: Db) {
    && id in db.txs && ReadyToCommit(db.state, db.txs[id])
    && after == Ended(db, id, PgFinished(db.state, db.txs[id], hash))
  }

  // ----- recover_lost_attempts -----

  predicate BeginRecovery(db: Db, id: TxId, at: Millis, after: Db) {
    id !in db.txs && after == db.(txs := db.txs[id := Recovering(at, db.state.runners, {}, map[])])
  }

  /** One joined row of attempt, run and lease, locked together or skipped. Runners are not
      locked: they are judged by the snapshot, whatever they have reported since. */
  predicate LockLost(db: Db, id: TxId, a: Id, after: Db) {
    && IsRecovering(db, id) && a in db.state.attempts
    && Lost(db.state.(runners := db.txs[id].runners), db.state.attempts[a], db.txs[id].at)
    && var attempt, tx := db.state.attempts[a], db.txs[id];
       && attempt.runId in db.state.runs
       && AttemptRow(a) !in db.locks && RunRow(attempt.runId) !in db.locks && LeaseRow(attempt.leaseId.value) !in db.locks
       && after == Db(db.state,
                      db.locks[AttemptRow(a) := id][RunRow(attempt.runId) := id][LeaseRow(attempt.leaseId.value) := id],
                      db.txs[id := tx.(taken := tx.taken + {a},
                                       lostRuns := tx.lostRuns[attempt.runId := db.state.runs[attempt.runId]])])
  }

  /** Whether a lost run is retried follows the run as it was read. */
  function PgTaken(s: MemoryState, tx: Tx): MemoryState
    requires tx.Recovering?
  {
    TakeAttempts(s, tx.taken, tx.at).(
      runs := map r | r in s.runs :: if r in tx.lostRuns
                                     then AfterLoss(s.runs[r], tx.lostRuns[r].attemptCount < tx.lostRuns[r].maxAttempts)
                                     else s.runs[r])
  }

  predicate CommitRecovery(db: Db, id: TxId, after: Db) {
    IsRecovering(db, id) && after == Ended(db, id, PgTaken(db.state, db.txs[id]))
  }

  // ----- heartbeat_runner and register_runner -----

  predicate BeginBeat(db: Db, id: TxId, p: RunnerParams, after: Db) {
    && id !in db.txs && RunnerRow(p.runnerId) !in db.locks
    && after == Db(db.state, db.locks[RunnerRow(p.runnerId) := id], db.txs[id := Beating(p, {})])
  }

  predicate Renew(db: Db, id: TxId, l: Id, after: Db) {
    && IsBeating(db, id) && l in db.state.leases && db.state.leases[l].runnerId == db.txs[id].beat.runnerId
    && Free(db, LeaseRow(l), id)
    && var tx := db.txs[id];
       after == Db(db.state, db.locks[LeaseRow(l) := id],
                   db.txs[id := if db.state.leases[l].Open() then tx.(renewed := tx.renewed + {l}) else tx])
  }

  function PgBeaten(s: MemoryState, tx: Tx, expiresAt: Millis, now: Millis): MemoryState
    requires tx.Beating?
  {
    s.(runners := s.runners[tx.beat.runnerId := RunnerFrom(tx.beat, now)],
       leases := map l | l in s.leases :: if l in tx.renewed then s.leases[l].(expiresAt := expiresAt) else s.leases[l])
  }

  predicate CommitBeat(db: Db, id: TxId, expiresAt: Millis, now: Millis, after: Db) {
    IsBeating(db, id) && after == Ended(db, id, PgBeaten(db.state, db.txs[id], expiresAt, now))
  }

  // ----- cancel_run -----

  predicate BeginCancel(db: Db, id: TxId, r: Id, after: Db) {
    && id !in db.txs && r in db.state.runs && RunRow(r) !in db.locks && !db.state.runs[r].status.Terminal()
    && after == Db(db.state, db.locks[RunRow(r) := id], db.txs[id := Canceling(db.state.runs[r], None, false)])
  }

  predicate LockRunning(db: Db, id: TxId, a: Id, after: Db) {
    && IsCanceling(db, id) && db.txs[id].target.status.Running? && db.txs[id].marked.None?
    && a in db.state.attempts && RunsFor(db.state.attempts[a], db.txs[id].target.id) && AttemptRow(a) !in db.locks
    && after == Db(db.state, db.locks[AttemptRow(a) := id],
                   db.txs[id := db.txs[id].(marked := Some(db.state.attempts[a]))])
  }

  predicate LockRevoked(db: Db, id: TxId, after: Db) {
    && IsCanceling(db, id) && db.txs[id].marked.Some? && !db.txs[id].revoked
    && db.txs[id].marked.value.leaseId.Some?
    && var l := db.txs[id].marked.value.leaseId.value;
       && l in db.state.leases && LeaseRow(l) !in db.locks
       && after == Db(db.state, db.locks[LeaseRow(l) := id], db.txs[id := db.txs[id].(revoked := true)])
  }

  function PgCanceled(s: MemoryState, tx: Tx, at: Millis): MemoryState
    requires tx.Canceling? && tx.target.id in s.runs
  {
    if tx.target.status.Queued? then
      s.(runs := s.runs[tx.target.id := s.runs[tx.target.id].(status := Canceled)])
    else if tx.marked.Some? && tx.marked.value.id in s.attempts && tx.revoked
            && tx.marked.value.leaseId.Some? && tx.marked.value.leaseId.value in s.leases then
      var a, l := tx.marked.value.id, tx.marked.value.leaseId.value;
      s.(attempts := s.attempts[a := s.attempts[a].(cancelRequestedAt := Some(at))],
         leases := s.leases[l := s.leases[l].(revokeRequestedAt := Some(at))])
    else s
  }

  /** A running run is only canceled with its attempt and lease in hand. */
  predicate CommitCancel(db: Db, id: TxId, at: Millis, after: Db) {
    && IsCanceling(db, id) && db.txs[id].target.id in db.state.runs
    && (db.txs[id].target.status.Running? ==> db.txs[id].revoked)
    && after == Ended(db, id, PgCanceled(db.state, db.txs[id], at))
  }

  // ----- Steps -----

  /** Single statements that need no lock are steps of their own: inserting a queued run
      (enqueue, replay, schedule tick) and writing the jobs of a deploy. */
  datatype PgStep =
    | BeginLeaseStep(id: TxId, runnerId: string)
    | CountSlotsStep(id: TxId)
    | QueryCandidatesStep(id: TxId, now: Millis)
    | LockCandidateStep(id: TxId, runId: Id)
    | ReadJobStep(id: TxId, runId: Id)
    | CheckCpuStep(id: TxId)
    | CheckMemoryStep(id: TxId)
    | PassOverStep(id: TxId)
    | CommitLeaseStep(id: TxId, expiresAt: Millis, now: Millis)
    | BeginCompleteStep(id: TxId, p: CompleteParams)
    | LockLeaseStep(id: TxId, now: Millis)
    | LockRunStep(id: TxId)
    | ReadHealthStep(id: TxId)
    | WriteHealthStep(id: TxId)
    | CommitCompleteStep(id: TxId, hash: nat)
    | BeginRecoveryStep(id: TxId, now: Millis)
    | LockLostStep(id: TxId, attemptId: Id)
    | CommitRecoveryStep(id: TxId)
    | BeginBeatStep(id: TxId, beat: RunnerParams)
    | RenewStep(id: TxId, leaseId: Id)
    | CommitBeatStep(id: TxId, expiresAt: Millis, now: Millis)
    | BeginCancelStep(id: TxId, runId: Id)
    | LockRunningStep(id: TxId, attemptId: Id)
    | LockRevokedStep(id: TxId)
    | CommitCancelStep(id: TxId, now: Millis)
    | LockMoreStep(id: TxId, row: Row)
    | RollBackStep(id: TxId)
    | InsertRunStep(run: Run)
    | WriteJobsStep(jobs: map<string, Job>)
  {
    predicate Commits() {
      CommitLeaseStep? || CommitCompleteStep? || CommitRecoveryStep? || CommitBeatStep? || CommitCancelStep?
    }

    predicate Writes() { Commits() || InsertRunStep? || WriteJobsStep? }

    function Actor(): Option<TxId> { if InsertRunStep? || WriteJobsStep? then None else Some(id) }
  }

  /** Locks taken on the way that no check depends on. */
  predicate LockMore(db: Db, id: TxId, row: Row, after: Db) {
    id in db.txs && row !in db.locks && after == db.(locks := db.locks[row := id])
  }

  predicate RollBack(db: Db, id: TxId, after: Db) { id in db.txs && after == Ended(db, id, db.state) }

  predicate InsertRun(db: Db, run: Run, after: Db) {
    && run.id == db.state.ids + 1 && run.status.Queued? && run.attemptCount == 0 && 1 <= run.maxAttempts
    && run.jobId in db.state.jobs
    && after == db.(state := db.state.(ids := db.state.ids + 1, runs := db.state.runs[run.id := run]))
  }

  predicate WriteJobs(db: Db, jobs: map<string, Job>, after: Db) {
    && db.state.jobs.Keys <= jobs.Keys && (forall j :: j in jobs ==> jobs[j].id == j)
    && after == db.(state := db.state.(jobs := jobs))
  }

  predicate PgNext(db: Db, step: PgStep, after: Db) {
    match step
    case BeginLeaseStep(id, w) => BeginLease(db, id, w, after)
    case CountSlotsStep(id) => CountSlots(db, id, after)
    case QueryCandidatesStep(id, now) => QueryCandidates(db, id, now, after)
    case LockCandidateStep(id, r) => LockCandidate(db, id, r, after)
    case ReadJobStep(id, r) => ReadJob(db, id, r, after)
    case CheckCpuStep(id) => CheckCpu(db, id, after)
    case CheckMemoryStep(id) => CheckMemory(db, id, after)
    case PassOverStep(id) => PassOver(db, id, after)
    case CommitLeaseStep(id, expiresAt, now) => CommitLease(db, id, expiresAt, now, after)
    case BeginCompleteStep(id, p) => BeginComplete(db, id, p, after)
    case LockLeaseStep(id, now) => LockLease(db, id, now, after)
    case LockRunStep(id) => LockRun(db, id, after)
    case ReadHealthStep(id) => ReadHealth(db, id, after)
    case WriteHealthStep(id) => WriteHealth(db, id, after)
    case CommitCompleteStep(id, hash) => CommitComplete(db, id, hash, after)
    case BeginRecoveryStep(id, now) => BeginRecovery(db, id, now, after)
    case LockLostStep(id, a) => LockLost(db, id, a, after)
    case CommitRecoveryStep(id) => CommitRecovery(db, id, after)
    case BeginBeatStep(id, p) => BeginBeat(db, id, p, after)
    case RenewStep(id, l) => Renew(db, id, l, after)
    case CommitBeatStep(id, expiresAt, now) => CommitBeat(db, id, expiresAt, now, after)
    case BeginCancelStep(id, r) => BeginCancel(db, id, r, after)
    case LockRunningStep(id, a) => LockRunning(db, id, a, after)
    case LockRevokedStep(id) => LockRevoked(db, id, after)
    case CommitCancelStep(id, now) => CommitCancel(db, id, now, after)
    case LockMoreStep(id, row) => LockMore(db, id, row, after)
    case RollBackStep(id) => RollBack(db, id, after)
    case InsertRunStep(run) => InsertRun(db, run, after)
    case WriteJobsStep(jobs) => WriteJobs(db, jobs, after)
  }

  /** A completion that commits reports a terminal status, as gum's runner does. */
  predicate ReportsTerminal(db: Db, step: PgStep) {
    step.CommitCompleteStep? && IsCompleting(db, step.id) ==> db.txs[step.id].p.status.Terminal()
  }
}
