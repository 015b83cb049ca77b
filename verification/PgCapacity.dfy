/**
 The runner row lock: under every interleaving no runner is given more than its slots,
 cpu and memory, although the three checks and the commit are separate steps. And what
 whole runs of the database promise as long as completions report terminal statuses.
 */
module PgCapacity {
  import opened Domain
  import opened RetryPolicy
  import opened Loads
  import opened Transitions
  import opened Invariant
  import opened Steps
  import opened Capacity
  import opened PgProtocol
  import opened PgSafety

  predicate WithinSizes(s: MemoryState, runner: Runner) {
    && Load(s, RunnerSlots(runner.id)) <= runner.maxConcurrentLeases
    && Load(s, RunnerCpu(runner.id)) <= runner.cpuCores
    && Load(s, RunnerMemory(runner.id)) <= runner.memoryMb
  }

  ghost predicate AllWithinSizes(s: MemoryState) {
    && (forall w {:trigger WithinSizes(s, s.runners[w])} :: w in s.runners ==> WithinSizes(s, s.runners[w]))
    && RunnersKnown(s)
  }

  // ----- What the checks of a leasing transaction established still holds -----

  predicate SlotLeft(s: MemoryState, runner: Runner) {
    Load(s, RunnerSlots(runner.id)) < runner.maxConcurrentLeases
  }

  predicate CpuLeft(s: MemoryState, runner: Runner, job: Job) {
    Load(s, RunnerCpu(runner.id)) + job.Cpu() <= runner.cpuCores
  }

  predicate MemoryLeft(s: MemoryState, runner: Runner, job: Job) {
    Load(s, RunnerMemory(runner.id)) + job.Memory() <= runner.memoryMb
  }

  predicate JobStillFits(s: MemoryState, job: Job) { job.id in s.jobs && JobNotGrown(job, s.jobs[job.id]) }

  predicate RoomLeft(s: MemoryState, tx: Tx) {
    tx.Leasing? ==>
      && (!tx.phase.Counting? ==> SlotLeft(s, tx.runner))
      && (tx.phase.ForRun() ==> JobStillFits(s, tx.phase.job))
      && (tx.phase.CpuFits? || tx.phase.Chosen? ==> CpuLeft(s, tx.runner, tx.phase.job))
      && (tx.phase.Chosen? ==> MemoryLeft(s, tx.runner, tx.phase.job))
  }

  ghost predicate AllRoomLeft(db: Db) {
    forall id {:trigger RoomLeft(db.state, db.txs[id])} :: id in db.txs ==> RoomLeft(db.state, db.txs[id])
  }

  ghost predicate LoadsFall(s: MemoryState, t: MemoryState, w: string) {
    && Load(t, RunnerSlots(w)) <= Load(s, RunnerSlots(w))
    && Load(t, RunnerCpu(w)) <= Load(s, RunnerCpu(w))
    && Load(t, RunnerMemory(w)) <= Load(s, RunnerMemory(w))
  }

  /** The step gives work to the runner. */
  predicate GrantsTo(db: Db, step: PgStep, w: string) {
    step.CommitLeaseStep? && IsLeasing(db, step.id) && db.txs[step.id].runner.id == w
  }

  lemma RoomStays(s: MemoryState, t: MemoryState, tx: Tx)
    requires RoomLeft(s, tx) && tx.Leasing? && LoadsFall(s, t, tx.runner.id) && JobsNotGrown(s, t)
    ensures RoomLeft(t, tx)
  {
    hide Load;
    if tx.phase.ForRun() {
      assert JobNotGrown(s.jobs[tx.phase.job.id], t.jobs[tx.phase.job.id]);
    }
  }

  // ----- Loads over a step -----

  /** Only the commit of a lease adds an attempt. */
  lemma AttemptsStay(db: Db, step: PgStep, after: Db)
    requires Sound(db) && PgNext(db, step, after) && !step.CommitLeaseStep?
    ensures after.state.attempts.Keys == db.state.attempts.Keys
  {
    if !step.Writes() {
      hide Inv, AllReadsCurrent, PgNext;
      QuietStep(db, step, after);
    } else {
      hide Inv, AllReadsCurrent, PgNext;
      WritesKeepAttempts(db, step, after);
    }
  }

  lemma WritesKeepAttempts(db: Db, step: PgStep, after: Db)
    requires PgNext(db, step, after) && step.Writes() && !step.CommitLeaseStep?
    ensures after.state.attempts.Keys == db.state.attempts.Keys
  {
    hide PgFinished, PgTaken, PgCanceled;
    hide BeginLease, CountSlots, QueryCandidates, LockCandidate, ReadJob, CheckCpu, CheckMemory, PassOver, BeginComplete,
      LockLease, LockRun, ReadHealth, WriteHealth, CommitLease, BeginRecovery, LockLost, BeginBeat, Renew, BeginCancel,
      LockRunning, LockRevoked, LockMore, RollBack;
    match step
    case CommitCompleteStep(id, hash) => FinishedKeepsAttempts(db.state, db.txs[id], hash);
    case CommitRecoveryStep(id) => TakenKeepsAttempts(db.state, db.txs[id]);
    case CommitCancelStep(id, at) => CanceledKeepsAttempts(db.state, db.txs[id], at);
    case CommitBeatStep(_, _, _) =>
    case InsertRunStep(_) =>
    case WriteJobsStep(_) =>
  }

  lemma FinishedKeepsAttempts(s: MemoryState, tx: Tx, hash: nat)
    requires ReadyToCommit(s, tx)
    ensures PgFinished(s, tx, hash).attempts.Keys == s.attempts.Keys
  {
    hide PgDisposition;
  }

  lemma TakenKeepsAttempts(s: MemoryState, tx: Tx)
    requires tx.Recovering?
    ensures PgTaken(s, tx).attempts.Keys == s.attempts.Keys
  {
    hide RunTaken, LeaseTaken;
  }

  lemma CanceledKeepsAttempts(s: MemoryState, tx: Tx, at: Millis)
    requires tx.Canceling? && tx.target.id in s.runs
    ensures PgCanceled(s, tx, at).attempts.Keys == s.attempts.Keys
  {}

  lemma LoadsFallWithoutGrant(s: MemoryState, t: MemoryState, w: string)
    requires Inv(s) && Inv(t) && Evolves(s, t) && JobsNotGrown(s, t) && t.attempts.Keys == s.attempts.Keys
    ensures LoadsFall(s, t, w)
  {
    hide Inv, Evolves, JobsNotGrown, Load;
    OccupancyFalls(s, t, RunnerSlots(w));
    OccupancyFalls(s, t, RunnerCpu(w));
    OccupancyFalls(s, t, RunnerMemory(w));
  }

  lemma LoadsAfterGrant(s: MemoryState, g: Leased, w: string)
    requires Inv(s) && GrantFits(s, g)
    ensures var t := AfterGrant(s, g);
      && Load(t, RunnerSlots(w)) <= Load(s, RunnerSlots(w)) + AttemptWeight(t, RunnerSlots(w), g.attempt)
      && Load(t, RunnerCpu(w)) <= Load(s, RunnerCpu(w)) + AttemptWeight(t, RunnerCpu(w), g.attempt)
      && Load(t, RunnerMemory(w)) <= Load(s, RunnerMemory(w)) + AttemptWeight(t, RunnerMemory(w), g.attempt)
  {
    hide Inv, GrantFits, Load, AttemptWeight, AfterGrant;
    GrantFitsKeepsInv(s, g);
    OccupancyAfterGrant(s, g, AfterGrant(s, g), RunnerSlots(w));
    OccupancyAfterGrant(s, g, AfterGrant(s, g), RunnerCpu(w));
    OccupancyAfterGrant(s, g, AfterGrant(s, g), RunnerMemory(w));
  }

  lemma GrantElsewhere(s: MemoryState, g: Leased, w: string)
    requires Inv(s) && GrantFits(s, g) && g.attempt.runnerId != Some(w)
    ensures LoadsFall(s, AfterGrant(s, g), w)
  {
    hide Inv, GrantFits, Load;
    LoadsAfterGrant(s, g, w);
  }

  lemma LoadsFallElsewhere(db: Db, step: PgStep, after: Db, w: string)
    requires Sound(db) && PgNext(db, step, after) && ReportsTerminal(db, step) && JobsNotGrown(db.state, after.state)
    requires !GrantsTo(db, step, w)
    ensures LoadsFall(db.state, after.state, w)
  {
    hide Inv, AllReadsCurrent, Load, LoadsFall, Evolves, JobsNotGrown, GrantFits;
    if step.CommitLeaseStep? {
      OneReads(db, step.id);
      ChosenFits(db, step.id, step.expiresAt, step.now);
      GrantElsewhere(db.state, PgGrant(db.state, db.txs[step.id].phase.run, db.txs[step.id].runner.id, step.expiresAt, step.now), w);
    } else {
      AttemptsStay(db, step, after);
      StepKeepsStateSound(db, step, after);
      LoadsFallWithoutGrant(db.state, after.state, w);
    }
  }

  // ----- Room left over a step -----

  /** Two transactions never lease for one runner at the same time. */
  lemma OneLeasePerRunner(db: Db, i: TxId, k: TxId)
    requires AllReadsCurrent(db) && IsLeasing(db, i) && IsLeasing(db, k)
    requires db.txs[i].runner.id == db.txs[k].runner.id
    ensures i == k
  {
    assert ReadsCurrent(db, i) && ReadsCurrent(db, k);
  }

  lemma ActorRoom(db: Db, step: PgStep, after: Db)
    requires Sound(db) && AllRoomLeft(db) && PgNext(db, step, after) && !step.Writes() && step.id in after.txs
    ensures RoomLeft(after.state, after.txs[step.id])
  {
    hide Inv, AllReadsCurrent, PgNext, RoomLeft;
    if step.ReadJobStep? {
      JobReadRoom(db, step.id, step.runId, after);
    } else {
      ActorRoomElsewhere(db, step, after);
    }
  }

  lemma JobReadRoom(db: Db, id: TxId, r: Id, after: Db)
    requires Sound(db) && AllRoomLeft(db) && PgNext(db, ReadJobStep(id, r), after)
    ensures id in after.txs && RoomLeft(after.state, after.txs[id])
  {
    hide RunsOk, AttemptsOk, LeasesOk, Numbered, AllReadsCurrent, Load;
    assert RoomLeft(db.state, db.txs[id]);
  }

  lemma ActorRoomElsewhere(db: Db, step: PgStep, after: Db)
    requires AllRoomLeft(db) && PgNext(db, step, after) && !step.Writes() && step.id in after.txs
    requires !step.ReadJobStep?
    ensures RoomLeft(after.state, after.txs[step.id])
  {
    hide Load, IsCandidate, Lost;
    if step.id in db.txs { assert RoomLeft(db.state, db.txs[step.id]); }
  }

  lemma StepKeepsRoom(db: Db, step: PgStep, after: Db)
    requires Sound(db) && AllRoomLeft(db) && PgNext(db, step, after) && ReportsTerminal(db, step)
    requires JobsNotGrown(db.state, after.state)
    ensures AllRoomLeft(after)
  {
    hide Inv, AllReadsCurrent, PgNext, RoomLeft, JobsNotGrown, LoadsFall, Load;
    StepKeepsLocksOwned(db, step, after);
    forall k | k in after.txs
      ensures RoomLeft(after.state, after.txs[k])
    {
      if !step.Writes() && k == step.id {
        ActorRoom(db, step, after);
      } else {
        OtherRoom(db, step, after, k);
      }
    }
  }

  lemma OtherRoom(db: Db, step: PgStep, after: Db, k: TxId)
    requires Sound(db) && AllRoomLeft(db) && PgNext(db, step, after) && ReportsTerminal(db, step)
    requires JobsNotGrown(db.state, after.state)
    requires k in db.txs && step.Actor() != Some(k)
    ensures k in after.txs && RoomLeft(after.state, after.txs[k])
  {
    hide Inv, AllReadsCurrent, PgNext, JobsNotGrown, LoadsFall, Load;
    StepSparesOthers(db, step, after, k);
    assert RoomLeft(db.state, db.txs[k]);
    if db.txs[k].Leasing? {
      var w := db.txs[k].runner.id;
      if GrantsTo(db, step, w) { OneLeasePerRunner(db, step.id, k); }
      LoadsFallElsewhere(db, step, after, w);
      RoomStays(db.state, after.state, db.txs[k]);
    }
  }

  // ----- Sizes over a step -----

  lemma GrantStaysWithin(db: Db, id: TxId, expiresAt: Millis, now: Millis, after: Db)
    requires Sound(db) && AllRoomLeft(db) && AllWithinSizes(db.state) && CommitLease(db, id, expiresAt, now, after)
    ensures AllWithinSizes(after.state)
  {
    hide RunsOk, AttemptsOk, LeasesOk, Numbered, AllReadsCurrent, Load;
    OneReads(db, id);
    assert RoomLeft(db.state, db.txs[id]);
    ChosenFits(db, id, expiresAt, now);
    var s, t, tx := db.state, after.state, db.txs[id];
    var g := PgGrant(s, tx.phase.run, tx.runner.id, expiresAt, now);
    forall w | w in t.runners
      ensures WithinSizes(t, t.runners[w])
    {
      assert WithinSizes(s, s.runners[w]);
      LoadsAfterGrant(s, g, w);
      GrantWeights(s, g, tx.phase.run, tx.phase.job, w);
    }
  }

  /** What the new attempt weighs. */
  lemma GrantWeights(s: MemoryState, g: Leased, run: Run, job: Job, w: string)
    requires GrantFits(s, g) && s.runs[g.attempt.runId] == run && run.jobId == job.id && JobStillFits(s, job)
    ensures var t := AfterGrant(s, g);
      && AttemptWeight(t, RunnerSlots(w), g.attempt) <= (if g.attempt.runnerId == Some(w) then 1 else 0)
      && AttemptWeight(t, RunnerCpu(w), g.attempt) <= (if g.attempt.runnerId == Some(w) then job.Cpu() else 0)
      && AttemptWeight(t, RunnerMemory(w), g.attempt) <= (if g.attempt.runnerId == Some(w) then job.Memory() else 0)
  {}

  lemma WithinWithoutGrant(s: MemoryState, t: MemoryState)
    requires Inv(s) && Inv(t) && Evolves(s, t) && AllWithinSizes(s)
    requires JobsNotGrown(s, t) && RunnersNotShrunk(s, t) && t.attempts.Keys == s.attempts.Keys
    ensures AllWithinSizes(t)
  {
    hide RunsOk, AttemptsOk, LeasesOk, Numbered, JobsNotGrown, Load;
    forall w | w in t.runners
      ensures WithinSizes(t, t.runners[w])
    {
      LoadsFallWithoutGrant(s, t, w);
      if w in s.runners {
        assert WithinSizes(s, s.runners[w]) && RunnerNotTightened(s.runners[w], t.runners[w]);
      } else {
        UnknownRunnerIsIdle(s, w);
      }
    }
    forall a | a in t.attempts
      ensures t.attempts[a].runnerId.Some? && t.attempts[a].runnerId.value in t.runners
    {
      assert AttemptEvolves(s.attempts[a], t.attempts[a]);
    }
  }

  lemma StepKeepsWithinSizes(db: Db, step: PgStep, after: Db)
    requires Sound(db) && AllRoomLeft(db) && AllWithinSizes(db.state) && PgNext(db, step, after) && ReportsTerminal(db, step)
    requires JobsNotGrown(db.state, after.state) && RunnersNotShrunk(db.state, after.state)
    ensures AllWithinSizes(after.state)
  {
    hide Inv, AllReadsCurrent, AllRoomLeft, AllWithinSizes, JobsNotGrown, RunnersNotShrunk, Load, Evolves;
    if step.CommitLeaseStep? {
      GrantStaysWithin(db, step.id, step.expiresAt, step.now, after);
    } else {
      AttemptsStay(db, step, after);
      StepKeepsStateSound(db, step, after);
      WithinWithoutGrant(db.state, after.state);
    }
  }

  // ----- Whole runs -----

  datatype PgTrace = PgTrace(dbs: seq<Db>, steps: seq<PgStep>)

  /** Any interleaving of transactions, from the empty database with none open. */
  ghost predicate IsPgTrace(tr: PgTrace) {
    && |tr.dbs| == |tr.steps| + 1
    && tr.dbs[0] == Db(EMPTY, map[], map[])
    && forall i {:trigger PgStepAt(tr, i)} :: 0 <= i < |tr.steps| ==> PgStepAt(tr, i)
  }

  predicate PgStepAt(tr: PgTrace, i: int)
    requires |tr.dbs| == |tr.steps| + 1
  {
    0 <= i < |tr.steps| ==> PgNext(tr.dbs[i], tr.steps[i], tr.dbs[i + 1])
  }

  /** Up to step `i` every completion that commits reports a terminal status. */
  ghost predicate AllTerminal(tr: PgTrace, i: int)
    requires |tr.dbs| == |tr.steps| + 1
  {
    forall k {:trigger TerminalAt(tr, k)} :: 0 <= k < i ==> TerminalAt(tr, k)
  }

  predicate TerminalAt(tr: PgTrace, k: int)
    requires |tr.dbs| == |tr.steps| + 1
  {
    0 <= k < |tr.steps| ==> ReportsTerminal(tr.dbs[k], tr.steps[k])
  }

  lemma {:induction false} PgReachableIsSound(tr: PgTrace, i: nat)
    requires IsPgTrace(tr) && i < |tr.dbs| && AllTerminal(tr, i)
    ensures Sound(tr.dbs[i])
  {
    if i > 0 {
      hide Sound, PgNext;
      PgReachableIsSound(tr, i - 1);
      assert PgStepAt(tr, i - 1) && TerminalAt(tr, i - 1);
      StepKeepsSound(tr.dbs[i - 1], tr.steps[i - 1], tr.dbs[i]);
    }
  }

  /** Under every interleaving in which completions report terminal statuses a run is
      running exactly when it has a running attempt, and it never has two. */
  lemma PgNoTwoLiveAttempts(tr: PgTrace, i: nat, r: Id)
    requires IsPgTrace(tr) && i < |tr.dbs| && AllTerminal(tr, i) && r in tr.dbs[i].state.runs
    ensures var s := tr.dbs[i].state;
      && (s.runs[r].status.Running? <==> exists a :: a in s.attempts && RunsFor(s.attempts[a], r))
      && (forall a, b :: a in s.attempts && b in s.attempts && RunsFor(s.attempts[a], r) && RunsFor(s.attempts[b], r) ==> a == b)
  {
    hide IsPgTrace, AllReadsCurrent, LocksOwned;
    PgReachableIsSound(tr, i);
    RunningRunsAreLeased(tr.dbs[i].state, r);
  }

  ghost predicate SizesKeptAt(tr: PgTrace, k: int)
    requires |tr.dbs| == |tr.steps| + 1
  {
    0 <= k < |tr.steps| ==>
      JobsNotGrown(tr.dbs[k].state, tr.dbs[k + 1].state) && RunnersNotShrunk(tr.dbs[k].state, tr.dbs[k + 1].state)
  }

  ghost predicate SizesKept(tr: PgTrace, i: int)
    requires |tr.dbs| == |tr.steps| + 1
  {
    forall k {:trigger SizesKeptAt(tr, k)} :: 0 <= k < i ==> SizesKeptAt(tr, k)
  }

  /** Under every interleaving in which no size is tightened, each runner stays within
      its slots, cpu and memory. Job concurrency and rate limits are not promised: the
      code locks no row for them. */
  lemma {:induction false} PgCapacityIsKept(tr: PgTrace, i: nat)
    requires IsPgTrace(tr) && i < |tr.dbs| && AllTerminal(tr, i) && SizesKept(tr, i)
    ensures AllWithinSizes(tr.dbs[i].state) && AllRoomLeft(tr.dbs[i])
  {
    if i > 0 {
      hide Sound, PgNext, AllWithinSizes, AllRoomLeft, JobsNotGrown, RunnersNotShrunk;
      PgCapacityIsKept(tr, i - 1);
      PgReachableIsSound(tr, i - 1);
      assert PgStepAt(tr, i - 1) && TerminalAt(tr, i - 1);
      assert SizesKeptAt(tr, i - 1);
      StepKeepsRoom(tr.dbs[i - 1], tr.steps[i - 1], tr.dbs[i]);
      StepKeepsWithinSizes(tr.dbs[i - 1], tr.steps[i - 1], tr.dbs[i]);
    }
  }

  lemma {:induction false} PgRecordsEvolve(tr: PgTrace, i: nat, j: nat)
    requires IsPgTrace(tr) && i <= j < |tr.dbs| && AllTerminal(tr, j)
    ensures Evolves(tr.dbs[i].state, tr.dbs[j].state)
    decreases j
  {
    hide Sound, PgNext, Evolves;
    if i == j {
      SelfEvolves(tr.dbs[i].state);
    } else {
      PgRecordsEvolve(tr, i, j - 1);
      PgReachableIsSound(tr, j - 1);
      assert PgStepAt(tr, j - 1) && TerminalAt(tr, j - 1);
      StepKeepsSound(tr.dbs[j - 1], tr.steps[j - 1], tr.dbs[j]);
      EvolvesTransitive(tr.dbs[i].state, tr.dbs[j - 1].state, tr.dbs[j].state);
    }
  }

  /** The commit ends the attempt, by completion or by recovery. */
  predicate PgEnds(db: Db, step: PgStep, a: Id) {
    || (step.CommitCompleteStep? && IsCompleting(db, step.id) && db.txs[step.id].p.attemptId == a)
    || (step.CommitRecoveryStep? && IsRecovering(db, step.id) && a in db.txs[step.id].taken)
  }

  /** A commit that ends an attempt finds it running, and leaves it finished. */
  lemma PgEndsRunning(db: Db, step: PgStep, after: Db, a: Id)
    requires Sound(db) && PgNext(db, step, after) && PgEnds(db, step, a)
    ensures a in db.state.attempts && db.state.attempts[a].status.AttemptRunning? && db.state.attempts[a].finishedAt.None?
    ensures a in after.state.attempts && after.state.attempts[a].finishedAt.Some?
  {
    hide RunsOk, LeasesOk, Numbered, ComputeDisposition, RunTaken, LeaseTaken;
    assert ReadsCurrent(db, step.id);
    if step.CommitRecoveryStep? {
      assert TakenHeld(db, step.id, a, db.txs[step.id].lostRuns);
    }
    assert AttemptOk(db.state, db.state.attempts[a]);
  }

  /** Over a whole run at most one commit ends an attempt: a completion and a recovery
      never both get through, however they interleave. */
  lemma PgEndsOnce(tr: PgTrace, i: nat, j: nat, a: Id)
    requires IsPgTrace(tr) && i < |tr.steps| && j < |tr.steps| && AllTerminal(tr, |tr.steps|)
    requires PgEnds(tr.dbs[i], tr.steps[i], a) && PgEnds(tr.dbs[j], tr.steps[j], a)
    ensures i == j
  {
    if i < j {
      PgEndsNotAgain(tr, i, j, a);
    } else if j < i {
      PgEndsNotAgain(tr, j, i, a);
    }
  }

  lemma PgEndsNotAgain(tr: PgTrace, i: nat, j: nat, a: Id)
    requires IsPgTrace(tr) && i < j < |tr.steps| && AllTerminal(tr, |tr.steps|)
    requires PgEnds(tr.dbs[i], tr.steps[i], a)
    ensures !PgEnds(tr.dbs[j], tr.steps[j], a)
  {
    hide Sound, PgNext, PgEnds;
    PgReachableIsSound(tr, i);
    PgReachableIsSound(tr, j);
    assert PgStepAt(tr, i) && PgStepAt(tr, j);
    PgEndsRunning(tr.dbs[i], tr.steps[i], tr.dbs[i + 1], a);
    PgRecordsEvolve(tr, i + 1, j);
    assert AttemptEvolves(tr.dbs[i + 1].state.attempts[a], tr.dbs[j].state.attempts[a]);
    if PgEnds(tr.dbs[j], tr.steps[j], a) {
      PgEndsRunning(tr.dbs[j], tr.steps[j], tr.dbs[j + 1], a);
    }
  }

  /** The commit of a lease is an in-memory grant on the committed records, to a run that
      is queued there and fits the runner as it is there. */
  lemma PgLeaseIsAtomic(tr: PgTrace, i: nat)
    requires IsPgTrace(tr) && i < |tr.steps| && tr.steps[i].CommitLeaseStep? && AllTerminal(tr, i) && SizesKept(tr, i)
    ensures var db, step := tr.dbs[i], tr.steps[i];
      && IsLeasing(db, step.id) && db.txs[step.id].phase.Chosen?
      && var s, tx := db.state, db.txs[step.id];
         && tx.runner.id in s.runners && s.runners[tx.runner.id] == tx.runner
         && var run := tx.phase.run;
            && run.id in s.runs && s.runs[run.id] == run && run.status.Queued? && run.jobId in s.jobs
            && SlotLeft(s, tx.runner) && CpuLeft(s, tx.runner, s.jobs[run.jobId]) && MemoryLeft(s, tx.runner, s.jobs[run.jobId])
            && var g := PgGrant(s, run, tx.runner.id, step.expiresAt, step.now);
               GrantFits(s, g) && tr.dbs[i + 1].state == AfterGrant(s, g)
  {
    hide RunsOk, AttemptsOk, LeasesOk, Numbered, Load;
    PgReachableIsSound(tr, i);
    PgCapacityIsKept(tr, i);
    assert PgStepAt(tr, i);
    var id := tr.steps[i].id;
    OneReads(tr.dbs[i], id);
    assert RoomLeft(tr.dbs[i].state, tr.dbs[i].txs[id]);
    ChosenFits(tr.dbs[i], id, tr.steps[i].expiresAt, tr.steps[i].now);
  }

  /** The commit of a recovery fails exactly the attempts it locked, all of them still
      running, as the in-memory recovery would. */
  lemma PgRecoveryIsAtomic(tr: PgTrace, i: nat)
    requires IsPgTrace(tr) && i < |tr.steps| && AllTerminal(tr, i) && tr.steps[i].CommitRecoveryStep?
    ensures var db, step := tr.dbs[i], tr.steps[i];
      && IsRecovering(db, step.id)
      && var s, tx := db.state, db.txs[step.id];
         && (forall a :: a in tx.taken ==> a in s.attempts && s.attempts[a].status.AttemptRunning?)
         && tr.dbs[i + 1].state == TakeAttempts(s, tx.taken, tx.at)
  {
    hide RunsOk, AttemptsOk, LeasesOk, Numbered, TakeAttempts;
    PgReachableIsSound(tr, i);
    assert PgStepAt(tr, i);
    var id := tr.steps[i].id;
    OneReads(tr.dbs[i], id);
    RecoveryStillTakes(tr.dbs[i], id);
  }
}
