/**
 Postgres calls that nobody disturbs: from a database without open transactions each one
 can be carried through, and does to the records what the in-memory call does. Together
 with what every interleaving keeps this pins the statements from both sides: they refuse
 nothing that the in-memory store grants.
 */
module PgAlone {
  import opened Domain
  import opened RetryPolicy
  import opened Loads
  import opened Transitions
  import opened Invariant
  import opened Eligibility
  import opened Requests
  import opened PgProtocol
  import opened PgCalls

  /** A database with these records and no open transactions. */
  function Idle(s: MemoryState): Db { Db(s, map[], map[]) }

  /** The transaction's own steps lead through these databases. */
  ghost predicate Alone(dbs: seq<Db>, steps: seq<PgStep>, id: TxId) {
    && |dbs| == |steps| + 1
    && forall i :: 0 <= i < |steps| ==> steps[i].Actor() == Some(id) && PgNext(dbs[i], steps[i], dbs[i + 1])
  }

  /** A transaction that holds all locks leaves none behind. */
  lemma EndedIsIdle(db: Db, id: TxId, t: MemoryState)
    requires db.txs.Keys == {id} && forall row :: row in db.locks ==> db.locks[row] == id
    ensures Ended(db, id, t) == Idle(t)
  {
    assert Ended(db, id, t).locks == map[] && Ended(db, id, t).txs == map[];
  }

  // ----- Leasing -----

  /** Nothing stands against the run on the runner, its rate limit aside. */
  predicate FitsRunner(s: MemoryState, run: Run, runner: Runner, now: Millis) {
    && MayStart(s, run, now)
    && var job := s.jobs[run.jobId];
       && (job.computeClass.Some? ==> job.computeClass.value == runner.computeClass)
       && |BusySlots(s, runner.id)| < runner.maxConcurrentLeases
       && |CoresTaken(s, runner.id)| + CoresFor(Some(job)) <= runner.cpuCores
       && |MegabytesTaken(s, runner.id)| + MegabytesFor(Some(job)) <= runner.memoryMb
  }

  /** The database while the only transaction leases the run. */
  function Scan(s: MemoryState, id: TxId, r: Id, w: string, asOf: Millis, locked: bool, phase: LeasePhase): Db
    requires r in s.runs && w in s.runners
  {
    Db(s, if locked then map[RunnerRow(w) := id, RunRow(r) := id] else map[RunnerRow(w) := id],
       map[id := Leasing(s.runners[w], s, asOf, if locked then map[r := s.runs[r]] else map[], phase)])
  }

  lemma FirstStatements(s: MemoryState, id: TxId, r: Id, w: string, now: Millis)
    requires AttemptIdsKnown(s) && r in s.runs && w in s.runners && s.runners[w].id == w
    requires |BusySlots(s, w)| < s.runners[w].maxConcurrentLeases
    ensures PgNext(Idle(s), BeginLeaseStep(id, w), Scan(s, id, r, w, 0, false, Counting))
    ensures PgNext(Scan(s, id, r, w, 0, false, Counting), CountSlotsStep(id), Scan(s, id, r, w, 0, false, Counted))
    ensures PgNext(Scan(s, id, r, w, 0, false, Counted), QueryCandidatesStep(id, now), Scan(s, id, r, w, now, false, Scanning))
  {
    hide Load, BusySlots;
    LoadsCountWhatIsInUse(s, w, "");
  }

  lemma CandidateStatements(s: MemoryState, id: TxId, r: Id, w: string, now: Millis)
    requires AttemptIdsKnown(s) && r in s.runs && w in s.runners && MayStart(s, s.runs[r], now)
    requires var job := s.jobs[s.runs[r].jobId]; job.computeClass.Some? ==> job.computeClass.value == s.runners[w].computeClass
    ensures var run, job := s.runs[r], s.jobs[s.runs[r].jobId];
      && PgNext(Scan(s, id, r, w, now, false, Scanning), LockCandidateStep(id, r), Scan(s, id, r, w, now, true, Scanning))
      && PgNext(Scan(s, id, r, w, now, true, Scanning), ReadJobStep(id, r), Scan(s, id, r, w, now, true, JobRead(run, job)))
  {
    hide Load, ActiveAttempts, IsCandidate;
    CandidatesMayStart(s, s.runs[r], now);
    assert map[RunnerRow(w) := id][RunRow(r) := id] == map[RunnerRow(w) := id, RunRow(r) := id];
  }

  lemma SizeStatements(s: MemoryState, id: TxId, r: Id, w: string, now: Millis)
    requires AttemptIdsKnown(s) && r in s.runs && w in s.runners && s.runners[w].id == w && s.runs[r].jobId in s.jobs
    requires |CoresTaken(s, w)| + CoresFor(Some(s.jobs[s.runs[r].jobId])) <= s.runners[w].cpuCores
    requires |MegabytesTaken(s, w)| + MegabytesFor(Some(s.jobs[s.runs[r].jobId])) <= s.runners[w].memoryMb
    ensures var run, job := s.runs[r], s.jobs[s.runs[r].jobId];
      && PgNext(Scan(s, id, r, w, now, true, JobRead(run, job)), CheckCpuStep(id), Scan(s, id, r, w, now, true, CpuFits(run, job)))
      && PgNext(Scan(s, id, r, w, now, true, CpuFits(run, job)), CheckMemoryStep(id), Scan(s, id, r, w, now, true, Chosen(run, job)))
  {
    hide Load, CoresTaken, MegabytesTaken;
    LoadsCountWhatIsInUse(s, w, "");
  }

  lemma LeaseCommits(s: MemoryState, id: TxId, r: Id, w: string, ttlSecs: nat, now: Millis) returns (t: MemoryState, g: Leased)
    requires Keyed(s) && r in s.runs && w in s.runners && s.runs[r].status.Queued? && s.runs[r].jobId in s.jobs
    requires s.ids + 1 !in s.attempts && s.ids + 2 !in s.leases
    ensures var phase := Chosen(s.runs[r], s.jobs[s.runs[r].jobId]);
      PgNext(Scan(s, id, r, w, now, true, phase), CommitLeaseStep(id, now + ttlSecs * 1_000, now), Idle(t))
    ensures g.attempt.runId == r && HandedOut(s, t, w, ttlSecs, now, g)
  {
    g := PgGrant(s, s.runs[r], w, now + ttlSecs * 1_000, now);
    t := AfterGrant(s, g);
    EndedIsIdle(Scan(s, id, r, w, now, true, Chosen(s.runs[r], s.jobs[s.runs[r].jobId])), id, t);
  }

  /** A run that fits can be handed out, with the records of the in-memory grant. */
  lemma FittingRunCanBeLeased(s: MemoryState, r: Id, w: string, ttlSecs: nat, now: Millis, id: TxId)
    returns (dbs: seq<Db>, steps: seq<PgStep>, t: MemoryState, g: Leased)
    requires Inv(s) && r in s.runs && w in s.runners && FitsRunner(s, s.runs[r], s.runners[w], now)
    ensures Alone(dbs, steps, id) && dbs[0] == Idle(s) && dbs[|steps|] == Idle(t)
    ensures g.attempt.runId == r && HandedOut(s, t, w, ttlSecs, now, g)
  {
    hide Inv, Scan, BusySlots, CoresTaken, MegabytesTaken, MayStart, PgNext, HandedOut, Idle;
    InvKnowsIds(s);
    RunOfJob(s, r, now);
    var run, job := s.runs[r], s.jobs[s.runs[r].jobId];
    FirstStatements(s, id, r, w, now);
    CandidateStatements(s, id, r, w, now);
    SizeStatements(s, id, r, w, now);
    t, g := LeaseCommits(s, id, r, w, ttlSecs, now);
    dbs := [Idle(s), Scan(s, id, r, w, 0, false, Counting), Scan(s, id, r, w, 0, false, Counted),
            Scan(s, id, r, w, now, false, Scanning), Scan(s, id, r, w, now, true, Scanning),
            Scan(s, id, r, w, now, true, JobRead(run, job)), Scan(s, id, r, w, now, true, CpuFits(run, job)),
            Scan(s, id, r, w, now, true, Chosen(run, job)), Idle(t)];
    steps := [BeginLeaseStep(id, w), CountSlotsStep(id), QueryCandidatesStep(id, now), LockCandidateStep(id, r),
              ReadJobStep(id, r), CheckCpuStep(id), CheckMemoryStep(id), CommitLeaseStep(id, now + ttlSecs * 1_000, now)];
  }

  lemma RunOfJob(s: MemoryState, r: Id, now: Millis)
    requires Inv(s) && r in s.runs && MayStart(s, s.runs[r], now)
    ensures s.runs[r].id == r && s.runs[r].status.Queued? && s.runs[r].jobId in s.jobs
    ensures forall w :: w in s.runners ==> s.runners[w].id == w
  {
    hide RunsOk, AttemptsOk, LeasesOk, Numbered, HealthKeyed, ActiveAttempts;
  }

  // ----- Completion -----

  /** The database while the only transaction completes the attempt. */
  function Completion(s: MemoryState, id: TxId, p: CompleteParams, now: Millis, run: Option<Run>, signal: Option<HealthSignal>): Db
    requires Preflight(s, p, now).None?
  {
    var attempt := s.attempts[p.attemptId];
    var l, r := attempt.leaseId.value, attempt.runId;
    var locks := map[AttemptRow(p.attemptId) := id, LeaseRow(l) := id];
    var held := if run.Some? then locks[RunRow(r) := id] else locks;
    Db(s, if signal.Some? && signal.value.written && run.Some? then held[HealthRow(run.value.jobId) := id] else held,
       map[id := Completing(p, attempt, Some(s.leases[l]), now, run, signal)])
  }

  /** A report that the in-memory store accepts commits to the same records. */
  lemma AcceptedReportCommits(s: MemoryState, p: CompleteParams, hash: nat, now: Millis, id: TxId)
    returns (dbs: seq<Db>, steps: seq<PgStep>)
    requires Inv(s) && Complete(s, p, hash, now).result.Ok?
    ensures Alone(dbs, steps, id) && dbs[0] == Idle(s) && dbs[|steps|] == Idle(Complete(s, p, hash, now).next)
  {
    hide Inv, Complete, Completion, Begun, ReadSignal, PgNext, Idle;
    AcceptedIsKnown(s, p, hash, now);
    var attempt := s.attempts[p.attemptId];
    var run := s.runs[attempt.runId];
    CompletionStatements(s, p, now, id);
    HealthStatements(s, p, now, id, run);
    CompletionCommits(s, p, hash, now, id);
    dbs := [Idle(s), Begun(s, id, p), Completion(s, id, p, now, None, None), Completion(s, id, p, now, Some(run), None),
            Completion(s, id, p, now, Some(run), Some(ReadSignal(s, p, now, run, false))),
            Completion(s, id, p, now, Some(run), Some(ReadSignal(s, p, now, run, true))),
            Idle(Complete(s, p, hash, now).next)];
    steps := [BeginCompleteStep(id, p), LockLeaseStep(id, now), LockRunStep(id), ReadHealthStep(id), WriteHealthStep(id),
              CommitCompleteStep(id, hash)];
  }

  lemma AcceptedIsKnown(s: MemoryState, p: CompleteParams, hash: nat, now: Millis)
    requires Inv(s) && Complete(s, p, hash, now).result.Ok?
    ensures Preflight(s, p, now).None? && p.status.Terminal()
    ensures var attempt := s.attempts[p.attemptId];
      && attempt.runId in s.runs && s.runs[attempt.runId].id == attempt.runId && s.leases[attempt.leaseId.value].id == attempt.leaseId.value
      && s.runs[attempt.runId].jobId in s.jobs && s.jobs[s.runs[attempt.runId].jobId].id == s.runs[attempt.runId].jobId
      && Parses(s.jobs[s.runs[attempt.runId].jobId].rateLimitSpec)
  {
    hide AfterSignal, ComputeDisposition, RunsOk, AttemptsOk, LeasesOk, Numbered, HealthKeyed;
  }

  /** The database after the first statement. */
  function Begun(s: MemoryState, id: TxId, p: CompleteParams): Db
    requires p.attemptId in s.attempts
  {
    Db(s, map[AttemptRow(p.attemptId) := id], map[id := Completing(p, s.attempts[p.attemptId], None, 0, None, None)])
  }

  lemma LocksForReport(s: MemoryState, p: CompleteParams, now: Millis, id: TxId)
    requires Preflight(s, p, now).None? && s.attempts[p.attemptId].runId in s.runs
    ensures var run := s.runs[s.attempts[p.attemptId].runId];
      && BeginComplete(Idle(s), id, p, Begun(s, id, p))
      && LockLease(Begun(s, id, p), id, now, Completion(s, id, p, now, None, None))
      && LockRun(Completion(s, id, p, now, None, None), id, Completion(s, id, p, now, Some(run), None))
  {
    var attempt := s.attempts[p.attemptId];
    assert map[AttemptRow(p.attemptId) := id][LeaseRow(attempt.leaseId.value) := id]
           == map[AttemptRow(p.attemptId) := id, LeaseRow(attempt.leaseId.value) := id];
  }

  lemma CompletionStatements(s: MemoryState, p: CompleteParams, now: Millis, id: TxId)
    requires Preflight(s, p, now).None? && s.attempts[p.attemptId].runId in s.runs
    ensures var run := s.runs[s.attempts[p.attemptId].runId];
      && PgNext(Idle(s), BeginCompleteStep(id, p), Begun(s, id, p))
      && PgNext(Begun(s, id, p), LockLeaseStep(id, now), Completion(s, id, p, now, None, None))
      && PgNext(Completion(s, id, p, now, None, None), LockRunStep(id), Completion(s, id, p, now, Some(run), None))
  {
    hide BeginComplete, LockLease, LockRun, Completion, Begun, Idle;
    LocksForReport(s, p, now, id);
  }

  function ReadSignal(s: MemoryState, p: CompleteParams, now: Millis, run: Run, written: bool): HealthSignal {
    var read := HealthOf(s, run.jobId);
    HealthSignal(read, AfterSignal(read, run.jobId, p.failureClass, p.status, now), written)
  }

  lemma HealthForReport(s: MemoryState, p: CompleteParams, now: Millis, id: TxId, run: Run)
    requires Preflight(s, p, now).None? && run.jobId in s.jobs && Parses(s.jobs[run.jobId].rateLimitSpec)
    ensures ReadHealth(Completion(s, id, p, now, Some(run), None), id,
                       Completion(s, id, p, now, Some(run), Some(ReadSignal(s, p, now, run, false))))
    ensures WriteHealth(Completion(s, id, p, now, Some(run), Some(ReadSignal(s, p, now, run, false))), id,
                        Completion(s, id, p, now, Some(run), Some(ReadSignal(s, p, now, run, true))))
  {
    hide AfterSignal, HealthOf, Preflight;
  }

  lemma HealthStatements(s: MemoryState, p: CompleteParams, now: Millis, id: TxId, run: Run)
    requires Preflight(s, p, now).None? && run.jobId in s.jobs && Parses(s.jobs[run.jobId].rateLimitSpec)
    ensures PgNext(Completion(s, id, p, now, Some(run), None), ReadHealthStep(id),
                   Completion(s, id, p, now, Some(run), Some(ReadSignal(s, p, now, run, false))))
    ensures PgNext(Completion(s, id, p, now, Some(run), Some(ReadSignal(s, p, now, run, false))), WriteHealthStep(id),
                   Completion(s, id, p, now, Some(run), Some(ReadSignal(s, p, now, run, true))))
  {
    hide ReadHealth, WriteHealth, Completion, ReadSignal;
    HealthForReport(s, p, now, id, run);
  }

  lemma CompletionCommits(s: MemoryState, p: CompleteParams, hash: nat, now: Millis, id: TxId)
    requires Preflight(s, p, now).None? && p.status.Terminal() && s.attempts[p.attemptId].runId in s.runs
    requires s.runs[s.attempts[p.attemptId].runId].id == s.attempts[p.attemptId].runId
    requires s.leases[s.attempts[p.attemptId].leaseId.value].id == s.attempts[p.attemptId].leaseId.value
    requires var jobId := s.runs[s.attempts[p.attemptId].runId].jobId;
      jobId in s.jobs && s.jobs[jobId].id == jobId && Parses(s.jobs[jobId].rateLimitSpec)
    ensures var run := s.runs[s.attempts[p.attemptId].runId];
      PgNext(Completion(s, id, p, now, Some(run), Some(ReadSignal(s, p, now, run, true))), CommitCompleteStep(id, hash),
             Idle(Complete(s, p, hash, now).next))
  {
    hide AfterSignal, ComputeDisposition;
    var run := s.runs[s.attempts[p.attemptId].runId];
    var db := Completion(s, id, p, now, Some(run), Some(ReadSignal(s, p, now, run, true)));
    var t, u := PgFinished(s, db.txs[id], hash), Complete(s, p, hash, now).next;
    assert t.health == u.health;
    assert t.runs == u.runs;
    assert t == u;
    EndedIsIdle(db, id, t);
  }

  // ----- Recovery -----

  /** The database while the only transaction has locked these lost attempts. */
  function Taking(s: MemoryState, id: TxId, now: Millis, taken: set<Id>): Db
    requires AttemptsLinked(s)
  {
    Db(s, map row | row in RowsOf(s, taken) :: id,
       map[id := Recovering(now, s.runners, taken, map r | r in s.runs && RunTaken(s, taken, r) :: s.runs[r])])
  }

  ghost predicate AttemptsLinked(s: MemoryState) {
    forall a :: a in s.attempts ==> s.attempts[a].leaseId.Some?
  }

  function RowsOf(s: MemoryState, taken: set<Id>): set<Row>
    requires AttemptsLinked(s)
  {
    (set a | a in taken && a in s.attempts :: AttemptRow(a))
    + (set a | a in taken && a in s.attempts :: RunRow(s.attempts[a].runId))
    + (set a | a in taken && a in s.attempts :: LeaseRow(s.attempts[a].leaseId.value))
  }

  lemma InvLinks(s: MemoryState)
    requires Inv(s)
    ensures AttemptsLinked(s)
  {
    forall a | a in s.attempts
      ensures AttemptOk(s, s.attempts[a])
    {}
  }

  /** The rows of one more lost attempt are its own. */
  lemma RowsAreOwn(s: MemoryState, now: Millis, taken: set<Id>, a: Id)
    requires Inv(s) && AttemptsLinked(s) && taken <= LostAttempts(s, now) && a in LostAttempts(s, now) && a !in taken
    ensures AttemptRow(a) !in RowsOf(s, taken) && RunRow(s.attempts[a].runId) !in RowsOf(s, taken)
    ensures LeaseRow(s.attempts[a].leaseId.value) !in RowsOf(s, taken)
    ensures s.attempts[a].runId in s.runs
  {
    hide RunsOk, LeasesOk, HealthKeyed;
    forall b | b in taken
      ensures s.attempts[b].runId != s.attempts[a].runId && s.attempts[b].leaseId != s.attempts[a].leaseId
    {
      OwnLease(s, a, b);
    }
    assert AttemptOk(s, s.attempts[a]);
  }

  lemma OneMoreLostRow(s: MemoryState, id: TxId, now: Millis, taken: set<Id>, a: Id)
    requires AttemptsLinked(s) && a in s.attempts
    ensures Taking(s, id, now, taken + {a}).locks ==
      Taking(s, id, now, taken).locks[AttemptRow(a) := id][RunRow(s.attempts[a].runId) := id][LeaseRow(s.attempts[a].leaseId.value) := id]
  {
    hide RunTaken;
    assert RowsOf(s, taken + {a}) ==
      RowsOf(s, taken) + {AttemptRow(a), RunRow(s.attempts[a].runId), LeaseRow(s.attempts[a].leaseId.value)};
  }

  lemma OneMoreLostRun(s: MemoryState, id: TxId, now: Millis, taken: set<Id>, a: Id)
    requires AttemptsLinked(s) && a in s.attempts && s.attempts[a].runId in s.runs
    ensures Taking(s, id, now, taken + {a}).txs[id].lostRuns ==
      Taking(s, id, now, taken).txs[id].lostRuns[s.attempts[a].runId := s.runs[s.attempts[a].runId]]
  {
    hide RowsOf, AttemptsLinked;
    forall r
      ensures RunTaken(s, taken + {a}, r) <==> RunTaken(s, taken, r) || r == s.attempts[a].runId
    {
      if RunTaken(s, taken, r) {
        var b :| b in taken && b in s.attempts && s.attempts[b].runId == r;
        assert b in taken + {a};
      }
      assert a in taken + {a};
    }
  }

  lemma LockOneMore(s: MemoryState, id: TxId, now: Millis, taken: set<Id>, a: Id)
    requires Inv(s) && AttemptsLinked(s) && taken <= LostAttempts(s, now) && a in LostAttempts(s, now) && a !in taken
    ensures PgNext(Taking(s, id, now, taken), LockLostStep(id, a), Taking(s, id, now, taken + {a}))
  {
    hide Inv, AttemptsLinked, Lost, RowsOf, RunTaken;
    RowsAreOwn(s, now, taken, a);
    OneMoreLostRow(s, id, now, taken, a);
    OneMoreLostRun(s, id, now, taken, a);
    assert s.(runners := s.runners) == s;
    LostIsOfStore(s, now, a);
  }

  lemma LostIsOfStore(s: MemoryState, now: Millis, a: Id)
    requires a in LostAttempts(s, now)
    ensures a in s.attempts && Lost(s, s.attempts[a], now)
  {}

  lemma {:induction false} LockTheRest(s: MemoryState, id: TxId, now: Millis, taken: set<Id>)
    returns (dbs: seq<Db>, steps: seq<PgStep>)
    requires Inv(s) && AttemptsLinked(s) && taken <= LostAttempts(s, now)
    ensures Alone(dbs, steps, id) && dbs[0] == Taking(s, id, now, taken) && dbs[|steps|] == Taking(s, id, now, LostAttempts(s, now))
    decreases LostAttempts(s, now) - taken
  {
    hide Inv, AttemptsLinked, LostAttempts, Taking, PgNext;
    if taken == LostAttempts(s, now) {
      dbs, steps := [Taking(s, id, now, taken)], [];
    } else {
      var a :| a in LostAttempts(s, now) && a !in taken;
      LockOneMore(s, id, now, taken, a);
      var rest, more := LockTheRest(s, id, now, taken + {a});
      dbs, steps := [Taking(s, id, now, taken)] + rest, [LockLostStep(id, a)] + more;
    }
  }

  lemma RecoveryBegins(s: MemoryState, id: TxId, now: Millis)
    requires AttemptsLinked(s)
    ensures PgNext(Idle(s), BeginRecoveryStep(id, now), Taking(s, id, now, {}))
  {
    var none := Taking(s, id, now, {});
    assert RowsOf(s, {}) == {} && none.locks == map[] && none.txs[id].lostRuns == map[];
  }

  lemma RecoveryCommits(s: MemoryState, id: TxId, now: Millis)
    requires AttemptsLinked(s)
    ensures PgNext(Taking(s, id, now, LostAttempts(s, now)), CommitRecoveryStep(id), Idle(Recover(s, now)))
  {
    hide AttemptsLinked, LostAttempts, RowsOf, RunTaken, LeaseTaken, AfterLoss, FailedByRecovery;
    var all := Taking(s, id, now, LostAttempts(s, now));
    var t := PgTaken(s, all.txs[id]);
    assert t.runs == Recover(s, now).runs;
    assert t == Recover(s, now);
    EndedIsIdle(all, id, t);
  }

  /** A recovery can take all that is lost, and commits to what the in-memory one leaves. */
  lemma RecoveryTakesAll(s: MemoryState, now: Millis, id: TxId) returns (dbs: seq<Db>, steps: seq<PgStep>)
    requires Inv(s)
    ensures Alone(dbs, steps, id) && dbs[0] == Idle(s) && dbs[|steps|] == Idle(Recover(s, now))
  {
    hide Inv, AttemptsLinked, LostAttempts, Taking, PgNext, Idle, Recover;
    InvLinks(s);
    RecoveryBegins(s, id, now);
    RecoveryCommits(s, id, now);
    dbs, steps := LockTheRest(s, id, now, {});
    dbs, steps := [Idle(s)] + dbs + [Idle(Recover(s, now))], [BeginRecoveryStep(id, now)] + steps + [CommitRecoveryStep(id)];
  }

  // ----- Heartbeat -----

  /** The database while the only transaction has seen to the first leases of the list. */
  function Renewing(s: MemoryState, id: TxId, p: RunnerParams, ids: seq<Id>): Db {
    Db(s, (map l | l in ids :: LeaseRow(l) := id)[RunnerRow(p.runnerId) := id],
       map[id := Beating(p, set l | l in ids && l in s.leases && s.leases[l].Open())])
  }

  lemma OneMoreLease(s: MemoryState, id: TxId, p: RunnerParams, ids: seq<Id>, l: Id)
    requires l in s.leases
    ensures Renewing(s, id, p, ids + [l]).locks == Renewing(s, id, p, ids).locks[LeaseRow(l) := id]
    ensures var was := Renewing(s, id, p, ids).txs[id].renewed;
      Renewing(s, id, p, ids + [l]).txs[id].renewed == if s.leases[l].Open() then was + {l} else was
  {
    OneMoreHeld(id, p.runnerId, ids, l);
    OneMoreOpen(s, ids, l);
  }

  lemma OneMoreHeld(id: TxId, w: string, ids: seq<Id>, l: Id)
    ensures (map k | k in ids + [l] :: LeaseRow(k) := id)[RunnerRow(w) := id]
            == (map k | k in ids :: LeaseRow(k) := id)[RunnerRow(w) := id][LeaseRow(l) := id]
  {}

  lemma OneMoreOpen(s: MemoryState, ids: seq<Id>, l: Id)
    requires l in s.leases
    ensures (set k | k in ids + [l] && k in s.leases && s.leases[k].Open())
            == (set k | k in ids && k in s.leases && s.leases[k].Open()) + if s.leases[l].Open() then {l} else {}
  {}

  lemma RenewsOneMore(s: MemoryState, id: TxId, p: RunnerParams, ids: seq<Id>, l: Id)
    requires l in s.leases && s.leases[l].runnerId == p.runnerId
    ensures Renew(Renewing(s, id, p, ids), id, l, Renewing(s, id, p, ids + [l]))
  {
    OneMoreLease(s, id, p, ids, l);
    RenewingIs(s, id, p, ids, l);
    RenewingIs(s, id, p, ids + [l], l);
    hide Renewing;
  }

  lemma RenewingIs(s: MemoryState, id: TxId, p: RunnerParams, ids: seq<Id>, l: Id)
    ensures var db := Renewing(s, id, p, ids);
      && db.state == s && db.txs == map[id := Beating(p, db.txs[id].renewed)]
      && Free(db, LeaseRow(l), id)
  {}

  lemma RenewOneMore(s: MemoryState, id: TxId, p: RunnerParams, ids: seq<Id>, l: Id)
    requires l in s.leases && s.leases[l].runnerId == p.runnerId
    ensures PgNext(Renewing(s, id, p, ids), RenewStep(id, l), Renewing(s, id, p, ids + [l]))
  {
    hide Renew, Renewing;
    RenewsOneMore(s, id, p, ids, l);
  }

  lemma BeatBegins(s: MemoryState, id: TxId, p: RunnerParams)
    ensures PgNext(Idle(s), BeginBeatStep(id, p), Renewing(s, id, p, []))
  {
    var db := Renewing(s, id, p, []);
    assert db.locks == map[RunnerRow(p.runnerId) := id] && db.txs[id].renewed == {};
  }

  lemma BeatCommits(s: MemoryState, id: TxId, p: RunnerParams, ttlSecs: nat, ids: seq<Id>, now: Millis)
    requires forall i :: 0 <= i < |ids| ==> !NotRenewable(s.leases, ids[i], p.runnerId)
    ensures PgNext(Renewing(s, id, p, ids), CommitBeatStep(id, SatAdd(now, ttlSecs * 1_000), now),
                   Idle(Heartbeat(s, p, ttlSecs, ids, now).next))
  {
    hide RenewLeases;
    var db, u := Renewing(s, id, p, ids), Heartbeat(s, p, ttlSecs, ids, now).next;
    HeartbeatAnswersExactly(s, p, ttlSecs, ids, now, |ids|);
    assert ids[..|ids|] == ids;
    var t := PgBeaten(s, db.txs[id], SatAdd(now, ttlSecs * 1_000), now);
    assert t.leases == u.leases;
    assert t == u;
    EndedIsIdle(db, id, t);
  }

  /** A heartbeat whose leases are all the runner's own commits to what the in-memory one
      leaves. */
  lemma HeartbeatCommits(s: MemoryState, p: RunnerParams, ttlSecs: nat, ids: seq<Id>, now: Millis, id: TxId)
    returns (dbs: seq<Db>, steps: seq<PgStep>)
    requires forall i :: 0 <= i < |ids| ==> !NotRenewable(s.leases, ids[i], p.runnerId)
    ensures Alone(dbs, steps, id) && dbs[0] == Idle(s) && dbs[|steps|] == Idle(Heartbeat(s, p, ttlSecs, ids, now).next)
  {
    hide PgNext, Renewing, Idle, Heartbeat;
    BeatBegins(s, id, p);
    BeatCommits(s, id, p, ttlSecs, ids, now);
    dbs := [Idle(s)] + seq(|ids| + 1, n requires 0 <= n <= |ids| => Renewing(s, id, p, ids[..n]))
           + [Idle(Heartbeat(s, p, ttlSecs, ids, now).next)];
    steps := [BeginBeatStep(id, p)] + seq(|ids|, n requires 0 <= n < |ids| => RenewStep(id, ids[n]))
             + [CommitBeatStep(id, SatAdd(now, ttlSecs * 1_000), now)];
    assert ids[..|ids|] == ids && ids[..0] == [];
    forall n | 0 <= n < |ids|
      ensures PgNext(Renewing(s, id, p, ids[..n]), RenewStep(id, ids[n]), Renewing(s, id, p, ids[..n + 1]))
    {
      RenewOneMore(s, id, p, ids[..n], ids[n]);
      assert ids[..n] + [ids[n]] == ids[..n + 1];
    }
  }

  // ----- Cancel -----

  /** The database while the only transaction cancels the run. */
  function Revoking(s: MemoryState, id: TxId, r: Id, marked: Option<Attempt>, revoked: bool): Db
    requires r in s.runs
  {
    var held := map[RunRow(r) := id];
    var more := if marked.Some? then held[AttemptRow(marked.value.id) := id] else held;
    Db(s, if revoked && marked.Some? && marked.value.leaseId.Some? then more[LeaseRow(marked.value.leaseId.value) := id] else more,
       map[id := Canceling(s.runs[r], marked, revoked)])
  }

  lemma CancelBegins(s: MemoryState, r: Id, at: Millis, id: TxId)
    requires r in s.runs && s.runs[r].id == r && !s.runs[r].status.Terminal()
    ensures PgNext(Idle(s), BeginCancelStep(id, r), Revoking(s, id, r, None, false))
    ensures s.runs[r].status.Queued? ==>
      PgNext(Revoking(s, id, r, None, false), CommitCancelStep(id, at),
             Idle(s.(runs := s.runs[r := s.runs[r].(status := Canceled)])))
  {
    EndedIsIdle(Revoking(s, id, r, None, false), id, s.(runs := s.runs[r := s.runs[r].(status := Canceled)]));
  }

  lemma LocksItsRows(s: MemoryState, r: Id, a: Id, id: TxId)
    requires r in s.runs && s.runs[r].id == r && s.runs[r].status.Running?
    requires a in s.attempts && s.attempts[a].id == a && RunsFor(s.attempts[a], r)
    requires s.attempts[a].leaseId.Some? && s.attempts[a].leaseId.value in s.leases
    ensures var attempt := s.attempts[a];
      && LockRunning(Revoking(s, id, r, None, false), id, a, Revoking(s, id, r, Some(attempt), false))
      && LockRevoked(Revoking(s, id, r, Some(attempt), false), id, Revoking(s, id, r, Some(attempt), true))
  {}

  lemma CancelLocks(s: MemoryState, r: Id, a: Id, id: TxId)
    requires r in s.runs && s.runs[r].id == r && s.runs[r].status.Running?
    requires a in s.attempts && s.attempts[a].id == a && RunsFor(s.attempts[a], r)
    requires s.attempts[a].leaseId.Some? && s.attempts[a].leaseId.value in s.leases
    ensures var attempt := s.attempts[a];
      && PgNext(Revoking(s, id, r, None, false), LockRunningStep(id, a), Revoking(s, id, r, Some(attempt), false))
      && PgNext(Revoking(s, id, r, Some(attempt), false), LockRevokedStep(id), Revoking(s, id, r, Some(attempt), true))
  {
    hide LockRunning, LockRevoked, Revoking;
    LocksItsRows(s, r, a, id);
  }

  lemma CancelMarks(s: MemoryState, r: Id, a: Id, at: Millis, id: TxId)
    requires r in s.runs && s.runs[r].id == r && s.runs[r].status.Running?
    requires a in s.attempts && s.attempts[a].id == a && RunsFor(s.attempts[a], r)
    requires s.attempts[a].leaseId.Some? && s.attempts[a].leaseId.value in s.leases
    ensures PgNext(Revoking(s, id, r, Some(s.attempts[a]), true), CommitCancelStep(id, at), Idle(MarkCancel(s, r, a, at).(runs := s.runs)))
  {
    var db, t := Revoking(s, id, r, Some(s.attempts[a]), true), MarkCancel(s, r, a, at).(runs := s.runs);
    MarkedAlike(s, db.txs[id], a, at);
    hide PgCanceled, MarkCancel;
    EndedIsIdle(db, id, t);
  }

  lemma MarkedAlike(s: MemoryState, tx: Tx, a: Id, at: Millis)
    requires tx.Canceling? && tx.target.id in s.runs && tx.target.status.Running? && tx.revoked
    requires a in s.attempts && s.attempts[a].id == a && tx.marked == Some(s.attempts[a])
    requires s.attempts[a].leaseId.Some? && s.attempts[a].leaseId.value in s.leases
    ensures PgCanceled(s, tx, at) == MarkCancel(s, tx.target.id, a, at).(runs := s.runs)
  {}

  /** A cancel of a queued run can end it, and one of a running run can mark its attempt. */
  lemma CancelCommits(s: MemoryState, r: Id, at: Millis, id: TxId) returns (dbs: seq<Db>, steps: seq<PgStep>, t: MemoryState)
    requires Inv(s) && r in s.runs && !s.runs[r].status.Terminal()
    ensures Alone(dbs, steps, id) && dbs[0] == Idle(s) && dbs[|steps|] == Idle(t)
    ensures s.runs[r].status.Queued? ==> t == s.(runs := s.runs[r := s.runs[r].(status := Canceled)])
    ensures s.runs[r].status.Running? ==> t == Cancel(s, r, at).next.(runs := s.runs)
  {
    hide RunsOk, LeasesOk, Numbered, HealthKeyed, FindRunning, MarkCancel, Revoking, Idle, PgNext;
    CancelBegins(s, r, at, id);
    if s.runs[r].status.Queued? {
      t := s.(runs := s.runs[r := s.runs[r].(status := Canceled)]);
      dbs, steps := [Idle(s), Revoking(s, id, r, None, false), Idle(t)], [BeginCancelStep(id, r), CommitCancelStep(id, at)];
    } else {
      RunningIsFound(s, r);
      var a := FindRunning(s, r, s.ids + 1).value;
      var attempt := s.attempts[a];
      assert AttemptOk(s, attempt);
      CancelLocks(s, r, a, id);
      CancelMarks(s, r, a, at, id);
      t := MarkCancel(s, r, a, at).(runs := s.runs);
      dbs := [Idle(s), Revoking(s, id, r, None, false), Revoking(s, id, r, Some(attempt), false),
              Revoking(s, id, r, Some(attempt), true), Idle(t)];
      steps := [BeginCancelStep(id, r), LockRunningStep(id, a), LockRevokedStep(id), CommitCancelStep(id, at)];
    }
  }
}
