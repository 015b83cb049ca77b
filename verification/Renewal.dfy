/**
 Heartbeats and leases: which steps can finish an attempt, and why a runner that beats
 on its own schedule keeps the attempt it was granted.
 */
module Renewal {
  import opened Domain
  import opened Schedule
  import opened Transitions
  import opened Invariant
  import opened Steps
  import opened Traces

  // ----- The runner's schedule -----

  const U64_MAX: int := 0xFFFF_FFFF_FFFF_FFFF

  /** `heartbeat_interval_ms`: a third of the lease time, but at least a second. */
  function HeartbeatIntervalMs(ttlSecs: nat): nat {
    var ttlMs := if ttlSecs * 1000 > U64_MAX then U64_MAX else ttlSecs * 1000;
    if ttlMs / 3 > 1000 then ttlMs / 3 else 1000
  }

  /** Up to three seconds of lease time the runner beats once a second, from there on three
      times a lease. One beat fits strictly inside the lease exactly from two seconds of
      lease time on, and one beat may be missed exactly from three seconds on. */
  lemma BeatsPerLease(ttlSecs: nat)
    ensures ttlSecs <= 3 ==> HeartbeatIntervalMs(ttlSecs) == 1_000
    ensures ttlSecs >= 3 && ttlSecs * 1_000 <= U64_MAX ==>
      3 * HeartbeatIntervalMs(ttlSecs) <= ttlSecs * 1_000 < 3 * (HeartbeatIntervalMs(ttlSecs) + 1)
    ensures HeartbeatIntervalMs(ttlSecs) < ttlSecs * 1000 <==> ttlSecs >= 2
    ensures 2 * HeartbeatIntervalMs(ttlSecs) < ttlSecs * 1000 <==> ttlSecs >= 3
  {}

  // ----- What finishes an attempt -----

  predicate RecoversIn(e: Event) { e.step.RecoverStep? || e.step.LeaseStep? }

  predicate CompletesIn(s: MemoryState, e: Event, a: Id) {
    && e.step.CompleteStep? && e.step.complete.attemptId == a
    && Complete(s, e.step.complete, e.step.hash, e.now).result.Ok?
  }

  /** Apart from its own completion and a recovery that finds it lost, no step finishes
      an attempt. */
  lemma OnlyCompletionOrLossFinishes(zones: ZoneDb, s: MemoryState, e: Event, a: Id)
    requires Inv(s) && SpecsParse(s) && Enabled(s, e)
    requires a in s.attempts && s.attempts[a].status.AttemptRunning?
    requires !CompletesIn(s, e, a)
    requires RecoversIn(e) ==> !Lost(s, s.attempts[a], e.now)
    ensures var t := Apply(zones, s, e); a in t.attempts && t.attempts[a].status.AttemptRunning?
  {
    hide Complete, LeaseNext, Cancel, Tick, Recover, Enqueue, Inv, SpecsParse, InsertJobs, RenewLeases;
    match e.step
    case CompleteStep(p, hash) => CompleteKeepsOthers(s, p, hash, e.now, a);
    case LeaseStep(runnerId, ttlSecs, pick) => LeaseKeepsOthers(s, runnerId, ttlSecs, e.now, pick, a);
    case RecoverStep => RecoverKeepsOthers(s, e.now, a);
    case EnqueueStep(p) => EnqueueIsQuiet(s, p, e.now);
    case TickStep(order) => TickAdds(zones, s, order, e.now);
    case CancelStep(runId) => CancelKeepsRunning(s, runId, e.now, a);
    case _ =>
  }

  lemma CompleteKeepsOthers(s: MemoryState, p: CompleteParams, hash: nat, now: Millis, a: Id)
    requires Inv(s) && SpecsParse(s) && p.status.Terminal() && a in s.attempts
    requires p.attemptId != a || Complete(s, p, hash, now).result.Err?
    ensures var t := Complete(s, p, hash, now).next; a in t.attempts && t.attempts[a] == s.attempts[a]
  {
    if Preflight(s, p, now).None? {
      if p.attemptId in s.attempts && CompletedJob(s, p).Some? {
        assert Parses(CompletedJob(s, p).value.rateLimitSpec);
      }
      CompleteWrites(s, p, hash, now);
    }
  }

  lemma RecoverKeepsOthers(s: MemoryState, now: Millis, a: Id)
    requires a in s.attempts && !Lost(s, s.attempts[a], now)
    ensures a in Recover(s, now).attempts && Recover(s, now).attempts[a] == s.attempts[a]
  {}

  lemma LeaseKeepsOthers(s: MemoryState, runnerId: string, ttlSecs: nat, now: Millis, pick: Pick, a: Id)
    requires Inv(s) && a in s.attempts && !Lost(s, s.attempts[a], now)
    ensures var t := LeaseNext(s, runnerId, ttlSecs, now, pick).next;
      a in t.attempts && t.attempts[a] == s.attempts[a]
  {
    hide Recover, RunnerFull, Lost;
    RecoverKeepsOthers(s, now, a);
    RecoverKeepsInv(s, now);
    RecoverKeepsIds(s, now);
  }

  lemma RecoverKeepsIds(s: MemoryState, now: Millis)
    ensures Recover(s, now).ids == s.ids
  {}

  lemma CancelKeepsRunning(s: MemoryState, runId: Id, now: Millis, a: Id)
    requires a in s.attempts
    ensures var t := Cancel(s, runId, now).next;
      a in t.attempts && t.attempts[a].status == s.attempts[a].status
  {}

  // ----- Who moves a lease's expiry and a runner's heartbeat -----

  predicate BeatOf(e: Event, runnerId: string) {
    || (e.step.HeartbeatStep? && e.step.runner.runnerId == runnerId)
    || (e.step.RegisterRunnerStep? && e.step.runner.runnerId == runnerId)
  }

  /** A heartbeat that reported success and listed the lease. */
  predicate Renews(s: MemoryState, e: Event, runnerId: string, leaseId: Id) {
    && e.step.HeartbeatStep? && e.step.runner.runnerId == runnerId && leaseId in e.step.active
    && Heartbeat(s, e.step.runner, e.step.ttlSecs, e.step.active, e.now).result.Ok?
  }

  function BeatRunner(e: Event): Runner
    requires e.step.HeartbeatStep? || e.step.RegisterRunnerStep?
  {
    RunnerFrom(e.step.runner, e.now)
  }

  /** Only a runner's own beats change its record. */
  lemma RunnerChangesByBeat(zones: ZoneDb, s: MemoryState, e: Event, runnerId: string)
    requires Inv(s)
    ensures var t := Apply(zones, s, e);
      if BeatOf(e, runnerId) then runnerId in t.runners && t.runners[runnerId] == BeatRunner(e)
      else (runnerId in t.runners <==> runnerId in s.runners)
           && (runnerId in s.runners ==> t.runners[runnerId] == s.runners[runnerId])
  {
    if !e.step.HeartbeatStep? && !e.step.RegisterRunnerStep? {
      StepIsQuiet(zones, s, e);
    }
  }

  lemma {:induction false} RenewLeasesSets(leases: map<Id, Lease>, ids: seq<Id>, runnerId: string, expiresAt: Millis, l: Id)
    requires l in leases && leases[l].Open()
    ensures var (after, error) := RenewLeases(leases, ids, runnerId, expiresAt);
      && l in after && after[l].Open()
      && (after[l].expiresAt == leases[l].expiresAt || after[l].expiresAt == expiresAt)
      && (error.None? && l in ids ==> after[l].expiresAt == expiresAt)
      && (leases[l].runnerId != runnerId ==> after[l].expiresAt == leases[l].expiresAt)
    decreases |ids|
  {
    if ids != [] && ids[0] in leases && leases[ids[0]].runnerId == runnerId {
      var next := RenewLease(leases, ids[0], expiresAt);
      RenewLeasesSets(next, ids[1..], runnerId, expiresAt, l);
      assert l in ids && ids[0] != l ==> l in ids[1..];
      if ids[0] == l {
        RenewLeasesKeepsExpiry(next, ids[1..], runnerId, expiresAt, l);
      }
    }
  }

  lemma {:induction false} RenewLeasesKeepsExpiry(leases: map<Id, Lease>, ids: seq<Id>, runnerId: string, expiresAt: Millis, l: Id)
    requires l in leases && leases[l].expiresAt == expiresAt
    ensures var after := RenewLeases(leases, ids, runnerId, expiresAt).0; l in after && after[l].expiresAt == expiresAt
    decreases |ids|
  {
    if ids != [] && ids[0] in leases && leases[ids[0]].runnerId == runnerId {
      RenewLeasesKeepsExpiry(RenewLease(leases, ids[0], expiresAt), ids[1..], runnerId, expiresAt, l);
    }
  }

  /** Only a beat of its runner moves an open lease's expiry, to a lease time from now. */
  lemma ExpiryMovesByRenewal(zones: ZoneDb, s: MemoryState, e: Event, l: Id)
    requires Inv(s) && SpecsParse(s) && Enabled(s, e) && l in s.leases && s.leases[l].Open()
    ensures var t, runnerId := Apply(zones, s, e), s.leases[l].runnerId;
      && l in t.leases
      && (!(e.step.HeartbeatStep? && e.step.runner.runnerId == runnerId) ==> t.leases[l].expiresAt == s.leases[l].expiresAt)
      && (e.step.HeartbeatStep? ==>
            var renewed := SatAdd(e.now, e.step.ttlSecs * 1000);
            && (t.leases[l].expiresAt == s.leases[l].expiresAt || t.leases[l].expiresAt == renewed)
            && (Renews(s, e, runnerId, l) ==> t.leases[l].expiresAt == renewed))
  {
    if e.step.HeartbeatStep? {
      RenewLeasesSets(s.leases, e.step.active, e.step.runner.runnerId, SatAdd(e.now, e.step.ttlSecs * 1000), l);
    } else if !e.step.RegisterRunnerStep? {
      StepIsQuiet(zones, s, e);
    }
  }

  // ----- A timely runner keeps its attempt -----

  /** Step `i` grants attempt `a` to the runner. */
  predicate GrantedAt(tr: Trace, i: nat, a: Id, runnerId: string, ttlSecs: nat)
    requires i + 1 < |tr.states| && i < |tr.events|
  {
    && tr.events[i].step.LeaseStep? && tr.events[i].step.runnerId == runnerId
    && tr.events[i].step.leaseTtlSecs == ttlSecs
    && a !in tr.states[i].attempts && a in tr.states[i + 1].attempts
  }

  /** All beats of the runner carry the same settings. */
  ghost predicate SteadyRunner(tr: Trace, j: nat, runnerId: string, ttlSecs: nat, timeoutSecs: nat)
    requires j <= |tr.events|
  {
    forall k :: 0 <= k < j && BeatOf(tr.events[k], runnerId) ==>
      && tr.events[k].step.runner.heartbeatTimeoutSecs == timeoutSecs
      && (tr.events[k].step.HeartbeatStep? ==> tr.events[k].step.ttlSecs == ttlSecs)
  }

  /** At step `k` the lease was granted or renewed within the last `leaseGapMs`
      milliseconds, and the runner heard from within the last `beatGapMs`. */
  ghost predicate HeardWithin(tr: Trace, i: nat, k: nat, runnerId: string, leaseId: Id, leaseGapMs: int, beatGapMs: int)
    requires i < k < |tr.events| && |tr.states| == |tr.events| + 1
  {
    && (exists h :: i <= h < k && (h == i || Renews(tr.states[h], tr.events[h], runnerId, leaseId))
          && tr.events[k].now <= tr.events[h].now + leaseGapMs)
    && (exists h :: 0 <= h < k && BeatOf(tr.events[h], runnerId)
          && tr.events[k].now <= tr.events[h].now + beatGapMs)
  }

  /** The same of the lease that attempt `a` was granted. */
  ghost predicate AttemptHeardWithin(tr: Trace, i: nat, k: nat, a: Id, runnerId: string, leaseGapMs: int, beatGapMs: int)
    requires i < k < |tr.events| && |tr.states| == |tr.events| + 1
    requires a in tr.states[i + 1].attempts
  {
    var leaseId := tr.states[i + 1].attempts[a].leaseId;
    leaseId.Some? ==> HeardWithin(tr, i, k, runnerId, leaseId.value, leaseGapMs, beatGapMs)
  }

  /** The runner's record is at least as recent as every beat so far. */
  ghost predicate Remembered(tr: Trace, k: nat, runnerId: string, timeoutSecs: nat)
    requires k < |tr.states| && |tr.states| == |tr.events| + 1
  {
    forall h :: 0 <= h < k && BeatOf(tr.events[h], runnerId) ==>
      && runnerId in tr.states[k].runners
      && tr.events[h].now <= tr.states[k].runners[runnerId].lastHeartbeatAt
      && tr.states[k].runners[runnerId].heartbeatTimeoutSecs == timeoutSecs
  }

  lemma {:induction false} BeatsAreRemembered(tr: Trace, k: nat, runnerId: string, ttlSecs: nat, timeoutSecs: nat)
    requires IsTrace(tr) && k < |tr.states| && SteadyRunner(tr, k, runnerId, ttlSecs, timeoutSecs)
    ensures Remembered(tr, k, runnerId, timeoutSecs)
  {
    if k > 0 {
      BeatsAreRemembered(tr, k - 1, runnerId, ttlSecs, timeoutSecs);
      ReachableStatesAreLinked(tr, k - 1);
      assert StepAt(tr, k - 1);
      RunnerChangesByBeat(tr.zones, tr.states[k - 1], tr.events[k - 1], runnerId);
    }
  }

  /** The attempt runs on its lease, and the lease lasts a full lease time from the grant
      and from every renewal so far. */
  ghost predicate Held(tr: Trace, i: nat, k: nat, a: Id, l: Id, runnerId: string, ttlSecs: nat)
    requires i < k < |tr.states| && |tr.states| == |tr.events| + 1
  {
    var s := tr.states[k];
    && a in s.attempts && s.attempts[a].status.AttemptRunning? && s.attempts[a].leaseId == Some(l)
    && l in s.leases && s.leases[l].runnerId == runnerId
    && (forall h :: i <= h < k && (h == i || Renews(tr.states[h], tr.events[h], runnerId, l)) ==>
          SatAdd(tr.events[h].now, ttlSecs * 1000) <= s.leases[l].expiresAt)
  }

  lemma GrantIsHeld(tr: Trace, i: nat, a: Id, runnerId: string, ttlSecs: nat)
    requires IsTrace(tr) && i < |tr.events| && GrantedAt(tr, i, a, runnerId, ttlSecs)
    ensures tr.states[i + 1].attempts[a].leaseId.Some?
    ensures Held(tr, i, i + 1, a, tr.states[i + 1].attempts[a].leaseId.value, runnerId, ttlSecs)
  {
    assert StepAt(tr, i);
  }

  lemma HeldIsNotLost(tr: Trace, i: nat, k: nat, a: Id, l: Id, runnerId: string, ttlSecs: nat, timeoutSecs: nat,
                      leaseGapMs: int, beatGapMs: int)
    requires IsTrace(tr) && i < k < |tr.events|
    requires Held(tr, i, k, a, l, runnerId, ttlSecs) && Remembered(tr, k, runnerId, timeoutSecs)
    requires HeardWithin(tr, i, k, runnerId, l, leaseGapMs, beatGapMs)
    requires leaseGapMs < ttlSecs * 1000 && beatGapMs < timeoutSecs * 1000 && tr.events[k].now < I64_MAX
    ensures !Lost(tr.states[k], tr.states[k].attempts[a], tr.events[k].now)
  {}

  lemma HeldStep(tr: Trace, i: nat, k: nat, a: Id, l: Id, runnerId: string, ttlSecs: nat)
    requires IsTrace(tr) && i < k < |tr.events|
    requires Held(tr, i, k, a, l, runnerId, ttlSecs)
    requires SteadyTtl(tr.events[k], runnerId, ttlSecs)
    requires CompletedAt(tr, k) != Some(a)
    requires RecoversIn(tr.events[k]) ==> !Lost(tr.states[k], tr.states[k].attempts[a], tr.events[k].now)
    ensures Held(tr, i, k + 1, a, l, runnerId, ttlSecs)
  {
    var s, e := tr.states[k], tr.events[k];
    OneStep(tr, k);
    assert AttemptOk(s, s.attempts[a]);
    OnlyCompletionOrLossFinishes(tr.zones, s, e, a);
    ExpiryMovesByRenewal(tr.zones, s, e, l);
    assert AttemptEvolves(s.attempts[a], tr.states[k + 1].attempts[a]);
    assert LeaseEvolves(s.leases[l], tr.states[k + 1].leases[l]);
    HeldExpiry(tr, i, k, a, l, runnerId, ttlSecs);
  }

  predicate SteadyTtl(e: Event, runnerId: string, ttlSecs: nat) {
    e.step.HeartbeatStep? && e.step.runner.runnerId == runnerId ==> e.step.ttlSecs == ttlSecs
  }

  /** Later renewals never shorten the lease, because the clock does not go back. */
  lemma HeldExpiry(tr: Trace, i: nat, k: nat, a: Id, l: Id, runnerId: string, ttlSecs: nat)
    requires IsTrace(tr) && i < k < |tr.events| && Held(tr, i, k, a, l, runnerId, ttlSecs)
    requires SteadyTtl(tr.events[k], runnerId, ttlSecs) && l in tr.states[k + 1].leases
    requires var before, after, e := tr.states[k].leases[l].expiresAt, tr.states[k + 1].leases[l].expiresAt, tr.events[k];
      && (!(e.step.HeartbeatStep? && e.step.runner.runnerId == runnerId) ==> after == before)
      && (e.step.HeartbeatStep? ==>
            && (after == before || after == SatAdd(e.now, e.step.ttlSecs * 1000))
            && (Renews(tr.states[k], e, runnerId, l) ==> after == SatAdd(e.now, e.step.ttlSecs * 1000)))
    ensures forall h :: i <= h < k + 1 && (h == i || Renews(tr.states[h], tr.events[h], runnerId, l)) ==>
      SatAdd(tr.events[h].now, ttlSecs * 1000) <= tr.states[k + 1].leases[l].expiresAt
  {
    forall h | i <= h < k + 1 && (h == i || Renews(tr.states[h], tr.events[h], runnerId, l))
      ensures SatAdd(tr.events[h].now, ttlSecs * 1000) <= tr.states[k + 1].leases[l].expiresAt
    {
      assert tr.events[h].now <= tr.events[k].now;
    }
  }

  /** A runner whose settings are steady and who is heard from often enough - at every
      recovery the last renewal of the lease lies less than a lease time back, and the
      last beat less than the heartbeat timeout - keeps its attempt until the attempt is
      completed. */
  lemma {:induction false} TimelyRunnerKeepsAttempt(tr: Trace, i: nat, j: nat, a: Id, runnerId: string, ttlSecs: nat,
                                                    timeoutSecs: nat, leaseGapMs: int, beatGapMs: int)
    requires IsTrace(tr) && i < j < |tr.states| && GrantedAt(tr, i, a, runnerId, ttlSecs)
    requires SteadyRunner(tr, j, runnerId, ttlSecs, timeoutSecs)
    requires leaseGapMs < ttlSecs * 1000 && beatGapMs < timeoutSecs * 1000
    requires forall k :: i < k < j ==>
      && tr.events[k].now < I64_MAX
      && CompletedAt(tr, k) != Some(a)
      && (RecoversIn(tr.events[k]) ==> AttemptHeardWithin(tr, i, k, a, runnerId, leaseGapMs, beatGapMs))
    ensures tr.states[i + 1].attempts[a].leaseId.Some?
    ensures Held(tr, i, j, a, tr.states[i + 1].attempts[a].leaseId.value, runnerId, ttlSecs)
    decreases j
  {
    GrantIsHeld(tr, i, a, runnerId, ttlSecs);
    var l := tr.states[i + 1].attempts[a].leaseId.value;
    if j > i + 1 {
      var k := j - 1;
      TimelyRunnerKeepsAttempt(tr, i, k, a, runnerId, ttlSecs, timeoutSecs, leaseGapMs, beatGapMs);
      BeatsAreRemembered(tr, k, runnerId, ttlSecs, timeoutSecs);
      if RecoversIn(tr.events[k]) {
        HeldIsNotLost(tr, i, k, a, l, runnerId, ttlSecs, timeoutSecs, leaseGapMs, beatGapMs);
      }
      assert SteadyTtl(tr.events[k], runnerId, ttlSecs);
      HeldStep(tr, i, k, a, l, runnerId, ttlSecs);
    }
  }

  // ----- The runner's loop -----

  /** One request of the runner: when it was due, when the store served it (`event` is the
      step that did), when the runner was done with it, and whether it succeeded. */
  datatype Round = Round(due: Millis, at: Millis, done: Millis, ok: bool, event: nat)

  /** `heartbeat_loop`: the lease request comes first; then, over and over, the loop sleeps
      an interval and waits for a heartbeat. Every request takes up to `delayMs`, and no
      two heartbeats in a row fail. */
  ghost predicate LoopRounds(rounds: seq<Round>, intervalMs: nat, delayMs: nat) {
    && rounds != [] && rounds[0].ok
    && (forall n :: 0 <= n < |rounds| ==> RoundTimes(rounds[n], delayMs))
    && (forall n {:trigger rounds[n].due} :: 0 < n < |rounds| ==> rounds[n].due == rounds[n - 1].done + intervalMs)
    && (forall n {:trigger rounds[n].ok} :: 0 < n < |rounds| ==> rounds[n - 1].ok || rounds[n].ok)
  }

  predicate RoundTimes(round: Round, delayMs: nat) {
    round.due <= round.at <= round.done <= round.due + delayMs
  }

  /** The successful round before round `n`. */
  function LastOk(rounds: seq<Round>, n: nat): nat
    requires 0 < n < |rounds|
  {
    if rounds[n - 1].ok || n == 1 then n - 1 else n - 2
  }

  /** Between two successes in a row the store is left without one for at most two
      intervals and three requests. */
  lemma RoundGap(rounds: seq<Round>, intervalMs: nat, delayMs: nat, n: nat)
    requires LoopRounds(rounds, intervalMs, delayMs) && 0 < n < |rounds| && rounds[n].ok
    ensures var x := LastOk(rounds, n); rounds[x].ok && rounds[n].at - rounds[x].at <= 2 * intervalMs + 3 * delayMs
  {
    var x := LastOk(rounds, n);
    assert RoundTimes(rounds[n], delayMs) && RoundTimes(rounds[x], delayMs);
    assert rounds[n - 1].ok || rounds[n].ok;
    if x == n - 2 {
      assert RoundTimes(rounds[n - 1], delayMs);
      assert rounds[n - 1].due == rounds[n - 1 - 1].done + intervalMs;
    }
  }

  /** And it can be that long: a late answer, a failed request, a late start. */
  lemma RoundGapIsTight(intervalMs: nat, delayMs: nat)
    ensures var d, i := delayMs, intervalMs;
      var rounds := [Round(0, 0, d, true, 0), Round(d + i, d + i, 2 * d + i, false, 1),
                     Round(2 * d + 2 * i, 3 * d + 2 * i, 3 * d + 2 * i, true, 2)];
      LoopRounds(rounds, i, d) && rounds[2].at - rounds[0].at == 2 * i + 3 * d
  {}

  /** The rounds as the trace shows them, from the grant at step `i` on: a successful
      heartbeat is the step that renews the lease, and what lies past the end of the trace
      comes no earlier than anything in it. */
  ghost predicate ShowsRounds(tr: Trace, i: nat, rounds: seq<Round>, runnerId: string, leaseId: Id)
    requires IsTrace(tr) && i < |tr.events|
  {
    && rounds != [] && rounds[0].event == i && rounds[0].at == tr.events[i].now
    && forall n {:trigger ShowsRound(tr, i, rounds[n], runnerId, leaseId)} :: 0 < n < |rounds| && rounds[n].ok ==>
         ShowsRound(tr, i, rounds[n], runnerId, leaseId)
  }

  ghost predicate ShowsRound(tr: Trace, i: nat, round: Round, runnerId: string, leaseId: Id)
    requires IsTrace(tr)
  {
    && i < round.event
    && (round.event < |tr.events| ==>
          && tr.events[round.event].now == round.at
          && Renews(tr.states[round.event], tr.events[round.event], runnerId, leaseId))
    && (round.event >= |tr.events| ==> forall k :: 0 <= k < |tr.events| ==> tr.events[k].now <= round.at)
  }

  /** The first successful round that the store serves at step `k` or later. */
  lemma {:induction false} FirstOk(rounds: seq<Round>, k: nat, m: nat) returns (n: nat)
    requires m < |rounds| && rounds[m].ok && rounds[m].event >= k
    ensures n <= m && rounds[n].ok && rounds[n].event >= k
    ensures forall j :: 0 <= j < n && rounds[j].ok ==> rounds[j].event < k
    decreases m
  {
    if j :| 0 <= j < m && rounds[j].ok && rounds[j].event >= k {
      n := FirstOk(rounds, k, j);
    } else {
      n := m;
    }
  }

  /** While the loop goes on the lease is renewed often enough. */
  lemma LoopIsHeard(tr: Trace, i: nat, k: nat, rounds: seq<Round>, runnerId: string, leaseId: Id,
                    intervalMs: nat, delayMs: nat, idleMs: nat)
    requires IsTrace(tr) && i < k < |tr.events|
    requires LoopRounds(rounds, intervalMs, delayMs) && ShowsRounds(tr, i, rounds, runnerId, leaseId)
    requires rounds[|rounds| - 1].ok && rounds[|rounds| - 1].event >= k
    requires exists h :: 0 <= h < i && BeatOf(tr.events[h], runnerId) && tr.events[i].now <= tr.events[h].now + idleMs
    ensures var gapMs := 2 * intervalMs + 3 * delayMs; HeardWithin(tr, i, k, runnerId, leaseId, gapMs, idleMs + gapMs)
  {
    var n := FirstOk(rounds, k, |rounds| - 1);
    RoundGap(rounds, intervalMs, delayMs, n);
    var z, x := rounds[n], rounds[LastOk(rounds, n)];
    assert ShowsRound(tr, i, z, runnerId, leaseId);
    assert tr.events[k].now <= z.at;
    if LastOk(rounds, n) > 0 {
      assert ShowsRound(tr, i, x, runnerId, leaseId);
      assert BeatOf(tr.events[x.event], runnerId);
    }
  }

  /** The runner's own schedule: after the grant its loop sleeps an interval and sends a
      heartbeat, round after round, each request taking up to `delayMs` and no two
      heartbeats in a row failing. As long as two intervals and three requests fit inside
      the lease, and inside the timeout together with the time since the last beat before
      the grant, the attempt is not lost while the loop goes on. */
  lemma HeartbeatLoopKeepsAttempt(tr: Trace, i: nat, j: nat, a: Id, rounds: seq<Round>, runnerId: string, ttlSecs: nat,
                                  timeoutSecs: nat, delayMs: nat, idleMs: nat)
    requires IsTrace(tr) && i < j < |tr.states| && GrantedAt(tr, i, a, runnerId, ttlSecs)
    requires SteadyRunner(tr, j, runnerId, ttlSecs, timeoutSecs)
    requires exists h :: 0 <= h < i && BeatOf(tr.events[h], runnerId) && tr.events[i].now <= tr.events[h].now + idleMs
    requires LoopRounds(rounds, HeartbeatIntervalMs(ttlSecs), delayMs)
    requires var leaseId := tr.states[i + 1].attempts[a].leaseId;
      leaseId.Some? ==> ShowsRounds(tr, i, rounds, runnerId, leaseId.value)
    requires rounds[|rounds| - 1].ok && rounds[|rounds| - 1].event >= j - 1
    requires 2 * HeartbeatIntervalMs(ttlSecs) + 3 * delayMs < ttlSecs * 1000
    requires idleMs + 2 * HeartbeatIntervalMs(ttlSecs) + 3 * delayMs < timeoutSecs * 1000
    requires forall k :: i < k < j ==> tr.events[k].now < I64_MAX && CompletedAt(tr, k) != Some(a)
    ensures a in tr.states[j].attempts && tr.states[j].attempts[a].status.AttemptRunning?
  {
    hide Apply, Enabled, LoopRounds, ShowsRounds, HeartbeatIntervalMs;
    GrantIsHeld(tr, i, a, runnerId, ttlSecs);
    var gapMs := 2 * HeartbeatIntervalMs(ttlSecs) + 3 * delayMs;
    forall k {:trigger tr.events[k]} | i < k < j
      ensures AttemptHeardWithin(tr, i, k, a, runnerId, gapMs, idleMs + gapMs)
    {
      LoopIsHeard(tr, i, k, rounds, runnerId, tr.states[i + 1].attempts[a].leaseId.value,
                  HeartbeatIntervalMs(ttlSecs), delayMs, idleMs);
    }
    TimelyRunnerKeepsAttempt(tr, i, j, a, runnerId, ttlSecs, timeoutSecs, gapMs, idleMs + gapMs);
  }

  /** Some room for requests is left exactly from three seconds of lease time on. */
  lemma LoopFitsExactly(ttlSecs: nat)
    ensures (exists delayMs: nat :: delayMs > 0 && 2 * HeartbeatIntervalMs(ttlSecs) + 3 * delayMs < ttlSecs * 1000)
            <==> ttlSecs >= 3
  {
    BeatsPerLease(ttlSecs);
    if ttlSecs >= 3 {
      assert 2 * HeartbeatIntervalMs(ttlSecs) + 3 * 1 < ttlSecs * 1000;
    }
  }
}
