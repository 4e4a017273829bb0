/**
 What holds in every run of the control database: any number of workers and Control
 sessions, their transactions interleaved in any order.
 */
module ControlRuns {
  import opened Options
  import opened ControlState

  ghost function AfterAll(db: Db, events: seq<Event>): Db {
    if events == [] then db else After(AfterAll(db, events[..|events| - 1]), events[|events| - 1])
  }

  ghost function RunOf(events: seq<Event>): Db {
    AfterAll(EMPTY_DB, events)
  }

  lemma AfterAllSnoc(db: Db, front: seq<Event>, last: Event)
    ensures AfterAll(db, front + [last]) == After(AfterAll(db, front), last)
  {
    assert (front + [last])[..|front|] == front;
  }

  lemma {:induction false} AfterAllConcat(db: Db, first: seq<Event>, second: seq<Event>)
    ensures AfterAll(db, first + second) == AfterAll(AfterAll(db, first), second)
  {
    if second == [] {
      assert first + second == first;
    } else {
      var all, front := first + second, second[..|second| - 1];
      assert all[..|all| - 1] == first + front && all[|all| - 1] == second[|second| - 1];
      AfterAllConcat(db, first, front);
    }
  }

  lemma {:induction false} RunKeepsInv(db: Db, events: seq<Event>)
    requires Inv(db)
    ensures Inv(AfterAll(db, events)) && OnlyGrows(db, AfterAll(db, events))
  {
    if events != [] {
      var front := events[..|events| - 1];
      RunKeepsInv(db, front);
      StepIsSafe(AfterAll(db, front), events[|events| - 1]);
      GrowthComposes(db, AfterAll(db, front), AfterAll(db, events));
    }
  }

  lemma GrowthComposes(a: Db, b: Db, c: Db)
    requires OnlyGrows(a, b) && OnlyGrows(b, c)
    ensures OnlyGrows(a, c)
  {
  }

  lemma EveryRunKeepsInv(events: seq<Event>)
    ensures Inv(RunOf(events))
  {
    RunKeepsInv(EMPTY_DB, events);
  }

  // ----- history of a job: its claims and leases -----

  datatype Lease = Lease(owner: string, expires: real)

  /** The event is a claim that takes this job. */
  ghost predicate ClaimsJob(db: Db, e: Event, id: string) {
    e.Claim? && Accepted(db, e) && ClaimTarget(db, e.now) == Some(id)
  }

  ghost predicate RenewsLease(db: Db, e: Event, id: string) {
    e.Heartbeat? && Accepted(db, e) && e.job == id
  }

  /** How many claims of the job the run contains. */
  ghost function Claims(events: seq<Event>, id: string): nat {
    if events == [] then 0
    else
      var front, last := events[..|events| - 1], events[|events| - 1];
      Claims(front, id) + if ClaimsJob(RunOf(front), last, id) then 1 else 0
  }

  /** Who made the n-th claim of the job. */
  ghost function Claimer(events: seq<Event>, id: string, n: nat): Option<string> {
    if events == [] then None
    else
      var front, last := events[..|events| - 1], events[|events| - 1];
      if ClaimsJob(RunOf(front), last, id) && Claims(events, id) == n then Some(last.worker) else Claimer(front, id, n)
  }

  /** The lease last recorded for the job, by a claim or a heartbeat. */
  ghost function LastLease(events: seq<Event>, id: string): Option<Lease> {
    if events == [] then None
    else
      var front, last := events[..|events| - 1], events[|events| - 1];
      if ClaimsJob(RunOf(front), last, id) || RenewsLease(RunOf(front), last, id) then
        Some(Lease(last.worker, last.now + last.duration))
      else LastLease(front, id)
  }

  /** The stored row agrees with the history of the run. */
  ghost predicate RowTellsHistory(events: seq<Event>, id: string) {
    var db := RunOf(events);
    if id !in db.jobs then Claims(events, id) == 0
    else
      var job := db.jobs[id];
      && job.attempts == Claims(events, id)
      && (job.status.Running? ==>
            && job.attempts >= 1
            && Claimer(events, id, job.attempts) == Some(job.status.owner)
            && LastLease(events, id) == Some(Lease(job.status.owner, job.status.expires)))
  }

  /** What one transaction does to one job's row. */
  lemma StepOnJob(db: Db, e: Event, id: string)
    ensures ClaimsJob(db, e, id) ==>
              && id in db.jobs && Claimable(db.jobs[id], e.now) && id in After(db, e).jobs
              && After(db, e).jobs[id] == ClaimJob(db.jobs[id], e.worker, e.now + e.duration)
    ensures RenewsLease(db, e, id) ==>
              && HoldsLease(db, id, e.worker, e.now) && id in After(db, e).jobs
              && After(db, e).jobs[id] == db.jobs[id].(status := Running(e.worker, e.now + e.duration))
    ensures !ClaimsJob(db, e, id) && id in After(db, e).jobs ==>
              After(db, e).jobs[id].attempts == if id in db.jobs then db.jobs[id].attempts else 0
    ensures !ClaimsJob(db, e, id) && !RenewsLease(db, e, id) &&
            id in After(db, e).jobs && After(db, e).jobs[id].status.Running? ==>
              id in db.jobs && After(db, e).jobs[id] == db.jobs[id]
    ensures id in db.jobs ==> id in After(db, e).jobs
  {
    if e.Claim? && After(db, e) != db {
      var target := ClaimEffect(db, e);
    }
  }

  /** In every run, `attempts` is the number of claims, a running job belongs to whoever made the
      latest claim, and its lease is the one last recorded. */
  lemma {:induction false} RowsTellHistory(events: seq<Event>, id: string)
    ensures RowTellsHistory(events, id)
  {
    if events != [] {
      var front, last := events[..|events| - 1], events[|events| - 1];
      RowsTellHistory(front, id);
      StepOnJob(RunOf(front), last, id);
    }
  }

  // ----- fencing -----

  ghost predicate NthClaimAt(events: seq<Event>, id: string, n: nat, i: nat) {
    && i < |events| && ClaimsJob(RunOf(events[..i]), events[i], id)
    && Claims(events[..i], id) == n - 1
  }

  /** The n-th claim is a definite event of the run. */
  lemma {:induction false} NthClaim(events: seq<Event>, id: string, n: nat) returns (i: nat)
    requires 1 <= n <= Claims(events, id)
    ensures NthClaimAt(events, id, n, i) && Claimer(events, id, n) == Some(events[i].worker)
  {
    var last := |events| - 1;
    var front := events[..last];
    if ClaimsJob(RunOf(front), events[last], id) && Claims(events, id) == n {
      i := last;
    } else {
      i := NthClaim(front, id, n);
      assert front[..i] == events[..i];
    }
  }

  /** An accepted attempt numbered n comes from the worker that made the n-th claim, which is the
      latest because the run has no more than n, while its lease is unexpired: even when worker names are reused. */
  lemma AcceptedAttemptIsFenced(events: seq<Event>, e: Event) returns (i: nat)
    requires e.FinishAttempt? && Accepted(RunOf(events), e)
    ensures Claims(events, e.job) == e.attempt.attempt
    ensures NthClaimAt(events, e.job, e.attempt.attempt, i) && events[i].worker == e.worker
    ensures LastLease(events, e.job).Some? && LastLease(events, e.job).value.owner == e.worker
    ensures LastLease(events, e.job).value.expires > e.now
  {
    RowsTellHistory(events, e.job);
    i := NthClaim(events, e.job, e.attempt.attempt);
  }

  /** A running job is taken over only at or after the expiry its lease last recorded, by claim or
      heartbeat. */
  lemma NoTakeoverBeforeExpiry(events: seq<Event>, e: Event, id: string)
    requires ClaimsJob(RunOf(events), e, id) && RunOf(events).jobs[id].status.Running?
    ensures LastLease(events, id).Some? && LastLease(events, id).value.expires <= e.now
  {
    RowsTellHistory(events, id);
    StepOnJob(RunOf(events), e, id);
  }

  /** `complete` and `fail` look at the worker's name and the lease, not at the attempt: they are
      accepted exactly when the caller's name is that of the latest claimer and the lease is open. */
  lemma FinishAcceptedIff(events: seq<Event>, e: Event)
    requires e.Finish? && e.job != "" && e.worker != ""
    ensures Accepted(RunOf(events), e) <==>
            && e.job in RunOf(events).jobs && RunOf(events).jobs[e.job].status.Running?
            && Claimer(events, e.job, Claims(events, e.job)) == Some(e.worker)
            && LastLease(events, e.job).Some? && LastLease(events, e.job).value.expires > e.now
  {
    RowsTellHistory(events, e.job);
  }

  /** Someone of this name made a later claim of the job than the m-th. */
  ghost predicate NameReusedAfter(events: seq<Event>, id: string, worker: string, m: nat) {
    exists n: nat :: m < n <= Claims(events, id) && Claimer(events, id, n) == Some(worker)
  }

  /** So a finish that is accepted from the caller of attempt m ends that attempt, and not a later
      one, exactly when the caller's name has not been used for a later claim. */
  lemma FinishEndsOwnAttemptIff(events: seq<Event>, e: Event, m: nat)
    requires e.Finish? && Accepted(RunOf(events), e)
    requires 1 <= m <= Claims(events, e.job) && Claimer(events, e.job, m) == Some(e.worker)
    ensures After(RunOf(events), e).jobs[e.job].attempts == m <==> !NameReusedAfter(events, e.job, e.worker, m)
  {
    RowsTellHistory(events, e.job);
    assert Claimer(events, e.job, Claims(events, e.job)) == Some(e.worker);
  }

  function NamesakeRun(payload: int): seq<Event> {
    [Enqueue("j", "key", CODING_AGENT, payload, "t"), Claim("w", 0.0, 1.0), Claim("w", 1.0, 1.0)]
  }

  function NamesakeJob(payload: int): Job {
    Job("key", CODING_AGENT, payload, Queued, 0, None, "t")
  }

  lemma AfterEnqueue(payload: int)
    ensures RunOf(NamesakeRun(payload)[..1]) == WithJob(EMPTY_DB, "j", NamesakeJob(payload))
    ensures Claims(NamesakeRun(payload)[..1], "j") == 0
  {
    var events := NamesakeRun(payload);
    RunSnoc([], events[0], "j");
    assert [] + [events[0]] == events[..1];
  }

  lemma AfterFirstClaim(payload: int)
    ensures RunOf(NamesakeRun(payload)[..2]) == WithJob(EMPTY_DB, "j", ClaimJob(NamesakeJob(payload), "w", 1.0))
    ensures Claims(NamesakeRun(payload)[..2], "j") == 1
  {
    var events := NamesakeRun(payload);
    AfterEnqueue(payload);
    OnlyJobIsClaimed(RunOf(events[..1]), "j", 0.0);
    RunSnoc(events[..1], events[1], "j");
    assert events[..1] + [events[1]] == events[..2];
  }

  /** And that can fail: a worker whose lease ran out completes the newer claim of a namesake,
      although its attempt would be refused. */
  lemma StaleNamesakeCompletes(payload: int, result: Payload, stale: AttemptFinished)
    requires stale.job == "j" && stale.attempt == 1
    ensures var events := NamesakeRun(payload);
            && Claims(events[..2], "j") == 1 && Claims(events, "j") == 2
            && Accepted(RunOf(events), Finish("j", "w", true, result, 1.5))
            && !Accepted(RunOf(events), FinishAttempt("j", "w", stale, 1.5))
  {
    var events := NamesakeRun(payload);
    AfterFirstClaim(payload);
    OnlyJobIsClaimed(RunOf(events[..2]), "j", 1.0);
    RunSnoc(events[..2], events[2], "j");
    assert events[..2] + [events[2]] == events;
  }

  lemma RunSnoc(front: seq<Event>, last: Event, id: string)
    ensures RunOf(front + [last]) == After(RunOf(front), last)
    ensures Claims(front + [last], id) == Claims(front, id) + if ClaimsJob(RunOf(front), last, id) then 1 else 0
  {
    assert (front + [last])[..|front|] == front;
  }

  lemma OnlyJobIsClaimed(db: Db, id: string, now: real)
    requires db.jobs.Keys == {id} && Claimable(db.jobs[id], now)
    ensures ClaimTarget(db, now) == Some(id)
  {
    assert FirstClaimable(db, now, id);
  }

  // ----- finished attempts and outcomes -----

  /** A job has at most one finished attempt; it is that of the completed job. */
  lemma AtMostOneFinishedAttempt(events: seq<Event>, a: FinishedKey, b: FinishedKey)
    requires a in RunOf(events).finished && b in RunOf(events).finished && a.job == b.job
    ensures a == b && FinishedMatches(RunOf(events), a)
  {
    EveryRunKeepsInv(events);
    assert FinishedMatches(RunOf(events), a) && FinishedMatches(RunOf(events), b);
  }

  /** Each outcome belongs to its job's unique finished attempt. */
  lemma OutcomeBelongsToAttempt(events: seq<Event>, id: string)
    requires id in RunOf(events).outcomes
    ensures var db, key := RunOf(events), FinishedKey(id, RunOf(events).outcomes[id].attempt);
            && key in db.finished && BoundTo(db.finished[key], db.outcomes[id])
            && forall other :: other in db.finished && other.job == id ==> other == key
  {
    EveryRunKeepsInv(events);
    assert OutcomeMatches(RunOf(events), id);
    forall other | other in RunOf(events).finished && other.job == id
      ensures other == FinishedKey(id, RunOf(events).outcomes[id].attempt)
    {
      AtMostOneFinishedAttempt(events, other, FinishedKey(id, RunOf(events).outcomes[id].attempt));
    }
  }

  /** Completed and failed jobs, finished attempts and outcomes stay as they are in every
      continuation, so a job never has two different outcomes. */
  lemma NothingFinalChanges(events: seq<Event>, more: seq<Event>)
    ensures OnlyGrows(RunOf(events), RunOf(events + more))
  {
    EveryRunKeepsInv(events);
    RunKeepsInv(RunOf(events), more);
    AfterAllConcat(EMPTY_DB, events, more);
  }

  /** An attempt read at one time still passes the row fence whenever it is published later. */
  lemma AttemptReadEarlierPassesFence(events: seq<Event>, more: seq<Event>, key: FinishedKey)
    requires key in RunOf(events).finished
    ensures FenceAccepts(RunOf(events + more), RunOf(events).finished[key])
  {
    NothingFinalChanges(events, more);
    EveryRunKeepsInv(events);
    assert FinishedMatches(RunOf(events), key);
  }

  ghost predicate HasNoLineage(db: Db, id: string) {
    && id in db.jobs && db.jobs[id].status.Terminal()
    && forall key :: key in db.finished ==> key.job != id
  }

  lemma NoLineageStep(db: Db, e: Event, id: string)
    requires Inv(db) && HasNoLineage(db, id)
    ensures HasNoLineage(After(db, e), id)
  {
    StepIsSafe(db, e);
    NewRowsAreOfRunningJobs(db, e);
  }

  lemma NewRowsAreOfRunningJobs(db: Db, e: Event)
    ensures forall key :: key in After(db, e).finished ==>
              key in db.finished || (key.job in db.jobs && db.jobs[key.job].status.Running?)
  {
  }

  lemma {:induction false} NoLineageStays(db: Db, id: string, more: seq<Event>)
    requires Inv(db) && HasNoLineage(db, id)
    ensures HasNoLineage(AfterAll(db, more), id)
  {
    if more != [] {
      var front := more[..|more| - 1];
      NoLineageStays(db, id, front);
      RunKeepsInv(db, front);
      NoLineageStep(AfterAll(db, front), more[|more| - 1], id);
    }
  }

  /** A job ended by `complete` or `fail` never gains an outcome, even if its result repeats the
      text of an attempt. */
  lemma EndedWithoutAttemptNeverGainsOutcome(events: seq<Event>, e: Event, more: seq<Event>)
    requires e.Finish? && Accepted(RunOf(events), e)
    ensures e.job !in RunOf(events + [e] + more).outcomes
  {
    EveryRunKeepsInv(events);
    var ended := After(RunOf(events), e);
    StepIsSafe(RunOf(events), e);
    forall key | key in ended.finished
      ensures key.job != e.job
    {
      UnfinishedHasNoRow(RunOf(events), e.job, key.attempt);
    }
    NoLineageStays(ended, e.job, more);
    assert (events + [e])[..|events|] == events;
    AfterAllConcat(EMPTY_DB, events + [e], more);
    EveryRunKeepsInv(events + [e] + more);
    assert e.job in RunOf(events + [e] + more).outcomes ==> OutcomeMatches(RunOf(events + [e] + more), e.job);
  }
}
