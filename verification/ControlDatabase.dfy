/**
 The job queue and the outcome authority over one database file: every method is one
 transaction that commits exactly the step of the state machine or leaves the tables alone.
 */
module ControlDatabase {
  import opened Options
  import opened Collections
  import opened Ordering
  import opened ControlState
  import opened ControlRuns

  lemma TextsTotal(a: string, b: string)
    ensures a == b || SeqLess(IntLess, Codes(a), Codes(b)) || SeqLess(IntLess, Codes(b), Codes(a))
    ensures !(SeqLess(IntLess, Codes(a), Codes(b)) && SeqLess(IntLess, Codes(b), Codes(a)))
  {
    KeysTotal(Codes(a), Codes(b));
    assert StrictTotal(IntLess);
    SeqAntisymmetric(IntLess, Codes(a), Codes(b));
    if Codes(a) == Codes(b) {
      CodesInjective(a, b);
    }
  }

  /** Of two jobs exactly one is ahead. */
  lemma AheadTotal(db: Db, a: string, b: string)
    requires a in db.jobs && b in db.jobs && a != b
    ensures Ahead(db, a, b) <==> !Ahead(db, b, a)
  {
    TextsTotal(db.jobs[a].created, db.jobs[b].created);
    TextsTotal(a, b);
  }

  lemma AheadTransitive(db: Db, a: string, b: string, c: string)
    requires a in db.jobs && b in db.jobs && c in db.jobs
    requires Ahead(db, a, b) && Ahead(db, b, c)
    ensures Ahead(db, a, c)
  {
    var first, second, third := Codes(db.jobs[a].created), Codes(db.jobs[b].created), Codes(db.jobs[c].created);
    if SeqLess(IntLess, first, second) && SeqLess(IntLess, second, third) {
      KeysTransitive(first, second, third);
    } else if SeqLess(IntLess, Codes(a), Codes(b)) && SeqLess(IntLess, Codes(b), Codes(c)) {
      KeysTransitive(Codes(a), Codes(b), Codes(c));
    }
  }

  lemma FirstClaimableIsTarget(db: Db, now: real, id: string)
    requires FirstClaimable(db, now, id)
    ensures ClaimTarget(db, now) == Some(id)
  {
    forall other | FirstClaimable(db, now, other)
      ensures other == id
    {
      if other != id {
        AheadTotal(db, id, other);
      }
    }
  }

  /** `best` is the first claimable job outside `remaining`, if there is any. */
  ghost predicate BestSoFar(db: Db, now: real, remaining: set<string>, best: Option<string>) {
    match best
    case None => forall id :: id in db.jobs && Claimable(db.jobs[id], now) ==> id in remaining
    case Some(b) =>
      && b in db.jobs && Claimable(db.jobs[b], now) && b !in remaining
      && forall id :: id in db.jobs && Claimable(db.jobs[id], now) && id != b ==>
           id in remaining || Ahead(db, b, id)
  }

  /** One job is looked at: it replaces the best so far if it comes before it. */
  function Better(db: Db, now: real, best: Option<string>, id: string): Option<string>
    requires id in db.jobs && (best.Some? ==> best.value in db.jobs)
  {
    if Claimable(db.jobs[id], now) && (best.None? || Ahead(db, id, best.value)) then Some(id) else best
  }

  lemma BetterIsBest(db: Db, now: real, remaining: set<string>, best: Option<string>, id: string)
    requires BestSoFar(db, now, remaining, best) && id in remaining && id in db.jobs
    ensures best.Some? ==> best.value in db.jobs
    ensures BestSoFar(db, now, remaining - {id}, Better(db, now, best, id))
  {
    if best.Some? && Claimable(db.jobs[id], now) {
      AheadTotal(db, best.value, id);
      if Ahead(db, id, best.value) {
        forall other | other in db.jobs && Claimable(db.jobs[other], now) && other != id && other !in remaining
          ensures Ahead(db, id, other)
        {
          if other != best.value {
            AheadTransitive(db, id, best.value, other);
          }
        }
      }
    }
  }

  method FindClaimable(db: Db, now: real) returns (target: Option<string>)
    ensures target == ClaimTarget(db, now)
    ensures target.None? <==> forall id :: id in db.jobs ==> !Claimable(db.jobs[id], now)
  {
    target := None;
    var remaining := db.jobs.Keys;
    while remaining != {}
      invariant remaining <= db.jobs.Keys
      invariant BestSoFar(db, now, remaining, target)
      decreases remaining
    {
      var id := TakeSome(remaining);
      BetterIsBest(db, now, remaining, target, id);
      target := Better(db, now, target, id);
      remaining := remaining - {id};
    }
    if target.Some? {
      assert FirstClaimable(db, now, target.value);
      FirstClaimableIsTarget(db, now, target.value);
    }
  }

  /** The job bound to an idempotency key. */
  method FindKey(jobs: map<string, Job>, key: string) returns (found: Option<string>)
    ensures found.Some? ==> found.value in jobs && jobs[found.value].key == key
    ensures found.None? ==> forall id :: id in jobs ==> jobs[id].key != key
  {
    found := None;
    var remaining := jobs.Keys;
    while remaining != {} && found.None?
      invariant remaining <= jobs.Keys
      invariant found.Some? ==> found.value in jobs && jobs[found.value].key == key
      invariant found.None? ==> forall id :: id in jobs && jobs[id].key == key ==> id in remaining
      decreases remaining
    {
      var id := TakeSome(remaining);
      if jobs[id].key == key {
        found := Some(id);
      }
      remaining := remaining - {id};
    }
  }

  /** The row of a job with the greatest attempt number. */
  method LatestRow(finished: map<FinishedKey, AttemptFinished>, job: string) returns (latest: Option<FinishedKey>)
    ensures latest.None? <==> forall key :: key in finished ==> key.job != job
    ensures latest.Some? ==> latest.value in finished && latest.value.job == job
    ensures latest.Some? ==> forall key :: key in finished && key.job == job ==> key.attempt <= latest.value.attempt
  {
    latest := None;
    var remaining := finished.Keys;
    while remaining != {}
      invariant remaining <= finished.Keys
      invariant latest.None? ==> forall key :: key in finished && key.job == job ==> key in remaining
      invariant latest.Some? ==> latest.value in finished && latest.value.job == job
      invariant latest.Some? ==>
                  forall key :: key in finished && key.job == job ==>
                    key in remaining || key.attempt <= latest.value.attempt
      decreases remaining
    {
      var key := TakeSome(remaining);
      if key.job == job && (latest.None? || latest.value.attempt < key.attempt) {
        latest := Some(key);
      }
      remaining := remaining - {key};
    }
  }

  class ControlStore {
    var jobs: map<string, Job>
    var attemptFinished: map<FinishedKey, AttemptFinished>
    var taskOutcomes: map<string, TaskOutcome>
    // What the other workers and Control sessions commit between two of our transactions.
    var schedule: seq<seq<Event>>

    function Snapshot(): Db
      reads this
    {
      Db(jobs, attemptFinished, taskOutcomes)
    }

    constructor (schedule: seq<seq<Event>>)
      ensures Snapshot() == EMPTY_DB && Inv(Snapshot()) && this.schedule == schedule
    {
      jobs, attemptFinished, taskOutcomes := map[], map[], map[];
      this.schedule := schedule;
    }

    method Enqueue(id: string, key: string, kind: string, payload: int, created: string) returns (reply: Reply)
      requires Inv(Snapshot())
      modifies this`jobs
      ensures (Snapshot(), reply) == Step(old(Snapshot()), Event.Enqueue(id, key, kind, payload, created))
    {
      if kind == "" || key == "" {
        return Refused(InvalidInput);
      }
      var bound := FindKey(jobs, key);
      if bound.None? {
        if id in jobs {
          return Refused(IntegrityViolation);
        }
        jobs := jobs[id := Job(key, kind, payload, Queued, 0, None, created)];
        return JobReply(id, jobs[id]);
      }
      var row := jobs[bound.value];
      if row.kind != kind || row.payload != payload {
        return Refused(IdempotencyConflict);
      }
      reply := JobReply(bound.value, row);
    }

    method Claim(worker: string, now: real, duration: real) returns (reply: Reply)
      requires Inv(Snapshot())
      modifies this`jobs
      ensures (Snapshot(), reply) == Step(old(Snapshot()), Event.Claim(worker, now, duration))
      ensures reply == NothingToClaim <==>
                worker != "" && duration > 0.0 && forall id :: id in old(jobs) ==> !Claimable(old(jobs)[id], now)
    {
      if worker == "" || duration <= 0.0 {
        return Refused(InvalidInput);
      }
      var target := FindClaimable(Snapshot(), now);
      if target.None? {
        return NothingToClaim;
      }
      var id := target.value;
      var claimed := jobs[id].(status := Running(worker, now + duration), attempts := jobs[id].attempts + 1);
      jobs := jobs[id := claimed];
      reply := JobReply(id, claimed);
    }

    method Heartbeat(job: string, worker: string, now: real, duration: real) returns (reply: Reply)
      requires Inv(Snapshot())
      modifies this`jobs
      ensures (Snapshot(), reply) == Step(old(Snapshot()), Event.Heartbeat(job, worker, now, duration))
    {
      if job == "" || worker == "" || duration <= 0.0 {
        return Refused(InvalidInput);
      }
      if !(job in jobs && jobs[job].status.Running?
           && jobs[job].status.owner == worker && jobs[job].status.expires > now) {
        return Refused(LeaseLost);
      }
      jobs := jobs[job := jobs[job].(status := Running(worker, now + duration))];
      reply := JobReply(job, jobs[job]);
    }

    /** `complete` and `fail`. */
    method Finish(job: string, worker: string, succeeded: bool, result: Payload, now: real) returns (reply: Reply)
      requires Inv(Snapshot())
      modifies this`jobs
      ensures (Snapshot(), reply) == Step(old(Snapshot()), Event.Finish(job, worker, succeeded, result, now))
      ensures reply.JobReply? ==>
                && job in old(jobs) && jobs == old(jobs)[job := reply.job]
                && reply.job == old(jobs)[job].(status := reply.job.status, result := Some(result))
                && (succeeded ==> reply.job.status == Completed) && (!succeeded ==> reply.job.status == Failed)
    {
      if job == "" || worker == "" {
        return Refused(InvalidInput);
      }
      if !(job in jobs && jobs[job].status.Running?
           && jobs[job].status.owner == worker && jobs[job].status.expires > now) {
        return Refused(LeaseLost);
      }
      jobs := jobs[job := jobs[job].(status := if succeeded then Completed else Failed, result := Some(result))];
      reply := JobReply(job, jobs[job]);
    }

    /** The insert never hits a uniqueness constraint, so the update is never rolled back. */
    method FinishAttempt(job: string, worker: string, attempt: AttemptFinished, now: real) returns (reply: Reply)
      requires Inv(Snapshot())
      modifies this`jobs, this`attemptFinished
      ensures (Snapshot(), reply) == Step(old(Snapshot()), Event.FinishAttempt(job, worker, attempt, now))
      ensures reply != Refused(IntegrityViolation)
    {
      if job == "" || worker == "" || attempt.job != job {
        return Refused(InvalidInput);
      }
      if !(&& job in jobs && jobs[job].status.Running? && jobs[job].status.owner == worker
           && jobs[job].status.expires > now && jobs[job].kind == CODING_AGENT
           && jobs[job].attempts == attempt.attempt) {
        return Refused(LeaseLost);
      }
      FinishedRowIsNew(Snapshot(), Event.FinishAttempt(job, worker, attempt, now));
      reply := CommitAttempt(attempt);
    }

    /** Update the job and insert the attempt; roll back if the insert hits a uniqueness constraint. */
    method CommitAttempt(attempt: AttemptFinished) returns (reply: Reply)
      requires attempt.job in jobs
      modifies this`jobs, this`attemptFinished
      ensures if RowIsNew(old(Snapshot()), attempt)
              then Snapshot() == WithFinished(old(Snapshot()), attempt.job, attempt) &&
                   reply == JobReply(attempt.job, Snapshot().jobs[attempt.job])
              else Snapshot() == old(Snapshot()) && reply == Refused(IntegrityViolation)
    {
      var before := jobs;
      jobs := jobs[attempt.job := jobs[attempt.job].(status := Completed, result := Some(Lineage(attempt)))];
      if !RowIsNew(Snapshot(), attempt) {
        jobs := before;
        return Refused(IntegrityViolation);
      }
      attemptFinished := attemptFinished[FinishedKey(attempt.job, attempt.attempt) := attempt];
      reply := JobReply(attempt.job, jobs[attempt.job]);
    }

    method GetAttemptFinished(job: string) returns (attempt: Option<AttemptFinished>)
      requires Inv(Snapshot())
      modifies this
      ensures Inv(Snapshot()) && OnlyGrows(old(Snapshot()), Snapshot())
      ensures attempt.Some? ==> FenceAccepts(Snapshot(), attempt.value) && attempt.value.job == job
      ensures attempt.None? ==> forall key :: key in Snapshot().finished ==> key.job != job
      ensures old(schedule) == [] ==> Snapshot() == old(Snapshot()) && schedule == []
    {
      OtherTransactions();
      var latest := LatestRow(attemptFinished, job);
      if latest.None? {
        return None;
      }
      assert FinishedMatches(Snapshot(), latest.value);
      attempt := Some(attemptFinished[latest.value]);
    }

    method GetTaskOutcome(job: string) returns (outcome: Option<TaskOutcome>)
      requires Inv(Snapshot())
      modifies this
      ensures Inv(Snapshot()) && OnlyGrows(old(Snapshot()), Snapshot())
      ensures outcome == if job in Snapshot().outcomes then Some(Snapshot().outcomes[job]) else None
      ensures old(schedule) == [] ==> Snapshot() == old(Snapshot()) && schedule == []
    {
      OtherTransactions();
      outcome := if job in taskOutcomes then Some(taskOutcomes[job]) else None;
    }

    method PublishTaskOutcome(expected: AttemptFinished, outcome: TaskOutcome) returns (reply: Reply)
      requires Inv(Snapshot())
      modifies this`taskOutcomes
      ensures (Snapshot(), reply) == Step(old(Snapshot()), Publish(expected, outcome))
    {
      if !BoundTo(expected, outcome) {
        return Refused(StaleAttempt);
      }
      if !(expected.job in jobs && FinishedKey(expected.job, jobs[expected.job].attempts) in attemptFinished) {
        return Refused(StaleAttempt);
      }
      var row := jobs[expected.job];
      var stored := attemptFinished[FinishedKey(expected.job, row.attempts)];
      if row.kind != CODING_AGENT || row.status != Completed || row.attempts != expected.attempt {
        return Refused(StaleAttempt);
      }
      if stored != expected || row.result != Some(Lineage(stored)) {
        return Refused(StaleAttempt);
      }
      if expected.job in taskOutcomes {
        var published := taskOutcomes[expected.job];
        return if published == outcome then OutcomeReply(published) else Refused(OutcomeConflict);
      }
      taskOutcomes := taskOutcomes[outcome.job := outcome];
      reply := OutcomeReply(outcome);
    }

    method Perform(e: Event) returns (reply: Reply)
      requires Inv(Snapshot())
      modifies this`jobs, this`attemptFinished, this`taskOutcomes
      ensures (Snapshot(), reply) == Step(old(Snapshot()), e)
    {
      match e
      case Enqueue(id, key, kind, payload, created) => reply := Enqueue(id, key, kind, payload, created);
      case Claim(worker, now, duration) => reply := Claim(worker, now, duration);
      case Heartbeat(job, worker, now, duration) => reply := Heartbeat(job, worker, now, duration);
      case Finish(job, worker, succeeded, result, now) => reply := Finish(job, worker, succeeded, result, now);
      case FinishAttempt(job, worker, attempt, now) => reply := FinishAttempt(job, worker, attempt, now);
      case Publish(expected, outcome) => reply := PublishTaskOutcome(expected, outcome);
    }

    /** Whatever others commit before our next transaction. */
    method OtherTransactions()
      requires Inv(Snapshot())
      modifies this
      ensures Inv(Snapshot()) && OnlyGrows(old(Snapshot()), Snapshot())
      ensures if old(schedule) == [] then Snapshot() == old(Snapshot()) && schedule == []
              else Snapshot() == AfterAll(old(Snapshot()), old(schedule)[0]) && schedule == old(schedule)[1..]
    {
      if schedule == [] {
        return;
      }
      var events := schedule[0];
      schedule := schedule[1..];
      ghost var start := Snapshot();
      for i := 0 to |events|
        invariant schedule == old(schedule)[1..]
        invariant Snapshot() == AfterAll(start, events[..i]) && Inv(Snapshot())
      {
        StepIsSafe(Snapshot(), events[i]);
        var reply := Perform(events[i]);
        assert events[..i + 1] == events[..i] + [events[i]];
        AfterAllSnoc(start, events[..i], events[i]);
      }
      assert events[..|events|] == events;
      RunKeepsInv(start, events);
    }
  }
}
