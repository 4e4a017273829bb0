/**
 The control database as a state machine: jobs, finished attempts and task outcomes,
 and the transactions that change them. Each transaction is one atomic step that either
 commits or leaves every table as it was.
 */
module ControlState {
  import opened Options
  import opened Ordering
  import opened Formats

  /** A worker's report on one execution. Its digest and canonical JSON stand for the record. */
  datatype AttemptRecord = AttemptRecord(
    job: string,
    attempt: nat,
    attemptId: string,
    sourceBundle: int,
    outputBundle: int,
    body: int)

  predicate ConsistentAttempt(a: AttemptRecord) {
    a.job != "" && a.attempt > 0 && a.attemptId == AttemptId(a.job, a.attempt)
  }

  type AttemptFinished = a: AttemptRecord | ConsistentAttempt(a)
    witness AttemptRecord("job", 1, AttemptId("job", 1), 0, 0, 0)

  /** The JSON text stored as a job's result: that of an attempt, or any other. */
  datatype Payload = Lineage(attempt: AttemptFinished) | Data(content: int)

  /** A lease is present exactly while the job runs. */
  datatype JobStatus = Queued | Running(owner: string, expires: real) | Completed | Failed
  {
    predicate Terminal() {
      Completed? || Failed?
    }
  }

  datatype Job = Job(
    key: string,
    kind: string,
    payload: int,
    status: JobStatus,
    attempts: nat,
    result: Option<Payload>,
    created: string)

  datatype TaskOutcome = TaskOutcome(
    job: string,
    attempt: nat,
    attemptId: string,
    attemptDigest: AttemptRecord,
    sourceBundle: int,
    outputBundle: int,
    contract: int,
    profile: int,
    runId: string,
    producer: string,
    evidence: int)

  datatype FinishedKey = FinishedKey(job: string, attempt: nat)

  datatype Db = Db(
    jobs: map<string, Job>,
    finished: map<FinishedKey, AttemptFinished>,
    outcomes: map<string, TaskOutcome>)

  const EMPTY_DB := Db(map[], map[], map[])

  const CODING_AGENT := "coding-agent"

  datatype Event =
    | Enqueue(id: string, key: string, kind: string, payload: int, created: string)
    | Claim(worker: string, now: real, duration: real)
    | Heartbeat(job: string, worker: string, now: real, duration: real)
    | Finish(job: string, worker: string, succeeded: bool, result: Payload, now: real)
    | FinishAttempt(job: string, worker: string, attempt: AttemptFinished, now: real)
    | Publish(expected: AttemptFinished, outcome: TaskOutcome)

  datatype ControlError =
    | InvalidInput
    | IdempotencyConflict
    | IntegrityViolation
    | LeaseLost
    | StaleAttempt
    | OutcomeConflict

  datatype Reply =
    | JobReply(id: string, job: Job)
    | NothingToClaim
    | OutcomeReply(outcome: TaskOutcome)
    | Refused(error: ControlError)

  // ----- what each transaction does -----

  predicate Claimable(job: Job, now: real) {
    job.status.Queued? || (job.status.Running? && job.status.expires <= now)
  }

  /** The claim order: by the text of the creation time, then by identifier. */
  predicate Ahead(db: Db, a: string, b: string)
    requires a in db.jobs && b in db.jobs
  {
    var first, second := db.jobs[a].created, db.jobs[b].created;
    SeqLess(IntLess, Codes(first), Codes(second)) || (first == second && SeqLess(IntLess, Codes(a), Codes(b)))
  }

  /** The claimable job that is ahead of all others. */
  ghost predicate FirstClaimable(db: Db, now: real, id: string) {
    && id in db.jobs && Claimable(db.jobs[id], now)
    && forall other :: other in db.jobs && Claimable(db.jobs[other], now) && other != id ==> Ahead(db, id, other)
  }

  ghost function ClaimTarget(db: Db, now: real): (target: Option<string>)
    ensures target.Some? ==> FirstClaimable(db, now, target.value)
    ensures target.None? ==> forall id :: !FirstClaimable(db, now, id)
  {
    if id :| FirstClaimable(db, now, id) then Some(id) else None
  }

  predicate HoldsLease(db: Db, id: string, worker: string, now: real) {
    && id in db.jobs && db.jobs[id].status.Running?
    && db.jobs[id].status.owner == worker && db.jobs[id].status.expires > now
  }

  function WithJob(db: Db, id: string, job: Job): Db {
    db.(jobs := db.jobs[id := job])
  }

  ghost function StepEnqueue(db: Db, e: Event): (Db, Reply)
    requires e.Enqueue?
  {
    if e.kind == "" || e.key == "" then (db, Refused(InvalidInput))
    else if id :| id in db.jobs && db.jobs[id].key == e.key then
      if db.jobs[id].kind == e.kind && db.jobs[id].payload == e.payload then (db, JobReply(id, db.jobs[id]))
      else (db, Refused(IdempotencyConflict))
    else if e.id in db.jobs then (db, Refused(IntegrityViolation))
    else
      var job := Job(e.key, e.kind, e.payload, Queued, 0, None, e.created);
      (WithJob(db, e.id, job), JobReply(e.id, job))
  }

  function ClaimJob(job: Job, worker: string, expires: real): Job {
    job.(status := Running(worker, expires), attempts := job.attempts + 1)
  }

  ghost function StepClaim(db: Db, e: Event): (Db, Reply)
    requires e.Claim?
  {
    if e.worker == "" || e.duration <= 0.0 then (db, Refused(InvalidInput))
    else
      match ClaimTarget(db, e.now)
      case None => (db, NothingToClaim)
      case Some(id) =>
        var job := ClaimJob(db.jobs[id], e.worker, e.now + e.duration);
        (WithJob(db, id, job), JobReply(id, job))
  }

  function StepHeartbeat(db: Db, e: Event): (Db, Reply)
    requires e.Heartbeat?
  {
    if e.job == "" || e.worker == "" || e.duration <= 0.0 then (db, Refused(InvalidInput))
    else if !HoldsLease(db, e.job, e.worker, e.now) then (db, Refused(LeaseLost))
    else
      var job := db.jobs[e.job].(status := Running(e.worker, e.now + e.duration));
      (WithJob(db, e.job, job), JobReply(e.job, job))
  }

  function StepFinish(db: Db, e: Event): (Db, Reply)
    requires e.Finish?
  {
    if e.job == "" || e.worker == "" then (db, Refused(InvalidInput))
    else if !HoldsLease(db, e.job, e.worker, e.now) then (db, Refused(LeaseLost))
    else
      var job := db.jobs[e.job].(status := if e.succeeded then Completed else Failed, result := Some(e.result));
      (WithJob(db, e.job, job), JobReply(e.job, job))
  }

  predicate MayFinishAttempt(db: Db, e: Event)
    requires e.FinishAttempt?
  {
    && HoldsLease(db, e.job, e.worker, e.now)
    && db.jobs[e.job].kind == CODING_AGENT
    && db.jobs[e.job].attempts == e.attempt.attempt
  }

  function StepFinishAttempt(db: Db, e: Event): (Db, Reply)
    requires e.FinishAttempt?
  {
    if e.job == "" || e.worker == "" || e.attempt.job != e.job then (db, Refused(InvalidInput))
    else if !MayFinishAttempt(db, e) then (db, Refused(LeaseLost))
    else
      var next := WithFinished(db, e.job, e.attempt);
      (next, JobReply(e.job, next.jobs[e.job]))
  }

  /** Complete the job with the attempt's payload and file the attempt. */
  function WithFinished(db: Db, id: string, attempt: AttemptFinished): (next: Db)
    requires id in db.jobs
    ensures id in next.jobs
  {
    WithJob(db, id, db.jobs[id].(status := Completed, result := Some(Lineage(attempt))))
      .(finished := db.finished[FinishedKey(id, attempt.attempt) := attempt])
  }

  function WithOutcome(db: Db, outcome: TaskOutcome): Db {
    db.(outcomes := db.outcomes[outcome.job := outcome])
  }

  predicate BoundTo(attempt: AttemptFinished, outcome: TaskOutcome) {
    && outcome.job == attempt.job && outcome.attempt == attempt.attempt && outcome.attemptId == attempt.attemptId
    && outcome.attemptDigest == attempt
    && outcome.sourceBundle == attempt.sourceBundle && outcome.outputBundle == attempt.outputBundle
  }

  /** The row fence: the attempt is the recorded one at the job's current attempt number, and the
      completed job carries it as its result. */
  predicate FenceAccepts(db: Db, expected: AttemptFinished) {
    && expected.job in db.jobs
    && var job := db.jobs[expected.job];
       var key := FinishedKey(expected.job, job.attempts);
       && key in db.finished
       && job.kind == CODING_AGENT && job.status == Completed
       && job.attempts == expected.attempt
       && db.finished[key] == expected
       && job.result == Some(Lineage(expected))
  }

  function StepPublish(db: Db, e: Event): (Db, Reply)
    requires e.Publish?
  {
    if !BoundTo(e.expected, e.outcome) || !FenceAccepts(db, e.expected) then (db, Refused(StaleAttempt))
    else if e.expected.job in db.outcomes then
      if db.outcomes[e.expected.job] == e.outcome then (db, OutcomeReply(e.outcome))
      else (db, Refused(OutcomeConflict))
    else (WithOutcome(db, e.outcome), OutcomeReply(e.outcome))
  }

  ghost function Step(db: Db, e: Event): (Db, Reply) {
    match e
    case Enqueue(_, _, _, _, _) => StepEnqueue(db, e)
    case Claim(_, _, _) => StepClaim(db, e)
    case Heartbeat(_, _, _, _) => StepHeartbeat(db, e)
    case Finish(_, _, _, _, _) => StepFinish(db, e)
    case FinishAttempt(_, _, _, _) => StepFinishAttempt(db, e)
    case Publish(_, _) => StepPublish(db, e)
  }

  ghost function After(db: Db, e: Event): Db {
    Step(db, e).0
  }

  ghost predicate Accepted(db: Db, e: Event) {
    !Step(db, e).1.Refused? && !Step(db, e).1.NothingToClaim?
  }

  // ----- what every reachable database satisfies -----

  /** The finished row is that of the completed job: same attempt number, same payload. */
  predicate FinishedMatches(db: Db, key: FinishedKey)
    requires key in db.finished
  {
    && key.job in db.jobs
    && var job := db.jobs[key.job];
       && job.status == Completed && job.kind == CODING_AGENT
       && job.attempts == key.attempt
       && job.result == Some(Lineage(db.finished[key]))
       && db.finished[key].job == key.job && db.finished[key].attempt == key.attempt
  }

  predicate OutcomeMatches(db: Db, id: string)
    requires id in db.outcomes
  {
    && db.outcomes[id].job == id
    && var key := FinishedKey(id, db.outcomes[id].attempt);
       key in db.finished && BoundTo(db.finished[key], db.outcomes[id])
  }

  ghost predicate Inv(db: Db) {
    && (forall a, b :: a in db.jobs && b in db.jobs && db.jobs[a].key == db.jobs[b].key ==> a == b)
    && (forall id :: id in db.jobs && db.jobs[id].status.Queued? ==> db.jobs[id].attempts == 0)
    && (forall key :: key in db.finished ==> FinishedMatches(db, key))
    && (forall id :: id in db.outcomes ==> OutcomeMatches(db, id))
  }

  /** A job that is not completed has no finished row and no outcome. */
  lemma UnfinishedHasNoRow(db: Db, id: string, attempt: nat)
    requires Inv(db) && (id in db.jobs ==> db.jobs[id].status != Completed)
    ensures FinishedKey(id, attempt) !in db.finished && id !in db.outcomes
  {
    assert FinishedKey(id, attempt) in db.finished ==> FinishedMatches(db, FinishedKey(id, attempt));
    assert id in db.outcomes ==> OutcomeMatches(db, id);
    assert id in db.outcomes ==> FinishedMatches(db, FinishedKey(id, db.outcomes[id].attempt));
  }

  /** A job that is not completed, or is new, may change as far as the other tables are concerned. */
  lemma ChangeKeepsInv(db: Db, id: string, job: Job)
    requires Inv(db) && (id in db.jobs ==> db.jobs[id].status != Completed)
    requires forall other :: other in db.jobs && db.jobs[other].key == job.key ==> other == id
    requires job.status.Queued? ==> job.attempts == 0
    ensures Inv(WithJob(db, id, job))
  {
    var next := WithJob(db, id, job);
    forall key | key in next.finished
      ensures FinishedMatches(next, key)
    {
      assert FinishedMatches(db, key);
    }
    forall other | other in next.outcomes
      ensures OutcomeMatches(next, other)
    {
      assert OutcomeMatches(db, other);
    }
  }

  predicate MayFile(db: Db, id: string, attempt: AttemptFinished) {
    && id in db.jobs && db.jobs[id].status.Running? && db.jobs[id].kind == CODING_AGENT
    && attempt.job == id && attempt.attempt == db.jobs[id].attempts
  }

  lemma RowsMatchAfterFiling(db: Db, id: string, attempt: AttemptFinished, key: FinishedKey)
    requires Inv(db) && MayFile(db, id, attempt)
    requires key in WithFinished(db, id, attempt).finished
    ensures FinishedMatches(WithFinished(db, id, attempt), key)
  {
    if key != FinishedKey(id, attempt.attempt) {
      assert FinishedMatches(db, key);
    }
  }

  lemma OutcomesMatchAfterFiling(db: Db, id: string, attempt: AttemptFinished, other: string)
    requires Inv(db) && MayFile(db, id, attempt) && other in db.outcomes
    ensures OutcomeMatches(WithFinished(db, id, attempt), other)
  {
    UnfinishedHasNoRow(db, id, attempt.attempt);
    assert OutcomeMatches(db, other);
  }

  lemma FilingIsSafe(db: Db, id: string, attempt: AttemptFinished)
    requires Inv(db) && MayFile(db, id, attempt)
    ensures Inv(WithFinished(db, id, attempt)) && OnlyGrows(db, WithFinished(db, id, attempt))
  {
    FilingKeepsInv(db, id, attempt);
    UnfinishedHasNoRow(db, id, attempt.attempt);
  }

  lemma FilingKeepsInv(db: Db, id: string, attempt: AttemptFinished)
    requires Inv(db) && MayFile(db, id, attempt)
    ensures Inv(WithFinished(db, id, attempt))
  {
    var next := WithFinished(db, id, attempt);
    forall key | key in next.finished ensures FinishedMatches(next, key) {
      RowsMatchAfterFiling(db, id, attempt, key);
    }
    forall other | other in next.outcomes ensures OutcomeMatches(next, other) {
      OutcomesMatchAfterFiling(db, id, attempt, other);
    }
  }

  lemma OutcomeIsSafe(db: Db, expected: AttemptFinished, outcome: TaskOutcome)
    requires Inv(db) && BoundTo(expected, outcome) && FenceAccepts(db, expected)
    requires expected.job !in db.outcomes
    ensures Inv(WithOutcome(db, outcome)) && OnlyGrows(db, WithOutcome(db, outcome))
  {
    OutcomeKeepsInv(db, expected, outcome);
  }

  lemma OutcomeKeepsInv(db: Db, expected: AttemptFinished, outcome: TaskOutcome)
    requires Inv(db) && BoundTo(expected, outcome) && FenceAccepts(db, expected)
    ensures Inv(WithOutcome(db, outcome))
  {
    var next := WithOutcome(db, outcome);
    forall key | key in next.finished
      ensures FinishedMatches(next, key)
    {
      assert FinishedMatches(db, key);
    }
    forall id | id in next.outcomes
      ensures OutcomeMatches(next, id)
    {
      assert id in db.outcomes ==> OutcomeMatches(db, id);
    }
  }

  /** Completed and failed jobs never change, and finished attempts and outcomes are never changed
      or removed. */
  ghost predicate OnlyGrows(before: Db, later: Db) {
    && (forall id :: id in before.jobs ==> id in later.jobs)
    && (forall id :: id in before.jobs && before.jobs[id].status.Terminal() ==> later.jobs[id] == before.jobs[id])
    && (forall key :: key in before.finished ==> key in later.finished && later.finished[key] == before.finished[key])
    && (forall id :: id in before.outcomes ==> id in later.outcomes && later.outcomes[id] == before.outcomes[id])
  }

  predicate SafeChange(db: Db, id: string, job: Job) {
    && (id in db.jobs ==> !db.jobs[id].status.Terminal())
    && (forall other :: other in db.jobs && db.jobs[other].key == job.key ==> other == id)
    && (job.status.Queued? ==> job.attempts == 0)
  }

  lemma ChangeIsSafe(db: Db, id: string, job: Job)
    requires Inv(db) && SafeChange(db, id, job)
    ensures Inv(WithJob(db, id, job)) && OnlyGrows(db, WithJob(db, id, job))
  {
    ChangeKeepsInv(db, id, job);
  }

  /** What a claim does, once the choice of the job is known. */
  lemma ClaimEffect(db: Db, e: Event) returns (id: string)
    requires e.Claim? && After(db, e) != db
    ensures ClaimTarget(db, e.now) == Some(id) && id in db.jobs && Claimable(db.jobs[id], e.now)
    ensures After(db, e) == WithJob(db, id, ClaimJob(db.jobs[id], e.worker, e.now + e.duration))
  {
    id := ClaimTarget(db, e.now).value;
  }

  lemma ClaimIsSafeChange(db: Db, e: Event) returns (id: string, job: Job)
    requires Inv(db) && e.Claim? && After(db, e) != db
    ensures After(db, e) == WithJob(db, id, job) && SafeChange(db, id, job)
  {
    id := ClaimEffect(db, e);
    job := ClaimJob(db.jobs[id], e.worker, e.now + e.duration);
  }

  lemma ClaimIsSafe(db: Db, e: Event)
    requires Inv(db) && e.Claim?
    ensures Inv(After(db, e)) && OnlyGrows(db, After(db, e))
  {
    if After(db, e) != db {
      var id, job := ClaimIsSafeChange(db, e);
      ChangeIsSafe(db, id, job);
    }
  }

  lemma FinishAttemptIsSafe(db: Db, e: Event)
    requires Inv(db) && e.FinishAttempt?
    ensures Inv(After(db, e)) && OnlyGrows(db, After(db, e))
  {
    if After(db, e) != db {
      FilingIsSafe(db, e.job, e.attempt);
    }
  }

  lemma PublishIsSafe(db: Db, e: Event)
    requires Inv(db) && e.Publish?
    ensures Inv(After(db, e)) && OnlyGrows(db, After(db, e))
  {
    if After(db, e) != db {
      OutcomeIsSafe(db, e.expected, e.outcome);
    }
  }

  lemma HeartbeatIsSafe(db: Db, e: Event)
    requires Inv(db) && e.Heartbeat?
    ensures Inv(After(db, e)) && OnlyGrows(db, After(db, e))
  {
    if After(db, e) != db {
      ChangeIsSafe(db, e.job, After(db, e).jobs[e.job]);
    }
  }

  lemma FinishIsSafe(db: Db, e: Event)
    requires Inv(db) && e.Finish?
    ensures Inv(After(db, e)) && OnlyGrows(db, After(db, e))
  {
    if After(db, e) != db {
      ChangeIsSafe(db, e.job, After(db, e).jobs[e.job]);
    }
  }

  lemma EnqueueIsSafe(db: Db, e: Event)
    requires Inv(db) && e.Enqueue?
    ensures Inv(After(db, e)) && OnlyGrows(db, After(db, e))
  {
    if After(db, e) != db {
      ChangeIsSafe(db, e.id, After(db, e).jobs[e.id]);
    }
  }

  /** Every transaction keeps the invariant and only lets the tables grow. */
  lemma StepIsSafe(db: Db, e: Event)
    requires Inv(db)
    ensures Inv(After(db, e)) && OnlyGrows(db, After(db, e))
  {
    match e
    case Enqueue(_, _, _, _, _) => EnqueueIsSafe(db, e);
    case Claim(_, _, _) => ClaimIsSafe(db, e);
    case Heartbeat(_, _, _, _) => HeartbeatIsSafe(db, e);
    case Finish(_, _, _, _, _) => FinishIsSafe(db, e);
    case FinishAttempt(_, _, _, _) => FinishAttemptIsSafe(db, e);
    case Publish(_, _) => PublishIsSafe(db, e);
  }

  /** The uniqueness constraints of the table of finished attempts. */
  predicate RowIsNew(db: Db, attempt: AttemptFinished) {
    && FinishedKey(attempt.job, attempt.attempt) !in db.finished
    && forall key :: key in db.finished ==>
         db.finished[key].attemptId != attempt.attemptId && db.finished[key] != attempt
  }

  /** The insert of an accepted attempt cannot hit a uniqueness constraint: not the primary key,
      not the attempt identifier, not the digest. */
  lemma FinishedRowIsNew(db: Db, e: Event)
    requires Inv(db) && e.FinishAttempt? && e.attempt.job == e.job && MayFinishAttempt(db, e)
    ensures RowIsNew(db, e.attempt)
  {
    forall key | key in db.finished
      ensures db.finished[key].attemptId != e.attempt.attemptId
    {
      assert FinishedMatches(db, key);
      var row := db.finished[key];
      if row.attemptId == e.attempt.attemptId {
        AttemptIdInjective(row.job, row.attempt, e.attempt.job, e.attempt.attempt);
      }
    }
    UnfinishedHasNoRow(db, e.job, e.attempt.attempt);
  }
}
