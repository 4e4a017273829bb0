/**
 The rows of the job table read off the history of a run: what was enqueued, how a job
 ended, and exactly which requests are accepted.
 */
module ControlHistory {
  import opened Options
  import opened Ordering
  import opened ControlState
  import opened ControlRuns

  // ----- how a job ended -----

  /** The event is a `complete`, `fail` or `finish_attempt` that ends this job. */
  ghost predicate EndsJob(db: Db, e: Event, id: string) {
    (e.Finish? || e.FinishAttempt?) && e.job == id && Accepted(db, e)
  }

  ghost predicate EndedAt(events: seq<Event>, id: string, i: nat) {
    i < |events| && EndsJob(RunOf(events[..i]), events[i], id)
  }

  ghost predicate Ended(events: seq<Event>, id: string) {
    exists i: nat :: EndedAt(events, id, i)
  }

  predicate IsFail(e: Event) {
    e.Finish? && !e.succeeded
  }

  /** What the ending event carries as the result of the job. */
  function Carried(e: Event): Payload
    requires e.Finish? || e.FinishAttempt?
  {
    if e.Finish? then e.result else Lineage(e.attempt)
  }

  /** The transaction that ends a job sets status and result by what was called and carried, leaves the
      job's other fields and every other job alone, and files a row only for a finished attempt. */
  lemma EndingStep(db: Db, e: Event, id: string)
    requires EndsJob(db, e, id)
    ensures id in db.jobs && db.jobs[id].status.Running? && id in After(db, e).jobs
    ensures var before, after := db.jobs[id], After(db, e).jobs[id];
            && after.status == (if IsFail(e) then Failed else Completed)
            && after.result == Some(Carried(e))
            && after.key == before.key && after.kind == before.kind && after.payload == before.payload
            && after.attempts == before.attempts && after.created == before.created
    ensures After(db, e).jobs.Keys == db.jobs.Keys && After(db, e).outcomes == db.outcomes
    ensures forall other :: other in db.jobs && other != id ==> After(db, e).jobs[other] == db.jobs[other]
    ensures After(db, e).finished ==
            if e.Finish? then db.finished else db.finished[FinishedKey(id, e.attempt.attempt) := e.attempt]
  {
  }

  /** Whether the job is there and final, and if so its row. */
  ghost function FinalRow(db: Db, id: string): Option<Job> {
    if id in db.jobs && db.jobs[id].status.Terminal() then Some(db.jobs[id]) else None
  }

  lemma EnqueueEndsNothing(db: Db, e: Event, id: string)
    requires e.Enqueue?
    ensures FinalRow(After(db, e), id) == FinalRow(db, id)
  {
  }

  lemma ClaimEndsNothing(db: Db, e: Event, id: string)
    requires e.Claim?
    ensures FinalRow(After(db, e), id) == FinalRow(db, id)
  {
    if After(db, e) != db {
      var target := ClaimEffect(db, e);
    }
  }

  lemma WorkerEndsNothingElse(db: Db, e: Event, id: string)
    requires e.Heartbeat? || e.Finish? || e.FinishAttempt? || e.Publish?
    ensures !EndsJob(db, e, id) ==> FinalRow(After(db, e), id) == FinalRow(db, id)
  {
  }

  /** Any other transaction leaves a job as final, or as open, as it was. */
  lemma OtherStep(db: Db, e: Event, id: string)
    ensures !EndsJob(db, e, id) ==> FinalRow(After(db, e), id) == FinalRow(db, id)
  {
    match e
    case Enqueue(_, _, _, _, _) => EnqueueEndsNothing(db, e, id);
    case Claim(_, _, _) => ClaimEndsNothing(db, e, id);
    case _ => WorkerEndsNothingElse(db, e, id);
  }

  /** The row of an ended job is what the ending event made of the row before it. */
  ghost predicate EndedAs(events: seq<Event>, id: string, i: nat)
    requires EndedAt(events, id, i)
  {
    && id in RunOf(events).jobs && id in RunOf(events[..i]).jobs
    && var before, now, e := RunOf(events[..i]).jobs[id], RunOf(events).jobs[id], events[i];
       && now.status == (if IsFail(e) then Failed else Completed)
       && now.result == Some(Carried(e))
       && now.key == before.key && now.kind == before.kind && now.payload == before.payload
       && now.attempts == before.attempts && now.created == before.created
  }

  lemma EndedBefore(events: seq<Event>, id: string, i: nat)
    requires events != [] && i < |events| - 1
    ensures EndedAt(events, id, i) <==> EndedAt(events[..|events| - 1], id, i)
  {
    assert events[..|events| - 1][..i] == events[..i];
  }

  lemma EndedSnoc(events: seq<Event>, id: string)
    requires events != []
    ensures var n := |events| - 1;
            Ended(events, id) <==> Ended(events[..n], id) || EndsJob(RunOf(events[..n]), events[n], id)
  {
    var n := |events| - 1;
    if i: nat :| EndedAt(events, id, i) {
      if i < n {
        EndedBefore(events, id, i);
      }
    }
    if i: nat :| EndedAt(events[..n], id, i) {
      EndedBefore(events, id, i);
      assert EndedAt(events, id, i);
    }
    if EndsJob(RunOf(events[..n]), events[n], id) {
      assert EndedAt(events, id, n);
    }
  }

  /** In every run a job is final exactly if an accepted `complete`, `fail` or `finish_attempt` ended it. */
  lemma {:induction false} FinalIffEnded(events: seq<Event>, id: string)
    ensures id in RunOf(events).jobs && RunOf(events).jobs[id].status.Terminal() <==> Ended(events, id)
  {
    if events != [] {
      var n := |events| - 1;
      FinalIffEnded(events[..n], id);
      EndedSnoc(events, id);
      if EndsJob(RunOf(events[..n]), events[n], id) {
        EndingStep(RunOf(events[..n]), events[n], id);
      } else {
        OtherStep(RunOf(events[..n]), events[n], id);
        assert FinalRow(RunOf(events), id) == FinalRow(RunOf(events[..n]), id);
      }
    }
  }

  /** A job ends once. */
  lemma EndsOnce(events: seq<Event>, id: string, i: nat, j: nat)
    requires EndedAt(events, id, i) && EndedAt(events, id, j)
    ensures i == j
  {
    if i < j {
      EndsNoMore(events, id, i, j);
    } else if j < i {
      EndsNoMore(events, id, j, i);
    }
  }

  lemma EndsNoMore(events: seq<Event>, id: string, i: nat, j: nat)
    requires EndedAt(events, id, i) && i < j < |events|
    ensures !EndsJob(RunOf(events[..j]), events[j], id)
  {
    assert events[..j][..i] == events[..i];
    assert EndedAt(events[..j], id, i);
    FinalIffEnded(events[..j], id);
    if EndsJob(RunOf(events[..j]), events[j], id) {
      EndingStep(RunOf(events[..j]), events[j], id);
    }
  }

  lemma SameFinalRow(before: Db, after: Db, id: string)
    requires FinalRow(after, id) == FinalRow(before, id)
    ensures id in before.jobs && before.jobs[id].status.Terminal() ==>
              id in after.jobs && after.jobs[id] == before.jobs[id]
  {
  }

  /** Its status tells which of them it was: FAILED after `fail`, COMPLETED otherwise; its result is what
      that event carried; and nothing else of the job changed. */
  lemma {:induction false} EndingTellsAll(events: seq<Event>, id: string, i: nat)
    requires EndedAt(events, id, i)
    ensures EndedAs(events, id, i)
  {
    var n := |events| - 1;
    if i == n {
      EndingStep(RunOf(events[..n]), events[n], id);
    } else {
      EndedBefore(events, id, i);
      EndingTellsAll(events[..n], id, i);
      assert events[..n][..i] == events[..i];
      EndsNoMore(events, id, i, n);
      OtherStep(RunOf(events[..n]), events[n], id);
      SameFinalRow(RunOf(events[..n]), RunOf(events), id);
    }
  }

  ghost predicate EndedBy(events: seq<Event>, id: string, failing: bool) {
    exists i: nat :: EndedAt(events, id, i) && IsFail(events[i]) == failing
  }

  lemma EndedByOne(events: seq<Event>, id: string, i: nat, failing: bool)
    requires EndedAt(events, id, i)
    ensures EndedBy(events, id, failing) <==> IsFail(events[i]) == failing
  {
    if EndedBy(events, id, failing) {
      var j: nat :| EndedAt(events, id, j) && IsFail(events[j]) == failing;
      EndsOnce(events, id, i, j);
    }
  }

  /** A job is FAILED exactly if an accepted `fail` ended it, and COMPLETED exactly if an accepted
      `complete` or `finish_attempt` did. */
  lemma StatusTellsEnding(events: seq<Event>, id: string)
    requires id in RunOf(events).jobs
    ensures RunOf(events).jobs[id].status == Failed <==> EndedBy(events, id, true)
    ensures RunOf(events).jobs[id].status == Completed <==> EndedBy(events, id, false)
  {
    FinalIffEnded(events, id);
    if Ended(events, id) {
      var i: nat :| EndedAt(events, id, i);
      EndingTellsAll(events, id, i);
      EndedByOne(events, id, i, true);
      EndedByOne(events, id, i, false);
    }
  }

  // ----- what was enqueued -----

  /** The event put this job into the table. */
  ghost predicate EnqueuedAt(events: seq<Event>, id: string, i: nat) {
    && i < |events| && events[i].Enqueue? && events[i].id == id
    && id !in RunOf(events[..i]).jobs && Accepted(RunOf(events[..i]), events[i])
  }

  predicate MadeFrom(job: Job, e: Event)
    requires e.Enqueue?
  {
    job.key == e.key && job.kind == e.kind && job.payload == e.payload && job.created == e.created
  }

  /** What the job was enqueued with is the same in both tables. */
  ghost predicate SameRequest(before: Db, after: Db, id: string) {
    && id in before.jobs && id in after.jobs
    && var a, b := before.jobs[id], after.jobs[id];
       a.key == b.key && a.kind == b.kind && a.payload == b.payload && a.created == b.created
  }

  lemma EnqueueAddsItsJob(db: Db, e: Event, id: string)
    requires e.Enqueue?
    ensures id in db.jobs ==> SameRequest(db, After(db, e), id)
    ensures id !in db.jobs && id in After(db, e).jobs ==>
              e.id == id && Accepted(db, e) && MadeFrom(After(db, e).jobs[id], e)
  {
  }

  lemma ClaimAddsNothing(db: Db, e: Event, id: string)
    requires e.Claim?
    ensures id in After(db, e).jobs ==> SameRequest(db, After(db, e), id)
    ensures id in db.jobs ==> id in After(db, e).jobs
  {
    if After(db, e) != db {
      var target := ClaimEffect(db, e);
    }
  }

  lemma WorkerAddsNothing(db: Db, e: Event, id: string)
    requires e.Heartbeat? || e.Finish?
    ensures id in After(db, e).jobs ==> SameRequest(db, After(db, e), id)
    ensures id in db.jobs ==> id in After(db, e).jobs
  {
  }

  lemma FilingAddsNothing(db: Db, e: Event, id: string)
    requires e.FinishAttempt?
    ensures id in After(db, e).jobs ==> SameRequest(db, After(db, e), id)
    ensures id in db.jobs ==> id in After(db, e).jobs
  {
  }

  lemma PublishingAddsNothing(db: Db, e: Event, id: string)
    requires e.Publish?
    ensures After(db, e).jobs == db.jobs
  {
  }

  /** A transaction adds at most the job it enqueues, and never touches what a job was enqueued with. */
  lemma RequestKept(db: Db, e: Event, id: string)
    ensures id in db.jobs ==> SameRequest(db, After(db, e), id)
    ensures id !in db.jobs && id in After(db, e).jobs ==>
              e.Enqueue? && e.id == id && Accepted(db, e) && MadeFrom(After(db, e).jobs[id], e)
  {
    match e
    case Enqueue(_, _, _, _, _) => EnqueueAddsItsJob(db, e, id);
    case Claim(_, _, _) => ClaimAddsNothing(db, e, id);
    case Heartbeat(_, _, _, _) => WorkerAddsNothing(db, e, id);
    case Finish(_, _, _, _, _) => WorkerAddsNothing(db, e, id);
    case FinishAttempt(_, _, _, _) => FilingAddsNothing(db, e, id);
    case Publish(_, _) => PublishingAddsNothing(db, e, id);
  }

  /** Every job was put there by one enqueue and still carries its key, kind, payload and time. */
  lemma {:induction false} JobIsAsEnqueued(events: seq<Event>, id: string) returns (i: nat)
    requires id in RunOf(events).jobs
    ensures EnqueuedAt(events, id, i) && MadeFrom(RunOf(events).jobs[id], events[i])
  {
    var n := |events| - 1;
    var front, last := events[..n], events[n];
    RequestKept(RunOf(front), last, id);
    if id in RunOf(front).jobs {
      i := JobIsAsEnqueued(front, id);
      assert front[..i] == events[..i];
    } else {
      i := n;
    }
  }

  lemma {:induction false} RequestStays(db: Db, id: string, more: seq<Event>)
    requires id in db.jobs
    ensures SameRequest(db, AfterAll(db, more), id)
  {
    if more != [] {
      RequestStays(db, id, more[..|more| - 1]);
      RequestKept(AfterAll(db, more[..|more| - 1]), more[|more| - 1], id);
    }
  }

  lemma EnqueueReplies(db: Db, e: Event)
    requires Inv(db) && e.Enqueue? && Accepted(db, e)
    ensures Step(db, e).1.JobReply?
    ensures var id := Step(db, e).1.id;
            id in After(db, e).jobs && After(db, e).jobs[id] == Step(db, e).1.job
            && After(db, e).jobs[id].key == e.key && After(db, e).jobs[id].kind == e.kind
            && After(db, e).jobs[id].payload == e.payload
  {
  }

  lemma KnownKeyReplies(db: Db, e: Event, id: string)
    requires Inv(db) && e.Enqueue? && e.kind != "" && e.key != ""
    requires id in db.jobs && db.jobs[id].key == e.key
    ensures Step(db, e) == if db.jobs[id].kind == e.kind && db.jobs[id].payload == e.payload
                           then (db, JobReply(id, db.jobs[id])) else (db, Refused(IdempotencyConflict))
  {
  }

  /** A key that has been accepted once answers the same request with the same job for ever, refuses every
      other request, and neither changes a table. */
  lemma KeyAnswersForEver(events: seq<Event>, e: Event, more: seq<Event>, later: Event)
    requires e.Enqueue? && Accepted(RunOf(events), e)
    requires later.Enqueue? && later.key == e.key && later.kind != ""
    ensures Step(RunOf(events), e).1.JobReply?
    ensures var id, db := Step(RunOf(events), e).1.id, RunOf(events + [e] + more);
            && id in db.jobs && After(db, later) == db
            && Step(db, later).1 == if later.kind == e.kind && later.payload == e.payload
                                    then JobReply(id, db.jobs[id]) else Refused(IdempotencyConflict)
  {
    EveryRunKeepsInv(events);
    EnqueueReplies(RunOf(events), e);
    RunSnoc(events, e, "");
    AfterAllConcat(EMPTY_DB, events + [e], more);
    RequestStays(RunOf(events + [e]), Step(RunOf(events), e).1.id, more);
    EveryRunKeepsInv(events + [e] + more);
    KnownKeyReplies(RunOf(events + [e] + more), later, Step(RunOf(events), e).1.id);
  }

  /** A new key with a new identifier is accepted: the job is queued as requested. */
  lemma NewKeyIsQueued(events: seq<Event>, e: Event)
    requires e.Enqueue? && e.kind != "" && e.key != "" && e.id !in RunOf(events).jobs
    requires forall id :: id in RunOf(events).jobs ==> RunOf(events).jobs[id].key != e.key
    ensures var db := After(RunOf(events), e);
            && Step(RunOf(events), e).1 == JobReply(e.id, Job(e.key, e.kind, e.payload, Queued, 0, None, e.created))
            && db.jobs == RunOf(events).jobs[e.id := Job(e.key, e.kind, e.payload, Queued, 0, None, e.created)]
            && db.finished == RunOf(events).finished && db.outcomes == RunOf(events).outcomes
  {
  }

  // ----- which requests are accepted -----

  /** The job runs: it has been claimed and has not ended. */
  lemma RunningIff(events: seq<Event>, id: string)
    ensures id in RunOf(events).jobs && RunOf(events).jobs[id].status.Running? <==>
            id in RunOf(events).jobs && Claims(events, id) >= 1 && !Ended(events, id)
  {
    FinalIffEnded(events, id);
    RowsTellHistory(events, id);
    EveryRunKeepsInv(events);
  }

  /** The worker made the latest claim of the job, which has not ended, and the lease last recorded is
      still open. */
  ghost predicate HasOpenLease(events: seq<Event>, id: string, worker: string, now: real) {
    && Claims(events, id) >= 1 && !Ended(events, id)
    && Claimer(events, id, Claims(events, id)) == Some(worker)
    && LastLease(events, id).Some? && LastLease(events, id).value.expires > now
  }

  lemma HoldsLeaseIff(events: seq<Event>, id: string, worker: string, now: real)
    ensures HoldsLease(RunOf(events), id, worker, now) <==> HasOpenLease(events, id, worker, now)
  {
    RowsTellHistory(events, id);
    RunningIff(events, id);
  }

  /** Which request by a worker is accepted: a heartbeat, `complete` and `fail` need an open lease of that
      name, and a finished attempt also the number of the latest claim of a coding job. */
  lemma WorkerRequestAcceptedIff(events: seq<Event>, e: Event)
    requires e.Heartbeat? || e.Finish? || e.FinishAttempt?
    requires e.job != "" && e.worker != "" && (e.Heartbeat? ==> e.duration > 0.0)
    ensures Accepted(RunOf(events), e) <==>
            && HasOpenLease(events, e.job, e.worker, e.now)
            && (e.FinishAttempt? ==>
                  && e.attempt.job == e.job && e.attempt.attempt == Claims(events, e.job)
                  && e.job in RunOf(events).jobs && RunOf(events).jobs[e.job].kind == CODING_AGENT)
  {
    HoldsLeaseIff(events, e.job, e.worker, e.now);
    RowsTellHistory(events, e.job);
  }

  /** The job waits for a worker: it has not ended, and either was never claimed or its lease ran out. */
  ghost predicate Waiting(events: seq<Event>, id: string, now: real) {
    && id in RunOf(events).jobs && !Ended(events, id)
    && (Claims(events, id) == 0 || (LastLease(events, id).Some? && LastLease(events, id).value.expires <= now))
  }

  lemma ClaimableIff(events: seq<Event>, id: string, now: real)
    ensures id in RunOf(events).jobs && Claimable(RunOf(events).jobs[id], now) <==> Waiting(events, id, now)
  {
    FinalIffEnded(events, id);
    RowsTellHistory(events, id);
    EveryRunKeepsInv(events);
  }

  /** The claim order in terms of texts. */
  ghost predicate GoesFirst(db: Db, a: string, b: string)
    requires a in db.jobs && b in db.jobs
  {
    TextBefore(db.jobs[a].created, db.jobs[b].created) ||
    (db.jobs[a].created == db.jobs[b].created && TextBefore(a, b))
  }

  /** A claim takes the waiting job that goes first, and only a waiting one. */
  lemma ClaimTakesFirst(events: seq<Event>, e: Event, id: string, other: string)
    requires ClaimsJob(RunOf(events), e, id)
    ensures Waiting(events, id, e.now)
    ensures Waiting(events, other, e.now) && other != id ==> GoesFirst(RunOf(events), id, other)
  {
    var db := RunOf(events);
    StepOnJob(db, e, id);
    ClaimableIff(events, id, e.now);
    ClaimableIff(events, other, e.now);
    if Waiting(events, other, e.now) && other != id {
      assert Ahead(db, id, other);
      if db.jobs[id].created == db.jobs[other].created {
        if SeqLess(IntLess, Codes(db.jobs[id].created), Codes(db.jobs[other].created)) {
          KeysTotal(Codes(db.jobs[id].created), Codes(db.jobs[id].created));
        }
        LessIsBefore(id, other);
      } else {
        LessIsBefore(db.jobs[id].created, db.jobs[other].created);
      }
    }
  }
}
