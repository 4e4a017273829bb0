/**
 Control's adjudication of a finished attempt: it reads the attempt, reads any outcome
 already published, adjudicates, and publishes, each in its own transaction, while
 workers and other Control sessions commit in between.
 */
module ControlOutcomes {
  import opened ControlState
  import opened ControlRuns
  import opened ControlDatabase

  datatype Request = Request(job: string, contract: int, profile: int, runId: string, producer: string)

  /** What the adjudicator reports back. `identityBound` says whether the verification it ran is
      bound to assets and an executor identity, `contract` which contract was evaluated. */
  datatype Adjudication = Adjudication(
    job: string,
    attemptId: string,
    outputBundle: int,
    verifiedBundle: int,
    runId: string,
    profile: int,
    identityBound: bool,
    contract: int,
    evidence: int)

  datatype Refusal =
    | NoFinishedAttempt
    | DifferentInputs
    | NotIdentityBound
    | NotBoundToAttempt
    | OutcomeInconsistent
    | NotPublished(error: ControlError)

  datatype Result = Ok(outcome: TaskOutcome) | Err(refusal: Refusal)

  predicate SameInputs(outcome: TaskOutcome, request: Request) {
    && outcome.contract == request.contract && outcome.profile == request.profile
    && outcome.runId == request.runId && outcome.producer == request.producer
  }

  predicate BoundToAttempt(a: Adjudication, attempt: AttemptFinished, request: Request) {
    && a.job == attempt.job && a.attemptId == attempt.attemptId
    && a.outputBundle == attempt.outputBundle && a.verifiedBundle == attempt.outputBundle
    && a.runId == request.runId && a.profile == request.profile
  }

  /** What the constructor of an outcome still insists on: the evaluation is of the requested contract. */
  predicate AcceptedOutcome(a: Adjudication, request: Request) {
    a.contract == request.contract
  }

  function OutcomeFor(attempt: AttemptFinished, request: Request, a: Adjudication): TaskOutcome {
    TaskOutcome(attempt.job, attempt.attempt, attempt.attemptId, attempt, attempt.sourceBundle, attempt.outputBundle,
                request.contract, a.profile, a.runId, request.producer, a.evidence)
  }

  /** The finished attempt of the job, as the fence accepts it. */
  predicate IsAttemptOf(db: Db, job: string, attempt: AttemptFinished) {
    attempt.job == job && FenceAccepts(db, attempt)
  }

  /** The outcome stored for the job is not the one that a session makes of the job's attempt. */
  ghost predicate PublishesAnother(db: Db, request: Request, adjudicator: AttemptFinished -> Adjudication)
    requires request.job in db.outcomes
  {
    exists attempt :: IsAttemptOf(db, request.job, attempt)
                      && BoundToAttempt(adjudicator(attempt), attempt, request)
                      && AcceptedOutcome(adjudicator(attempt), request)
                      && db.outcomes[request.job] != OutcomeFor(attempt, request, adjudicator(attempt))
  }

  /** What the reply of a session says about the tables when it ends. */
  ghost predicate Answered(db: Db, request: Request, adjudicator: AttemptFinished -> Adjudication, r: Result) {
    match r
    case Ok(outcome) =>
      request.job in db.outcomes && db.outcomes[request.job] == outcome && SameInputs(outcome, request)
    case Err(DifferentInputs) => request.job in db.outcomes && !SameInputs(db.outcomes[request.job], request)
    case Err(NotPublished(error)) =>
      error == OutcomeConflict && request.job in db.outcomes && PublishesAnother(db, request, adjudicator)
    case Err(NotIdentityBound) =>
      exists attempt :: IsAttemptOf(db, request.job, attempt) && !adjudicator(attempt).identityBound
    case Err(NotBoundToAttempt) =>
      exists attempt :: IsAttemptOf(db, request.job, attempt) && !BoundToAttempt(adjudicator(attempt), attempt, request)
    case Err(OutcomeInconsistent) =>
      exists attempt :: IsAttemptOf(db, request.job, attempt) && !AcceptedOutcome(adjudicator(attempt), request)
    case Err(NoFinishedAttempt) => true
  }

  /** What a session that nobody interrupts answers about an attempt without an outcome: the adjudication must
      be bound to assets and an executor identity, to this attempt and to the requested inputs; then the outcome
      is made of the attempt, the request and the evidence found. */
  predicate OwnAnswer(request: Request, attempt: AttemptFinished, a: Adjudication, r: Result) {
    if !a.identityBound then r == Err(NotIdentityBound)
    else if !(&& a.job == attempt.job && a.attemptId == attempt.attemptId
              && a.outputBundle == attempt.outputBundle && a.verifiedBundle == attempt.outputBundle
              && a.runId == request.runId && a.profile == request.profile) then r == Err(NotBoundToAttempt)
    else if a.contract != request.contract then r == Err(OutcomeInconsistent)
    else
      && r.Ok? && r.outcome.job == attempt.job && r.outcome.attempt == attempt.attempt
      && r.outcome.attemptId == attempt.attemptId && r.outcome.attemptDigest == attempt
      && r.outcome.sourceBundle == attempt.sourceBundle && r.outcome.outputBundle == attempt.outputBundle
      && r.outcome.contract == request.contract && r.outcome.profile == request.profile
      && r.outcome.runId == request.runId && r.outcome.producer == request.producer
      && r.outcome.evidence == a.evidence
  }

  class ControlTaskOutcomeService {
    const authority: ControlStore

    constructor (authority: ControlStore)
      ensures this.authority == authority
    {
      this.authority := authority;
    }

    /** Publish in a transaction of its own, after whatever others commit first. The row fence was
        open when the attempt was read, so it still is. */
    method PublishLater(attempt: AttemptFinished, outcome: TaskOutcome) returns (r: Result)
      requires Inv(authority.Snapshot())
      requires FenceAccepts(authority.Snapshot(), attempt) && BoundTo(attempt, outcome)
      modifies authority
      ensures Inv(authority.Snapshot()) && OnlyGrows(old(authority.Snapshot()), authority.Snapshot())
      ensures attempt.job in authority.Snapshot().outcomes
      ensures r == if authority.Snapshot().outcomes[attempt.job] == outcome then Ok(outcome)
                   else Err(NotPublished(OutcomeConflict))
      ensures old(authority.schedule) == [] && attempt.job !in old(authority.Snapshot()).outcomes ==> r == Ok(outcome)
    {
      ghost var start := authority.Snapshot();
      authority.OtherTransactions();
      ghost var before := authority.Snapshot();
      FenceStaysOpen(start, before, attempt);
      StepIsSafe(before, Publish(attempt, outcome));
      var reply := authority.PublishTaskOutcome(attempt, outcome);
      GrowthComposes(start, before, authority.Snapshot());
      PublishingReplies(before, attempt, outcome);
      r := if reply.OutcomeReply? then Ok(reply.outcome) else Err(NotPublished(OutcomeConflict));
    }

    /** The session once it has read the finished attempt: an outcome published by now is returned
        or its inputs are turned away, otherwise the attempt is adjudicated and published. */
    method AdjudicateAttempt(request: Request, attempt: AttemptFinished, adjudicator: AttemptFinished -> Adjudication)
      returns (r: Result)
      requires Inv(authority.Snapshot())
      requires FenceAccepts(authority.Snapshot(), attempt) && attempt.job == request.job
      modifies authority
      ensures Inv(authority.Snapshot()) && OnlyGrows(old(authority.Snapshot()), authority.Snapshot())
      ensures r != Err(NoFinishedAttempt)
      ensures request.job in old(authority.Snapshot()).outcomes ==>
                var published := old(authority.Snapshot()).outcomes[request.job];
                r == if SameInputs(published, request) then Ok(published) else Err(DifferentInputs)
      ensures Answered(authority.Snapshot(), request, adjudicator, r)
      ensures old(authority.schedule) == [] && request.job !in old(authority.Snapshot()).outcomes ==>
                OwnAnswer(request, attempt, adjudicator(attempt), r)
    {
      ghost var start := authority.Snapshot();
      var existing := authority.GetTaskOutcome(request.job);
      FenceStaysOpen(start, authority.Snapshot(), attempt);
      assert IsAttemptOf(authority.Snapshot(), request.job, attempt);
      if existing.Some? {
        if !SameInputs(existing.value, request) {
          return Err(DifferentInputs);
        }
        PublishedIsBound(authority.Snapshot(), attempt);
        r := PublishLater(attempt, existing.value);
        return;
      }
      var adjudication := adjudicator(attempt);
      if !adjudication.identityBound {
        return Err(NotIdentityBound);
      }
      if !BoundToAttempt(adjudication, attempt, request) {
        return Err(NotBoundToAttempt);
      }
      if !AcceptedOutcome(adjudication, request) {
        return Err(OutcomeInconsistent);
      }
      r := PublishLater(attempt, OutcomeFor(attempt, request, adjudication));
      FenceStaysOpen(start, authority.Snapshot(), attempt);
      assert IsAttemptOf(authority.Snapshot(), request.job, attempt);
    }

    /** A session that succeeds returns the job's one outcome, made for its own inputs. Repeating a
        request returns the same outcome, other inputs are turned away, and the attempt read at the
        start never turns stale. */
    method Adjudicate(request: Request, adjudicator: AttemptFinished -> Adjudication) returns (r: Result)
      requires Inv(authority.Snapshot())
      modifies authority
      ensures Inv(authority.Snapshot()) && OnlyGrows(old(authority.Snapshot()), authority.Snapshot())
      ensures r == Err(NoFinishedAttempt) ==>
                forall key :: key in old(authority.Snapshot()).finished ==> key.job != request.job
      ensures request.job in old(authority.Snapshot()).outcomes ==>
                var published := old(authority.Snapshot()).outcomes[request.job];
                r == if SameInputs(published, request) then Ok(published) else Err(DifferentInputs)
      ensures Answered(authority.Snapshot(), request, adjudicator, r)
      ensures old(authority.schedule) == [] && request.job !in old(authority.Snapshot()).outcomes ==>
                forall attempt :: IsAttemptOf(old(authority.Snapshot()), request.job, attempt) ==>
                  OwnAnswer(request, attempt, adjudicator(attempt), r)
      ensures old(authority.schedule) == [] ==>
                (r == Err(NoFinishedAttempt) <==>
                   forall key :: key in old(authority.Snapshot()).finished ==> key.job != request.job)
    {
      ghost var start := authority.Snapshot();
      OutcomeHasAttempt(start, request.job);
      var attempt := authority.GetAttemptFinished(request.job);
      if attempt.None? {
        return Err(NoFinishedAttempt);
      }
      ghost var afterAttempt := authority.Snapshot();
      r := AdjudicateAttempt(request, attempt.value, adjudicator);
      GrowthComposes(start, afterAttempt, authority.Snapshot());
    }
  }

  lemma FenceStaysOpen(before: Db, later: Db, attempt: AttemptFinished)
    requires OnlyGrows(before, later) && FenceAccepts(before, attempt)
    ensures FenceAccepts(later, attempt)
  {
  }

  /** Through an open fence a bound outcome is published, unless another one was there first. */
  lemma PublishingReplies(db: Db, attempt: AttemptFinished, outcome: TaskOutcome)
    requires FenceAccepts(db, attempt) && BoundTo(attempt, outcome)
    ensures var e := Publish(attempt, outcome);
            && attempt.job in After(db, e).outcomes
            && Step(db, e).1 == if After(db, e).outcomes[attempt.job] == outcome then OutcomeReply(outcome)
                                else Refused(OutcomeConflict)
    ensures attempt.job !in db.outcomes ==> Step(db, Publish(attempt, outcome)).1 == OutcomeReply(outcome)
  {
    assert Step(db, Publish(attempt, outcome)) == StepPublish(db, Publish(attempt, outcome));
  }

  /** The published outcome of a job is bound to the attempt the fence accepts. */
  lemma PublishedIsBound(db: Db, attempt: AttemptFinished)
    requires Inv(db) && FenceAccepts(db, attempt) && attempt.job in db.outcomes
    ensures BoundTo(attempt, db.outcomes[attempt.job])
  {
    assert OutcomeMatches(db, attempt.job);
    assert FinishedMatches(db, FinishedKey(attempt.job, db.outcomes[attempt.job].attempt));
  }

  lemma OutcomeHasAttempt(db: Db, job: string)
    requires Inv(db)
    ensures job in db.outcomes ==> exists key :: key in db.finished && key.job == job
  {
    assert job in db.outcomes ==> OutcomeMatches(db, job);
  }
}
