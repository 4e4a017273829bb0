/**
 Finished attempts and task outcomes read off the history of a run: which attempts pass the fence,
 which outcomes are stored, and what each publication is answered.
 */
module ControlPublications {
  import opened ControlState
  import opened ControlRuns

  // ----- finished attempts -----

  /** The event is a `finish_attempt` that filed this attempt. */
  ghost predicate Files(db: Db, e: Event, attempt: AttemptFinished) {
    e.FinishAttempt? && e.attempt == attempt && Accepted(db, e)
  }

  ghost predicate Filed(events: seq<Event>, attempt: AttemptFinished) {
    exists i: nat :: i < |events| && Files(RunOf(events[..i]), events[i], attempt)
  }

  predicate HasRow(db: Db, attempt: AttemptFinished) {
    FinishedKey(attempt.job, attempt.attempt) in db.finished &&
    db.finished[FinishedKey(attempt.job, attempt.attempt)] == attempt
  }

  lemma FilingAddsRow(db: Db, e: Event, attempt: AttemptFinished)
    requires Inv(db) && e.FinishAttempt?
    ensures HasRow(After(db, e), attempt) <==> HasRow(db, attempt) || Files(db, e, attempt)
  {
    if Accepted(db, e) {
      UnfinishedHasNoRow(db, e.job, e.attempt.attempt);
    }
  }

  lemma OthersFileNothing(db: Db, e: Event)
    requires !e.FinishAttempt?
    ensures After(db, e).finished == db.finished
  {
    if e.Claim? && After(db, e) != db {
      var id := ClaimEffect(db, e);
    }
  }

  lemma StepAddsRow(db: Db, e: Event, attempt: AttemptFinished)
    requires Inv(db)
    ensures HasRow(After(db, e), attempt) <==> HasRow(db, attempt) || Files(db, e, attempt)
  {
    if e.FinishAttempt? {
      FilingAddsRow(db, e, attempt);
    } else {
      OthersFileNothing(db, e);
    }
  }

  lemma FiledSnoc(front: seq<Event>, last: Event, attempt: AttemptFinished)
    ensures Filed(front + [last], attempt) <==> Filed(front, attempt) || Files(RunOf(front), last, attempt)
  {
    var events := front + [last];
    assert events[..|front|] == front && events[|front|] == last;
    forall i: nat | i < |front|
      ensures events[i] == front[i] && events[..i] == front[..i]
    {
    }
  }

  /** The table holds the attempts that were filed, and no others. */
  lemma {:induction false} RowIffFiled(events: seq<Event>, attempt: AttemptFinished)
    ensures HasRow(RunOf(events), attempt) <==> Filed(events, attempt)
  {
    if events != [] {
      var front, last := events[..|events| - 1], events[|events| - 1];
      assert events == front + [last];
      RowIffFiled(front, attempt);
      EveryRunKeepsInv(front);
      StepAddsRow(RunOf(front), last, attempt);
      FiledSnoc(front, last, attempt);
    }
  }

  /** The row fence accepts an attempt exactly if it was filed. */
  lemma FenceAcceptsIffFiled(events: seq<Event>, attempt: AttemptFinished)
    ensures FenceAccepts(RunOf(events), attempt) <==> Filed(events, attempt)
  {
    RowIffFiled(events, attempt);
    EveryRunKeepsInv(events);
    if HasRow(RunOf(events), attempt) {
      assert FinishedMatches(RunOf(events), FinishedKey(attempt.job, attempt.attempt));
    }
  }

  // ----- outcomes -----

  ghost predicate Publishes(db: Db, e: Event, outcome: TaskOutcome) {
    e.Publish? && e.outcome == outcome && Accepted(db, e)
  }

  ghost predicate Published(events: seq<Event>, outcome: TaskOutcome) {
    exists i: nat :: i < |events| && Publishes(RunOf(events[..i]), events[i], outcome)
  }

  predicate HasOutcome(db: Db, outcome: TaskOutcome) {
    outcome.job in db.outcomes && db.outcomes[outcome.job] == outcome
  }

  lemma StepAddsOutcome(db: Db, e: Event, outcome: TaskOutcome)
    ensures HasOutcome(After(db, e), outcome) <==> HasOutcome(db, outcome) || Publishes(db, e, outcome)
  {
    if e.Claim? && After(db, e) != db {
      var id := ClaimEffect(db, e);
    }
  }

  lemma PublishedSnoc(front: seq<Event>, last: Event, outcome: TaskOutcome)
    ensures Published(front + [last], outcome) <==> Published(front, outcome) || Publishes(RunOf(front), last, outcome)
  {
    var events := front + [last];
    assert events[..|front|] == front && events[|front|] == last;
    forall i: nat | i < |front|
      ensures events[i] == front[i] && events[..i] == front[..i]
    {
    }
  }

  /** The outcomes stored are those whose publication was accepted, and no others. */
  lemma {:induction false} StoredIffPublished(events: seq<Event>, outcome: TaskOutcome)
    ensures HasOutcome(RunOf(events), outcome) <==> Published(events, outcome)
  {
    if events != [] {
      var front, last := events[..|events| - 1], events[|events| - 1];
      assert events == front + [last];
      StoredIffPublished(front, outcome);
      StepAddsOutcome(RunOf(front), last, outcome);
      PublishedSnoc(front, last, outcome);
    }
  }

  ghost predicate PublishedOther(events: seq<Event>, outcome: TaskOutcome) {
    exists other: TaskOutcome :: other.job == outcome.job && other != outcome && Published(events, other)
  }

  /** The outcome is about this attempt, field by field. */
  predicate Describes(outcome: TaskOutcome, attempt: AttemptFinished) {
    && outcome.job == attempt.job && outcome.attempt == attempt.attempt && outcome.attemptId == attempt.attemptId
    && outcome.attemptDigest == attempt
    && outcome.sourceBundle == attempt.sourceBundle && outcome.outputBundle == attempt.outputBundle
  }

  lemma OtherIsStored(events: seq<Event>, outcome: TaskOutcome)
    ensures PublishedOther(events, outcome) <==>
              outcome.job in RunOf(events).outcomes && RunOf(events).outcomes[outcome.job] != outcome
  {
    EveryRunKeepsInv(events);
    forall other: TaskOutcome
      ensures Published(events, other) <==> HasOutcome(RunOf(events), other)
    {
      StoredIffPublished(events, other);
    }
    if outcome.job in RunOf(events).outcomes && RunOf(events).outcomes[outcome.job] != outcome {
      assert OutcomeMatches(RunOf(events), outcome.job);
      assert Published(events, RunOf(events).outcomes[outcome.job]);
    }
  }

  /** A publication is stale unless it is about a filed attempt; it is a conflict if another outcome of
      the job was published before it; otherwise it is answered with the outcome, which is then stored,
      and nothing else changes. */
  lemma PublicationReply(events: seq<Event>, attempt: AttemptFinished, outcome: TaskOutcome)
    ensures var db, e := RunOf(events), Publish(attempt, outcome);
            var current := Describes(outcome, attempt) && Filed(events, attempt);
            && Step(db, e).1 == (if !current then Refused(StaleAttempt)
                                 else if PublishedOther(events, outcome) then Refused(OutcomeConflict)
                                 else OutcomeReply(outcome))
            && After(db, e) == if current && !PublishedOther(events, outcome)
                               then db.(outcomes := db.outcomes[outcome.job := outcome]) else db
  {
    FenceAcceptsIffFiled(events, attempt);
    OtherIsStored(events, outcome);
    var db := RunOf(events);
    if HasOutcome(db, outcome) {
      assert db.outcomes[outcome.job := outcome] == db.outcomes;
    }
  }

  /** A reply shows the row or the outcome that is stored when the transaction ends; a refusal changes nothing. */
  ghost predicate ShowsTables(before: Db, after: Db, reply: Reply) {
    match reply
    case JobReply(id, job) => id in after.jobs && after.jobs[id] == job
    case OutcomeReply(outcome) => HasOutcome(after, outcome)
    case _ => after == before
  }

  lemma WorkerRepliesShowTables(db: Db, e: Event)
    requires e.Heartbeat? || e.Finish? || e.FinishAttempt? || e.Publish?
    ensures ShowsTables(db, After(db, e), Step(db, e).1)
  {
  }

  lemma QueueRepliesShowTables(db: Db, e: Event)
    requires e.Enqueue? || e.Claim?
    ensures ShowsTables(db, After(db, e), Step(db, e).1)
  {
  }

  lemma RepliesShowTables(db: Db, e: Event)
    ensures ShowsTables(db, After(db, e), Step(db, e).1)
  {
    if e.Enqueue? || e.Claim? {
      QueueRepliesShowTables(db, e);
    } else {
      WorkerRepliesShowTables(db, e);
    }
  }
}
