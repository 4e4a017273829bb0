/**
 How a run ends: for every reason, exactly which recorded steps and inputs lead to it.
 */
module AgentEndings {
  import opened Options
  import opened AgentState
  import opened AgentTrace
  import opened AgentRuns

  // ----- what the steps say -----

  /** Fingerprints of all parsed decisions, executed or not. */
  function Parsed(trace: Trace): seq<Fingerprint> {
    if trace == [] then []
    else Parsed(Front(trace)) + if Last(trace).decision.Some? then [PrintOf(Last(trace).decision.value)] else []
  }

  /** How many responses could not be parsed. */
  function Malformeds(trace: Trace): nat {
    if trace == [] then 0 else Malformeds(Front(trace)) + if Last(trace).decision.None? then 1 else 0
  }

  /** The summary of the latest executed finish. */
  function LastSummary(trace: Trace): Option<string> {
    if trace == [] then None else SummaryAfter(LastSummary(Front(trace)), Last(trace))
  }

  function SummaryAfter(summary: Option<string>, r: StepRecord): Option<string> {
    if r.executed && r.decision.Some? && r.decision.value.Finish? then Some(r.decision.value.summary) else summary
  }

  /** An executed finish whose verification passed and left the workspace as it was. */
  predicate Succeeds(r: StepRecord) {
    && r.executed && r.decision.Some? && r.decision.value.Finish? && r.verification.Some?
    && r.verification.value.final && r.verification.value.receipt.passed && r.verification.value.receipt.kept
  }

  predicate VerifierMutated(r: StepRecord) {
    r.verification.Some? && !r.verification.value.receipt.kept
  }

  /** The tool changed the workspace and raised, or did not own up to the change. */
  predicate FailedAfterChange(r: StepRecord, input: StepInput) {
    && r.executed && r.decision.Some? && r.decision.value.Tool?
    && input.before != input.after && (input.tool.ToolRaised? || !input.tool.mutated)
  }

  // ----- one step -----

  /** Why the step that is recorded ends the run, given the counters after it. */
  ghost predicate StepCause(c: Config, r: StepRecord, input: StepInput, repeats: nat, streak: nat, errors: nat,
                            reason: Reason)
  {
    match reason
    case FinalVerificationPassed => Succeeds(r)
    case VerificationMutated => VerifierMutated(r)
    case StagnationReached => repeats >= c.cadence.stagnationLimit
    case StateCycleReached => streak >= c.cadence.stagnationLimit
    case ToolFailedAfterMutation => FailedAfterChange(r, input)
    case ProtocolErrorsExhausted => errors > c.limits.maxProtocolErrors
    case _ => false
  }

  function RepeatsAfter(s: RunState, r: StepRecord): nat {
    if r.decision.Some? then ObserveDecision(s, r.decision.value).repeated else s.repeated
  }

  function StreakAfter(s: RunState, r: StepRecord): nat {
    match r.mutationKey
    case None => s.cycleStreak
    case Some(key) => if key in s.visits then s.cycleStreak + 1 else 0
  }

  function ErrorsAfter(s: RunState, r: StepRecord): nat {
    s.protocolErrors + if r.decision.None? then 1 else 0
  }

  /** The record says what was asked and answered: the decision is executed unless it repeats too often; a
      mutation is one that the tool owned up to; a finish is verified unless this very state failed before,
      a mutation when enough of them are unverified; and a verification reports what the verifier did. */
  ghost predicate Tells(c: Config, s: RunState, r: StepRecord, input: StepInput) {
    && r.before == input.before
    && r.decision == (if input.response.Decided? then Some(input.response.decision) else None)
    && (r.executed <==> r.decision.Some? && RepeatsAfter(s, r) < c.cadence.stagnationLimit)
    && r.mutationKey == (if r.executed && r.decision.value.Tool? && input.before != input.after
                            && input.tool.ToolOk? && input.tool.mutated
                         then Some(StateKey(input.after, s.criteria)) else None)
    && (r.verification.Some? <==>
          r.executed &&
          if r.decision.value.Finish? then s.lastFailedState != Some(input.before)
          else r.mutationKey.Some? && StreakAfter(s, r) < c.cadence.stagnationLimit
               && s.mutationsSinceVerify + 1 >= c.cadence.verificationInterval)
    && (r.verification.Some? ==>
          && r.verification.value.final == r.decision.value.Finish?
          && r.verification.value.receipt.kept == input.kept
          && r.verification.value.receipt.commands == input.outcomes
          && (r.verification.value.receipt.passed <==>
                input.kept && forall i :: 0 <= i < |input.outcomes| ==> input.outcomes[i].passed))
  }

  ghost predicate EndsWith(r: StepResult, reason: Reason) {
    r.end.Some? && r.end.value.reason == reason
  }

  /** The recorded step ends the run for exactly the reasons that its record and the counters give. */
  ghost predicate EndsForCause(c: Config, s: RunState, r: StepResult, step: nat, input: StepInput) {
    && r.record.Some?
    && (forall reason :: EndsWith(r, reason) <==>
          StepCause(c, r.record.value, input, RepeatsAfter(s, r.record.value), StreakAfter(s, r.record.value),
                    ErrorsAfter(s, r.record.value), reason))
    && (r.end.Some? ==> (r.end.value.success <==> r.end.value.reason == FinalVerificationPassed))
    && (r.end.Some? ==> r.end.value.steps == step)
    && r.state.finalSummary == SummaryAfter(s.finalSummary, r.record.value)
  }

  ghost predicate EndsAsCaused(c: Config, s: RunState, r: StepResult, step: nat, input: StepInput) {
    EndsForCause(c, s, r, step, input) && Tells(c, s, r.record.value, input)
  }

  ghost predicate Fresh(c: Config, s: RunState) {
    && s.repeated < c.cadence.stagnationLimit && s.cycleStreak < c.cadence.stagnationLimit
    && s.protocolErrors <= c.limits.maxProtocolErrors
  }

  lemma FinishEndsAsCaused(c: Config, s: RunState, step: nat, d: Decision, input: StepInput)
    requires Fresh(c, s) && d.Finish? && input.response == Decided(d)
    requires ObserveDecision(s, d).repeated < c.cadence.stagnationLimit
    ensures EndsAsCaused(c, s, FinishStep(c, ObserveDecision(s, d), step, d, input), step, input)
  {
  }

  lemma AfterToolEndsForCause(c: Config, s: RunState, step: nat, d: Decision, input: StepInput)
    requires Fresh(c, s) && d.Tool? && input.response == Decided(d)
    requires ObserveDecision(s, d).repeated < c.cadence.stagnationLimit
    requires var record := ToolRecord(d, input, StateKey(input.after, s.criteria));
             StreakAfter(s, record) < c.cadence.stagnationLimit && !FailedAfterChange(record, input)
    ensures var key := StateKey(input.after, s.criteria);
            var noted := NoteTool(ObserveDecision(s, d), step, ToolEvent(d.tool, input), key, ToolFails(input));
            EndsForCause(c, s, AfterTool(c, noted, step, ToolRecord(d, input, key), input), step, input)
  {
  }

  lemma AfterToolTells(c: Config, s: RunState, step: nat, d: Decision, input: StepInput)
    requires Fresh(c, s) && d.Tool? && input.response == Decided(d)
    requires ObserveDecision(s, d).repeated < c.cadence.stagnationLimit
    requires var record := ToolRecord(d, input, StateKey(input.after, s.criteria));
             StreakAfter(s, record) < c.cadence.stagnationLimit && !FailedAfterChange(record, input)
    ensures var key := StateKey(input.after, s.criteria);
            var noted := NoteTool(ObserveDecision(s, d), step, ToolEvent(d.tool, input), key, ToolFails(input));
            var r := AfterTool(c, noted, step, ToolRecord(d, input, key), input);
            r.record.Some? && Tells(c, s, r.record.value, input)
  {
  }

  lemma ToolEndsAsCaused(c: Config, s: RunState, step: nat, d: Decision, input: StepInput)
    requires Fresh(c, s) && d.Tool? && c.cadence.stagnationLimit >= 2 && input.response == Decided(d)
    requires ObserveDecision(s, d).repeated < c.cadence.stagnationLimit
    ensures EndsAsCaused(c, s, ToolStep(c, ObserveDecision(s, d), step, d, input), step, input)
  {
    var observed, key := ObserveDecision(s, d), StateKey(input.after, s.criteria);
    var record := ToolRecord(d, input, key);
    if !FailedAfterChange(record, input) && StreakAfter(s, record) < c.cadence.stagnationLimit {
      AfterToolEndsForCause(c, s, step, d, input);
      AfterToolTells(c, s, step, d, input);
      var noted := NoteTool(observed, step, ToolEvent(d.tool, input), key, ToolFails(input));
      assert ToolStep(c, observed, step, d, input) == AfterTool(c, noted, step, record, input);
    }
  }

  lemma StagnationEndsAsCaused(c: Config, s0: RunState, step: nat, input: StepInput)
    requires ValidCadence(c.cadence) && step >= 1 && Fresh(c, Compacted(c, s0, step, input.oversized))
    requires input.response.Decided?
    requires ObserveDecision(Compacted(c, s0, step, input.oversized), input.response.decision).repeated >=
             c.cadence.stagnationLimit
    ensures EndsAsCaused(c, Compacted(c, s0, step, input.oversized), Step(c, s0, step, input), step, input)
  {
  }

  lemma MalformedEndsAsCaused(c: Config, s0: RunState, step: nat, input: StepInput)
    requires ValidCadence(c.cadence) && step >= 1 && Fresh(c, Compacted(c, s0, step, input.oversized))
    requires input.response.Malformed?
    ensures EndsAsCaused(c, Compacted(c, s0, step, input.oversized), Step(c, s0, step, input), step, input)
  {
  }

  lemma StepEndsAsCaused(c: Config, s0: RunState, step: nat, input: StepInput)
    requires ValidCadence(c.cadence) && step >= 1 && Fresh(c, Compacted(c, s0, step, input.oversized))
    requires input.response.Decided? || input.response.Malformed?
    ensures EndsAsCaused(c, Compacted(c, s0, step, input.oversized), Step(c, s0, step, input), step, input)
  {
    var s := Compacted(c, s0, step, input.oversized);
    if input.response.Malformed? {
      MalformedEndsAsCaused(c, s0, step, input);
    } else {
      var d := input.response.decision;
      var observed := ObserveDecision(s, d);
      if observed.repeated >= c.cadence.stagnationLimit {
        StagnationEndsAsCaused(c, s0, step, input);
      } else if d.Finish? {
        FinishEndsAsCaused(c, s, step, d, input);
        assert Step(c, s0, step, input) == FinishStep(c, observed, step, d, input);
      } else {
        ToolEndsAsCaused(c, s, step, d, input);
        assert Step(c, s0, step, input) == ToolStep(c, observed, step, d, input);
      }
    }
  }

  // ----- the whole run -----

  ghost predicate AllExecuted(trace: Trace) {
    forall i :: 0 <= i < |trace| ==> trace[i].decision.Some? ==> trace[i].executed
  }

  lemma {:induction false} ParsedArePrints(trace: Trace)
    requires AllExecuted(trace)
    ensures Parsed(trace) == Prints(trace)
  {
    if trace != [] {
      ParsedArePrints(Front(trace));
    }
  }

  /** Why a recorded step ends the run, read off the steps and the input of the last. */
  ghost predicate RecordedCause(c: Config, initial: StateHash, script: nat -> StepInput, trace: Trace, reason: Reason) {
    trace != [] &&
    StepCause(c, Last(trace), script(|trace|), TailRun(Parsed(trace)), TailTrue(Returns(Start(c, initial), trace)),
              Malformeds(trace), reason)
  }

  /** Nothing recorded so far ends the run. */
  ghost predicate Unfinished(c: Config, initial: StateHash, script: nat -> StepInput, trace: Trace) {
    forall reason :: !RecordedCause(c, initial, script, trace, reason)
  }

  /** What makes a run end for each reason: the last recorded step, or, when no step has ended it, the
      clock, the provider or the step budget at the next one. */
  ghost predicate Cause(c: Config, initial: StateHash, script: nat -> StepInput, trace: Trace, reason: Reason) {
    var next := |trace| + 1;
    match reason
    case RuntimeBudgetExhausted =>
      && Unfinished(c, initial, script, trace) && |trace| < c.limits.maxSteps
      && (script(next).expired || script(next).response.TimedOut?)
    case ProviderFailure =>
      && Unfinished(c, initial, script, trace) && |trace| < c.limits.maxSteps
      && !script(next).expired && script(next).response.ProviderFailed?
    case StepBudgetExhausted => Unfinished(c, initial, script, trace) && |trace| == c.limits.maxSteps
    case _ => RecordedCause(c, initial, script, trace, reason)
  }

  /** The counters of a state are those of the steps so far, and the run may go on. */
  ghost predicate GoesOn(c: Config, initial: StateHash, script: nat -> StepInput, s: RunState, trace: Trace) {
    && Tracks(c, initial, s, trace) && WithinLimits(c, s) && Fresh(c, s) && AllExecuted(trace)
    && s.protocolErrors == Malformeds(trace) && s.finalSummary == LastSummary(trace)
    && Unfinished(c, initial, script, trace)
  }

  lemma RepeatsTrack(s: RunState, trace: Trace, r: StepRecord)
    requires s.repeated == TailRun(Prints(trace)) && s.lastFingerprint == LastPrint(Prints(trace)) && AllExecuted(trace)
    ensures TailRun(Parsed(trace + [r])) == RepeatsAfter(s, r)
  {
    SnocTrace(trace, r);
    ParsedArePrints(trace);
    if r.decision.Some? {
      TailRunSnoc(Parsed(trace), PrintOf(r.decision.value));
    } else {
      assert Parsed(trace) + [] == Parsed(trace);
    }
  }

  lemma StreakTracks(s: RunState, start: StateKey, trace: Trace, r: StepRecord)
    requires s.visits.Keys == KeysSeen(start, trace) && s.cycleStreak == TailTrue(Returns(start, trace))
    ensures TailTrue(Returns(start, trace + [r])) == StreakAfter(s, r)
  {
    SnocTrace(trace, r);
    if r.mutationKey.Some? {
      TailTrueSnoc(Returns(start, trace), r.mutationKey.value in KeysSeen(start, trace));
    } else {
      assert Returns(start, trace) + [] == Returns(start, trace);
    }
  }

  lemma SummaryTracks(trace: Trace, r: StepRecord)
    ensures LastSummary(trace + [r]) == SummaryAfter(LastSummary(trace), r)
  {
    SnocTrace(trace, r);
  }

  lemma ErrorsTrack(s: RunState, trace: Trace, r: StepRecord)
    requires s.protocolErrors == Malformeds(trace)
    ensures Malformeds(trace + [r]) == ErrorsAfter(s, r)
  {
    SnocTrace(trace, r);
  }

  lemma CausesAgree(c: Config, initial: StateHash, script: nat -> StepInput, s: RunState, trace: Trace, r: StepRecord)
    requires TailRun(Parsed(trace + [r])) == RepeatsAfter(s, r)
    requires TailTrue(Returns(Start(c, initial), trace + [r])) == StreakAfter(s, r)
    requires Malformeds(trace + [r]) == ErrorsAfter(s, r)
    ensures forall reason :: RecordedCause(c, initial, script, trace + [r], reason) <==>
              StepCause(c, r, script(|trace| + 1), RepeatsAfter(s, r), StreakAfter(s, r), ErrorsAfter(s, r), reason)
  {
    SnocTrace(trace, r);
  }

  /** A recorded step ends the run exactly if the steps up to it give a cause, and for that cause. */
  lemma RecordEndsIff(c: Config, initial: StateHash, script: nat -> StepInput, s0: RunState, trace: Trace)
    requires ValidCadence(c.cadence) && GoesOn(c, initial, script, s0, trace)
    requires script(|trace| + 1).response.Decided? || script(|trace| + 1).response.Malformed?
    ensures var n, input := |trace| + 1, script(|trace| + 1);
            var s, r := Compacted(c, s0, n, input.oversized), Step(c, s0, n, input);
            && EndsAsCaused(c, s, r, n, input)
            && forall reason :: EndsWith(r, reason) <==>
                 RecordedCause(c, initial, script, trace + [r.record.value], reason)
  {
    var n, input := |trace| + 1, script(|trace| + 1);
    var s, r := Compacted(c, s0, n, input.oversized), Step(c, s0, n, input);
    CompactedTracks(c, initial, s0, trace, n, input.oversized);
    StepEndsAsCaused(c, s0, n, input);
    RepeatsTrack(s, trace, r.record.value);
    StreakTracks(s, Start(c, initial), trace, r.record.value);
    ErrorsTrack(s, trace, r.record.value);
    CausesAgree(c, initial, script, s, trace, r.record.value);
  }

  lemma FinishKeepsErrors(c: Config, s: RunState, step: nat, d: Decision, input: StepInput)
    requires d.Finish?
    ensures FinishStep(c, s, step, d, input).state.protocolErrors == s.protocolErrors
  {
  }

  lemma ToolKeepsErrors(c: Config, s: RunState, step: nat, d: Decision, input: StepInput)
    requires d.Tool?
    ensures ToolStep(c, s, step, d, input).state.protocolErrors == s.protocolErrors
  {
  }

  lemma DecidedKeepsErrors(c: Config, s0: RunState, step: nat, input: StepInput)
    requires ValidCadence(c.cadence) && step >= 1 && input.response.Decided?
    ensures Step(c, s0, step, input).state.protocolErrors == s0.protocolErrors
  {
    var d := input.response.decision;
    var observed := ObserveDecision(Compacted(c, s0, step, input.oversized), d);
    if observed.repeated < c.cadence.stagnationLimit {
      if d.Finish? {
        FinishKeepsErrors(c, observed, step, d, input);
        assert Step(c, s0, step, input) == FinishStep(c, observed, step, d, input);
      } else {
        ToolKeepsErrors(c, observed, step, d, input);
        assert Step(c, s0, step, input) == ToolStep(c, observed, step, d, input);
      }
    }
  }

  lemma FinishRecords(c: Config, s: RunState, step: nat, d: Decision, input: StepInput)
    requires d.Finish?
    ensures FinishStep(c, s, step, d, input).record.Some?
    ensures FinishStep(c, s, step, d, input).record.value.decision.Some?
  {
  }

  lemma StepTellsErrors(c: Config, s0: RunState, step: nat, input: StepInput)
    requires ValidCadence(c.cadence) && step >= 1 && (input.response.Decided? || input.response.Malformed?)
    ensures var r := Step(c, s0, step, input);
            r.record.Some? && (r.record.value.decision.None? <==> input.response.Malformed?)
  {
    if input.response.Decided? {
      var d := input.response.decision;
      var observed := ObserveDecision(Compacted(c, s0, step, input.oversized), d);
      if d.Finish? {
        FinishRecords(c, observed, step, d, input);
      } else {
        ToolObeys(c, observed, step, d, input);
      }
    }
  }

  lemma MalformedCounts(c: Config, s0: RunState, step: nat, input: StepInput)
    requires ValidCadence(c.cadence) && step >= 1 && input.response.Malformed?
    ensures Step(c, s0, step, input).state.protocolErrors == s0.protocolErrors + 1
  {
  }

  lemma StepCounts(c: Config, s0: RunState, step: nat, input: StepInput)
    requires ValidCadence(c.cadence) && step >= 1 && (input.response.Decided? || input.response.Malformed?)
    ensures Step(c, s0, step, input).record.Some?
    ensures Step(c, s0, step, input).state.protocolErrors == ErrorsAfter(s0, Step(c, s0, step, input).record.value)
  {
    StepTellsErrors(c, s0, step, input);
    if input.response.Malformed? {
      MalformedCounts(c, s0, step, input);
    } else {
      DecidedKeepsErrors(c, s0, step, input);
    }
  }

  lemma ExecutedSnoc(trace: Trace, r: StepRecord)
    ensures AllExecuted(trace) && (r.decision.Some? ==> r.executed) ==> AllExecuted(trace + [r])
  {
  }

  lemma UnendedStep(c: Config, s: RunState, r: StepResult, step: nat, input: StepInput)
    requires EndsAsCaused(c, s, r, step, input) && r.end.None?
    ensures r.record.value.decision.Some? ==> r.record.value.executed
    ensures ErrorsAfter(s, r.record.value) <= c.limits.maxProtocolErrors
    ensures r.state.finalSummary == SummaryAfter(s.finalSummary, r.record.value)
  {
    assert !EndsWith(r, StagnationReached) && !EndsWith(r, ProtocolErrorsExhausted);
  }

  /** The end of a step and the causes that the steps give: none of them without the other. */
  lemma NoCauseYet(c: Config, initial: StateHash, script: nat -> StepInput, r: StepResult, trace: Trace)
    requires forall reason :: EndsWith(r, reason) <==> RecordedCause(c, initial, script, trace, reason)
    requires r.end.None?
    ensures Unfinished(c, initial, script, trace)
  {
    forall reason
      ensures !RecordedCause(c, initial, script, trace, reason)
    {
      assert !EndsWith(r, reason);
    }
  }

  /** A recorded step that does not end the run leaves it as able to go on as before. */
  lemma StepGoesOn(c: Config, initial: StateHash, script: nat -> StepInput, s0: RunState, trace: Trace)
    requires ValidCadence(c.cadence) && GoesOn(c, initial, script, s0, trace)
    requires Step(c, s0, |trace| + 1, script(|trace| + 1)).end.None?
    ensures var r := Step(c, s0, |trace| + 1, script(|trace| + 1));
            r.record.Some? && GoesOn(c, initial, script, r.state, trace + [r.record.value])
  {
    var n, input := |trace| + 1, script(|trace| + 1);
    var r := Step(c, s0, n, input);
    StepTracks(c, initial, s0, trace, n, input);
    StepKeepsLimits(c, s0, n, input);
    RecordEndsIff(c, initial, script, s0, trace);
    ErrorsTrack(s0, trace, r.record.value);
    SummaryTracks(trace, r.record.value);
    StepCounts(c, s0, n, input);
    ExecutedSnoc(trace, r.record.value);
    UnendedStep(c, Compacted(c, s0, n, input.oversized), r, n, input);
    NoCauseYet(c, initial, script, r, trace + [r.record.value]);
  }

  /** A run after some turns: it can go on, or it has ended for the reason that has a cause. */
  ghost predicate EndedAsCaused(c: Config, initial: StateHash, script: nat -> StepInput, p: Progress, n: nat) {
    match p
    case Going(s, trace) => |trace| == n && GoesOn(c, initial, script, s, trace)
    case Ended(s, trace, end) =>
      && end.steps == |trace| && s.finalSummary == LastSummary(trace)
      && (forall reason :: end.reason == reason <==> Cause(c, initial, script, trace, reason))
      && (end.success <==> end.reason == FinalVerificationPassed)
  }

  lemma UnrecordedEnd(c: Config, initial: StateHash, script: nat -> StepInput, s: RunState, trace: Trace)
    requires ValidCadence(c.cadence) && GoesOn(c, initial, script, s, trace) && |trace| < c.limits.maxSteps
    requires script(|trace| + 1).expired || script(|trace| + 1).response.TimedOut? ||
             script(|trace| + 1).response.ProviderFailed?
    ensures EndedAsCaused(c, initial, script, Turn(c, Going(s, trace), |trace| + 1, script(|trace| + 1)), |trace| + 1)
  {
  }

  /** Where a recorded step gives a cause, nothing else does. */
  lemma OnlyRecordedCauses(c: Config, initial: StateHash, script: nat -> StepInput, trace: Trace, end: Reason)
    requires RecordedCause(c, initial, script, trace, end)
    ensures forall reason :: Cause(c, initial, script, trace, reason) <==>
              RecordedCause(c, initial, script, trace, reason)
  {
    assert !Unfinished(c, initial, script, trace);
  }

  lemma CausedEnd(c: Config, initial: StateHash, script: nat -> StepInput, s: RunState, trace: Trace)
    requires ValidCadence(c.cadence) && GoesOn(c, initial, script, s, trace)
    requires script(|trace| + 1).response.Decided? || script(|trace| + 1).response.Malformed?
    requires Step(c, s, |trace| + 1, script(|trace| + 1)).end.Some?
    ensures var r := Step(c, s, |trace| + 1, script(|trace| + 1));
            r.record.Some? &&
            EndedAsCaused(c, initial, script, Ended(r.state, trace + [r.record.value], r.end.value), |trace| + 1)
  {
    var r := Step(c, s, |trace| + 1, script(|trace| + 1));
    RecordEndsIff(c, initial, script, s, trace);
    SummaryTracks(trace, r.record.value);
    assert EndsWith(r, r.end.value.reason);
    OnlyRecordedCauses(c, initial, script, trace + [r.record.value], r.end.value.reason);
  }

  lemma RecordedEnd(c: Config, initial: StateHash, script: nat -> StepInput, s: RunState, trace: Trace)
    requires ValidCadence(c.cadence) && GoesOn(c, initial, script, s, trace)
    requires !script(|trace| + 1).expired
    requires script(|trace| + 1).response.Decided? || script(|trace| + 1).response.Malformed?
    ensures EndedAsCaused(c, initial, script, Turn(c, Going(s, trace), |trace| + 1, script(|trace| + 1)), |trace| + 1)
  {
    if Step(c, s, |trace| + 1, script(|trace| + 1)).end.None? {
      StepGoesOn(c, initial, script, s, trace);
    } else {
      CausedEnd(c, initial, script, s, trace);
    }
  }

  lemma GoingTurn(c: Config, initial: StateHash, script: nat -> StepInput, s: RunState, trace: Trace)
    requires ValidCadence(c.cadence) && GoesOn(c, initial, script, s, trace) && |trace| < c.limits.maxSteps
    ensures EndedAsCaused(c, initial, script, Turn(c, Going(s, trace), |trace| + 1, script(|trace| + 1)), |trace| + 1)
  {
    var input := script(|trace| + 1);
    if input.expired || input.response.TimedOut? || input.response.ProviderFailed? {
      UnrecordedEnd(c, initial, script, s, trace);
    } else {
      RecordedEnd(c, initial, script, s, trace);
    }
  }

  lemma TurnEndsAsCaused(c: Config, initial: StateHash, script: nat -> StepInput, p: Progress, n: nat)
    requires ValidCadence(c.cadence) && 1 <= n <= c.limits.maxSteps
    ensures EndedAsCaused(c, initial, script, p, n - 1) ==>
              EndedAsCaused(c, initial, script, Turn(c, p, n, script(n)), n)
  {
    if p.Going? && EndedAsCaused(c, initial, script, p, n - 1) {
      GoingTurn(c, initial, script, p.state, p.trace);
    }
  }

  lemma StartIsFresh(c: Config, initial: StateHash, script: nat -> StepInput)
    requires ValidCadence(c.cadence)
    ensures Fresh(c, StartState(c, initial)) && AllExecuted([]) && Unfinished(c, initial, script, [])
    ensures StartState(c, initial).protocolErrors == Malformeds([])
    ensures StartState(c, initial).finalSummary == LastSummary([])
  {
  }

  lemma StartGoesOn(c: Config, initial: StateHash, script: nat -> StepInput)
    requires ValidCadence(c.cadence)
    ensures GoesOn(c, initial, script, StartState(c, initial), [])
  {
    StartTracks(c, initial);
    StartIsFresh(c, initial, script);
  }

  lemma {:induction false} EveryRunEndsAsCaused(c: Config, initial: StateHash, script: nat -> StepInput, n: nat)
    requires ValidCadence(c.cadence) && n <= c.limits.maxSteps
    ensures EndedAsCaused(c, initial, script, ProgressAfter(c, initial, script, n), n)
  {
    if n == 0 {
      StartGoesOn(c, initial, script);
    } else {
      EveryRunEndsAsCaused(c, initial, script, n - 1);
      TurnEndsAsCaused(c, initial, script, ProgressAfter(c, initial, script, n - 1), n);
    }
  }

  /** Every run ends for exactly the reason that its recorded steps and inputs give, and succeeds exactly
      if its last recorded step is a finish whose final verification passed with the workspace kept. */
  lemma RunEndsIff(c: Config, initial: StateHash, script: nat -> StepInput)
    requires ValidCadence(c.cadence)
    ensures var run := WholeRun(c, initial, script);
            && (forall reason :: run.end.reason == reason <==> Cause(c, initial, script, run.trace, reason))
            && (run.end.success <==> run.trace != [] && Succeeds(Last(run.trace)))
            && run.end.steps == |run.trace| && run.state.finalSummary == LastSummary(run.trace)
  {
    EveryRunEndsAsCaused(c, initial, script, c.limits.maxSteps);
    var run := WholeRun(c, initial, script);
    assert run.end.reason == FinalVerificationPassed <==>
           Cause(c, initial, script, run.trace, FinalVerificationPassed);
  }
}
