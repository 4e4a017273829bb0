/**
 The agent run loop over its mutable run state.
 */
module AgentLoop {
  import opened Options
  import opened Collections
  import opened Compaction
  import opened AgentState
  import opened AgentTrace
  import opened AgentRuns
  import opened AgentEndings
  import opened AgentEvents

  datatype AgentResult = AgentResult(
    success: bool,
    reason: Reason,
    steps: nat,
    compactions: nat,
    verifications: nat,
    artifacts: seq<string>,
    summary: Option<string>)

  function ResultOf(s: RunState, end: Termination): AgentResult {
    AgentResult(end.success, end.reason, end.steps, s.compactions, s.verifications, s.artifacts, s.finalSummary)
  }

  class AgentRunState {
    var events: seq<Event>
    var compactSummary: Option<Summary>
    var compactions: nat
    var verifications: nat
    var verificationArtifacts: seq<string>
    var protocolErrors: nat
    var mutationsSinceVerify: nat
    var lastFailedVerificationState: Option<StateHash>
    var criterionStatus: Criteria
    var stateVisits: map<StateKey, nat>
    var workspaceCycleStreak: nat
    var lastFingerprint: Option<Fingerprint>
    var repeatedFingerprint: nat
    var finalSummary: Option<string>

    function View(): RunState
      reads this
    {
      RunState(events, compactSummary, compactions, verifications, verificationArtifacts, protocolErrors,
               mutationsSinceVerify, lastFailedVerificationState, criterionStatus, stateVisits, workspaceCycleStreak,
               lastFingerprint, repeatedFingerprint, finalSummary)
    }

    constructor (c: Config, initial: StateHash)
      ensures View() == StartState(c, initial)
    {
      var criteria := map criterion | criterion in c.acceptanceCriteria :: NotRun;
      events, compactSummary, compactions, verifications, verificationArtifacts := [], None, 0, 0, [];
      protocolErrors, mutationsSinceVerify, lastFailedVerificationState := 0, 0, None;
      criterionStatus, stateVisits, workspaceCycleStreak := criteria, map[StateKey(initial, criteria) := 0], 0;
      lastFingerprint, repeatedFingerprint, finalSummary := None, 0, None;
    }

    /** Compact when the cadence says so and the budget allows it. */
    method CompactIfDue(c: Config, step: nat, oversized: bool)
      requires ValidCadence(c.cadence)
      modifies this
      ensures View() == Compacted(c, old(View()), step, oversized)
      ensures var before := old(View());
              if before.compactions < c.limits.maxCompactions && |before.events| > c.cadence.keepRecent
                 && (step % c.cadence.compactionInterval == 0 || oversized)
              then compactions == before.compactions + 1 && |events| == c.cadence.keepRecent
              else View() == before
    {
      if compactions >= c.limits.maxCompactions || |events| <= c.cadence.keepRecent {
        return;
      }
      if step % c.cadence.compactionInterval == 0 || oversized {
        var summary, recent := CompactEvents(compactSummary, events, c.cadence.keepRecent);
        compactSummary, events := Some(summary), recent;
        compactions := compactions + 1;
      }
    }

    method ObserveDecision(d: Decision, stagnationLimit: nat) returns (stagnant: bool)
      modifies this
      ensures View() == AgentState.ObserveDecision(old(View()), d)
      ensures stagnant <==> repeatedFingerprint >= stagnationLimit
    {
      var fingerprint := PrintOf(d);
      if lastFingerprint == Some(fingerprint) {
        repeatedFingerprint := repeatedFingerprint + 1;
      } else {
        repeatedFingerprint := 1;
        lastFingerprint := Some(fingerprint);
      }
      stagnant := repeatedFingerprint >= stagnationLimit;
    }

    method ObserveWorkspaceState(state: StateHash, step: nat, stagnationLimit: nat) returns (cycling: bool)
      modifies this
      ensures View() == ObserveWorkspace(old(View()), StateKey(state, old(criterionStatus)), step)
      ensures cycling <==>
              StateKey(state, old(criterionStatus)) in old(stateVisits) && workspaceCycleStreak >= stagnationLimit
    {
      var key := StateKey(state, criterionStatus);
      if key !in stateVisits {
        workspaceCycleStreak := 0;
        stateVisits := stateVisits[key := step];
        return false;
      }
      workspaceCycleStreak := workspaceCycleStreak + 1;
      cycling := workspaceCycleStreak >= stagnationLimit;
    }

    /** Take in the criteria of a receipt one by one; the last report of a criterion stands. */
    method UpdateCriterionStatus(items: seq<(string, bool)>)
      modifies this`criterionStatus
      ensures criterionStatus == UpdateCriteria(old(criterionStatus), items)
    {
      for i := 0 to |items|
        invariant criterionStatus == UpdateCriteria(old(criterionStatus), items[..i])
      {
        assert items[..i + 1][..i] == items[..i];
        criterionStatus := criterionStatus[items[i].0 := if items[i].1 then Passed else Failed];
      }
      assert items[..|items|] == items;
    }

    method RememberVerificationState(state: StateHash, step: nat)
      modifies this`stateVisits
      ensures stateVisits == Remember(old(stateVisits), StateKey(state, criterionStatus), step)
    {
      var key := StateKey(state, criterionStatus);
      if key !in stateVisits {
        stateVisits := stateVisits[key := step];
      }
    }
  }

  class AgentRunLoop {
    const c: Config

    constructor (c: Config)
      requires ValidConfig(c)
      ensures this.c == c
    {
      this.c := c;
    }

    /** One call of the verifier, counted, with its artifact kept. */
    method Verify(state: AgentRunState, step: nat, final: bool, input: StepInput) returns (receipt: Receipt)
      modifies state`verifications, state`verificationArtifacts
      ensures receipt == ReceiptFor(RunId(c, step, final), input.kept, input.outcomes)
      ensures state.verifications == old(state.verifications) + 1
      ensures state.verificationArtifacts == old(state.verificationArtifacts) + [receipt.runId]
    {
      receipt := ReceiptFor(RunId(c, step, final), input.kept, input.outcomes);
      state.verifications := state.verifications + 1;
      state.verificationArtifacts := state.verificationArtifacts + [receipt.runId];
    }

    /** Verify and take in the receipt; the workspace is remembered with the new criteria. */
    method VerifyAndTakeIn(state: AgentRunState, step: nat, final: bool, input: StepInput, workspace: StateHash)
      returns (receipt: Receipt)
      modifies state
      ensures receipt == ReceiptFor(RunId(c, step, final), input.kept, input.outcomes)
      ensures state.View() == Verified(old(state.View()), receipt, workspace, step)
    {
      receipt := Verify(state, step, final, input);
      state.UpdateCriterionStatus(CriteriaItems(receipt.commands));
      state.RememberVerificationState(workspace, step);
      state.events := state.events + [VerificationEvent(receipt)];
    }

    /** A finish decision: reject it if the verifier already failed on this state, else verify. */
    method Finish(state: AgentRunState, step: nat, d: Decision, input: StepInput)
      returns (end: Option<Termination>, ghost record: StepRecord)
      requires d.Finish?
      modifies state
      ensures StepResult(state.View(), end, Some(record)) == FinishStep(c, old(state.View()), step, d, input)
      ensures end ==
              if old(state.lastFailedVerificationState) == Some(input.before) then None
              else if !input.kept then Some(Termination(false, VerificationMutated, step))
              else if forall i :: 0 <= i < |input.outcomes| ==> input.outcomes[i].passed
              then Some(Termination(true, FinalVerificationPassed, step)) else None
      ensures state.finalSummary == Some(d.summary)
    {
      state.finalSummary := Some(d.summary);
      if state.lastFailedVerificationState == Some(input.before) {
        state.events := state.events + [RejectionEvent()];
        return None, StepRecord(input.before, [RejectionEvent()], Some(d), true, None, None);
      }
      ghost var s := state.View();
      var receipt := VerifyAndTakeIn(state, step, true, input, input.afterVerification);
      record := StepRecord(input.before, [VerificationEvent(receipt)], Some(d), true, None,
                           Some(VerificationOf(s, receipt, true, input.afterVerification)));
      if !receipt.kept {
        end := Some(Termination(false, VerificationMutated, step));
      } else if receipt.passed {
        end := Some(Termination(true, FinalVerificationPassed, step));
      } else {
        state.lastFailedVerificationState := Some(input.afterVerification);
        state.mutationsSinceVerify := 0;
        end := None;
      }
    }

    /** After a tool: verify once enough mutations are unverified. */
    method AfterTool(state: AgentRunState, step: nat, mutated: bool, ghost noted: StepRecord, input: StepInput)
      returns (end: Option<Termination>, ghost record: StepRecord)
      requires mutated <==> noted.mutationKey.Some?
      modifies state
      ensures StepResult(state.View(), end, Some(record)) ==
              AgentState.AfterTool(c, old(state.View()), step, noted, input)
    {
      if !mutated || state.mutationsSinceVerify < c.cadence.verificationInterval {
        return None, noted;
      }
      ghost var s := state.View().(mutationsSinceVerify := 0);
      state.mutationsSinceVerify := 0;
      var receipt := VerifyAndTakeIn(state, step, false, input, input.after);
      record := noted.(events := noted.events + [VerificationEvent(receipt)],
                       verification := Some(VerificationOf(s, receipt, false, input.after)));
      if !receipt.kept {
        return Some(Termination(false, VerificationMutated, step)), record;
      }
      state.lastFailedVerificationState := if receipt.passed then None else Some(input.after);
      end := None;
    }

    /** A tool decision: run the tool, check its report against the workspace, count mutations. */
    method ExecuteTool(state: AgentRunState, step: nat, d: Decision, input: StepInput)
      returns (end: Option<Termination>, ghost record: StepRecord)
      requires d.Tool?
      modifies state
      ensures StepResult(state.View(), end, Some(record)) == ToolStep(c, old(state.View()), step, d, input)
    {
      var event, failed := ToolEvent(d.tool, input), ToolFails(input);
      var mutated := event.mutated && !failed;
      ghost var key := StateKey(input.after, state.criterionStatus);
      record := StepRecord(input.before, [event], Some(d), true, if mutated then Some(key) else None, None);
      if mutated {
        state.mutationsSinceVerify := state.mutationsSinceVerify + 1;
      }
      state.events := state.events + [event];
      if failed && event.mutated {
        return Some(Termination(false, ToolFailedAfterMutation, step)), record;
      }
      if mutated {
        var cycling := state.ObserveWorkspaceState(input.after, step, c.cadence.stagnationLimit);
        if cycling {
          return Some(Termination(false, StateCycleReached, step)), record;
        }
      }
      end, record := AfterTool(state, step, mutated, record, input);
    }

    method RunStep(state: AgentRunState, step: nat, input: StepInput)
      returns (end: Option<Termination>, ghost record: Option<StepRecord>)
      requires ValidCadence(c.cadence) && step >= 1
      modifies state
      ensures StepResult(state.View(), end, record) == Step(c, old(state.View()), step, input)
    {
      state.CompactIfDue(c, step, input.oversized);
      match input.response
      case TimedOut => end, record := Some(Termination(false, RuntimeBudgetExhausted, step - 1)), None;
      case ProviderFailed => end, record := Some(Termination(false, ProviderFailure, step - 1)), None;
      case Malformed(error) =>
        var event := Event(None, None, false, Some(error), None);
        state.protocolErrors := state.protocolErrors + 1;
        state.events := state.events + [event];
        end := if state.protocolErrors > c.limits.maxProtocolErrors
               then Some(Termination(false, ProtocolErrorsExhausted, step)) else None;
        record := Some(StepRecord(input.before, [event], None, false, None, None));
      case Decided(d) =>
        var stagnant := state.ObserveDecision(d, c.cadence.stagnationLimit);
        if stagnant {
          return Some(Termination(false, StagnationReached, step)),
                 Some(StepRecord(input.before, [], Some(d), false, None, None));
        }
        ghost var r: StepRecord;
        if d.Finish? {
          end, r := Finish(state, step, d, input);
        } else {
          end, r := ExecuteTool(state, step, d, input);
        }
        record := Some(r);
    }

    /** One turn: stop if the deadline has passed, otherwise take the step. */
    method TakeTurn(state: AgentRunState, ghost before: Trace, n: nat, input: StepInput)
      returns (end: Option<Termination>, ghost trace: Trace)
      requires ValidCadence(c.cadence) && n >= 1
      modifies state
      ensures Turn(c, Going(old(state.View()), before), n, input) ==
              match end { case None => Going(state.View(), trace) case Some(e) => Ended(state.View(), trace, e) }
    {
      if input.expired {
        return Some(Termination(false, RuntimeBudgetExhausted, n - 1)), before;
      }
      ghost var record;
      end, record := RunStep(state, n, input);
      trace := Recorded(before, record);
    }

    method RunToEnd(state: AgentRunState, ghost initial: StateHash, script: nat -> StepInput)
      returns (end: Termination, ghost trace: Trace)
      requires ValidCadence(c.cadence) && state.View() == StartState(c, initial)
      modifies state
      ensures WholeRun(c, initial, script) == Ended(state.View(), trace, end)
    {
      trace := [];
      for n := 1 to c.limits.maxSteps + 1
        invariant ProgressAfter(c, initial, script, n - 1) == Going(state.View(), trace)
      {
        var termination;
        termination, trace := TakeTurn(state, trace, n, script(n));
        if termination.Some? {
          EndedStays(c, initial, script, n, c.limits.maxSteps);
          return termination.value, trace;
        }
      }
      end := Termination(false, StepBudgetExhausted, c.limits.maxSteps);
    }

    /** The whole run, for whatever the provider, the tools, the verifier and the clock answer: the
        result is that of the specified run, so it keeps all that is proved about every run. */
    method Run(initial: StateHash, script: nat -> StepInput) returns (result: AgentResult, ghost trace: Trace)
      requires ValidConfig(c) && forall step :: Answers(script(step).outcomes, c.commands)
      ensures result == ResultOf(WholeRun(c, initial, script).state, WholeRun(c, initial, script).end)
      ensures trace == WholeRun(c, initial, script).trace
      ensures result.steps == |trace| <= c.limits.maxSteps && result.summary == LastSummary(trace)
      ensures result.success <==> trace != [] && Succeeds(Last(trace))
      ensures forall reason :: result.reason == reason <==> Cause(c, initial, script, trace, reason)
      ensures AllTell(c, script, trace)
      ensures result.verifications == |result.artifacts| <= |trace| && Distinct(result.artifacts)
      ensures result.success ==> trace != [] && SuccessRecord(Last(trace), |trace|, script(|trace|))
      ensures result.success ==> forall criterion :: criterion in c.acceptanceCriteria ==>
                PassingCommandCovers(Last(trace).verification.value.receipt, criterion)
    {
      var state := new AgentRunState(c, initial);
      var end;
      end, trace := RunToEnd(state, initial, script);
      EveryRun(c, initial, script);
      RunEndsIff(c, initial, script);
      EveryRunTellsEvents(c, initial, script, c.limits.maxSteps);
      result := ResultOf(state.View(), end);
    }
  }

  lemma {:induction false} EndedStays(c: Config, initial: StateHash, script: nat -> StepInput, n: nat, later: nat)
    requires ValidCadence(c.cadence) && n <= later && ProgressAfter(c, initial, script, n).Ended?
    ensures ProgressAfter(c, initial, script, later) == ProgressAfter(c, initial, script, n)
    decreases later
  {
    if n < later {
      EndedStays(c, initial, script, n, later - 1);
    }
  }
}
