/**
 The promises every agent run keeps, read off the record of its steps: verification
 cadence, no recheck of a failed state, no stagnation, fresh states, and what success means.
 */
module AgentRuns {
  import opened Options
  import opened Collections
  import opened Formats
  import opened AgentState
  import opened AgentTrace

  // ----- rules for one step -----

  /** A verification is run by an executed decision, under the run identifier of its step. */
  ghost predicate VerificationRules(c: Config, step: nat, r: StepRecord) {
    r.verification.Some? ==>
      && r.executed && r.decision.Some?
      && var run := r.verification.value;
         && run.final == r.decision.value.Finish?
         && run.receipt.runId == RunId(c, step, run.final)
         && run.receipt.passed == (run.receipt.kept && AllPassed(run.receipt.commands))
  }

  /** An executed finish is verified unless the latest verification failed on this very state. */
  ghost predicate FinishRule(trace: Trace, r: StepRecord) {
    r.executed && r.decision.Some? && r.decision.value.Finish? ==>
      (r.verification.None? <==> LatestFailure(trace) == Some(r.before))
  }

  ghost predicate StepRules(c: Config, initial: StateHash, trace: Trace, r: StepRecord) {
    && VerificationRules(c, |trace| + 1, r)
    && FinishRule(trace, r)
    && TailRun(Prints(trace + [r])) < c.cadence.stagnationLimit
    && Unverified(trace) < c.cadence.verificationInterval
    && TailTrue(Returns(Start(c, initial), trace)) < c.cadence.stagnationLimit
  }

  lemma FinishObeys(c: Config, s: RunState, step: nat, d: Decision, input: StepInput)
    requires d.Finish?
    ensures var r := FinishStep(c, s, step, d, input);
            && r.record.Some? && VerificationRules(c, step, r.record.value)
            && r.record.value.executed && r.record.value.decision == Some(d)
            && (r.record.value.verification.None? <==> s.lastFailedState == Some(input.before))
            && r.record.value.before == input.before
  {
  }

  lemma AfterToolObeys(c: Config, s: RunState, step: nat, record: StepRecord, input: StepInput)
    requires record.executed && record.decision.Some? && record.decision.value.Tool? && record.verification.None?
    ensures var r := AfterTool(c, s, step, record, input);
            && r.record.Some? && VerificationRules(c, step, r.record.value)
            && r.record.value.executed && r.record.value.decision == record.decision
  {
  }

  lemma ToolObeys(c: Config, s: RunState, step: nat, d: Decision, input: StepInput)
    requires d.Tool?
    ensures var r := ToolStep(c, s, step, d, input);
            && r.record.Some? && VerificationRules(c, step, r.record.value)
            && r.record.value.executed && r.record.value.decision == Some(d)
  {
    var key := StateKey(input.after, s.criteria);
    var noted := NoteTool(s, step, ToolEvent(d.tool, input), key, ToolFails(input));
    AfterToolObeys(c, noted, step, ToolRecord(d, input, key), input);
  }

  /** The decision of a step is executed only if it does not stagnate. */
  lemma PrintsObey(c: Config, s: RunState, trace: Trace, r: StepRecord)
    requires s.repeated == TailRun(Prints(trace)) < c.cadence.stagnationLimit
    requires s.lastFingerprint == LastPrint(Prints(trace))
    requires r.executed && r.decision.Some? ==>
               ObserveDecision(s, r.decision.value).repeated < c.cadence.stagnationLimit
    ensures TailRun(Prints(trace + [r])) < c.cadence.stagnationLimit
  {
    PrintsSnoc(trace, r);
    if PrintIn(r).Some? {
      TailRunSnoc(Prints(trace), PrintIn(r).value);
    }
  }

  /** The part of the rules that needs no history. */
  ghost predicate StepBasics(c: Config, s: RunState, step: nat, r: StepRecord) {
    && VerificationRules(c, step, r)
    && (r.executed && r.decision.Some? ==>
          && ObserveDecision(s, r.decision.value).repeated < c.cadence.stagnationLimit
          && (r.decision.value.Finish? ==> (r.verification.None? <==> s.lastFailedState == Some(r.before))))
  }

  lemma StepObeysBasics(c: Config, s0: RunState, step: nat, input: StepInput)
    requires ValidCadence(c.cadence) && step >= 1
    ensures Step(c, s0, step, input).record.Some? ==>
              StepBasics(c, Compacted(c, s0, step, input.oversized), step, Step(c, s0, step, input).record.value)
  {
    var s := Compacted(c, s0, step, input.oversized);
    if input.response.Decided? {
      var d := input.response.decision;
      if d.Finish? {
        FinishObeys(c, ObserveDecision(s, d), step, d, input);
      } else {
        ToolObeys(c, ObserveDecision(s, d), step, d, input);
      }
    }
  }

  lemma BasicsObey(c: Config, initial: StateHash, s: RunState, trace: Trace, r: StepRecord)
    requires Tracks(c, initial, s, trace) && WithinLimits(c, s) && StepBasics(c, s, |trace| + 1, r)
    ensures StepRules(c, initial, trace, r)
  {
    PrintsObey(c, s, trace, r);
  }

  /** Every recorded step obeys the rules, whether or not it ends the run. */
  lemma StepObeys(c: Config, initial: StateHash, s0: RunState, trace: Trace, step: nat, input: StepInput)
    requires ValidCadence(c.cadence) && step == |trace| + 1
    requires Tracks(c, initial, s0, trace) && WithinLimits(c, s0)
    ensures Step(c, s0, step, input).record.Some? ==>
              StepRules(c, initial, trace, Step(c, s0, step, input).record.value)
  {
    var s := Compacted(c, s0, step, input.oversized);
    CompactedTracks(c, initial, s0, trace, step, input.oversized);
    StepObeysBasics(c, s0, step, input);
    if Step(c, s0, step, input).record.Some? {
      BasicsObey(c, initial, s, trace, Step(c, s0, step, input).record.value);
    }
  }

  // ----- rules for every step of every run -----

  ghost predicate RunRules(c: Config, initial: StateHash, trace: Trace) {
    forall i :: 0 <= i < |trace| ==> StepRules(c, initial, trace[..i], trace[i])
  }

  lemma RulesSnoc(c: Config, initial: StateHash, trace: Trace, r: StepRecord)
    requires RunRules(c, initial, trace) && StepRules(c, initial, trace, r)
    ensures RunRules(c, initial, trace + [r])
  {
    var all := trace + [r];
    forall i | 0 <= i < |all|
      ensures StepRules(c, initial, all[..i], all[i])
    {
      if i < |trace| {
        assert all[..i] == trace[..i];
      } else {
        assert all[..i] == trace;
      }
    }
  }

  /** One artifact is kept for every verification, in order, even in the step that ends the run. */
  predicate ArtifactsMatch(p: Progress) {
    p.state.artifacts == RunIds(p.trace) && p.state.verifications == |p.state.artifacts|
  }

  function IdIn(record: Option<StepRecord>): seq<string> {
    if record.Some? && record.value.verification.Some? then [record.value.verification.value.receipt.runId] else []
  }

  ghost predicate ArtifactsGrow(s: RunState, r: StepResult) {
    && r.state.artifacts == s.artifacts + IdIn(r.record)
    && r.state.verifications == s.verifications + |IdIn(r.record)|
  }

  lemma FinishArtifacts(c: Config, s: RunState, step: nat, d: Decision, input: StepInput)
    requires d.Finish?
    ensures ArtifactsGrow(s, FinishStep(c, s, step, d, input))
  {
  }

  lemma AfterToolArtifacts(c: Config, s: RunState, step: nat, record: StepRecord, input: StepInput)
    requires record.verification.None?
    ensures ArtifactsGrow(s, AfterTool(c, s, step, record, input))
  {
  }

  lemma ToolArtifacts(c: Config, s: RunState, step: nat, d: Decision, input: StepInput)
    requires d.Tool?
    ensures ArtifactsGrow(s, ToolStep(c, s, step, d, input))
  {
    var key := StateKey(input.after, s.criteria);
    var noted := NoteTool(s, step, ToolEvent(d.tool, input), key, ToolFails(input));
    AfterToolArtifacts(c, noted, step, ToolRecord(d, input, key), input);
  }

  lemma StepArtifacts(c: Config, s0: RunState, step: nat, input: StepInput)
    requires ValidCadence(c.cadence) && step >= 1
    ensures ArtifactsGrow(s0, Step(c, s0, step, input))
  {
    if input.response.Decided? {
      DecidedArtifacts(c, s0, step, input);
    } else {
      assert ArtifactsGrow(Compacted(c, s0, step, input.oversized), Step(c, s0, step, input));
    }
  }

  lemma DecidedArtifacts(c: Config, s0: RunState, step: nat, input: StepInput)
    requires ValidCadence(c.cadence) && step >= 1 && input.response.Decided?
    ensures ArtifactsGrow(s0, Step(c, s0, step, input))
  {
    var d := input.response.decision;
    var observed := ObserveDecision(Compacted(c, s0, step, input.oversized), d);
    if observed.repeated < c.cadence.stagnationLimit {
      if d.Finish? {
        FinishArtifacts(c, observed, step, d, input);
        assert Step(c, s0, step, input) == FinishStep(c, observed, step, d, input);
      } else {
        ToolArtifacts(c, observed, step, d, input);
        assert Step(c, s0, step, input) == ToolStep(c, observed, step, d, input);
      }
    }
  }

  lemma TurnKeepsArtifacts(c: Config, p: Progress, n: nat, input: StepInput)
    requires ValidCadence(c.cadence) && n >= 1 && ArtifactsMatch(p)
    ensures ArtifactsMatch(Turn(c, p, n, input))
  {
    if p.Going? && !input.expired {
      StepArtifacts(c, p.state, n, input);
      var record := Step(c, p.state, n, input).record;
      if record.Some? {
        SnocTrace(p.trace, record.value);
      }
    }
  }

  /** A run of at most `n` turns: on track while it goes on, and every recorded step obeys the rules. */
  ghost predicate Orderly(c: Config, initial: StateHash, p: Progress, n: nat) {
    OnTrack(c, initial, p, n) && RunRules(c, initial, p.trace) && |p.trace| <= n && ArtifactsMatch(p)
  }

  /** The step that the next turn records, if any, obeys the rules. */
  ghost predicate NextObeys(c: Config, initial: StateHash, p: Progress, n: nat, input: StepInput)
    requires ValidCadence(c.cadence) && n >= 1
  {
    p.Going? && !input.expired && Step(c, p.state, n, input).record.Some? ==>
      StepRules(c, initial, p.trace, Step(c, p.state, n, input).record.value)
  }

  lemma TurnKeepsRules(c: Config, initial: StateHash, p: Progress, n: nat, input: StepInput)
    requires ValidCadence(c.cadence) && n >= 1
    ensures NextObeys(c, initial, p, n, input) && RunRules(c, initial, p.trace) ==>
              RunRules(c, initial, Turn(c, p, n, input).trace)
    ensures |Turn(c, p, n, input).trace| <= |p.trace| + 1
  {
    if NextObeys(c, initial, p, n, input) && RunRules(c, initial, p.trace) && p.Going? && !input.expired {
      var record := Step(c, p.state, n, input).record;
      if record.Some? {
        RulesSnoc(c, initial, p.trace, record.value);
      }
    }
  }

  lemma {:induction false} EveryRunStaysOnTrack(c: Config, initial: StateHash, script: nat -> StepInput, n: nat)
    requires ValidCadence(c.cadence)
    ensures OnTrack(c, initial, ProgressAfter(c, initial, script, n), n)
  {
    if n == 0 {
      StartTracks(c, initial);
    } else {
      EveryRunStaysOnTrack(c, initial, script, n - 1);
      TurnStaysOnTrack(c, initial, ProgressAfter(c, initial, script, n - 1), n, script(n));
    }
  }

  lemma EveryTurnObeys(c: Config, initial: StateHash, script: nat -> StepInput, n: nat)
    requires ValidCadence(c.cadence) && n >= 1
    ensures NextObeys(c, initial, ProgressAfter(c, initial, script, n - 1), n, script(n))
  {
    var p := ProgressAfter(c, initial, script, n - 1);
    EveryRunStaysOnTrack(c, initial, script, n - 1);
    if p.Going? {
      StepObeys(c, initial, p.state, p.trace, n, script(n));
    }
  }

  lemma {:induction false} EveryRunKeepsRules(c: Config, initial: StateHash, script: nat -> StepInput, n: nat)
    requires ValidCadence(c.cadence)
    ensures var trace := ProgressAfter(c, initial, script, n).trace;
            RunRules(c, initial, trace) && |trace| <= n
  {
    if n > 0 {
      EveryTurnObeys(c, initial, script, n);
      EveryRunKeepsRules(c, initial, script, n - 1);
      TurnKeepsRules(c, initial, ProgressAfter(c, initial, script, n - 1), n, script(n));
    }
  }

  lemma {:induction false} EveryRunMatchesArtifacts(c: Config, initial: StateHash, script: nat -> StepInput, n: nat)
    requires ValidCadence(c.cadence)
    ensures ArtifactsMatch(ProgressAfter(c, initial, script, n))
  {
    if n > 0 {
      EveryRunMatchesArtifacts(c, initial, script, n - 1);
      TurnKeepsArtifacts(c, ProgressAfter(c, initial, script, n - 1), n, script(n));
    }
  }

  lemma EveryRunIsOrderly(c: Config, initial: StateHash, script: nat -> StepInput, n: nat)
    requires ValidCadence(c.cadence)
    ensures Orderly(c, initial, ProgressAfter(c, initial, script, n), n)
  {
    EveryRunStaysOnTrack(c, initial, script, n);
    EveryRunKeepsRules(c, initial, script, n);
    EveryRunMatchesArtifacts(c, initial, script, n);
  }

  // ----- what that means for a whole run -----

  /** Fewer than the cadence's number of mutations are unverified at the start of every step. */
  lemma VerificationCadence(c: Config, initial: StateHash, script: nat -> StepInput, n: nat, i: nat)
    requires ValidCadence(c.cadence)
    ensures var p := ProgressAfter(c, initial, script, n);
            i < |p.trace| || (i == |p.trace| && p.Going?) ==> Unverified(p.trace[..i]) < c.cadence.verificationInterval
  {
    EveryRunIsOrderly(c, initial, script, n);
    var trace := ProgressAfter(c, initial, script, n).trace;
    if i == |trace| {
      assert trace[..i] == trace;
    }
  }

  /** A finish runs the verifier exactly when the latest verification did not fail on this state. */
  lemma FailedStateIsNotRechecked(c: Config, initial: StateHash, script: nat -> StepInput, n: nat, i: nat)
    requires ValidCadence(c.cadence) && i < |ProgressAfter(c, initial, script, n).trace|
    ensures FinishRule(ProgressAfter(c, initial, script, n).trace[..i], ProgressAfter(c, initial, script, n).trace[i])
  {
    EveryRunIsOrderly(c, initial, script, n);
  }

  lemma {:induction false} ConstantTail<T>(s: seq<T>, m: nat)
    requires 1 <= m <= |s|
    requires forall j :: |s| - m <= j < |s| - 1 ==> s[j] == s[j + 1]
    ensures TailRun(s) >= m
  {
    if m > 1 {
      var front := s[..|s| - 1];
      assert s[|s| - 2] == s[|s| - 2 + 1];
      ConstantTail(front, m - 1);
    }
  }

  lemma {:induction false} TrueTail(s: seq<bool>, m: nat)
    requires m <= |s| && forall j :: |s| - m <= j < |s| ==> s[j]
    ensures TailTrue(s) >= m
  {
    if m > 0 {
      TrueTail(s[..|s| - 1], m - 1);
    }
  }

  /** Some prefix of the trace accounts for the first `k` executed decisions, and ends with the k-th. */
  lemma {:induction false} PrintsOfPrefix(trace: Trace, k: nat) returns (i: nat)
    requires 1 <= k <= |Prints(trace)|
    ensures 1 <= i <= |trace| && Prints(trace[..i]) == Prints(trace)[..k]
  {
    if k == |Prints(trace)| {
      i := |trace|;
      assert trace[..i] == trace;
    } else {
      var front := Front(trace);
      i := PrintsOfPrefix(front, k);
      assert front[..i] == trace[..i];
    }
  }

  lemma {:induction false} ReturnsOfPrefix(start: StateKey, trace: Trace, k: nat) returns (i: nat)
    requires 1 <= k <= |Returns(start, trace)|
    ensures 1 <= i <= |trace| && Returns(start, trace[..i]) == Returns(start, trace)[..k]
  {
    if k == |Returns(start, trace)| {
      i := |trace|;
      assert trace[..i] == trace;
    } else {
      var front := Front(trace);
      i := ReturnsOfPrefix(start, front, k);
      assert front[..i] == trace[..i];
    }
  }

  lemma RulesBoundPrints(c: Config, initial: StateHash, trace: Trace, i: nat)
    requires RunRules(c, initial, trace) && 1 <= i <= |trace|
    ensures TailRun(Prints(trace[..i])) < c.cadence.stagnationLimit
  {
    assert StepRules(c, initial, trace[..i - 1], trace[i - 1]);
    assert trace[..i - 1] + [trace[i - 1]] == trace[..i];
  }

  /** Among the `width` entries before position `k` some two neighbours differ. */
  ghost predicate WindowVaries<T(!new)>(s: seq<T>, k: nat, width: nat)
    requires k <= |s|
  {
    exists j :: 0 <= j && k - width <= j < k - 1 && s[j] != s[j + 1]
  }

  lemma WindowIsNotConstant<T(!new)>(s: seq<T>, k: nat, width: nat)
    requires 1 <= width <= k <= |s| && TailRun(s[..k]) < width
    ensures WindowVaries(s, k, width)
  {
    if !WindowVaries(s, k, width) {
      ConstantTail(s[..k], width);
    }
  }

  /** No `stagnationLimit` consecutive equal decisions are all executed, protocol errors in between
      notwithstanding. */
  lemma NoStagnation(c: Config, initial: StateHash, script: nat -> StepInput, n: nat)
    requires ValidCadence(c.cadence)
    ensures var prints := Prints(ProgressAfter(c, initial, script, n).trace);
            forall k :: c.cadence.stagnationLimit <= k <= |prints| ==>
              WindowVaries(prints, k, c.cadence.stagnationLimit)
  {
    EveryRunIsOrderly(c, initial, script, n);
    var trace := ProgressAfter(c, initial, script, n).trace;
    forall k | c.cadence.stagnationLimit <= k <= |Prints(trace)|
      ensures WindowVaries(Prints(trace), k, c.cadence.stagnationLimit)
    {
      var i := PrintsOfPrefix(trace, k);
      RulesBoundPrints(c, initial, trace, i);
      WindowIsNotConstant(Prints(trace), k, c.cadence.stagnationLimit);
    }
  }

  /** Among the `width` mutations before the k-th some one did not return to a key seen before. */
  ghost predicate WindowIsFresh(flags: seq<bool>, k: nat, width: nat)
    requires k <= |flags|
  {
    exists j :: 0 <= j && k - width <= j < k && !flags[j]
  }

  lemma WindowHasFresh(flags: seq<bool>, k: nat, width: nat)
    requires width <= k <= |flags| && TailTrue(flags[..k]) < width
    ensures WindowIsFresh(flags, k, width)
  {
    if !WindowIsFresh(flags, k, width) {
      TrueTail(flags[..k], width);
    }
  }

  lemma RulesBoundReturns(c: Config, initial: StateHash, p: Progress, n: nat, i: nat)
    requires Orderly(c, initial, p, n) && p.Going? && i <= |p.trace|
    ensures TailTrue(Returns(Start(c, initial), p.trace[..i])) < c.cadence.stagnationLimit
  {
    if i == |p.trace| {
      assert p.trace[..i] == p.trace;
    } else {
      assert StepRules(c, initial, p.trace[..i], p.trace[i]);
    }
  }

  /** While the run goes on, any `stagnationLimit` consecutive mutating steps include one that led to
      a state and criteria not seen before. */
  lemma FreshStateInEveryWindow(c: Config, initial: StateHash, script: nat -> StepInput, n: nat)
    requires ValidCadence(c.cadence)
    ensures var p, width := ProgressAfter(c, initial, script, n), c.cadence.stagnationLimit;
            p.Going? ==>
              forall k :: width <= k <= |Returns(Start(c, initial), p.trace)| ==>
                WindowIsFresh(Returns(Start(c, initial), p.trace), k, width)
  {
    EveryRunIsOrderly(c, initial, script, n);
    var p, start, width := ProgressAfter(c, initial, script, n), Start(c, initial), c.cadence.stagnationLimit;
    if p.Going? {
      forall k | width <= k <= |Returns(start, p.trace)|
        ensures WindowIsFresh(Returns(start, p.trace), k, width)
      {
        var i := ReturnsOfPrefix(start, p.trace, k);
        RulesBoundReturns(c, initial, p, n, i);
        WindowHasFresh(Returns(start, p.trace), k, width);
      }
    }
  }

  // ----- verification run identifiers -----

  lemma RunIdInjective(c: Config, a: nat, finalA: bool, b: nat, finalB: bool)
    requires RunId(c, a, finalA) == RunId(c, b, finalB)
    ensures a == b && finalA == finalB
  {
    var x := c.runId + (if finalA then "-final" else "-intermediate");
    var y := c.runId + (if finalB then "-final" else "-intermediate");
    TrailingDigitsSplit(x, y, Decimal(a), Decimal(b), '-');
    assert |x| == |y|;
    DecimalDenotes(a);
    DecimalDenotes(b);
  }

  ghost predicate IsRunIdOf(c: Config, trace: Trace, id: string) {
    exists step: nat, final: bool :: step <= |trace| && id == RunId(c, step, final)
  }

  lemma RulesOfFront(c: Config, initial: StateHash, trace: Trace)
    requires RunRules(c, initial, trace) && trace != []
    ensures RunRules(c, initial, Front(trace)) && VerificationRules(c, |trace|, Last(trace))
  {
    var front := Front(trace);
    forall i | 0 <= i < |front|
      ensures StepRules(c, initial, front[..i], front[i])
    {
      assert front[..i] == trace[..i];
      assert StepRules(c, initial, trace[..i], trace[i]);
    }
    assert StepRules(c, initial, trace[..|front|], trace[|front|]);
  }

  /** At most one verification a step, each under an identifier of its own. */
  lemma {:induction false} RunIdsDistinct(c: Config, initial: StateHash, trace: Trace)
    requires RunRules(c, initial, trace)
    ensures Distinct(RunIds(trace)) && |RunIds(trace)| <= |trace|
    ensures forall id :: id in RunIds(trace) ==> IsRunIdOf(c, trace, id)
  {
    if trace != [] {
      var front, r := Front(trace), Last(trace);
      RulesOfFront(c, initial, trace);
      RunIdsDistinct(c, initial, front);
      NewRunId(c, front, r);
    }
  }

  lemma RunIdPersists(c: Config, front: Trace, r: StepRecord, id: string, last: bool)
    requires IsRunIdOf(c, front, id)
    ensures IsRunIdOf(c, front + [r], id)
    ensures id != RunId(c, |front| + 1, last)
  {
    var step: nat, final: bool :| step <= |front| && id == RunId(c, step, final);
    assert step <= |front + [r]|;
    if id == RunId(c, |front| + 1, last) {
      RunIdInjective(c, step, final, |front| + 1, last);
    }
  }

  lemma NewRunId(c: Config, front: Trace, r: StepRecord)
    requires VerificationRules(c, |front| + 1, r)
    requires forall id :: id in RunIds(front) ==> IsRunIdOf(c, front, id)
    ensures r.verification.Some? ==> r.verification.value.receipt.runId !in RunIds(front)
    ensures r.verification.Some? ==> IsRunIdOf(c, front + [r], r.verification.value.receipt.runId)
    ensures forall id :: id in RunIds(front) ==> IsRunIdOf(c, front + [r], id)
  {
    forall id | id in RunIds(front)
      ensures IsRunIdOf(c, front + [r], id)
      ensures r.verification.Some? ==> id != r.verification.value.receipt.runId
    {
      RunIdPersists(c, front, r, id, r.verification.Some? && r.verification.value.final);
    }
    if r.verification.Some? {
      assert |front| + 1 <= |front + [r]|;
    }
  }

  // ----- success and the end of a run -----

  /** A step that ends the run in success is a finish whose verification passed. */
  ghost predicate SuccessRecord(r: StepRecord, step: nat, input: StepInput) {
    && r.executed && r.decision.Some? && r.decision.value.Finish? && r.verification.Some?
    && var run := r.verification.value;
       run.final && run.receipt.passed && run.receipt.kept && run.receipt.commands == input.outcomes
  }

  lemma StepSuccess(c: Config, s0: RunState, step: nat, input: StepInput)
    requires ValidCadence(c.cadence) && step >= 1
    ensures var r := Step(c, s0, step, input);
            r.end.Some? && r.end.value.success ==>
              r.record.Some? && SuccessRecord(r.record.value, step, input) && r.end.value.steps == step
    ensures var r := Step(c, s0, step, input);
            r.end.Some? ==> r.end.value.steps <= step
  {
  }

  ghost predicate EndsWell(p: Progress, n: nat, script: nat -> StepInput) {
    match p
    case Going(_, trace) => |trace| == n
    case Ended(_, trace, end) =>
      && end.steps <= n
      && (end.success ==>
            && trace != [] && end.steps == |trace|
            && SuccessRecord(Last(trace), |trace|, script(|trace|)))
  }

  lemma TurnEndsWell(c: Config, p: Progress, n: nat, script: nat -> StepInput)
    requires ValidCadence(c.cadence) && n >= 1 && EndsWell(p, n - 1, script)
    ensures EndsWell(Turn(c, p, n, script(n)), n, script)
  {
    if p.Going? && !script(n).expired {
      StepSuccess(c, p.state, n, script(n));
      if Step(c, p.state, n, script(n)).end.None? {
        StepMoves(c, p.state, n, script(n));
      }
    }
  }

  lemma {:induction false} EveryRunEndsWell(c: Config, initial: StateHash, script: nat -> StepInput, n: nat)
    requires ValidCadence(c.cadence)
    ensures EndsWell(ProgressAfter(c, initial, script, n), n, script)
  {
    if n > 0 {
      EveryRunEndsWell(c, initial, script, n - 1);
      TurnEndsWell(c, ProgressAfter(c, initial, script, n - 1), n, script);
    }
  }

  ghost predicate PassingCommandCovers(receipt: Receipt, criterion: string) {
    exists command :: command in receipt.commands && command.passed && CoversCriterion(command.criteria, criterion)
  }

  /** A passing receipt for all commands covers every acceptance criterion by a passing command. */
  lemma PassingReceiptCovers(c: Config, receipt: Receipt, criterion: string)
    requires CriteriaCovered(c) && criterion in c.acceptanceCriteria
    requires Answers(receipt.commands, c.commands) && AllPassed(receipt.commands)
    ensures PassingCommandCovers(receipt, criterion)
  {
    var command :| command in c.commands && CoversCriterion(command.criteria, criterion);
    var i :| 0 <= i < |c.commands| && c.commands[i] == command;
    assert receipt.commands[i] in receipt.commands;
  }

  /** Every run ends within the step budget, with at most one verification a step, distinct run
      identifiers and one artifact for each; and a run that succeeds ends in a finish whose receipt
      passed with the workspace unchanged, so that every acceptance criterion is covered by a
      passing command. */
  lemma EveryRun(c: Config, initial: StateHash, script: nat -> StepInput)
    requires ValidConfig(c) && forall step :: Answers(script(step).outcomes, c.commands)
    ensures var run := WholeRun(c, initial, script);
            && run.end.steps <= c.limits.maxSteps && |run.trace| <= c.limits.maxSteps
            && run.state.verifications == |run.state.artifacts| <= |run.trace|
            && Distinct(run.state.artifacts)
            && (run.end.success ==>
                  && run.trace != [] && run.end.steps == |run.trace|
                  && SuccessRecord(Last(run.trace), |run.trace|, script(|run.trace|))
                  && forall criterion :: criterion in c.acceptanceCriteria ==>
                       PassingCommandCovers(Last(run.trace).verification.value.receipt, criterion))
  {
    var p := ProgressAfter(c, initial, script, c.limits.maxSteps);
    EveryRunIsOrderly(c, initial, script, c.limits.maxSteps);
    EveryRunEndsWell(c, initial, script, c.limits.maxSteps);
    RunIdsDistinct(c, initial, p.trace);
    if p.Ended? && p.end.success {
      var last := |p.trace| - 1;
      assert StepRules(c, initial, p.trace[..last], p.trace[last]);
      forall criterion | criterion in c.acceptanceCriteria
        ensures PassingCommandCovers(Last(p.trace).verification.value.receipt, criterion)
      {
        PassingReceiptCovers(c, Last(p.trace).verification.value.receipt, criterion);
      }
    }
  }
}
