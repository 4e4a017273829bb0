/**
 One run of a coding agent, step by step. The model provider, the tools, the clock and
 the verifier are oracles: each step is given whatever they answered.
 */
module AgentState {
  import opened Options
  import opened Formats
  import opened Compaction

  type StateHash = string

  datatype CommandSpec = CommandSpec(name: string, criteria: seq<string>)

  datatype Cadence = Cadence(
    compactionInterval: nat,
    keepRecent: nat,
    verificationInterval: nat,
    stagnationLimit: nat)

  datatype Limits = Limits(maxSteps: nat, maxProtocolErrors: nat, maxCompactions: nat)

  datatype Config = Config(
    cadence: Cadence,
    limits: Limits,
    runId: string,
    acceptanceCriteria: seq<string>,
    commands: seq<CommandSpec>)

  /** Cadence and limits as their constructors bound them. */
  predicate ValidCadence(c: Cadence) {
    && c.compactionInterval >= 1 && c.keepRecent >= 1
    && c.verificationInterval >= 1 && c.stagnationLimit >= 2
  }

  /** A command covers the criteria it lists, without the space around them. The criteria of a task
      are stripped already. */
  predicate CoversCriterion(listed: seq<string>, criterion: string) {
    exists text :: text in listed && Strip(text) == criterion
  }

  /** Every acceptance criterion is verified by some command. */
  predicate CriteriaCovered(c: Config) {
    forall criterion :: criterion in c.acceptanceCriteria ==>
      exists command :: command in c.commands && CoversCriterion(command.criteria, criterion)
  }

  predicate ValidConfig(c: Config) {
    ValidCadence(c.cadence) && c.limits.maxSteps >= 1 && c.commands != [] && CriteriaCovered(c)
  }

  datatype Decision = Tool(tool: string, arguments: int, reason: string) | Finish(summary: string)

  /** A digest of the decision's kind, and of tool and arguments if it has them; the reason and the
      summary are not part of it. */
  datatype Fingerprint = ToolPrint(tool: string, arguments: int) | FinishPrint

  function PrintOf(d: Decision): Fingerprint {
    match d
    case Tool(tool, arguments, _) => ToolPrint(tool, arguments)
    case Finish(_) => FinishPrint
  }

  datatype CriterionStatus = NotRun | Passed | Failed

  type Criteria = map<string, CriterionStatus>

  datatype StateKey = StateKey(state: StateHash, criteria: Criteria)

  datatype CommandOutcome = CommandOutcome(name: string, criteria: seq<string>, passed: bool)

  /** The constructor ties `passed` to the other fields. */
  datatype Receipt = Receipt(runId: string, passed: bool, kept: bool, commands: seq<CommandOutcome>)

  predicate AllPassed(commands: seq<CommandOutcome>) {
    forall i :: 0 <= i < |commands| ==> commands[i].passed
  }

  function ReceiptFor(runId: string, kept: bool, commands: seq<CommandOutcome>): Receipt {
    Receipt(runId, kept && AllPassed(commands), kept, commands)
  }

  datatype Response = TimedOut | ProviderFailed | Malformed(error: string) | Decided(decision: Decision)

  datatype ToolReport = ToolOk(mutated: bool, path: Option<string>) | ToolRaised(error: string)

  /** What the oracles answer in one step; answers that are not asked for are ignored. */
  datatype StepInput = StepInput(
    expired: bool,
    oversized: bool,
    before: StateHash,
    response: Response,
    tool: ToolReport,
    after: StateHash,
    kept: bool,
    outcomes: seq<CommandOutcome>,
    afterVerification: StateHash)

  /** The verifier reports one outcome for each command, in order, with its criteria. */
  predicate Answers(outcomes: seq<CommandOutcome>, commands: seq<CommandSpec>) {
    && |outcomes| == |commands|
    && forall i :: 0 <= i < |commands| ==>
         outcomes[i].name == commands[i].name && outcomes[i].criteria == commands[i].criteria
  }

  datatype Reason =
    | FinalVerificationPassed
    | StepBudgetExhausted
    | RuntimeBudgetExhausted
    | ProviderFailure
    | ProtocolErrorsExhausted
    | StagnationReached
    | ToolFailedAfterMutation
    | StateCycleReached
    | VerificationMutated

  datatype Termination = Termination(success: bool, reason: Reason, steps: nat)

  datatype RunState = RunState(
    events: seq<Event>,
    summary: Option<Summary>,
    compactions: nat,
    verifications: nat,
    artifacts: seq<string>,
    protocolErrors: nat,
    mutationsSinceVerify: nat,
    lastFailedState: Option<StateHash>,
    criteria: Criteria,
    visits: map<StateKey, nat>,
    cycleStreak: nat,
    lastFingerprint: Option<Fingerprint>,
    repeated: nat,
    finalSummary: Option<string>)

  datatype VerificationRun = VerificationRun(receipt: Receipt, final: bool, state: StateHash, key: StateKey)

  /** What one step did, for the record: the events it appended, the decision it parsed and whether
      it was executed, the key of a mutation, and the verification it ran. */
  datatype StepRecord = StepRecord(
    before: StateHash,
    events: seq<Event>,
    decision: Option<Decision>,
    executed: bool,
    mutationKey: Option<StateKey>,
    verification: Option<VerificationRun>)

  datatype StepResult = StepResult(state: RunState, end: Option<Termination>, record: Option<StepRecord>)

  // ----- the pieces of a step -----

  function StartState(c: Config, initial: StateHash): RunState {
    var criteria := map criterion | criterion in c.acceptanceCriteria :: NotRun;
    RunState([], None, 0, 0, [], 0, 0, None, criteria, map[StateKey(initial, criteria) := 0], 0, None, 0, None)
  }

  predicate ShouldCompact(c: Config, s: RunState, step: nat, oversized: bool)
    requires ValidCadence(c.cadence)
  {
    && s.compactions < c.limits.maxCompactions
    && |s.events| > c.cadence.keepRecent
    && (step % c.cadence.compactionInterval == 0 || oversized)
  }

  function Compacted(c: Config, s: RunState, step: nat, oversized: bool): RunState
    requires ValidCadence(c.cadence)
  {
    if !ShouldCompact(c, s, step, oversized) then s
    else
      var cut := CutPoint(s.events, c.cadence.keepRecent);
      s.(summary := Some(Absorb(s.summary, s.events[..cut])), events := s.events[cut..],
         compactions := s.compactions + 1)
  }

  function ObserveDecision(s: RunState, d: Decision): RunState {
    if s.lastFingerprint == Some(PrintOf(d)) then s.(repeated := s.repeated + 1)
    else s.(repeated := 1, lastFingerprint := Some(PrintOf(d)))
  }

  const MISMATCH := "tool mutation report does not match workspace state transition"
  const RECHECK :=
    "Verification already failed on this unchanged workspace. " +
    "Inspect or modify the implementation before requesting verification again."

  /** The report of a tool must agree with what happened to the workspace. */
  function ToolEvent(tool: string, input: StepInput): Event {
    var changed := input.before != input.after;
    match input.tool
    case ToolOk(mutated, path) =>
      if mutated == changed then Event(Some(tool), path, mutated, None, None)
      else Event(Some(tool), None, changed, Some(MISMATCH), None)
    case ToolRaised(error) => Event(Some(tool), None, changed, Some(error), None)
  }

  predicate ToolFails(input: StepInput) {
    input.tool.ToolRaised? || input.tool.mutated != (input.before != input.after)
  }

  /** A mutation is looked up among the visited states: a new one starts the streak over. */
  function ObserveWorkspace(s: RunState, key: StateKey, step: nat): RunState {
    if key in s.visits then s.(cycleStreak := s.cycleStreak + 1)
    else s.(cycleStreak := 0, visits := s.visits[key := step])
  }

  function RunId(c: Config, step: nat, final: bool): string {
    c.runId + (if final then "-final" else "-intermediate") + "-" + Decimal(step)
  }

  /** The criteria reported by a receipt, command by command. */
  function CriteriaItems(commands: seq<CommandOutcome>): seq<(string, bool)> {
    if commands == [] then []
    else CriteriaItems(commands[..|commands| - 1]) + ItemsOf(commands[|commands| - 1])
  }

  function ItemsOf(command: CommandOutcome): seq<(string, bool)> {
    seq(|command.criteria|, i requires 0 <= i < |command.criteria| => (command.criteria[i], command.passed))
  }

  function UpdateCriteria(criteria: Criteria, items: seq<(string, bool)>): Criteria {
    if items == [] then criteria
    else
      var (criterion, passed) := items[|items| - 1];
      UpdateCriteria(criteria, items[..|items| - 1])[criterion := if passed then Passed else Failed]
  }

  function Remember(visits: map<StateKey, nat>, key: StateKey, step: nat): map<StateKey, nat> {
    if key in visits then visits else visits[key := step]
  }

  /** Run the verifier and take in its receipt; `state` is the workspace it is remembered under. */
  function Verified(s: RunState, receipt: Receipt, state: StateHash, step: nat): RunState {
    var items := CriteriaItems(receipt.commands);
    var criteria := UpdateCriteria(s.criteria, items);
    s.(verifications := s.verifications + 1,
       artifacts := s.artifacts + [receipt.runId],
       criteria := criteria,
       visits := Remember(s.visits, StateKey(state, criteria), step),
       events := s.events + [VerificationEvent(receipt)])
  }

  function VerificationEvent(receipt: Receipt): Event {
    Event(None, None, false, None,
          Some(VerificationFacts(receipt.passed, receipt.runId, CriteriaItems(receipt.commands))))
  }

  function RejectionEvent(): Event {
    Event(None, None, false, Some(RECHECK), None)
  }

  function VerificationOf(s: RunState, receipt: Receipt, final: bool, state: StateHash): VerificationRun {
    VerificationRun(receipt, final, state, StateKey(state, UpdateCriteria(s.criteria, CriteriaItems(receipt.commands))))
  }

  // ----- the transitions -----

  function FinishStep(c: Config, s0: RunState, step: nat, d: Decision, input: StepInput): StepResult
    requires d.Finish?
  {
    var s := s0.(finalSummary := Some(d.summary));
    if s.lastFailedState == Some(input.before) then
      StepResult(s.(events := s.events + [RejectionEvent()]), None,
                 Some(StepRecord(input.before, [RejectionEvent()], Some(d), true, None, None)))
    else
      var receipt := ReceiptFor(RunId(c, step, true), input.kept, input.outcomes);
      var next := Verified(s, receipt, input.afterVerification, step);
      var record := StepRecord(input.before, [VerificationEvent(receipt)], Some(d), true, None,
                               Some(VerificationOf(s, receipt, true, input.afterVerification)));
      if !receipt.kept then StepResult(next, Some(Termination(false, VerificationMutated, step)), Some(record))
      else if receipt.passed then StepResult(next, Some(Termination(true, FinalVerificationPassed, step)), Some(record))
      else
        StepResult(next.(lastFailedState := Some(input.afterVerification), mutationsSinceVerify := 0), None,
                   Some(record))
  }

  /** The tool has run: note its event and, for a mutation, count it and look up the state. */
  function NoteTool(s: RunState, step: nat, event: Event, key: StateKey, failed: bool): RunState {
    var noted := s.(events := s.events + [event]);
    if failed || !event.mutated then noted
    else ObserveWorkspace(noted.(mutationsSinceVerify := s.mutationsSinceVerify + 1), key, step)
  }

  function AfterTool(c: Config, s: RunState, step: nat, record: StepRecord, input: StepInput): StepResult {
    if record.mutationKey.None? || s.mutationsSinceVerify < c.cadence.verificationInterval then
      StepResult(s, None, Some(record))
    else
      var receipt := ReceiptFor(RunId(c, step, false), input.kept, input.outcomes);
      var next := Verified(s.(mutationsSinceVerify := 0), receipt, input.after, step);
      var verified := record.(events := record.events + [VerificationEvent(receipt)],
                              verification := Some(VerificationOf(s, receipt, false, input.after)));
      if !receipt.kept then StepResult(next, Some(Termination(false, VerificationMutated, step)), Some(verified))
      else
        StepResult(next.(lastFailedState := if receipt.passed then None else Some(input.after)), None, Some(verified))
  }

  function ToolStep(c: Config, s: RunState, step: nat, d: Decision, input: StepInput): StepResult
    requires d.Tool?
  {
    var event, failed := ToolEvent(d.tool, input), ToolFails(input);
    var key := StateKey(input.after, s.criteria);
    var next := NoteTool(s, step, event, key, failed);
    var record := StepRecord(input.before, [event], Some(d), true,
                             if event.mutated && !failed then Some(key) else None, None);
    if failed && event.mutated then
      StepResult(next, Some(Termination(false, ToolFailedAfterMutation, step)), Some(record))
    else if event.mutated && key in s.visits && next.cycleStreak >= c.cadence.stagnationLimit then
      StepResult(next, Some(Termination(false, StateCycleReached, step)), Some(record))
    else AfterTool(c, next, step, record, input)
  }

  /** One step of the loop, after the deadline check at its top. */
  function Step(c: Config, s0: RunState, step: nat, input: StepInput): StepResult
    requires ValidCadence(c.cadence) && step >= 1
  {
    var s := Compacted(c, s0, step, input.oversized);
    match input.response
    case TimedOut => StepResult(s, Some(Termination(false, RuntimeBudgetExhausted, step - 1)), None)
    case ProviderFailed => StepResult(s, Some(Termination(false, ProviderFailure, step - 1)), None)
    case Malformed(error) =>
      var event := Event(None, None, false, Some(error), None);
      var next := s.(protocolErrors := s.protocolErrors + 1, events := s.events + [event]);
      StepResult(next,
                 if next.protocolErrors > c.limits.maxProtocolErrors
                 then Some(Termination(false, ProtocolErrorsExhausted, step)) else None,
                 Some(StepRecord(input.before, [event], None, false, None, None)))
    case Decided(d) =>
      var next := ObserveDecision(s, d);
      if next.repeated >= c.cadence.stagnationLimit then
        StepResult(next, Some(Termination(false, StagnationReached, step)),
                   Some(StepRecord(input.before, [], Some(d), false, None, None)))
      else if d.Finish? then FinishStep(c, next, step, d, input)
      else ToolStep(c, next, step, d, input)
  }

  // ----- the run -----

  datatype Progress =
    | Going(state: RunState, trace: seq<StepRecord>)
    | Ended(state: RunState, trace: seq<StepRecord>, end: Termination)

  function Recorded(trace: seq<StepRecord>, record: Option<StepRecord>): seq<StepRecord> {
    match record
    case None => trace
    case Some(r) => trace + [r]
  }

  /** One turn of the loop: the deadline check, then the step. */
  function Turn(c: Config, p: Progress, n: nat, input: StepInput): Progress
    requires ValidCadence(c.cadence) && n >= 1
  {
    match p
    case Ended(_, _, _) => p
    case Going(s, trace) =>
      if input.expired then Ended(s, trace, Termination(false, RuntimeBudgetExhausted, n - 1))
      else
        var r := Step(c, s, n, input);
        match r.end
        case None => Going(r.state, Recorded(trace, r.record))
        case Some(end) => Ended(r.state, Recorded(trace, r.record), end)
  }

  /** The run after `n` turns of the loop. */
  function ProgressAfter(c: Config, initial: StateHash, script: nat -> StepInput, n: nat): Progress
    requires ValidCadence(c.cadence)
  {
    if n == 0 then Going(StartState(c, initial), [])
    else Turn(c, ProgressAfter(c, initial, script, n - 1), n, script(n))
  }

  /** The whole run: it ends by itself or when the step budget is used up. */
  function WholeRun(c: Config, initial: StateHash, script: nat -> StepInput): (r: Progress)
    requires ValidCadence(c.cadence)
    ensures r.Ended?
  {
    match ProgressAfter(c, initial, script, c.limits.maxSteps)
    case Going(s, trace) => Ended(s, trace, Termination(false, StepBudgetExhausted, c.limits.maxSteps))
    case Ended(s, trace, end) => Ended(s, trace, end)
  }
}
