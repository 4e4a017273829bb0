/**
 What every agent run keeps, stated about the record of its steps: each counter of the
 run state is recomputed here from the steps themselves.
 */
module AgentTrace {
  import opened Options
  import opened Compaction
  import opened AgentState

  type Trace = seq<StepRecord>

  function Front(trace: Trace): Trace
    requires trace != []
  {
    trace[..|trace| - 1]
  }

  function Last(trace: Trace): StepRecord
    requires trace != []
  {
    trace[|trace| - 1]
  }

  // ----- recomputing the counters -----

  /** Mutations since the latest verification. */
  function Unverified(trace: Trace): nat {
    if trace == [] then 0
    else if Last(trace).verification.Some? then 0
    else Unverified(Front(trace)) + if Last(trace).mutationKey.Some? then 1 else 0
  }

  /** The workspace state on which the latest verification failed, unless it passed. */
  function LatestFailure(trace: Trace): Option<StateHash> {
    if trace == [] then None
    else
      match Last(trace).verification
      case None => LatestFailure(Front(trace))
      case Some(run) => if run.receipt.passed then None else Some(run.state)
  }

  /** Fingerprints of the decisions that were executed; malformed responses leave none. */
  function Prints(trace: Trace): seq<Fingerprint> {
    if trace == [] then []
    else
      Prints(Front(trace)) +
      if Last(trace).executed && Last(trace).decision.Some? then [PrintOf(Last(trace).decision.value)] else []
  }

  /** State and criteria keys seen at the start, after mutations and after verifications. */
  function KeysSeen(start: StateKey, trace: Trace): set<StateKey> {
    if trace == [] then {start}
    else
      var r := Last(trace);
      KeysSeen(start, Front(trace)) +
      (if r.mutationKey.Some? then {r.mutationKey.value} else {}) +
      (if r.verification.Some? then {r.verification.value.key} else {})
  }

  /** For each mutating step, whether it led back to a key seen before. */
  function Returns(start: StateKey, trace: Trace): seq<bool> {
    if trace == [] then []
    else
      Returns(start, Front(trace)) +
      match Last(trace).mutationKey {
        case None => []
        case Some(key) => [key in KeysSeen(start, Front(trace))]
      }
  }

  /** Outcome of each criterion according to the latest verification that reported it. */
  function StatusAfter(start: Criteria, trace: Trace): Criteria {
    if trace == [] then start
    else
      match Last(trace).verification
      case None => StatusAfter(start, Front(trace))
      case Some(run) => UpdateCriteria(StatusAfter(start, Front(trace)), CriteriaItems(run.receipt.commands))
  }

  /** Run identifiers of the verifications, in order. */
  function RunIds(trace: Trace): seq<string> {
    if trace == [] then []
    else
      RunIds(Front(trace)) +
      if Last(trace).verification.Some? then [Last(trace).verification.value.receipt.runId] else []
  }

  function History(trace: Trace): seq<Event> {
    if trace == [] then [] else History(Front(trace)) + Last(trace).events
  }

  /** Length of the longest constant stretch at the end. */
  function TailRun<T(==)>(s: seq<T>): nat {
    if |s| <= 1 then |s|
    else if s[|s| - 1] == s[|s| - 2] then TailRun(s[..|s| - 1]) + 1
    else 1
  }

  function TailTrue(s: seq<bool>): nat {
    if s == [] || !s[|s| - 1] then 0 else TailTrue(s[..|s| - 1]) + 1
  }

  // ----- what holds at the start of every step -----

  function Start(c: Config, initial: StateHash): StateKey {
    StateKey(initial, StartState(c, initial).criteria)
  }

  /** The run state is what the steps so far make it. */
  ghost predicate Tracks(c: Config, initial: StateHash, s: RunState, trace: Trace) {
    && s.mutationsSinceVerify == Unverified(trace)
    && s.lastFailedState == LatestFailure(trace)
    && s.lastFingerprint == LastPrint(Prints(trace))
    && s.repeated == TailRun(Prints(trace))
    && s.visits.Keys == KeysSeen(Start(c, initial), trace)
    && s.cycleStreak == TailTrue(Returns(Start(c, initial), trace))
    && s.criteria == StatusAfter(Start(c, initial).criteria, trace)
    && s.artifacts == RunIds(trace) && s.verifications == |s.artifacts|
    && Represents(Transcript(s.summary, s.events), History(trace))
  }

  /** The limits that keep the run going. */
  ghost predicate WithinLimits(c: Config, s: RunState) {
    && s.mutationsSinceVerify < c.cadence.verificationInterval
    && s.repeated < c.cadence.stagnationLimit
    && s.cycleStreak < c.cadence.stagnationLimit
  }

  lemma SnocTrace(trace: Trace, r: StepRecord)
    ensures trace + [r] != [] && Front(trace + [r]) == trace && Last(trace + [r]) == r
  {
  }

  /** Repeating a decision lengthens the tail; a different one starts it over. */
  lemma TailRunSnoc<T>(s: seq<T>, x: T)
    ensures TailRun(s + [x]) == if s != [] && s[|s| - 1] == x then TailRun(s) + 1 else 1
  {
    assert (s + [x])[..|s|] == s;
  }

  lemma TailTrueSnoc(s: seq<bool>, x: bool)
    ensures TailTrue(s + [x]) == if x then TailTrue(s) + 1 else 0
  {
    assert (s + [x])[..|s|] == s;
  }

  // ----- one continuing step -----

  function KeysOf(r: StepRecord): set<StateKey> {
    (if r.mutationKey.Some? then {r.mutationKey.value} else {}) +
    (if r.verification.Some? then {r.verification.value.key} else {})
  }

  ghost predicate CountersMove(s: RunState, next: RunState, r: StepRecord) {
    && next.mutationsSinceVerify ==
         (if r.verification.Some? then 0 else s.mutationsSinceVerify + if r.mutationKey.Some? then 1 else 0)
    && next.cycleStreak ==
         (match r.mutationKey
          case None => s.cycleStreak
          case Some(key) => if key in s.visits then s.cycleStreak + 1 else 0)
    && (if r.executed && r.decision.Some? then
          && next.lastFingerprint == Some(PrintOf(r.decision.value))
          && next.repeated == if s.lastFingerprint == next.lastFingerprint then s.repeated + 1 else 1
        else next.lastFingerprint == s.lastFingerprint && next.repeated == s.repeated)
  }

  ghost predicate MemoryMoves(s: RunState, next: RunState, r: StepRecord) {
    && next.visits.Keys == s.visits.Keys + KeysOf(r)
    && next.summary == s.summary && next.events == s.events + r.events
    && (match r.verification
        case None =>
          && next.lastFailedState == s.lastFailedState && next.criteria == s.criteria
          && next.artifacts == s.artifacts && next.verifications == s.verifications
        case Some(run) =>
          && next.lastFailedState == (if run.receipt.passed then None else Some(run.state))
          && next.criteria == UpdateCriteria(s.criteria, CriteriaItems(run.receipt.commands))
          && next.artifacts == s.artifacts + [run.receipt.runId] && next.verifications == s.verifications + 1)
  }

  lemma FinishMoves(c: Config, s: RunState, step: nat, d: Decision, input: StepInput)
    requires d.Finish? && FinishStep(c, ObserveDecision(s, d), step, d, input).end.None?
    ensures var r := FinishStep(c, ObserveDecision(s, d), step, d, input);
            r.record.Some? && CountersMove(s, r.state, r.record.value) && MemoryMoves(s, r.state, r.record.value)
  {
  }

  /** The record of a tool step before any verification. */
  function ToolRecord(d: Decision, input: StepInput, key: StateKey): StepRecord
    requires d.Tool?
  {
    var event := ToolEvent(d.tool, input);
    StepRecord(input.before, [event], Some(d), true,
               if event.mutated && !ToolFails(input) then Some(key) else None, None)
  }

  lemma NoteMoves(s: RunState, step: nat, d: Decision, input: StepInput, key: StateKey)
    requires d.Tool?
    ensures var next := NoteTool(ObserveDecision(s, d), step, ToolEvent(d.tool, input), key, ToolFails(input));
            CountersMove(s, next, ToolRecord(d, input, key)) && MemoryMoves(s, next, ToolRecord(d, input, key))
  {
  }

  lemma AfterToolMoves(c: Config, s: RunState, noted: RunState, step: nat, record: StepRecord, input: StepInput)
    requires CountersMove(s, noted, record) && MemoryMoves(s, noted, record) && record.verification.None?
    requires AfterTool(c, noted, step, record, input).end.None?
    ensures var r := AfterTool(c, noted, step, record, input);
            r.record.Some? && CountersMove(s, r.state, r.record.value) && MemoryMoves(s, r.state, r.record.value)
  {
  }

  lemma ToolMoves(c: Config, s: RunState, step: nat, d: Decision, input: StepInput)
    requires d.Tool? && ToolStep(c, ObserveDecision(s, d), step, d, input).end.None?
    ensures var r := ToolStep(c, ObserveDecision(s, d), step, d, input);
            r.record.Some? && CountersMove(s, r.state, r.record.value) && MemoryMoves(s, r.state, r.record.value)
  {
    var observed, key := ObserveDecision(s, d), StateKey(input.after, s.criteria);
    var noted := NoteTool(observed, step, ToolEvent(d.tool, input), key, ToolFails(input));
    NoteMoves(s, step, d, input, key);
    assert ToolStep(c, observed, step, d, input) == AfterTool(c, noted, step, ToolRecord(d, input, key), input);
    AfterToolMoves(c, s, noted, step, ToolRecord(d, input, key), input);
  }

  /** A step that does not end the run moves every counter as its record says. */
  lemma StepMoves(c: Config, s0: RunState, step: nat, input: StepInput)
    requires ValidCadence(c.cadence) && step >= 1 && Step(c, s0, step, input).end.None?
    ensures var s, r := Compacted(c, s0, step, input.oversized), Step(c, s0, step, input);
            r.record.Some? && CountersMove(s, r.state, r.record.value) && MemoryMoves(s, r.state, r.record.value)
  {
    var s := Compacted(c, s0, step, input.oversized);
    if input.response.Decided? {
      var d := input.response.decision;
      if d.Finish? {
        FinishMoves(c, s, step, d, input);
      } else {
        ToolMoves(c, s, step, d, input);
      }
    }
  }

  lemma CountersTrack(c: Config, initial: StateHash, s: RunState, next: RunState, trace: Trace, r: StepRecord)
    requires Tracks(c, initial, s, trace) && CountersMove(s, next, r)
    ensures next.mutationsSinceVerify == Unverified(trace + [r])
    ensures next.cycleStreak == TailTrue(Returns(Start(c, initial), trace + [r]))
  {
    SnocTrace(trace, r);
    if r.mutationKey.Some? {
      TailTrueSnoc(Returns(Start(c, initial), trace), r.mutationKey.value in KeysSeen(Start(c, initial), trace));
    } else {
      assert Returns(Start(c, initial), trace) + [] == Returns(Start(c, initial), trace);
    }
  }

  function PrintIn(r: StepRecord): Option<Fingerprint> {
    if r.executed && r.decision.Some? then Some(PrintOf(r.decision.value)) else None
  }

  lemma PrintsSnoc(trace: Trace, r: StepRecord)
    ensures Prints(trace + [r]) == if PrintIn(r).Some? then Prints(trace) + [PrintIn(r).value] else Prints(trace)
  {
    SnocTrace(trace, r);
    assert Prints(trace) + [] == Prints(trace);
  }

  function LastPrint(prints: seq<Fingerprint>): Option<Fingerprint> {
    if prints == [] then None else Some(prints[|prints| - 1])
  }

  lemma DecisionsTrack(s: RunState, next: RunState, trace: Trace, r: StepRecord)
    requires s.repeated == TailRun(Prints(trace)) && s.lastFingerprint == LastPrint(Prints(trace))
    requires CountersMove(s, next, r)
    ensures next.repeated == TailRun(Prints(trace + [r])) && next.lastFingerprint == LastPrint(Prints(trace + [r]))
  {
    PrintsSnoc(trace, r);
    if PrintIn(r).Some? {
      TailRunSnoc(Prints(trace), PrintIn(r).value);
    }
  }

  lemma MemoryTracks(c: Config, initial: StateHash, s: RunState, next: RunState, trace: Trace, r: StepRecord)
    requires Tracks(c, initial, s, trace) && MemoryMoves(s, next, r)
    ensures next.lastFailedState == LatestFailure(trace + [r])
    ensures next.visits.Keys == KeysSeen(Start(c, initial), trace + [r])
    ensures next.criteria == StatusAfter(Start(c, initial).criteria, trace + [r])
    ensures next.artifacts == RunIds(trace + [r]) && next.verifications == |next.artifacts|
    ensures Represents(Transcript(next.summary, next.events), History(trace + [r]))
  {
    SnocTrace(trace, r);
    assert RunIds(trace) + [] == RunIds(trace);
    EventsRepresent(Transcript(s.summary, s.events), History(trace), r.events);
  }

  lemma EventsRepresent(t: Transcript, history: seq<Event>, more: seq<Event>)
    requires Represents(t, history)
    ensures Represents(t.(events := t.events + more), history + more)
  {
    var dropped := |history| - |t.events|;
    assert (history + more)[dropped..] == t.events + more;
    assert (history + more)[..dropped] == history[..dropped];
  }

  /** Compaction changes nothing that the trace says. */
  lemma CompactedTracks(c: Config, initial: StateHash, s: RunState, trace: Trace, step: nat, oversized: bool)
    requires ValidCadence(c.cadence) && Tracks(c, initial, s, trace)
    ensures Tracks(c, initial, Compacted(c, s, step, oversized), trace)
  {
    CompactRepresents(Transcript(s.summary, s.events), History(trace), c.cadence.keepRecent);
  }

  lemma StepTracks(c: Config, initial: StateHash, s0: RunState, trace: Trace, step: nat, input: StepInput)
    requires ValidCadence(c.cadence) && step >= 1
    requires Tracks(c, initial, s0, trace) && Step(c, s0, step, input).end.None?
    ensures Step(c, s0, step, input).record.Some?
    ensures Tracks(c, initial, Step(c, s0, step, input).state, trace + [Step(c, s0, step, input).record.value])
  {
    var s, r := Compacted(c, s0, step, input.oversized), Step(c, s0, step, input);
    CompactedTracks(c, initial, s0, trace, step, input.oversized);
    StepMoves(c, s0, step, input);
    CountersTrack(c, initial, s, r.state, trace, r.record.value);
    DecisionsTrack(s, r.state, trace, r.record.value);
    MemoryTracks(c, initial, s, r.state, trace, r.record.value);
  }

  lemma AfterToolKeepsLimits(c: Config, noted: RunState, step: nat, record: StepRecord, input: StepInput)
    requires ValidCadence(c.cadence) && AfterTool(c, noted, step, record, input).end.None?
    requires noted.repeated < c.cadence.stagnationLimit && noted.cycleStreak < c.cadence.stagnationLimit
    requires record.mutationKey.None? ==> noted.mutationsSinceVerify < c.cadence.verificationInterval
    ensures WithinLimits(c, AfterTool(c, noted, step, record, input).state)
  {
  }

  lemma ToolKeepsLimits(c: Config, s: RunState, step: nat, d: Decision, input: StepInput)
    requires ValidCadence(c.cadence) && WithinLimits(c, s)
    requires d.Tool? && ToolStep(c, s, step, d, input).end.None?
    ensures WithinLimits(c, ToolStep(c, s, step, d, input).state)
  {
    var key := StateKey(input.after, s.criteria);
    var noted := NoteTool(s, step, ToolEvent(d.tool, input), key, ToolFails(input));
    assert ToolStep(c, s, step, d, input) == AfterTool(c, noted, step, ToolRecord(d, input, key), input);
    AfterToolKeepsLimits(c, noted, step, ToolRecord(d, input, key), input);
  }

  lemma FinishKeepsLimits(c: Config, s: RunState, step: nat, d: Decision, input: StepInput)
    requires ValidCadence(c.cadence) && WithinLimits(c, s)
    requires d.Finish? && FinishStep(c, s, step, d, input).end.None?
    ensures WithinLimits(c, FinishStep(c, s, step, d, input).state)
  {
  }

  lemma StepKeepsLimits(c: Config, s0: RunState, step: nat, input: StepInput)
    requires ValidCadence(c.cadence) && step >= 1
    requires WithinLimits(c, s0) && Step(c, s0, step, input).end.None?
    ensures WithinLimits(c, Step(c, s0, step, input).state)
  {
    if input.response.Decided? {
      var d := input.response.decision;
      var s := ObserveDecision(Compacted(c, s0, step, input.oversized), d);
      if d.Finish? {
        FinishKeepsLimits(c, s, step, d, input);
      } else {
        ToolKeepsLimits(c, s, step, d, input);
      }
    }
  }

  lemma StartTracks(c: Config, initial: StateHash)
    requires ValidCadence(c.cadence)
    ensures Tracks(c, initial, StartState(c, initial), []) && WithinLimits(c, StartState(c, initial))
  {
    assert map[Start(c, initial) := 0].Keys == {Start(c, initial)};
  }

  /** A run that is still going: the counters agree with the steps so far and are within their
      limits, and there is one record for each step. */
  ghost predicate OnTrack(c: Config, initial: StateHash, p: Progress, n: nat) {
    p.Going? ==> Tracks(c, initial, p.state, p.trace) && WithinLimits(c, p.state) && |p.trace| == n
  }

  lemma TurnStaysOnTrack(c: Config, initial: StateHash, p: Progress, n: nat, input: StepInput)
    requires ValidCadence(c.cadence) && n >= 1 && OnTrack(c, initial, p, n - 1)
    ensures OnTrack(c, initial, Turn(c, p, n, input), n)
  {
    if Turn(c, p, n, input).Going? {
      StepTracks(c, initial, p.state, p.trace, n, input);
      StepKeepsLimits(c, p.state, n, input);
    }
  }
}
