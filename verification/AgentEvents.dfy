/**
 What a run writes into its history: for every recorded step exactly the events that its decision
 and the answers of the tool and the verifier call for. Also what it takes two decisions for equal.
 */
module AgentEvents {
  import opened Options
  import opened Formats
  import opened Compaction
  import opened AgentState
  import opened AgentTrace
  import opened AgentEndings

  // ----- the events of a step -----

  /** An event that only reports an error. */
  predicate Complains(e: Event, error: string) {
    e.tool.None? && e.path.None? && !e.mutated && e.error == Some(error) && e.verification.None?
  }

  /** A tool is noted with whether the workspace changed, and with the path it reported or what went wrong. */
  predicate NotesTool(e: Event, tool: string, input: StepInput) {
    && e.tool == Some(tool) && e.verification.None? && (e.mutated <==> input.before != input.after)
    && match input.tool
       case ToolRaised(error) => e.error == Some(error) && e.path.None?
       case ToolOk(mutated, path) =>
         if mutated == e.mutated then e.error.None? && e.path == path
         else e.path.None? && e.error == Some("tool mutation report does not match workspace state transition")
  }

  predicate NotesReceipt(e: Event, receipt: Receipt) {
    && e.tool.None? && e.path.None? && !e.mutated && e.error.None?
    && e.verification == Some(VerificationFacts(receipt.passed, receipt.runId, CriteriaItems(receipt.commands)))
  }

  /** The identifier of a verification run names the run, its kind and its step. */
  predicate IsRunId(c: Config, step: nat, final: bool, id: string) {
    id == c.runId + (if final then "-final-" else "-intermediate-") + Decimal(step)
  }

  /** The events of a record are those that its decision and the answers call for. */
  ghost predicate TellsEvents(c: Config, r: StepRecord, step: nat, input: StepInput) {
    && (r.verification.Some? ==>
          r.decision.Some? && IsRunId(c, step, r.decision.value.Finish?, r.verification.value.receipt.runId))
    && match r.decision
       case None => |r.events| == 1 && input.response.Malformed? && Complains(r.events[0], input.response.error)
       case Some(Finish(_)) =>
         if !r.executed then r.events == []
         else
           && |r.events| == 1
           && if r.verification.None? then Complains(r.events[0], RECHECK)
              else NotesReceipt(r.events[0], r.verification.value.receipt)
       case Some(Tool(tool, _, _)) =>
         if !r.executed then r.events == []
         else
           && |r.events| == (if r.verification.Some? then 2 else 1) && NotesTool(r.events[0], tool, input)
           && (r.verification.Some? ==> NotesReceipt(r.events[1], r.verification.value.receipt))
  }

  lemma RunIdReads(c: Config, step: nat, final: bool)
    ensures IsRunId(c, step, final, RunId(c, step, final))
  {
    if final {
      assert c.runId + "-final" + "-" == c.runId + "-final-";
    } else {
      assert c.runId + "-intermediate" + "-" == c.runId + "-intermediate-";
    }
  }

  lemma FinishTellsEvents(c: Config, s: RunState, step: nat, d: Decision, input: StepInput)
    requires d.Finish?
    ensures FinishStep(c, s, step, d, input).record.Some?
    ensures TellsEvents(c, FinishStep(c, s, step, d, input).record.value, step, input)
  {
    RunIdReads(c, step, true);
  }

  lemma AfterToolTellsEvents(c: Config, s: RunState, step: nat, d: Decision, input: StepInput, key: StateKey)
    requires d.Tool?
    ensures AfterTool(c, s, step, ToolRecord(d, input, key), input).record.Some?
    ensures TellsEvents(c, AfterTool(c, s, step, ToolRecord(d, input, key), input).record.value, step, input)
  {
    RunIdReads(c, step, false);
  }

  lemma ToolTellsEvents(c: Config, s: RunState, step: nat, d: Decision, input: StepInput)
    requires d.Tool?
    ensures ToolStep(c, s, step, d, input).record.Some?
    ensures TellsEvents(c, ToolStep(c, s, step, d, input).record.value, step, input)
  {
    var key := StateKey(input.after, s.criteria);
    var noted := NoteTool(s, step, ToolEvent(d.tool, input), key, ToolFails(input));
    AfterToolTellsEvents(c, noted, step, d, input, key);
  }

  lemma StepTellsEvents(c: Config, s0: RunState, step: nat, input: StepInput)
    requires ValidCadence(c.cadence) && step >= 1
    ensures Step(c, s0, step, input).record.Some? ==>
              TellsEvents(c, Step(c, s0, step, input).record.value, step, input)
  {
    if input.response.Decided? {
      var d := input.response.decision;
      var observed := ObserveDecision(Compacted(c, s0, step, input.oversized), d);
      if d.Finish? {
        FinishTellsEvents(c, observed, step, d, input);
      } else {
        ToolTellsEvents(c, observed, step, d, input);
      }
    }
  }

  ghost predicate AllTell(c: Config, script: nat -> StepInput, trace: Trace) {
    forall i :: 0 <= i < |trace| ==> TellsEvents(c, trace[i], i + 1, script(i + 1))
  }

  /** A run that is going on has one record for each of its steps. */
  ghost predicate Recording(c: Config, script: nat -> StepInput, p: Progress, n: nat) {
    AllTell(c, script, p.trace) && (p.Going? ==> |p.trace| == n)
  }

  lemma TurnTellsEvents(c: Config, script: nat -> StepInput, p: Progress, n: nat)
    requires ValidCadence(c.cadence) && n >= 1 && Recording(c, script, p, n - 1)
    ensures Recording(c, script, Turn(c, p, n, script(n)), n)
  {
    if p.Going? && !script(n).expired {
      StepTellsEvents(c, p.state, n, script(n));
      if Step(c, p.state, n, script(n)).end.None? {
        StepMoves(c, p.state, n, script(n));
      }
    }
  }

  /** Every step of every run appends exactly the events that its decision and the answers call for. */
  lemma {:induction false} EveryRunTellsEvents(c: Config, initial: StateHash, script: nat -> StepInput, n: nat)
    requires ValidCadence(c.cadence)
    ensures Recording(c, script, ProgressAfter(c, initial, script, n), n)
  {
    if n > 0 {
      EveryRunTellsEvents(c, initial, script, n - 1);
      TurnTellsEvents(c, script, ProgressAfter(c, initial, script, n - 1), n);
    }
  }

  // ----- equal decisions -----

  /** Two decisions count as the same if both finish, or both call the same tool with the same arguments. */
  predicate SameDecision(a: Decision, b: Decision) {
    match a
    case Finish(_) => b.Finish?
    case Tool(tool, arguments, _) => b.Tool? && b.tool == tool && b.arguments == arguments
  }

  /** The parsed decisions of a run, executed or not. */
  function Decisions(trace: Trace): seq<Decision> {
    if trace == [] then []
    else Decisions(Front(trace)) + if Last(trace).decision.Some? then [Last(trace).decision.value] else []
  }

  lemma {:induction false} DecisionsPrint(trace: Trace)
    ensures |Parsed(trace)| == |Decisions(trace)|
    ensures forall i :: 0 <= i < |Decisions(trace)| ==> Parsed(trace)[i] == PrintOf(Decisions(trace)[i])
  {
    if trace != [] {
      DecisionsPrint(Front(trace));
    }
  }

  lemma {:induction false} TailRunIff<T>(s: seq<T>, m: nat)
    requires 1 <= m
    ensures TailRun(s) >= m <==> m <= |s| && forall i :: |s| - m <= i < |s| ==> s[i] == s[|s| - 1]
  {
    if |s| <= 1 {
    } else {
      var front := s[..|s| - 1];
      if m > 1 {
        TailRunIff(front, m - 1);
      }
    }
  }

  /** The run stagnates exactly if as many parsed decisions as the limit says, up to the last, are the same. */
  lemma StagnatesIff(trace: Trace, limit: nat)
    requires limit >= 1
    ensures TailRun(Parsed(trace)) >= limit <==>
            && limit <= |Decisions(trace)|
            && forall i :: |Decisions(trace)| - limit <= i < |Decisions(trace)| ==>
                 SameDecision(Decisions(trace)[i], Decisions(trace)[|Decisions(trace)| - 1])
  {
    DecisionsPrint(trace);
    TailRunIff(Parsed(trace), limit);
  }
}
