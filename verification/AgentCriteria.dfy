/**
 The status that a run reports for each acceptance criterion. Coverage strips the texts
 that commands list, the report does not.
 */
module AgentCriteria {
  import opened AgentState
  import opened Formats

  ghost predicate Listed(commands: seq<CommandOutcome>, criterion: string) {
    exists i :: 0 <= i < |commands| && criterion in commands[i].criteria
  }

  /** The last report of a criterion stands, whatever was reported before. */
  lemma {:induction false} LastReportStands(criteria: Criteria, items: seq<(string, bool)>, i: nat)
    requires i < |items| && forall j :: i < j < |items| ==> items[j].0 != items[i].0
    ensures var updated := UpdateCriteria(criteria, items);
            && items[i].0 in updated
            && updated[items[i].0] == (if items[i].1 then Passed else Failed)
  {
    if i < |items| - 1 {
      LastReportStands(criteria, items[..|items| - 1], i);
    }
  }

  lemma {:induction false} ReportedAsPassed(criteria: Criteria, items: seq<(string, bool)>, criterion: string)
    requires forall item :: item in items ==> item.1
    ensures var updated := UpdateCriteria(criteria, items);
            if (criterion, true) in items then criterion in updated && updated[criterion] == Passed
            else (criterion in updated <==> criterion in criteria) &&
                 (criterion in criteria ==> updated[criterion] == criteria[criterion])
  {
    if items != [] {
      var front, last := items[..|items| - 1], items[|items| - 1];
      assert items == front + [last];
      ReportedAsPassed(criteria, front, criterion);
    }
  }

  lemma {:induction false} ItemsOfPassing(commands: seq<CommandOutcome>, criterion: string)
    requires AllPassed(commands)
    ensures forall item :: item in CriteriaItems(commands) ==> item.1
    ensures (criterion, true) in CriteriaItems(commands) <==> Listed(commands, criterion)
  {
    if commands != [] {
      var front, last := commands[..|commands| - 1], commands[|commands| - 1];
      assert commands == front + [last];
      ItemsOfPassing(front, criterion);
      assert Listed(commands, criterion) <==> Listed(front, criterion) || criterion in last.criteria by {
        assert forall i :: 0 <= i < |front| ==> commands[i] == front[i];
        assert Listed(front, criterion) ==> Listed(commands, criterion);
      }
      assert (criterion, true) in ItemsOf(last) <==> criterion in last.criteria by {
        forall i | 0 <= i < |last.criteria| && last.criteria[i] == criterion
          ensures (criterion, true) in ItemsOf(last)
        {
          assert ItemsOf(last)[i] == (criterion, true);
        }
      }
    }
  }

  /** After a receipt in which all commands passed, a criterion not passed before is reported as
      passed exactly when some command lists it to the letter: coverage strips the listed texts, the
      report does not. */
  lemma ReportedPassedIff(criteria: Criteria, commands: seq<CommandOutcome>, criterion: string)
    requires AllPassed(commands) && criterion in criteria && criteria[criterion] != Passed
    ensures var updated := UpdateCriteria(criteria, CriteriaItems(commands));
            criterion in updated && (updated[criterion] == Passed <==> Listed(commands, criterion))
  {
    ItemsOfPassing(commands, criterion);
    ReportedAsPassed(criteria, CriteriaItems(commands), criterion);
  }

  /** A criterion that is covered by a passing command and still reported as not run. */
  lemma CoveredYetNotRun()
    ensures var commands := [CommandOutcome("check", [" works"], true)];
            var updated := UpdateCriteria(map["works" := NotRun], CriteriaItems(commands));
            CoversCriterion(commands[0].criteria, "works") && "works" in updated && updated["works"] == NotRun
  {
    var commands := [CommandOutcome("check", [" works"], true)];
    assert Strip(" works") == "works" by {
      assert " works"[1..] == "works";
    }
    assert " works" in commands[0].criteria;
    ReportedPassedIff(map["works" := NotRun], commands, "works");
    ItemsOfPassing(commands, "works");
    ReportedAsPassed(map["works" := NotRun], CriteriaItems(commands), "works");
  }

  // ----- which command decides -----

  lemma {:induction false} UpdateConcat(criteria: Criteria, a: seq<(string, bool)>, b: seq<(string, bool)>)
    ensures UpdateCriteria(criteria, a + b) == UpdateCriteria(UpdateCriteria(criteria, a), b)
  {
    if b == [] {
      assert a + b == a;
    } else {
      assert (a + b)[..|a + b| - 1] == a + b[..|b| - 1];
      UpdateConcat(criteria, a, b[..|b| - 1]);
    }
  }

  lemma {:induction false} UniformReport(criteria: Criteria, items: seq<(string, bool)>, passed: bool,
                                          criterion: string)
    requires (forall item :: item in items ==> item.1 == passed) && (criterion, passed) in items
    ensures var updated := UpdateCriteria(criteria, items);
            criterion in updated && updated[criterion] == if passed then Passed else Failed
  {
    var front, last := items[..|items| - 1], items[|items| - 1];
    assert items == front + [last];
    if last.0 != criterion {
      UniformReport(criteria, front, passed, criterion);
    }
  }

  /** After a receipt the status of a criterion is the outcome of the last command that lists it. */
  lemma {:induction false} LastCommandDecides(criteria: Criteria, commands: seq<CommandOutcome>, i: nat,
                                              criterion: string)
    requires i < |commands| && criterion in commands[i].criteria
    requires forall j :: i < j < |commands| ==> criterion !in commands[j].criteria
    ensures var updated := UpdateCriteria(criteria, CriteriaItems(commands));
            criterion in updated && updated[criterion] == if commands[i].passed then Passed else Failed
  {
    var front, last := commands[..|commands| - 1], commands[|commands| - 1];
    var before := UpdateCriteria(criteria, CriteriaItems(front));
    UpdateConcat(criteria, CriteriaItems(front), ItemsOf(last));
    if i < |front| {
      LastCommandDecides(criteria, front, i, criterion);
      UnreportedUnchanged(before, ItemsOf(last), criterion);
    } else {
      var k :| 0 <= k < |last.criteria| && last.criteria[k] == criterion;
      assert ItemsOf(last)[k] == (criterion, last.passed);
      UniformReport(before, ItemsOf(last), last.passed, criterion);
    }
  }

  // ----- over a whole run -----

  lemma {:induction false} UnreportedUnchanged(criteria: Criteria, items: seq<(string, bool)>, criterion: string)
    requires criterion in criteria
    ensures criterion in UpdateCriteria(criteria, items)
    ensures (forall item :: item in items ==> item.0 != criterion) ==>
              UpdateCriteria(criteria, items)[criterion] == criteria[criterion]
  {
    if items != [] {
      var front, last := items[..|items| - 1], items[|items| - 1];
      assert items == front + [last];
      UnreportedUnchanged(criteria, front, criterion);
    }
  }

  lemma {:induction false} ItemsAreListed(commands: seq<CommandOutcome>, criterion: string)
    requires !Listed(commands, criterion)
    ensures forall item :: item in CriteriaItems(commands) ==> item.0 != criterion
  {
    if commands != [] {
      var front, last := commands[..|commands| - 1], commands[|commands| - 1];
      assert forall i :: 0 <= i < |front| ==> commands[i] == front[i];
      assert criterion !in last.criteria;
      ItemsAreListed(front, criterion);
    }
  }

  /** Some command of the task lists the criterion to the letter. */
  ghost predicate ListedToTheLetter(c: Config, criterion: string) {
    exists i :: 0 <= i < |c.commands| && criterion in c.commands[i].criteria
  }

  lemma AnswersList(c: Config, outcomes: seq<CommandOutcome>, criterion: string)
    requires Answers(outcomes, c.commands)
    ensures Listed(outcomes, criterion) <==> ListedToTheLetter(c, criterion)
  {
    if i :| 0 <= i < |c.commands| && criterion in c.commands[i].criteria {
      assert criterion in outcomes[i].criteria;
    }
  }

  /** A step leaves the statuses alone or takes in the outcomes of one verification; a step that ends
      the run in success takes in outcomes that all passed. */
  ghost predicate CriteriaMove(s: RunState, r: StepResult, outcomes: seq<CommandOutcome>) {
    var updated := UpdateCriteria(s.criteria, CriteriaItems(outcomes));
    && (r.state.criteria == s.criteria || r.state.criteria == updated)
    && (r.end.Some? && r.end.value.success ==> r.state.criteria == updated && AllPassed(outcomes))
  }

  lemma ToolCriteria(c: Config, s: RunState, step: nat, d: Decision, input: StepInput)
    requires d.Tool?
    ensures CriteriaMove(s, ToolStep(c, s, step, d, input), input.outcomes)
  {
  }

  lemma FinishCriteria(c: Config, s: RunState, step: nat, d: Decision, input: StepInput)
    requires d.Finish?
    ensures CriteriaMove(s, FinishStep(c, s, step, d, input), input.outcomes)
  {
  }

  lemma DecidedCriteria(c: Config, s0: RunState, step: nat, input: StepInput)
    requires ValidCadence(c.cadence) && step >= 1 && input.response.Decided?
    ensures CriteriaMove(s0, Step(c, s0, step, input), input.outcomes)
  {
    var d := input.response.decision;
    var observed := ObserveDecision(Compacted(c, s0, step, input.oversized), d);
    assert observed.criteria == s0.criteria;
    if observed.repeated < c.cadence.stagnationLimit {
      if d.Finish? {
        FinishCriteria(c, observed, step, d, input);
        assert Step(c, s0, step, input) == FinishStep(c, observed, step, d, input);
      } else {
        ToolCriteria(c, observed, step, d, input);
        assert Step(c, s0, step, input) == ToolStep(c, observed, step, d, input);
      }
    }
  }

  lemma StepCriteria(c: Config, s0: RunState, step: nat, input: StepInput)
    requires ValidCadence(c.cadence) && step >= 1
    ensures CriteriaMove(s0, Step(c, s0, step, input), input.outcomes)
  {
    if input.response.Decided? {
      DecidedCriteria(c, s0, step, input);
    } else {
      assert Step(c, s0, step, input).state.criteria == s0.criteria;
    }
  }

  /** The criterion is reported throughout, never as run if no command lists it to the letter, and
      at a successful end as passed exactly if one does. */
  ghost predicate StatusHolds(c: Config, p: Progress, criterion: string) {
    && criterion in p.state.criteria
    && (!ListedToTheLetter(c, criterion) ==> p.state.criteria[criterion] == NotRun)
    && (p.Ended? && p.end.success ==>
          (p.state.criteria[criterion] == Passed <==> ListedToTheLetter(c, criterion)))
  }

  lemma UpdateHolds(c: Config, criteria: Criteria, outcomes: seq<CommandOutcome>, criterion: string)
    requires Answers(outcomes, c.commands) && criterion in criteria
    requires !ListedToTheLetter(c, criterion) ==> criteria[criterion] == NotRun
    ensures var updated := UpdateCriteria(criteria, CriteriaItems(outcomes));
            && criterion in updated
            && (!ListedToTheLetter(c, criterion) ==> updated[criterion] == NotRun)
            && (AllPassed(outcomes) ==> (updated[criterion] == Passed <==> ListedToTheLetter(c, criterion)))
  {
    AnswersList(c, outcomes, criterion);
    UnreportedUnchanged(criteria, CriteriaItems(outcomes), criterion);
    if !ListedToTheLetter(c, criterion) {
      ItemsAreListed(outcomes, criterion);
    } else if AllPassed(outcomes) {
      ItemsOfPassing(outcomes, criterion);
      ReportedAsPassed(criteria, CriteriaItems(outcomes), criterion);
    }
  }

  lemma TurnHolds(c: Config, p: Progress, n: nat, input: StepInput, criterion: string)
    requires ValidCadence(c.cadence) && n >= 1 && Answers(input.outcomes, c.commands)
    requires StatusHolds(c, p, criterion)
    ensures StatusHolds(c, Turn(c, p, n, input), criterion)
  {
    if p.Going? && !input.expired {
      StepCriteria(c, p.state, n, input);
      UpdateHolds(c, p.state.criteria, input.outcomes, criterion);
    }
  }

  lemma {:induction false} EveryRunHolds(c: Config, initial: StateHash, script: nat -> StepInput, n: nat,
                                         criterion: string)
    requires ValidCadence(c.cadence) && criterion in c.acceptanceCriteria
    requires forall step :: Answers(script(step).outcomes, c.commands)
    ensures StatusHolds(c, ProgressAfter(c, initial, script, n), criterion)
  {
    if n > 0 {
      EveryRunHolds(c, initial, script, n - 1, criterion);
      TurnHolds(c, ProgressAfter(c, initial, script, n - 1), n, script(n), criterion);
    }
  }

  /** Every run that succeeds reports an acceptance criterion as passed at its end exactly when some
      command lists it to the letter, and otherwise as not run, although a passing command covers it. */
  lemma SuccessShowsPassedIff(c: Config, initial: StateHash, script: nat -> StepInput, criterion: string)
    requires ValidCadence(c.cadence) && criterion in c.acceptanceCriteria
    requires forall step :: Answers(script(step).outcomes, c.commands)
    ensures var run := WholeRun(c, initial, script);
            run.end.success ==>
              && criterion in run.state.criteria
              && run.state.criteria[criterion] == if ListedToTheLetter(c, criterion) then Passed else NotRun
  {
    EveryRunHolds(c, initial, script, c.limits.maxSteps, criterion);
  }
}
