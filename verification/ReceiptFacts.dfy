/**
 What each command fact says: its name, where it comes from and the value it reports,
 from the captured process to the clause that asks about it.
 */
module ReceiptFacts {
  import opened Options
  import opened Formats
  import opened EvidenceLogic
  import opened EvidenceEvaluation
  import opened VerificationReceipts
  import opened ReceiptObservations

  /** The text that stands for a failure category, or for there being none. */
  predicate IsCategory(text: string, failure: Option<FailureCategory>) {
    match failure
    case None => text == "none"
    case Some(LaunchError) => text == "launch_error"
    case Some(OutputLimit) => text == "output_limit"
    case Some(Timeout) => text == "timeout"
    case Some(ProcessLeak) => text == "process_leak"
    case Some(WorkspaceMutation) => text == "workspace_mutation"
    case Some(ExecutionError) => text == "execution_error"
    case Some(AssertionFailure) => text == "assertion_failure"
    case Some(CommandFailure) => text == "command_failure"
  }

  function FactTypeNamed(name: string): string {
    "verification.command." + name
  }

  /** The observation is about this run, under the name of the command and of the fact. */
  predicate Concerns(o: Observation, request: Request, result: ServiceResult, producer: string, i: nat,
                     name: string, suffix: string)
    requires i < |result.receipt.commands|
  {
    && o.selector == Selector(FactTypeNamed(name), "candidate_final", result.receipt.commands[i].name, producer)
    && o.id == result.receipt.runId + ".command-" + (Pad(Decimal(i), 4) + "." + suffix)
    && o.about == Subject(request.bundle.archive, result.receipt.runId, result.artifact.digest)
  }

  predicate ReportsCode(status: Status, code: Option<int>) {
    match code
    case None => status == Unavailable("command_not_started")
    case Some(n) => status == Observed(One(SInt(n)))
  }

  predicate ReportsCategory(status: Status, failure: Option<FailureCategory>) {
    status.Observed? && status.value.One? && status.value.scalar.SString? && IsCategory(status.value.scalar.s, failure)
  }

  lemma FactAtIndex(request: Request, result: ServiceResult, producer: string, i: nat, k: nat)
    requires i < |result.receipt.commands| && k < 5
    ensures 5 * i + k < |AllFacts(request, result, producer)|
    ensures AllFacts(request, result, producer)[5 * i + k] == Fact(request, result, producer, i, k)
  {
    assert 5 * i + k < |result.receipt.commands| * FACTS;
    assert (5 * i + k) / FACTS == i && (5 * i + k) % FACTS == k;
    FactAt(request, result, producer, |result.receipt.commands|, 5 * i + k);
  }

  lemma FactConcerns(request: Request, result: ServiceResult, producer: string, i: nat)
    requires i < |result.receipt.commands|
    ensures Concerns(Fact(request, result, producer, i, 0), request, result, producer, i, "passed", "passed")
    ensures Concerns(Fact(request, result, producer, i, 1), request, result, producer, i, "exit_code", "exit-code")
    ensures Concerns(Fact(request, result, producer, i, 2), request, result, producer, i, "timed_out", "timed-out")
    ensures Concerns(Fact(request, result, producer, i, 3), request, result, producer, i, "workspace_unchanged",
                     "workspace-unchanged")
    ensures Concerns(Fact(request, result, producer, i, 4), request, result, producer, i, "failure_category",
                     "failure-category")
  {
    FactTypes();
  }

  /** The five facts of the i-th command, in order and by name. */
  lemma FactsOfCommand(request: Request, result: ServiceResult, producer: string, i: nat)
    requires i < |result.receipt.commands|
    ensures var facts, command, at := AllFacts(request, result, producer), result.receipt.commands[i], 5 * i;
            && at + 4 < |facts|
            && Concerns(facts[at], request, result, producer, i, "passed", "passed")
            && facts[at].status == Observed(One(SBool(command.passed)))
            && Concerns(facts[at + 1], request, result, producer, i, "exit_code", "exit-code")
            && ReportsCode(facts[at + 1].status, command.exitCode)
            && Concerns(facts[at + 2], request, result, producer, i, "timed_out", "timed-out")
            && facts[at + 2].status == Observed(One(SBool(command.timedOut)))
            && Concerns(facts[at + 3], request, result, producer, i, "workspace_unchanged", "workspace-unchanged")
            && facts[at + 3].status == Observed(One(SBool(command.kept)))
            && Concerns(facts[at + 4], request, result, producer, i, "failure_category", "failure-category")
            && ReportsCategory(facts[at + 4].status, command.failure)
  {
    FactAtIndex(request, result, producer, i, 0);
    FactAtIndex(request, result, producer, i, 1);
    FactAtIndex(request, result, producer, i, 2);
    FactAtIndex(request, result, producer, i, 3);
    FactAtIndex(request, result, producer, i, 4);
    FactConcerns(request, result, producer, i);
  }

  lemma FactTypes()
    ensures FactType(0) == FactTypeNamed("passed") && FactType(1) == FactTypeNamed("exit_code")
    ensures FactType(2) == FactTypeNamed("timed_out")
    ensures FactType(3) == FactTypeNamed("workspace_unchanged")
    ensures FactType(4) == FactTypeNamed("failure_category")
  {
  }

  /** Some observation about the command has this type. */
  ghost predicate Has(observations: seq<Observation>, name: string, observationType: string) {
    exists o :: o in observations && o.selector.checkId == name && o.selector.observationType == observationType
  }

  /** Of accepted observations, each fact of each command is reported, and whatever is reported under its
      name is the value in the receipt. */
  lemma AcceptedFactsAreTrue(request: Request, result: ServiceResult, producer: string, observations: seq<Observation>,
                             i: nat, o: Observation)
    requires FactsMatch(request, result, producer, observations) && i < |result.receipt.commands|
    requires o in observations && o.selector.checkId == result.receipt.commands[i].name
    ensures var command, name := result.receipt.commands[i], o.selector.observationType;
            && o.about == Subject(request.bundle.archive, request.runId, result.artifact.digest)
            && (name == FactTypeNamed("passed") ==> o.status == Observed(One(SBool(command.passed))))
            && (name == FactTypeNamed("exit_code") ==>
                  match command.exitCode {
                    case None => o.status.Unavailable?
                    case Some(n) => o.status == Observed(One(SInt(n)))
                  })
            && (name == FactTypeNamed("timed_out") ==> o.status == Observed(One(SBool(command.timedOut))))
            && (name == FactTypeNamed("workspace_unchanged") ==> o.status == Observed(One(SBool(command.kept))))
            && (name == FactTypeNamed("failure_category") ==> ReportsCategory(o.status, command.failure))
  {
    FactTypes();
    forall k | 0 <= k < FACTS && o.selector.observationType == FactType(k)
      ensures ReceiptObservations.Reports(o.status, FactValue(result.receipt.commands[i], k))
    {
      OneKeyOneFact(request, result, producer, observations, i, k, o);
    }
  }

  lemma OneKeyOneFact(request: Request, result: ServiceResult, producer: string, observations: seq<Observation>, i: nat,
                      k: nat, o: Observation)
    requires FactsMatch(request, result, producer, observations) && i < |result.receipt.commands| && k < FACTS
    requires o in observations && KeyOf(o) == FactKey(result.receipt.commands[i].name, FactType(k))
    ensures ReceiptObservations.Reports(o.status, FactValue(result.receipt.commands[i], k))
  {
    assert Reported(observations, result.receipt.commands[i], k);
    var other :| other in observations && KeyOf(other) == KeyOf(o)
                 && ReceiptObservations.Reports(other.status, FactValue(result.receipt.commands[i], k));
    var x :| 0 <= x < |observations| && observations[x] == o;
    var y :| 0 <= y < |observations| && observations[y] == other;
    assert x == y;
  }

  lemma EveryFactIsReported(request: Request, result: ServiceResult, producer: string, observations: seq<Observation>,
                            i: nat)
    requires FactsMatch(request, result, producer, observations) && i < |result.receipt.commands|
    ensures var name := result.receipt.commands[i].name;
            && Has(observations, name, FactTypeNamed("passed"))
            && Has(observations, name, FactTypeNamed("exit_code"))
            && Has(observations, name, FactTypeNamed("timed_out"))
            && Has(observations, name, FactTypeNamed("workspace_unchanged"))
            && Has(observations, name, FactTypeNamed("failure_category"))
  {
    FactTypes();
    forall k | 0 <= k < FACTS
      ensures Has(observations, result.receipt.commands[i].name, FactType(k))
    {
      assert Reported(observations, result.receipt.commands[i], k);
    }
    assert FACTS == 5;
    assert Has(observations, result.receipt.commands[i].name, FactType(0));
    assert Has(observations, result.receipt.commands[i].name, FactType(1));
    assert Has(observations, result.receipt.commands[i].name, FactType(2));
    assert Has(observations, result.receipt.commands[i].name, FactType(3));
    assert Has(observations, result.receipt.commands[i].name, FactType(4));
  }

  /** From the process to the clause: asking whether a command passed is answered by how it ran. */
  lemma CleanRunSatisfiesItsClause(request: Request, baseline: StateHash, runs: seq<CommandRun>, final: StateHash,
                                   digest: string, producer: string, clause: Clause, i: nat)
    requires request.identity.Some? && baseline == request.bundle.treeHash && |runs| == |request.profile.commands|
    requires OnlyCommandsChange(baseline, runs, final) && NamesAreTokens(request) && NamesUnique(request)
    requires i < |runs| && clause.operator == Equals && clause.expected == One(SBool(true))
    requires clause.selector == Selector(FactTypeNamed("passed"), "candidate_final",
                                         request.profile.commands[i].name, producer)
    ensures var receipt := AssembleReceipt(request, baseline, ResultsOf(request.profile.commands, runs), final);
            var facts := AllFacts(request, AssembleResult(request, receipt, digest), producer);
            EvaluateClause(clause, facts).result == if RanClean(runs[i]) then Pass else Fail
  {
    var receipt := AssembleReceipt(request, baseline, ResultsOf(request.profile.commands, runs), final);
    var result := AssembleResult(request, receipt, digest);
    AssembledIsBoundIff(request, baseline, runs, final, digest);
    assert result.receipt.commands[i] == ExecuteCommand(request.profile.commands[i], runs[i]);
    FactTypes();
    FactIsJudged(request, result, producer, clause, i, 0);
  }
}
