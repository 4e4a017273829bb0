/**
 Command facts as evidence: the adapter turns a bound receipt into observations, the
 validator recognises them, and the evaluator can use every one of them.
 */
module ReceiptObservations {
  import opened Options
  import opened Collections
  import opened Formats
  import opened EvidenceExpression
  import opened EvidenceLogic
  import opened EvidenceEvaluation
  import opened EvidenceTruth
  import opened VerificationReceipts

  const STAGE := "candidate_final"
  const FACT_PREFIX := "verification.command."
  const FACTS: nat := 5
  const MAX_INTEGER: int := 0x7FFF_FFFF_FFFF_FFFF

  /** The five facts reported for each command, in order. */
  function FactType(k: nat): string
    requires k < FACTS
  {
    FACT_PREFIX + FactName(k)
  }

  function FactName(k: nat): string
    requires k < FACTS
  {
    ["passed", "exit_code", "timed_out", "workspace_unchanged", "failure_category"][k]
  }

  function FactSuffix(k: nat): string
    requires k < FACTS
  {
    ["passed", "exit-code", "timed-out", "workspace-unchanged", "failure-category"][k]
  }

  function CategoryName(failure: Option<FailureCategory>): string {
    match failure
    case None => "none"
    case Some(LaunchError) => "launch_error"
    case Some(OutputLimit) => "output_limit"
    case Some(Timeout) => "timeout"
    case Some(ProcessLeak) => "process_leak"
    case Some(WorkspaceMutation) => "workspace_mutation"
    case Some(ExecutionError) => "execution_error"
    case Some(AssertionFailure) => "assertion_failure"
    case Some(CommandFailure) => "command_failure"
  }

  /** The value of a fact; only an exit code may be missing. */
  function FactValue(command: CommandResult, k: nat): Option<Value>
    requires k < FACTS
  {
    if k == 0 then Some(One(SBool(command.passed)))
    else if k == 1 then
      match command.exitCode
      case None => None
      case Some(code) => Some(One(SInt(code)))
    else if k == 2 then Some(One(SBool(command.timedOut)))
    else if k == 3 then Some(One(SBool(command.kept)))
    else Some(One(SString(CategoryName(command.failure))))
  }

  function StatusFor(value: Option<Value>): Status {
    match value
    case None => Unavailable("command_not_started")
    case Some(v) => Observed(v)
  }

  function FactSelector(name: string, k: nat, producer: string): Selector
    requires k < FACTS
  {
    Selector(FactType(k), STAGE, name, producer)
  }

  function FactId(runId: string, index: nat, k: nat): string
    requires k < FACTS
  {
    runId + ".command-" + (Pad(Decimal(index), 4) + "." + FactSuffix(k))
  }

  function AboutOf(request: Request, result: ServiceResult): Subject {
    Subject(request.bundle.archive, result.receipt.runId, result.artifact.digest)
  }

  function Fact(request: Request, result: ServiceResult, producer: string, index: nat, k: nat): Observation
    requires index < |result.receipt.commands| && k < FACTS
  {
    var command := result.receipt.commands[index];
    Observation(FactId(result.receipt.runId, index, k), FactSelector(command.name, k, producer),
                StatusFor(FactValue(command, k)), AboutOf(request, result))
  }

  /** The five observations of one command. */
  function CommandObservations(request: Request, result: ServiceResult, producer: string, index: nat)
    : (r: seq<Observation>)
    requires index < |result.receipt.commands|
    ensures |r| == FACTS
  {
    seq(FACTS, k requires 0 <= k < FACTS => Fact(request, result, producer, index, k))
  }

  function FactsUpTo(request: Request, result: ServiceResult, producer: string, n: nat): (facts: seq<Observation>)
    requires n <= |result.receipt.commands|
    ensures |facts| == n * FACTS
  {
    if n == 0 then []
    else FactsUpTo(request, result, producer, n - 1) + CommandObservations(request, result, producer, n - 1)
  }

  /** All facts: five for each command, command by command. */
  function AllFacts(request: Request, result: ServiceResult, producer: string): (facts: seq<Observation>)
    ensures |facts| == |result.receipt.commands| * FACTS
  {
    FactsUpTo(request, result, producer, |result.receipt.commands|)
  }

  lemma {:induction false} FactAt(request: Request, result: ServiceResult, producer: string, n: nat, j: nat)
    requires n <= |result.receipt.commands| && j < n * FACTS
    ensures FactsUpTo(request, result, producer, n)[j] == Fact(request, result, producer, j / FACTS, j % FACTS)
  {
    if j < (n - 1) * FACTS {
      FactAt(request, result, producer, n - 1, j);
    } else {
      var k := j - (n - 1) * FACTS;
      assert j / FACTS == n - 1 && j % FACTS == k;
      assert FactsUpTo(request, result, producer, n)[j] == CommandObservations(request, result, producer, n - 1)[k];
    }
  }

  lemma FactAtPosition(request: Request, result: ServiceResult, producer: string, i: nat, k: nat)
    requires i < |result.receipt.commands| && k < FACTS
    ensures Fact(request, result, producer, i, k) in AllFacts(request, result, producer)
  {
    var j := i * FACTS + k;
    assert j / FACTS == i && j % FACTS == k;
    FactAt(request, result, producer, |result.receipt.commands|, j);
    assert AllFacts(request, result, producer)[j] in AllFacts(request, result, producer);
  }

  lemma {:induction false} FactsGrow(request: Request, result: ServiceResult, producer: string, m: nat, n: nat)
    requires m <= n <= |result.receipt.commands|
    ensures forall o :: o in FactsUpTo(request, result, producer, m) ==> o in FactsUpTo(request, result, producer, n)
  {
    if m < n {
      FactsGrow(request, result, producer, m, n - 1);
    }
  }

  // ----- identifiers and selectors never collide -----

  lemma LeadingDigitsSplit(a: string, b: string, x: string, y: string)
    requires a + "." + x == b + "." + y && AllDigits(a) && AllDigits(b)
    ensures a == b && x == y
  {
    var s, t := a + "." + x, b + "." + y;
    assert s[|a|] == '.' && t[|b|] == '.';
    assert forall i :: 0 <= i < |a| ==> s[i] == a[i];
    assert forall i :: 0 <= i < |b| ==> t[i] == b[i];
    assert |a| == |b|;
    assert a == s[..|a|] == t[..|b|] == b;
    assert x == s[|a| + 1..] == t[|b| + 1..] == y;
  }

  lemma SuffixesDiffer(j: nat, k: nat)
    requires j < FACTS && k < FACTS && FactSuffix(j) == FactSuffix(k)
    ensures j == k
  {
    assert |FactSuffix(j)| == |FactSuffix(k)|;
    assert FactSuffix(j)[0] == FactSuffix(k)[0];
  }

  lemma TypesDiffer(j: nat, k: nat)
    requires j < FACTS && k < FACTS && FactType(j) == FactType(k)
    ensures j == k
  {
    assert FactName(j) == FactType(j)[|FACT_PREFIX|..] == FactType(k)[|FACT_PREFIX|..] == FactName(k);
    assert |FactName(j)| == |FactName(k)| && FactName(j)[0] == FactName(k)[0];
  }

  lemma FactIdInjective(runId: string, i: nat, j: nat, i': nat, j': nat)
    requires j < FACTS && j' < FACTS && FactId(runId, i, j) == FactId(runId, i', j')
    ensures i == i' && j == j'
  {
    var prefix := runId + ".command-";
    var x, y := Pad(Decimal(i), 4) + "." + FactSuffix(j), Pad(Decimal(i'), 4) + "." + FactSuffix(j');
    assert x == (prefix + x)[|prefix|..] == (prefix + y)[|prefix|..] == y;
    LeadingDigitsSplit(Pad(Decimal(i), 4), Pad(Decimal(i'), 4), FactSuffix(j), FactSuffix(j'));
    PaddedInjective(i, i', 4);
    SuffixesDiffer(j, j');
  }

  ghost predicate NamesUnique(request: Request) {
    forall i, j :: 0 <= i < j < |request.profile.commands| ==>
      request.profile.commands[i].name != request.profile.commands[j].name
  }

  ghost predicate SelectorsDistinct(observations: seq<Observation>) {
    forall i, j :: 0 <= i < j < |observations| ==> observations[i].selector != observations[j].selector
  }

  /** The facts of a bound receipt have pairwise distinct identifiers and selectors. */
  lemma FactsDistinct(request: Request, result: ServiceResult, producer: string)
    requires Bound(request, result, false) && NamesUnique(request)
    ensures Distinct(ObservationIds(AllFacts(request, result, producer)))
    ensures SelectorsDistinct(AllFacts(request, result, producer))
  {
    var facts := AllFacts(request, result, producer);
    forall i, j | 0 <= i < j < |facts|
      ensures ObservationIds(facts)[i] != ObservationIds(facts)[j]
      ensures facts[i].selector != facts[j].selector
    {
      FactAt(request, result, producer, |result.receipt.commands|, i);
      FactAt(request, result, producer, |result.receipt.commands|, j);
      TwoFactsDiffer(request, result, producer, i, j);
    }
  }

  lemma TwoFactsDiffer(request: Request, result: ServiceResult, producer: string, i: nat, j: nat)
    requires Bound(request, result, false) && NamesUnique(request)
    requires i < j < |result.receipt.commands| * FACTS
    ensures var a := Fact(request, result, producer, i / FACTS, i % FACTS);
            var b := Fact(request, result, producer, j / FACTS, j % FACTS);
            a.id != b.id && a.selector != b.selector
  {
    var a := Fact(request, result, producer, i / FACTS, i % FACTS);
    var b := Fact(request, result, producer, j / FACTS, j % FACTS);
    if a.id == b.id {
      FactIdInjective(result.receipt.runId, i / FACTS, i % FACTS, j / FACTS, j % FACTS);
    }
    assert MatchesSpec(result.receipt.commands[i / FACTS], request.profile.commands[i / FACTS]);
    assert MatchesSpec(result.receipt.commands[j / FACTS], request.profile.commands[j / FACTS]);
    if a.selector == b.selector {
      TypesDiffer(i % FACTS, j % FACTS);
    }
  }

  // ----- the adapter -----

  predicate ValidValue(v: Value) {
    match v
    case One(SInt(n)) => -MAX_INTEGER <= n <= MAX_INTEGER
    case One(SString(s)) => |s| <= 4096 && forall i :: 0 <= i < |s| ==> s[i] != '\0'
    case One(SBool(_)) => true
    case Many(_) => true
  }

  predicate ValidLabels(o: Observation) {
    && ValidToken(o.id) && ValidToken(o.about.sourceRun)
    && ValidToken(o.selector.observationType) && ValidToken(o.selector.stage)
    && ValidToken(o.selector.checkId) && ValidToken(o.selector.producer)
  }

  /** What the constructor of an observation insists on. */
  predicate ValidObservation(o: Observation) {
    ValidLabels(o) && ValidStatus(o.status)
  }

  predicate ValidStatus(status: Status) {
    match status
    case Observed(v) => ValidValue(v)
    case Unavailable(reason) => ValidToken(reason)
    case Errored(reason) => ValidToken(reason)
  }

  predicate AllValid(observations: seq<Observation>) {
    forall o :: o in observations ==> ValidObservation(o)
  }

  /** Exactly five observations for each command of a bound receipt. */
  method Adapt(request: Request, result: ServiceResult, producer: string) returns (r: Option<seq<Observation>>)
    ensures r.Some? <==>
            Bound(request, result, false) && ValidToken(producer) && AllValid(AllFacts(request, result, producer))
    ensures r.Some? ==> r.value == AllFacts(request, result, producer)
  {
    var bound := ValidateBindings(request, result, false);
    if !bound || !ValidToken(producer) {
      return None;
    }
    var observations: seq<Observation> := [];
    for index := 0 to |result.receipt.commands|
      invariant observations == FactsUpTo(request, result, producer, index) && AllValid(observations)
    {
      var five := CommandObservations(request, result, producer, index);
      observations := observations + five;
      if !AllValid(five) {
        FactsGrow(request, result, producer, index + 1, |result.receipt.commands|);
        return None;
      }
    }
    r := Some(observations);
  }

  // ----- when adaptation succeeds -----

  predicate Alphanumeric(c: char) {
    'A' <= c <= 'Z' || 'a' <= c <= 'z' || '0' <= c <= '9'
  }

  /** The pattern of verification run identifiers. */
  predicate SafeRunId(s: string) {
    && 1 <= |s| <= 128 && Alphanumeric(s[0])
    && forall i :: 0 <= i < |s| ==> Alphanumeric(s[i]) || s[i] in "._-"
  }

  predicate Plain(s: string) {
    forall i :: 0 <= i < |s| ==> !IsSpace(s[i]) && s[i] >= ' '
  }

  lemma PlainConcat(a: string, b: string)
    requires Plain(a) && Plain(b)
    ensures Plain(a + b)
  {
  }

  lemma SuffixIsPlain(k: nat)
    requires k < FACTS
    ensures Plain(FactSuffix(k)) && |FactSuffix(k)| <= 19
  {
    if k == 0 {
      assert Plain("passed");
    } else if k == 1 {
      assert Plain("exit-code");
    } else if k == 2 {
      assert Plain("timed-out");
    } else if k == 3 {
      assert Plain("workspace-unchanged");
    } else {
      assert Plain("failure-category");
    }
  }

  lemma TypeNameIsPlain(k: nat)
    requires k < FACTS
    ensures Plain(FactName(k)) && |FactName(k)| <= 19
  {
    if k == 0 {
      assert Plain("passed");
    } else if k == 1 {
      assert Plain("exit_code");
    } else if k == 2 {
      assert Plain("timed_out");
    } else if k == 3 {
      assert Plain("workspace_unchanged");
    } else {
      assert Plain("failure_category");
    }
  }

  lemma TypeIsToken(k: nat)
    requires k < FACTS
    ensures ValidToken(FactType(k))
  {
    TypeNameIsPlain(k);
    assert Plain(FACT_PREFIX) && |FACT_PREFIX| == 21;
    PlainConcat(FACT_PREFIX, FactName(k));
  }

  lemma RunIdIsPlain(runId: string)
    requires SafeRunId(runId)
    ensures Plain(runId) && Plain(runId + ".command-") && |".command-"| == 9
  {
    assert Plain(".command-");
    PlainConcat(runId, ".command-");
  }

  lemma DigitsArePlain(s: string)
    requires AllDigits(s)
    ensures Plain(s) && Plain(s + ".")
  {
    assert Plain(".");
    PlainConcat(s, ".");
  }

  lemma NumberIsPlain(index: nat, suffix: string)
    requires index < Pow10(99) && Plain(suffix)
    ensures Plain(Pad(Decimal(index), 4) + "." + suffix) && |Pad(Decimal(index), 4)| <= 99
  {
    DecimalLength(index, 99);
    DigitsArePlain(Pad(Decimal(index), 4));
    PlainConcat(Pad(Decimal(index), 4) + ".", suffix);
  }

  /** The longest identifier just fits: 128 characters of run, 99 digits of index. */
  lemma FactIdIsToken(runId: string, index: nat, k: nat)
    requires SafeRunId(runId) && index < Pow10(99) && k < FACTS
    ensures ValidToken(FactId(runId, index, k))
  {
    SuffixIsPlain(k);
    RunIdIsPlain(runId);
    NumberIsPlain(index, FactSuffix(k));
    PlainConcat(runId + ".command-", Pad(Decimal(index), 4) + "." + FactSuffix(k));
  }

  predicate ExitCodeFits(command: CommandResult) {
    match command.exitCode
    case None => true
    case Some(code) => -MAX_INTEGER <= code <= MAX_INTEGER
  }

  lemma StatusIsValidIff(command: CommandResult, k: nat)
    requires k < FACTS
    ensures ValidStatus(StatusFor(FactValue(command, k))) <==> (k == 1 ==> ExitCodeFits(command))
  {
    assert ValidToken("command_not_started");
    CategoryNameIsPlain(command.failure);
  }

  lemma CategoryNameIsPlain(failure: Option<FailureCategory>)
    ensures Plain(CategoryName(failure)) && |CategoryName(failure)| <= 18
  {
    match failure
    case None => assert Plain("none");
    case Some(LaunchError) => assert Plain("launch_error");
    case Some(OutputLimit) => assert Plain("output_limit");
    case Some(Timeout) => assert Plain("timeout");
    case Some(ProcessLeak) => WorkspaceCategoryIsPlain(ProcessLeak);
    case Some(WorkspaceMutation) => WorkspaceCategoryIsPlain(WorkspaceMutation);
    case Some(diagnosis) => DiagnosisIsPlain(diagnosis);
  }

  lemma WorkspaceCategoryIsPlain(failure: FailureCategory)
    requires failure.ProcessLeak? || failure.WorkspaceMutation?
    ensures Plain(CategoryName(Some(failure))) && |CategoryName(Some(failure))| <= 18
  {
    match failure
    case ProcessLeak => assert Plain("process_leak");
    case WorkspaceMutation => assert Plain("workspace_mutation");
  }

  lemma DiagnosisIsPlain(failure: FailureCategory)
    requires failure.ExecutionError? || failure.AssertionFailure? || failure.CommandFailure?
    ensures Plain(CategoryName(Some(failure))) && |CategoryName(Some(failure))| <= 18
  {
    match failure
    case ExecutionError => assert Plain("execution_error");
    case AssertionFailure => assert Plain("assertion_failure");
    case CommandFailure => assert Plain("command_failure");
  }

  lemma SelectorIsValid(name: string, k: nat, producer: string)
    requires k < FACTS && ValidToken(name) && ValidToken(producer)
    ensures var s := FactSelector(name, k, producer);
            ValidToken(s.observationType) && ValidToken(s.stage) && ValidToken(s.checkId) && ValidToken(s.producer)
  {
    TypeIsToken(k);
    assert ValidToken("candidate_final");
  }

  lemma RunIdIsToken(runId: string)
    requires SafeRunId(runId)
    ensures ValidToken(runId)
  {
    RunIdIsPlain(runId);
  }

  lemma FactLabelsAreValid(request: Request, result: ServiceResult, producer: string, i: nat, k: nat)
    requires Bound(request, result, false) && ValidToken(producer) && SafeRunId(request.runId)
    requires i < |result.receipt.commands| <= Pow10(99) && k < FACTS
    ensures ValidLabels(Fact(request, result, producer, i, k))
  {
    assert MatchesSpec(result.receipt.commands[i], request.profile.commands[i]);
    FactIdIsToken(request.runId, i, k);
    RunIdIsToken(request.runId);
    SelectorIsValid(result.receipt.commands[i].name, k, producer);
  }

  lemma FactIsValidIff(request: Request, result: ServiceResult, producer: string, i: nat, k: nat)
    requires Bound(request, result, false) && ValidToken(producer) && SafeRunId(request.runId)
    requires i < |result.receipt.commands| <= Pow10(99) && k < FACTS
    ensures ValidObservation(Fact(request, result, producer, i, k)) <==>
            (k == 1 ==> ExitCodeFits(result.receipt.commands[i]))
  {
    FactLabelsAreValid(request, result, producer, i, k);
    StatusIsValidIff(result.receipt.commands[i], k);
  }

  /** Adaptation of a bound receipt fails only for an exit code that does not fit 64 bits. */
  lemma AdaptsIffExitCodesFit(request: Request, result: ServiceResult, producer: string)
    requires Bound(request, result, false) && ValidToken(producer) && SafeRunId(request.runId)
    requires |result.receipt.commands| <= Pow10(99)
    ensures AllValid(AllFacts(request, result, producer)) <==>
            forall i :: 0 <= i < |result.receipt.commands| ==> ExitCodeFits(result.receipt.commands[i])
  {
    var n, facts := |result.receipt.commands|, AllFacts(request, result, producer);
    if AllValid(facts) {
      forall i | 0 <= i < n ensures ExitCodeFits(result.receipt.commands[i]) {
        FactAtPosition(request, result, producer, i, 1);
        FactIsValidIff(request, result, producer, i, 1);
      }
    } else {
      var o :| o in facts && !ValidObservation(o);
      InvalidFactHasCode(request, result, producer, o);
    }
  }

  lemma InvalidFactHasCode(request: Request, result: ServiceResult, producer: string, o: Observation)
    requires Bound(request, result, false) && ValidToken(producer) && SafeRunId(request.runId)
    requires |result.receipt.commands| <= Pow10(99)
    requires o in AllFacts(request, result, producer) && !ValidObservation(o)
    ensures exists i :: 0 <= i < |result.receipt.commands| && !ExitCodeFits(result.receipt.commands[i])
  {
    var facts := AllFacts(request, result, producer);
    var j :| 0 <= j < |facts| && facts[j] == o;
    FactAt(request, result, producer, |result.receipt.commands|, j);
    FactIsValidIff(request, result, producer, j / FACTS, j % FACTS);
  }

  // ----- the validator -----

  datatype FactKey = FactKey(checkId: string, observationType: string)

  function KeyOf(o: Observation): FactKey {
    FactKey(o.selector.checkId, o.selector.observationType)
  }

  /** Where an observation must come from. */
  predicate RightSource(request: Request, result: ServiceResult, producer: string, o: Observation) {
    && o.about == Subject(request.bundle.archive, request.runId, result.artifact.digest)
    && o.selector.stage == STAGE && o.selector.producer == producer
  }

  predicate Reports(status: Status, value: Option<Value>) {
    match value
    case None => status.Unavailable?
    case Some(v) => status == Observed(v)
  }

  ghost predicate KeysDistinct(observations: seq<Observation>) {
    forall i, j :: 0 <= i < j < |observations| ==> KeyOf(observations[i]) != KeyOf(observations[j])
  }

  ghost predicate Reported(observations: seq<Observation>, command: CommandResult, k: nat)
    requires k < FACTS
  {
    exists o :: o in observations &&
      KeyOf(o) == FactKey(command.name, FactType(k)) && Reports(o.status, FactValue(command, k))
  }

  /** Exactly the facts of this result, each reported once and correctly. */
  ghost predicate FactsMatch(request: Request, result: ServiceResult, producer: string,
                             observations: seq<Observation>)
  {
    && |observations| == |result.receipt.commands| * FACTS
    && (forall o :: o in observations ==> RightSource(request, result, producer, o))
    && KeysDistinct(observations)
    && forall i, k :: 0 <= i < |result.receipt.commands| && 0 <= k < FACTS ==>
         Reported(observations, result.receipt.commands[i], k)
  }

  ghost predicate IsIndex(observations: seq<Observation>, index: map<FactKey, Observation>) {
    && (forall key :: key in index ==> index[key] in observations && KeyOf(index[key]) == key)
    && (forall o :: o in observations ==> KeyOf(o) in index && index[KeyOf(o)] == o)
  }

  /** Index the observations by selector, unless one is out of place or a selector repeats. */
  method IndexFacts(request: Request, result: ServiceResult, producer: string, observations: seq<Observation>)
    returns (r: Option<map<FactKey, Observation>>)
    ensures r.Some? <==>
            (forall o :: o in observations ==> RightSource(request, result, producer, o)) && KeysDistinct(observations)
    ensures r.Some? ==> IsIndex(observations, r.value)
  {
    var index: map<FactKey, Observation> := map[];
    for i := 0 to |observations|
      invariant forall o :: o in observations[..i] ==> RightSource(request, result, producer, o)
      invariant KeysDistinct(observations[..i])
      invariant IsIndex(observations[..i], index)
    {
      var o := observations[i];
      var seen := observations[..i];
      assert observations[..i + 1] == seen + [o];
      if !RightSource(request, result, producer, o) {
        assert o in observations;
        return None;
      }
      if KeyOf(o) in index {
        var j :| 0 <= j < i && seen[j] == index[KeyOf(o)];
        assert KeyOf(observations[j]) == KeyOf(observations[i]);
        return None;
      }
      index := index[KeyOf(o) := o];
    }
    assert observations[..|observations|] == observations;
    r := Some(index);
  }

  lemma ReportedIff(observations: seq<Observation>, index: map<FactKey, Observation>, command: CommandResult, k: nat)
    requires IsIndex(observations, index) && k < FACTS
    ensures var key := FactKey(command.name, FactType(k));
            Reported(observations, command, k) <==> key in index && Reports(index[key].status, FactValue(command, k))
  {
  }

  method ValidateObservations(request: Request, result: ServiceResult, producer: string, observations: seq<Observation>)
    returns (accepted: bool)
    ensures accepted <==> FactsMatch(request, result, producer, observations)
  {
    if |observations| != |result.receipt.commands| * FACTS {
      return false;
    }
    var indexed := IndexFacts(request, result, producer, observations);
    if indexed.None? {
      return false;
    }
    var index := indexed.value;
    for i := 0 to |result.receipt.commands|
      invariant forall j, k :: 0 <= j < i && 0 <= k < FACTS ==> Reported(observations, result.receipt.commands[j], k)
    {
      var command := result.receipt.commands[i];
      for k := 0 to FACTS
        invariant forall m :: 0 <= m < k ==> Reported(observations, command, m)
      {
        ReportedIff(observations, index, command, k);
        var key := FactKey(command.name, FactType(k));
        if key !in index || !Reports(index[key].status, FactValue(command, k)) {
          return false;
        }
      }
    }
    accepted := true;
  }

  lemma FactsHaveRightSource(request: Request, result: ServiceResult, producer: string)
    requires Bound(request, result, false)
    ensures forall o :: o in AllFacts(request, result, producer) ==> RightSource(request, result, producer, o)
  {
    var facts := AllFacts(request, result, producer);
    forall j | 0 <= j < |facts|
      ensures RightSource(request, result, producer, facts[j])
    {
      FactAt(request, result, producer, |result.receipt.commands|, j);
    }
  }

  lemma KeysDistinctFromSelectors(request: Request, result: ServiceResult, producer: string,
                                  observations: seq<Observation>)
    requires SelectorsDistinct(observations)
    requires forall o :: o in observations ==> RightSource(request, result, producer, o)
    ensures KeysDistinct(observations)
  {
    forall i, j | 0 <= i < j < |observations|
      ensures KeyOf(observations[i]) != KeyOf(observations[j])
    {
      assert RightSource(request, result, producer, observations[i]);
      assert RightSource(request, result, producer, observations[j]);
      assert observations[i].selector != observations[j].selector;
    }
  }

  /** The validator accepts what the adapter makes of any bound receipt. */
  lemma FactsAreAccepted(request: Request, result: ServiceResult, producer: string)
    requires Bound(request, result, false) && NamesUnique(request)
    ensures FactsMatch(request, result, producer, AllFacts(request, result, producer))
  {
    var n, facts := |result.receipt.commands|, AllFacts(request, result, producer);
    FactsHaveRightSource(request, result, producer);
    FactsDistinct(request, result, producer);
    KeysDistinctFromSelectors(request, result, producer, facts);
    forall i, k | 0 <= i < n && 0 <= k < FACTS
      ensures Reported(facts, result.receipt.commands[i], k)
    {
      FactAtPosition(request, result, producer, i, k);
      assert KeyOf(Fact(request, result, producer, i, k)) == FactKey(result.receipt.commands[i].name, FactType(k));
    }
  }

  // ----- the evaluator -----

  lemma {:induction false} NoneMatches(observations: seq<Observation>, selector: Selector)
    requires forall o :: o in observations ==> o.selector != selector
    ensures Matching(observations, selector) == []
  {
    if observations != [] {
      NoneMatches(observations[1..], selector);
    }
  }

  lemma DistinctRest(observations: seq<Observation>)
    requires observations != [] && SelectorsDistinct(observations)
    ensures SelectorsDistinct(observations[1..])
    ensures forall o :: o in observations[1..] ==> o.selector != observations[0].selector
  {
  }

  /** A selector that no two observations share is matched by at most one of them. */
  lemma {:induction false} AtMostOneMatches(observations: seq<Observation>, selector: Selector)
    requires SelectorsDistinct(observations)
    ensures |Matching(observations, selector)| <= 1
    ensures forall o :: o in observations && o.selector == selector ==> Matching(observations, selector) == [o]
  {
    if observations != [] {
      DistinctRest(observations);
      if observations[0].selector == selector {
        NoneMatches(observations[1..], selector);
      } else {
        AtMostOneMatches(observations[1..], selector);
        assert [] + Matching(observations[1..], selector) == Matching(observations[1..], selector);
      }
    }
  }

  /** On adapted facts the evaluator never meets a duplicate identifier or an ambiguous selector. */
  lemma FactsAreUnambiguous(c: Contract, limits: EvidenceLimits, request: Request, result: ServiceResult,
                            producer: string)
    requires ValidContract(c) && Bound(request, result, false) && NamesUnique(request)
    ensures var facts := AllFacts(request, result, producer);
            && (EvaluationOf(c, limits, facts).Error? ==>
                  EvaluationOf(c, limits, facts).error != DuplicateObservationId)
            && forall clause :: EvaluateClause(clause, facts).reason != AmbiguousObservation
  {
    var facts := AllFacts(request, result, producer);
    FactsDistinct(request, result, producer);
    forall clause: Clause
      ensures EvaluateClause(clause, facts).reason != AmbiguousObservation
    {
      AtMostOneMatches(facts, clause.selector);
    }
  }

  /** A clause about a command fact is judged on that fact, by the relation that its operator names. */
  lemma FactIsJudged(request: Request, result: ServiceResult, producer: string, clause: Clause, i: nat, k: nat)
    requires Bound(request, result, false) && NamesUnique(request)
    requires i < |result.receipt.commands| && k < FACTS
    requires clause.selector == FactSelector(result.receipt.commands[i].name, k, producer)
    ensures var e := EvaluateClause(clause, AllFacts(request, result, producer));
            match FactValue(result.receipt.commands[i], k)
            case None => Says(e, clause, Indeterminate, ObservationUnavailable)
            case Some(v) =>
              if !TypesFit(clause.operator, v, clause.expected) then Says(e, clause, Indeterminate, TypeMismatch)
              else if Holds(clause.operator, v, clause.expected) then Says(e, clause, Pass, Satisfied)
              else Says(e, clause, Fail, NotSatisfied)
  {
    var facts := AllFacts(request, result, producer);
    FactsDistinct(request, result, producer);
    FactAtPosition(request, result, producer, i, k);
    var j :| 0 <= j < |facts| && facts[j] == Fact(request, result, producer, i, k);
    assert OnlyMatch(clause, facts, j);
    match FactValue(result.receipt.commands[i], k)
    case None => UnobservedClause(clause, facts, j);
    case Some(v) => ClauseTruthTable(clause, facts, j, v);
  }

  /** From captures to evidence, every stage satisfies the next: whatever was captured, if errors can be
      reported and only commands changed the workspace, the assembled receipt is bound, its facts are
      valid and accepted, and the evaluator can use them all. */
  lemma EveryStageSatisfiesTheNext(request: Request, baseline: StateHash, runs: seq<CommandRun>, final: StateHash,
                                   digest: string, producer: string, c: Contract, limits: EvidenceLimits)
    requires request.identity.Some? && baseline == request.bundle.treeHash && |runs| == |request.profile.commands|
    requires OnlyCommandsChange(baseline, runs, final) && NamesAreTokens(request) && NamesUnique(request)
    requires AllReportable(runs)
    requires SafeRunId(request.runId) && ValidToken(producer) && |runs| <= Pow10(99) && ValidContract(c)
    requires forall i :: 0 <= i < |runs| ==> ExitCodeFits(ExecuteCommand(request.profile.commands[i], runs[i]))
    ensures var receipt := AssembleReceipt(request, baseline, ResultsOf(request.profile.commands, runs), final);
            var result := AssembleResult(request, receipt, digest);
            var facts := AllFacts(request, result, producer);
            && Bound(request, result, false) && ConsistentReceipt(receipt)
            && (receipt.passed <==> AllPassed(receipt.commands)) && (receipt.passed <==> AllRanClean(baseline, runs))
            && AllValid(facts) && FactsMatch(request, result, producer, facts)
            && (|facts| <= limits.maxObservations && LintClean(c, limits) ==> EvaluationOf(c, limits, facts).Completed?)
  {
    var receipt := AssembleReceipt(request, baseline, ResultsOf(request.profile.commands, runs), final);
    var result := AssembleResult(request, receipt, digest);
    TokensAreTexts(request);
    AssembledIsConsistentIff(request, baseline, runs, final);
    AssembledIsBoundIff(request, baseline, runs, final, digest);
    PassedIffAllCommandsPassed(request, result, false);
    ReceiptPassesIff(request, baseline, runs, final);
    AdaptsIffExitCodesFit(request, result, producer);
    FactsAreAccepted(request, result, producer);
    FactsDistinct(request, result, producer);
  }
}
