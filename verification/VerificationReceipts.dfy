/**
 How the host verifier turns what it observed of each command into a receipt, and the
 check that binds a receipt to the request that asked for it.
 */
module VerificationReceipts {
  import opened Options
  import opened Formats
  import opened EvidenceExpression

  /** What the records accept as a text. */
  predicate IsText(s: string) {
    s != "" && '\0' !in s
  }

  type StateHash = string

  datatype CommandSpec = CommandSpec(name: string, argv: seq<string>, criteria: seq<string>)

  datatype AssetBundle = AssetBundle(id: string, treeHash: string)

  datatype Profile = Profile(commands: seq<CommandSpec>, assets: Option<AssetBundle>)

  datatype Bundle = Bundle(id: string, treeHash: StateHash, commit: string, archive: string)

  /** Version 2 requests carry an executor identity, version 1 requests do not. A digest of a request
      or a profile stands for the record itself. */
  datatype Request = Request(runId: string, bundle: Bundle, profile: Profile, identity: Option<string>)

  datatype FailureCategory =
    | LaunchError
    | OutputLimit
    | Timeout
    | ProcessLeak
    | WorkspaceMutation
    | ExecutionError
    | AssertionFailure
    | CommandFailure

  datatype CommandResult = CommandResult(
    name: string,
    argv: seq<string>,
    criteria: seq<string>,
    passed: bool,
    timedOut: bool,
    exitCode: Option<int>,
    stateBefore: StateHash,
    stateAfter: StateHash,
    kept: bool,
    failure: Option<FailureCategory>,
    error: Option<string>)

  /** What the constructor of a command result insists on, beyond what that of a specification has
      checked of the arguments and criteria already. */
  predicate ConsistentResult(r: CommandResult) {
    && IsText(r.name) && (r.error.Some? ==> IsText(r.error.value))
    && (r.kept <==> r.stateBefore == r.stateAfter)
    && (r.passed ==> !r.timedOut && r.exitCode == Some(0) && r.kept && r.failure.None? && r.error.None?)
    && (!r.passed ==> r.failure.Some?)
  }

  datatype ReceiptVersion = V1 | V2 | V3

  datatype Receipt = Receipt(
    runId: string,
    commit: string,
    passed: bool,
    commands: seq<CommandResult>,
    stateBefore: StateHash,
    stateAfter: StateHash,
    kept: bool,
    request: Request,
    version: ReceiptVersion,
    bundleId: Option<string>,
    profile: Option<Profile>,
    identity: Option<string>,
    assetBundleId: Option<string>)

  predicate AllPassed(commands: seq<CommandResult>) {
    forall i :: 0 <= i < |commands| ==> commands[i].passed
  }

  /** What the constructor of a receipt insists on. */
  predicate ConsistentReceipt(r: Receipt) {
    && (forall i :: 0 <= i < |r.commands| ==> ConsistentResult(r.commands[i]))
    && (r.kept <==> r.stateBefore == r.stateAfter)
    && (r.passed <==> r.kept && AllPassed(r.commands))
  }

  datatype Artifact = Artifact(id: string, mediaType: string, digest: string)

  datatype ServiceResult = ServiceResult(
    request: Request,
    bundleId: string,
    profile: Profile,
    receipt: Receipt,
    artifact: Artifact,
    identity: Option<string>)

  const RECEIPT_MEDIA_TYPE := "application/vnd.sisyphus-harness.verification-receipt+json"

  function ArtifactId(runId: string): string {
    runId + "/receipt.json"
  }

  // ----- one command -----

  /** A process as the runtime captured it. `diagnosis` is what the text of its output suggests. */
  datatype Capture = Capture(
    returncode: Option<int>,
    timedOut: bool,
    outputLimited: bool,
    launchError: Option<string>,
    diagnosis: FailureCategory)

  /** One command's turn: the workspace and the asset tree read before and after it. */
  datatype CommandRun = CommandRun(before: StateHash, capture: Capture, after: StateHash, assetTree: Option<string>)

  function ClassifyFailure(passed: bool, capture: Capture, kept: bool): Option<FailureCategory> {
    if passed then None
    else if capture.launchError.Some? then Some(LaunchError)
    else if capture.outputLimited then Some(OutputLimit)
    else if capture.timedOut then Some(Timeout)
    else if !kept then Some(WorkspaceMutation)
    else Some(capture.diagnosis)
  }

  const OUTPUT_EXCEEDED := "verification output exceeded the limit"
  const DEADLINE_EXCEEDED := "verification command exceeded its bounded deadline"

  lemma MessagesAreTexts()
    ensures IsText(OUTPUT_EXCEEDED) && IsText(DEADLINE_EXCEEDED)
  {
    assert OUTPUT_EXCEEDED[0] == 'v' && DEADLINE_EXCEEDED[0] == 'v';
  }

  /** The error that a result would report is a text; a limit or a deadline comes before the launch. */
  predicate Reportable(capture: Capture) {
    capture.launchError.Some? && !capture.outputLimited && !capture.timedOut ==> IsText(capture.launchError.value)
  }

  /** Nothing at all went wrong: the process started, ended by itself with code zero within its
      limits, and left the workspace as it found it. */
  predicate RanClean(run: CommandRun) {
    && run.capture.launchError.None? && !run.capture.outputLimited && !run.capture.timedOut
    && run.capture.returncode == Some(0)
    && run.before == run.after
  }

  /** The result assembled for a command is one that its constructor accepts exactly when the name of
      the command and the error to report are texts; and it passes exactly when nothing at all went
      wrong. */
  function ExecuteCommand(spec: CommandSpec, run: CommandRun): (r: CommandResult)
    ensures ConsistentResult(r) <==> IsText(spec.name) && Reportable(run.capture)
    ensures r.name == spec.name && r.argv == spec.argv && r.criteria == spec.criteria
    ensures r.stateBefore == run.before && r.stateAfter == run.after
    ensures r.passed <==> !r.timedOut && r.exitCode == Some(0) && r.kept && r.failure.None? && r.error.None?
    ensures r.passed <==> RanClean(run)
    ensures r.timedOut == run.capture.timedOut && r.exitCode == run.capture.returncode
    ensures r.kept <==> run.before == run.after
  {
    var capture, kept := run.capture, run.before == run.after;
    var passed := && capture.launchError.None? && !capture.timedOut && !capture.outputLimited
                  && capture.returncode == Some(0) && kept;
    var error := if capture.outputLimited then Some(OUTPUT_EXCEEDED)
                 else if capture.timedOut then Some(DEADLINE_EXCEEDED)
                 else capture.launchError;
    MessagesAreTexts();
    CommandResult(spec.name, spec.argv, spec.criteria, passed, capture.timedOut, capture.returncode,
                  run.before, run.after, kept, ClassifyFailure(passed, capture, kept), error)
  }

  /** What a result reports as the cause of a failure, and how: a failed launch comes before an output
      limit, that before a deadline, that before a changed workspace, and only then the output is
      consulted; the text is that of the limit or the deadline, otherwise that of the launch. */
  lemma FailureIsReported(spec: CommandSpec, run: CommandRun)
    ensures var r, capture := ExecuteCommand(spec, run), run.capture;
            && (RanClean(run) ==> r.failure == None && r.error == None)
            && (capture.launchError.Some? ==> r.failure == Some(LaunchError))
            && (capture.launchError.None? && capture.outputLimited ==> r.failure == Some(OutputLimit))
            && (capture.launchError.None? && !capture.outputLimited && capture.timedOut ==> r.failure == Some(Timeout))
            && (capture.launchError.None? && !capture.outputLimited && !capture.timedOut && run.before != run.after ==>
                  r.failure == Some(WorkspaceMutation))
            && (capture.launchError.None? && !capture.outputLimited && !capture.timedOut && run.before == run.after &&
                capture.returncode != Some(0) ==>
                  r.failure == Some(capture.diagnosis))
            && (capture.outputLimited ==> r.error == Some(OUTPUT_EXCEEDED))
            && (!capture.outputLimited && capture.timedOut ==> r.error == Some(DEADLINE_EXCEEDED))
            && (!capture.outputLimited && !capture.timedOut ==> r.error == capture.launchError)
  {
  }

  /** The error of a command that could not be started, from what its container wrote. */
  function LaunchErrorText(program: string, stderr: string): string {
    var ending := Ending(Strip(stderr), 2000);
    if ending != "" then ending else "verification executable could not start: " + program
  }

  function Ending(s: string, length: nat): string {
    if |s| <= length then s else s[|s| - length..]
  }

  /** That error can be reported unless the container wrote a NUL near its end. */
  lemma LaunchErrorIsTextIff(program: string, stderr: string)
    requires '\0' !in program
    ensures IsText(LaunchErrorText(program, stderr)) <==> '\0' !in Ending(Strip(stderr), 2000)
  {
    if Ending(Strip(stderr), 2000) == "" {
      assert '\0' !in "verification executable could not start: ";
    }
  }

  /** A command that cannot be started and writes a single NUL leaves no result at all. */
  lemma NulLeavesNoResult(spec: CommandSpec, before: StateHash, after: StateHash)
    requires spec.argv != []
    ensures var capture := Capture(None, false, false, Some(LaunchErrorText(spec.argv[0], "\0")), CommandFailure);
            !ConsistentResult(ExecuteCommand(spec, CommandRun(before, capture, after, None)))
  {
    assert Strip("\0") == "\0";
    assert "\0"[0] == '\0';
  }

  function ResultsOf(specs: seq<CommandSpec>, runs: seq<CommandRun>): seq<CommandResult>
    requires |specs| == |runs|
  {
    seq(|specs|, i requires 0 <= i < |specs| => ExecuteCommand(specs[i], runs[i]))
  }

  // ----- the binding check -----

  /** The workspace state in which the i-th command should find itself. */
  function StateEntering(r: Receipt, i: nat): StateHash
    requires i <= |r.commands|
  {
    if i == 0 then r.stateBefore else r.commands[i - 1].stateAfter
  }

  /** Each command starts in the state the one before left, from the receipt's first state to its last. */
  ghost predicate Chained(r: Receipt) {
    && (forall i :: 0 <= i < |r.commands| ==> r.commands[i].stateBefore == StateEntering(r, i))
    && r.stateAfter == StateEntering(r, |r.commands|)
  }

  predicate MatchesSpec(command: CommandResult, spec: CommandSpec) {
    && command.name == spec.name && command.argv == spec.argv && command.criteria == spec.criteria
    && (command.passed <==>
          !command.timedOut && command.exitCode == Some(0) && command.kept
          && command.failure.None? && command.error.None?)
    && (command.kept <==> command.stateBefore == command.stateAfter)
    && ValidToken(command.name)
  }

  predicate HeaderBound(request: Request, result: ServiceResult, requireAssets: bool) {
    var receipt := result.receipt;
    && result.request == request && result.bundleId == request.bundle.id && result.profile == request.profile
    && result.identity == request.identity
    && (request.identity.Some? && requireAssets ==> request.profile.assets.Some?)
    && receipt.version == (if request.identity.Some? then V3 else V2)
    && receipt.runId == request.runId && receipt.request == request
    && (request.identity.Some? ==>
          && receipt.bundleId == Some(request.bundle.id) && receipt.profile == Some(request.profile)
          && receipt.identity == request.identity
          && receipt.assetBundleId ==
               (match request.profile.assets case None => None case Some(assets) => Some(assets.id)))
    && receipt.commit == request.bundle.commit
    && receipt.stateBefore == request.bundle.treeHash
    && (receipt.kept <==> receipt.stateBefore == receipt.stateAfter)
    && result.artifact.id == ArtifactId(request.runId)
    && result.artifact.mediaType == RECEIPT_MEDIA_TYPE
    && |request.profile.commands| == |receipt.commands|
  }

  ghost predicate CommandsMatch(specs: seq<CommandSpec>, commands: seq<CommandResult>) {
    |specs| == |commands| && forall i :: 0 <= i < |commands| ==> MatchesSpec(commands[i], specs[i])
  }

  /** The result answers this very request: header, commands and workspace chain. */
  ghost predicate Bound(request: Request, result: ServiceResult, requireAssets: bool) {
    && HeaderBound(request, result, requireAssets)
    && CommandsMatch(request.profile.commands, result.receipt.commands)
    && Chained(result.receipt)
  }

  /** The i-th command matches its specification and starts where the one before ended. */
  predicate Follows(specs: seq<CommandSpec>, receipt: Receipt, i: nat)
    requires i < |specs| == |receipt.commands|
  {
    MatchesSpec(receipt.commands[i], specs[i]) && receipt.commands[i].stateBefore == StateEntering(receipt, i)
  }

  lemma AllFollowIff(specs: seq<CommandSpec>, receipt: Receipt)
    requires |specs| == |receipt.commands|
    ensures CommandsMatch(specs, receipt.commands) && Chained(receipt) <==>
            && (forall i :: 0 <= i < |specs| ==> Follows(specs, receipt, i))
            && receipt.stateAfter == StateEntering(receipt, |specs|)
  {
    if forall i :: 0 <= i < |specs| ==> Follows(specs, receipt, i) {
      forall i | 0 <= i < |specs|
        ensures MatchesSpec(receipt.commands[i], specs[i])
        ensures receipt.commands[i].stateBefore == StateEntering(receipt, i)
      {
        assert Follows(specs, receipt, i);
      }
    }
  }

  /** Walk the commands with the state the previous one left. */
  method ValidateCommands(specs: seq<CommandSpec>, receipt: Receipt) returns (bound: bool)
    requires |specs| == |receipt.commands|
    ensures bound <==> CommandsMatch(specs, receipt.commands) && Chained(receipt)
  {
    AllFollowIff(specs, receipt);
    var commands := receipt.commands;
    var previous := receipt.stateBefore;
    for i := 0 to |commands|
      invariant previous == StateEntering(receipt, i)
      invariant forall j :: 0 <= j < i ==> Follows(specs, receipt, j)
    {
      if !MatchesSpec(commands[i], specs[i]) || commands[i].stateBefore != previous {
        assert !Follows(specs, receipt, i);
        return false;
      }
      previous := commands[i].stateAfter;
    }
    bound := previous == receipt.stateAfter;
  }

  method ValidateBindings(request: Request, result: ServiceResult, requireAssets: bool) returns (bound: bool)
    ensures bound <==> Bound(request, result, requireAssets)
  {
    if !HeaderBound(request, result, requireAssets) {
      return false;
    }
    bound := ValidateCommands(request.profile.commands, result.receipt);
  }

  /** When every command kept the workspace, the chain telescopes: the state never moved. */
  lemma {:induction false} ChainTelescopes(r: Receipt, n: nat)
    requires Chained(r) && n <= |r.commands|
    requires forall i :: 0 <= i < n ==> r.commands[i].stateBefore == r.commands[i].stateAfter
    ensures StateEntering(r, n) == r.stateBefore
  {
    if n > 0 {
      ChainTelescopes(r, n - 1);
      assert r.commands[n - 1].stateBefore == StateEntering(r, n - 1);
    }
  }

  /** So a bound receipt passes exactly when all its commands do: a workspace change outside the
      passing commands has nowhere to hide. */
  lemma PassedIffAllCommandsPassed(request: Request, result: ServiceResult, requireAssets: bool)
    requires Bound(request, result, requireAssets) && ConsistentReceipt(result.receipt)
    ensures result.receipt.passed <==> AllPassed(result.receipt.commands)
  {
    var r := result.receipt;
    if AllPassed(r.commands) {
      forall i | 0 <= i < |r.commands| ensures r.commands[i].stateBefore == r.commands[i].stateAfter {
        assert ConsistentResult(r.commands[i]);
      }
      ChainTelescopes(r, |r.commands|);
    }
  }

  // ----- the host verifier -----

  function ReadingEntering(baseline: StateHash, runs: seq<CommandRun>, i: nat): StateHash
    requires i <= |runs|
  {
    if i == 0 then baseline else runs[i - 1].after
  }

  /** Nothing but the commands changed the workspace between the readings. */
  ghost predicate OnlyCommandsChange(baseline: StateHash, runs: seq<CommandRun>, final: StateHash) {
    && (forall i :: 0 <= i < |runs| ==> runs[i].before == ReadingEntering(baseline, runs, i))
    && final == ReadingEntering(baseline, runs, |runs|)
  }

  function ExpectedAssets(request: Request): Option<string> {
    match request.profile.assets
    case None => None
    case Some(assets) => Some(assets.treeHash)
  }

  /** The workspace starts out as requested, and the asset view, if there is one, stays as expected. */
  ghost predicate InputsHold(request: Request, baseline: StateHash, viewed: bool, assetTree: Option<string>,
                             runs: seq<CommandRun>)
  {
    && baseline == request.bundle.treeHash
    && (viewed ==>
          && assetTree == ExpectedAssets(request)
          && forall i :: 0 <= i < |runs| ==> runs[i].assetTree == ExpectedAssets(request))
  }

  ghost predicate NamesAreTokens(request: Request) {
    forall i :: 0 <= i < |request.profile.commands| ==> ValidToken(request.profile.commands[i].name)
  }

  ghost predicate AllReportable(runs: seq<CommandRun>) {
    forall i :: 0 <= i < |runs| ==> Reportable(runs[i].capture)
  }

  ghost predicate NamesAreTexts(request: Request) {
    forall i :: 0 <= i < |request.profile.commands| ==> IsText(request.profile.commands[i].name)
  }

  function AssembleReceipt(request: Request, baseline: StateHash, results: seq<CommandResult>, final: StateHash)
    : Receipt
  {
    Receipt(request.runId, request.bundle.commit, baseline == final && AllPassed(results), results, baseline, final,
            baseline == final, request, V3, Some(request.bundle.id), Some(request.profile), request.identity,
            match request.profile.assets case None => None case Some(assets) => Some(assets.id))
  }

  function AssembleResult(request: Request, receipt: Receipt, digest: string): ServiceResult {
    ServiceResult(request, request.bundle.id, request.profile, receipt,
                  Artifact(ArtifactId(request.runId), RECEIPT_MEDIA_TYPE, digest), request.identity)
  }

  /** The assembled receipt is one that the constructors accept exactly when names and errors are texts. */
  lemma AssembledIsConsistentIff(request: Request, baseline: StateHash, runs: seq<CommandRun>, final: StateHash)
    requires |runs| == |request.profile.commands|
    ensures ConsistentReceipt(AssembleReceipt(request, baseline, ResultsOf(request.profile.commands, runs), final)) <==>
            NamesAreTexts(request) && AllReportable(runs)
  {
    var results := ResultsOf(request.profile.commands, runs);
    forall i | 0 <= i < |results|
      ensures ConsistentResult(results[i]) <==>
              IsText(request.profile.commands[i].name) && Reportable(runs[i].capture)
    {
      assert results[i] == ExecuteCommand(request.profile.commands[i], runs[i]);
    }
  }

  /** It is bound to the request exactly when only commands changed the workspace and every command
      name is a token. */
  lemma AssembledIsBoundIff(request: Request, baseline: StateHash, runs: seq<CommandRun>, final: StateHash,
                            digest: string)
    requires request.identity.Some? && baseline == request.bundle.treeHash && |runs| == |request.profile.commands|
    ensures var receipt := AssembleReceipt(request, baseline, ResultsOf(request.profile.commands, runs), final);
            Bound(request, AssembleResult(request, receipt, digest), false) <==>
              OnlyCommandsChange(baseline, runs, final) && NamesAreTokens(request)
  {
    var results := ResultsOf(request.profile.commands, runs);
    var receipt := AssembleReceipt(request, baseline, results, final);
    var result := AssembleResult(request, receipt, digest);
    assert HeaderBound(request, result, false);
    ChainedIffQuiet(request, baseline, runs, final);
    forall i | 0 <= i < |results|
      ensures MatchesSpec(results[i], request.profile.commands[i]) <==> ValidToken(request.profile.commands[i].name)
    {
      assert results[i] == ExecuteCommand(request.profile.commands[i], runs[i]);
    }
  }

  lemma ChainedIffQuiet(request: Request, baseline: StateHash, runs: seq<CommandRun>, final: StateHash)
    requires |runs| == |request.profile.commands|
    ensures Chained(AssembleReceipt(request, baseline, ResultsOf(request.profile.commands, runs), final)) <==>
            OnlyCommandsChange(baseline, runs, final)
  {
    var r := AssembleReceipt(request, baseline, ResultsOf(request.profile.commands, runs), final);
    forall i | 0 <= i <= |runs|
      ensures StateEntering(r, i) == ReadingEntering(baseline, runs, i)
      ensures i < |runs| ==> r.commands[i].stateBefore == runs[i].before
    {
      if i > 0 {
        assert r.commands[i - 1] == ExecuteCommand(request.profile.commands[i - 1], runs[i - 1]);
      }
    }
  }

  lemma TokensAreTexts(request: Request)
    ensures NamesAreTokens(request) ==> NamesAreTexts(request)
  {
  }

  /** Every command ran clean and left the workspace in its first state. */
  ghost predicate AllRanClean(baseline: StateHash, runs: seq<CommandRun>) {
    forall i :: 0 <= i < |runs| ==> RanClean(runs[i]) && runs[i].after == baseline
  }

  ghost predicate EachRanClean(runs: seq<CommandRun>) {
    forall i :: 0 <= i < |runs| ==> RanClean(runs[i])
  }

  lemma {:induction false} CleanRunsStay(baseline: StateHash, runs: seq<CommandRun>, final: StateHash, n: nat)
    requires n <= |runs|
    ensures OnlyCommandsChange(baseline, runs, final) && EachRanClean(runs) ==>
              ReadingEntering(baseline, runs, n) == baseline
  {
    if n > 0 && EachRanClean(runs) {
      CleanRunsStay(baseline, runs, final, n - 1);
      assert RanClean(runs[n - 1]);
    }
  }

  lemma AllPassedIff(specs: seq<CommandSpec>, runs: seq<CommandRun>)
    requires |specs| == |runs|
    ensures AllPassed(ResultsOf(specs, runs)) <==> EachRanClean(runs)
  {
    var results := ResultsOf(specs, runs);
    forall i | 0 <= i < |runs|
      ensures results[i].passed <==> RanClean(runs[i])
    {
      assert results[i] == ExecuteCommand(specs[i], runs[i]);
    }
  }

  lemma CleanMeansUnchanged(baseline: StateHash, runs: seq<CommandRun>, final: StateHash)
    requires OnlyCommandsChange(baseline, runs, final) && EachRanClean(runs)
    ensures AllRanClean(baseline, runs) && final == baseline
  {
    CleanRunsStay(baseline, runs, final, |runs|);
    forall i | 0 <= i < |runs|
      ensures RanClean(runs[i]) && runs[i].after == baseline
    {
      CleanRunsStay(baseline, runs, final, i + 1);
      assert ReadingEntering(baseline, runs, i + 1) == runs[i].after;
    }
  }

  /** If only commands changed the workspace, the receipt passes exactly when every command ran clean. */
  lemma ReceiptPassesIff(request: Request, baseline: StateHash, runs: seq<CommandRun>, final: StateHash)
    requires |runs| == |request.profile.commands| && OnlyCommandsChange(baseline, runs, final)
    ensures AssembleReceipt(request, baseline, ResultsOf(request.profile.commands, runs), final).passed <==>
            AllRanClean(baseline, runs)
  {
    AllPassedIff(request.profile.commands, runs);
    if EachRanClean(runs) {
      CleanMeansUnchanged(baseline, runs, final);
    }
  }

  /** A bound receipt and its request leave nothing open but what the commands reported and the digest
      of the stored receipt. */
  lemma BoundIsDetermined(request: Request, a: ServiceResult, b: ServiceResult)
    requires request.identity.Some? && Bound(request, a, false) && Bound(request, b, false)
    requires ConsistentReceipt(a.receipt) && ConsistentReceipt(b.receipt)
    requires a.receipt.commands == b.receipt.commands && a.artifact.digest == b.artifact.digest
    ensures a == b
  {
    assert StateEntering(a.receipt, |a.receipt.commands|) == StateEntering(b.receipt, |b.receipt.commands|);
  }

  /** Run the commands in order, assemble the receipt and check it. The verifier returns a result
      exactly when its inputs held, every error can be reported, only commands changed the workspace,
      and names are tokens. */
  method Execute(request: Request, baseline: StateHash, viewed: bool, assetTree: Option<string>, runs: seq<CommandRun>,
                 final: StateHash, digest: string)
    returns (r: Option<ServiceResult>)
    requires request.identity.Some? && |runs| == |request.profile.commands|
    ensures r.Some? <==>
            && InputsHold(request, baseline, viewed, assetTree, runs)
            && AllReportable(runs) && OnlyCommandsChange(baseline, runs, final) && NamesAreTokens(request)
    ensures r.Some? ==> Bound(request, r.value, false) && ConsistentReceipt(r.value.receipt)
    ensures r.Some? ==> r.value.receipt.commands == ResultsOf(request.profile.commands, runs)
    ensures r.Some? ==> (r.value.receipt.passed <==> AllPassed(r.value.receipt.commands))
    ensures r.Some? ==> (r.value.receipt.passed <==> AllRanClean(baseline, runs))
  {
    if baseline != request.bundle.treeHash {
      return None;
    }
    if viewed && assetTree != ExpectedAssets(request) {
      return None;
    }
    var results: seq<CommandResult> := [];
    for i := 0 to |runs|
      invariant |results| == i
      invariant forall j :: 0 <= j < i ==> results[j] == ExecuteCommand(request.profile.commands[j], runs[j])
      invariant forall j :: 0 <= j < i ==> ConsistentResult(results[j])
      invariant viewed ==> forall j :: 0 <= j < i ==> runs[j].assetTree == ExpectedAssets(request)
    {
      var result := ExecuteCommand(request.profile.commands[i], runs[i]);
      if viewed && runs[i].assetTree != ExpectedAssets(request) {
        return None;
      }
      if !ConsistentResult(result) {
        assert IsText(request.profile.commands[i].name) ==> !Reportable(runs[i].capture);
        TokensAreTexts(request);
        return None;
      }
      results := results + [result];
    }
    assert results == ResultsOf(request.profile.commands, runs);
    var receipt := AssembleReceipt(request, baseline, results, final);
    var result := AssembleResult(request, receipt, digest);
    TokensAreTexts(request);
    AssembledIsConsistentIff(request, baseline, runs, final);
    AssembledIsBoundIff(request, baseline, runs, final, digest);
    var bound := ValidateBindings(request, result, false);
    if !bound {
      return None;
    }
    PassedIffAllCommandsPassed(request, result, false);
    ReceiptPassesIff(request, baseline, runs, final);
    r := Some(result);
  }
}
