/**
 Evidence contracts: typed predicates over observations, the linter that makes every
 expression read-once, and the evaluation of a contract against a set of observations.
 */
module EvidenceEvaluation {
  import opened Options
  import opened Collections
  import opened Ordering
  import opened EvidenceExpression
  import opened EvidenceLogic

  /** Values of different Python types are never equal: the type is part of the value. */
  datatype Scalar = SBool(b: bool) | SInt(n: int) | SString(s: string)

  datatype Value = One(scalar: Scalar) | Many(items: seq<Scalar>)

  datatype Operator =
    | Equals
    | NotEquals
    | LessThan
    | LessThanOrEqual
    | GreaterThan
    | GreaterThanOrEqual
    | Contains
    | Subset
    | Disjoint
  {
    predicate Orders() {
      LessThan? || LessThanOrEqual? || GreaterThan? || GreaterThanOrEqual?
    }
  }

  datatype Selector = Selector(observationType: string, stage: string, checkId: string, producer: string)

  datatype Clause = Clause(id: string, selector: Selector, operator: Operator, expected: Value)

  datatype Status = Observed(value: Value) | Unavailable(reason: string) | Errored(reason: string)

  datatype Subject = Subject(subject: string, sourceRun: string, artifact: string)

  datatype Observation = Observation(id: string, selector: Selector, status: Status, about: Subject)

  datatype ReasonCode =
    | MissingObservation
    | AmbiguousObservation
    | ObservationUnavailable
    | ObservationError
    | TypeMismatch
    | Satisfied
    | NotSatisfied

  // ----- typed predicates -----

  datatype ScalarType = BoolType | IntType | StringType

  function TypeOf(s: Scalar): ScalarType {
    match s
    case SBool(_) => BoolType
    case SInt(_) => IntType
    case SString(_) => StringType
  }

  function TypesIn(items: seq<Scalar>): set<ScalarType> {
    set s | s in items :: TypeOf(s)
  }

  /** Lists are compared item by item only as far as the shorter one goes. */
  predicate SameSchema(a: Value, b: Value) {
    match (a, b)
    case (One(x), One(y)) => TypeOf(x) == TypeOf(y)
    case (Many(xs), Many(ys)) => forall i :: 0 <= i < |xs| && i < |ys| ==> TypeOf(xs[i]) == TypeOf(ys[i])
    case _ => false
  }

  predicate IsInt(v: Value) {
    v.One? && v.scalar.SInt?
  }

  predicate Compare(operator: Operator, actual: int, expected: int)
    requires operator.Orders()
  {
    match operator
    case LessThan => actual < expected
    case LessThanOrEqual => actual <= expected
    case GreaterThan => actual > expected
    case GreaterThanOrEqual => actual >= expected
  }

  /** The result of an operator, or none when the observed value has the wrong type for it. */
  function Applies(operator: Operator, actual: Value, expected: Value): Option<bool> {
    match operator
    case Equals => Some(actual == expected)
    case NotEquals => if SameSchema(actual, expected) then Some(actual != expected) else None
    case Contains => if actual.Many? && expected.One? then Some(expected.scalar in actual.items) else None
    case Subset =>
      if actual.Many? && expected.Many? then Some(forall s :: s in actual.items ==> s in expected.items) else None
    case Disjoint =>
      if !(actual.Many? && expected.Many?) then None
      else if actual.items != [] && expected.items != [] && TypesIn(actual.items) != TypesIn(expected.items) then None
      else Some(forall s :: s in actual.items ==> s !in expected.items)
    case _ =>
      if IsInt(actual) && IsInt(expected) then Some(Compare(operator, actual.scalar.n, expected.scalar.n)) else None
  }

  // ----- clause results -----

  datatype PredicateEvaluation = PredicateEvaluation(
    clauseId: string,
    result: Logical,
    observationIds: seq<string>,
    reason: ReasonCode)

  function Matching(observations: seq<Observation>, selector: Selector): (r: seq<Observation>)
    ensures forall o :: o in r <==> o in observations && o.selector == selector
  {
    if observations == [] then []
    else
      (if observations[0].selector == selector then [observations[0]] else []) + Matching(observations[1..], selector)
  }

  function ById(observations: seq<Observation>): seq<Keyed<Observation>> {
    seq(|observations|, i requires 0 <= i < |observations| => Keyed(Codes(observations[i].id), observations[i]))
  }

  function Ids(sorted: seq<Keyed<Observation>>): seq<string> {
    seq(|sorted|, i requires 0 <= i < |sorted| => sorted[i].item.id)
  }

  /** Exactly one observation must match; then its status and value decide. */
  function EvaluateClause(clause: Clause, observations: seq<Observation>): PredicateEvaluation {
    var matches := SortByKey(ById(Matching(observations, clause.selector)));
    if matches == [] then PredicateEvaluation(clause.id, Indeterminate, [], MissingObservation)
    else if |matches| != 1 then PredicateEvaluation(clause.id, Indeterminate, Ids(matches), AmbiguousObservation)
    else
      var (result, reason) := JudgeOne(clause, matches[0].item.status);
      PredicateEvaluation(clause.id, result, Ids(matches), reason)
  }

  function JudgeOne(clause: Clause, status: Status): (Logical, ReasonCode) {
    match status
    case Unavailable(_) => (Indeterminate, ObservationUnavailable)
    case Errored(_) => (Indeterminate, ObservationError)
    case Observed(value) =>
      match Applies(clause.operator, value, clause.expected)
      case None => (Indeterminate, TypeMismatch)
      case Some(true) => (Pass, Satisfied)
      case Some(false) => (Fail, NotSatisfied)
  }

  function ClauseResults(clauses: seq<Clause>, observations: seq<Observation>): seq<PredicateEvaluation> {
    seq(|clauses|, i requires 0 <= i < |clauses| => EvaluateClause(clauses[i], observations))
  }

  method EvaluateClauses(clauses: seq<Clause>, observations: seq<Observation>)
    returns (results: seq<PredicateEvaluation>)
    ensures results == ClauseResults(clauses, observations)
  {
    results := [];
    for i := 0 to |clauses|
      invariant |results| == i
      invariant forall j :: 0 <= j < i ==> results[j] == EvaluateClause(clauses[j], observations)
    {
      results := results + [EvaluateClause(clauses[i], observations)];
    }
  }

  // ----- the linter -----

  datatype EvidenceLimits = EvidenceLimits(
    maxClauses: nat,
    maxNodes: nat,
    maxDepth: nat,
    maxBytes: nat,
    maxObservations: nat)

  /** `payloadBytes` is the size of the contract's canonical wire form. */
  datatype Contract = Contract(clauses: seq<Clause>, taskSuccess: Expr, payloadBytes: nat)

  function ClauseIds(clauses: seq<Clause>): seq<string> {
    seq(|clauses|, i requires 0 <= i < |clauses| => clauses[i].id)
  }

  /** What the constructor of a contract insists on. */
  predicate ValidContract(c: Contract) {
    && 1 <= |c.clauses| <= 256
    && Distinct(ClauseIds(c.clauses))
    && WellFormed(c.taskSuccess) && WithinHardLimits(c.taskSuccess)
  }

  datatype LintIssue =
    | TooManyClauses
    | ExpressionTooLarge
    | ExpressionTooDeep
    | UnknownReference(index: nat, clauseId: string)
    | DuplicateReference(index: nat, clauseId: string)
    | UnusedClause(clauseId: string)
    | InvalidExpectedType(clauseId: string)
    | ContractTooLarge

  predicate BadExpected(clause: Clause) {
    if clause.operator.Orders() then !IsInt(clause.expected)
    else if clause.operator.Contains? then clause.expected.Many?
    else if clause.operator.Subset? || clause.operator.Disjoint? then clause.expected.One?
    else false
  }

  /** The type lint rejects exactly the clauses that no observed value could ever decide. */
  lemma BadExpectedIffNeverDecided(clause: Clause)
    ensures BadExpected(clause) <==> forall actual :: Applies(clause.operator, actual, clause.expected).None?
  {
    if !BadExpected(clause) {
      var decisive :=
        if clause.operator.Orders() then One(SInt(0))
        else if clause.operator.Equals? || clause.operator.NotEquals? then clause.expected
        else Many([]);
      assert Applies(clause.operator, decisive, clause.expected).Some?;
    }
  }

  function TypesOf(items: seq<Scalar>): seq<ScalarType> {
    seq(|items|, i requires 0 <= i < |items| => TypeOf(items[i]))
  }

  /** On lists the type test of `not_equals` trips exactly when neither list of item types continues
      the other. Lists of equal length are decided exactly when their item types agree; lists whose
      item types differ are called unequal all the same when one list of types continues the other. */
  lemma NotEqualsOnLists(xs: seq<Scalar>, ys: seq<Scalar>)
    ensures Applies(NotEquals, Many(xs), Many(ys)).None? <==>
            !(TypesOf(xs) <= TypesOf(ys)) && !(TypesOf(ys) <= TypesOf(xs))
    ensures |xs| == |ys| ==> (Applies(NotEquals, Many(xs), Many(ys)).None? <==> TypesOf(xs) != TypesOf(ys))
    ensures TypesOf(xs) < TypesOf(ys) || TypesOf(ys) < TypesOf(xs) <==>
            Applies(NotEquals, Many(xs), Many(ys)) == Some(true) && TypesOf(xs) != TypesOf(ys)
  {
    var short := if |xs| <= |ys| then |xs| else |ys|;
    if SameSchema(Many(xs), Many(ys)) {
      assert TypesOf(xs)[..short] == TypesOf(ys)[..short];
    } else {
      var i :| 0 <= i < short && TypeOf(xs[i]) != TypeOf(ys[i]);
      assert TypesOf(xs)[i] != TypesOf(ys)[i];
    }
  }

  /** A list of one integer and a list of an integer and a string are called unequal, not mistyped. */
  lemma NotEqualsMissesLaterTypes()
    ensures TypesOf([SInt(1)]) != TypesOf([SInt(1), SString("a")])
    ensures Applies(NotEquals, Many([SInt(1)]), Many([SInt(1), SString("a")])) == Some(true)
  {
    NotEqualsOnLists([SInt(1)], [SInt(1), SString("a")]);
    assert |TypesOf([SInt(1)])| == 1;
  }

  /** How the operators relate: opposite comparisons, negation, and membership as a singleton subset. */
  lemma OperatorLaws(actual: Value, expected: Value, item: Scalar)
    ensures Applies(LessThan, actual, expected) == Opposite(Applies(GreaterThanOrEqual, actual, expected))
    ensures Applies(GreaterThan, actual, expected) == Opposite(Applies(LessThanOrEqual, actual, expected))
    ensures Applies(NotEquals, actual, expected).Some? ==>
              Applies(NotEquals, actual, expected) == Opposite(Applies(Equals, actual, expected))
    ensures Applies(Contains, actual, One(item)).Some? ==>
              Applies(Contains, actual, One(item)) == Applies(Subset, Many([item]), actual)
    ensures actual.Many? && actual.items != [] && Applies(Subset, actual, expected) == Some(true) ==>
              Applies(Disjoint, actual, expected) != Some(true)
  {
    if actual.Many? && actual.items != [] {
      var first := actual.items[0];
      assert first in actual.items;
      assert Applies(Subset, actual, expected) == Some(true) ==> first in expected.items;
    }
  }

  function Opposite(r: Option<bool>): Option<bool> {
    match r
    case None => None
    case Some(b) => Some(!b)
  }

  /** When each issue is reported, in terms of the expression tree. */
  ghost predicate Deserved(issue: LintIssue, c: Contract, limits: EvidenceLimits) {
    var leaves, ids := Leaves(c.taskSuccess), ClauseIds(c.clauses);
    match issue
    case TooManyClauses => |c.clauses| > limits.maxClauses
    case ExpressionTooLarge => Nodes(c.taskSuccess) > limits.maxNodes
    case ExpressionTooDeep => Depth(c.taskSuccess) > limits.maxDepth
    case UnknownReference(i, id) => i < |leaves| && leaves[i] == id && id !in ids
    case DuplicateReference(i, id) => i < |leaves| && leaves[i] == id && id in leaves[..i]
    case UnusedClause(id) => id in ids && id !in leaves
    case InvalidExpectedType(id) =>
      exists i :: 0 <= i < |c.clauses| && c.clauses[i].id == id && BadExpected(c.clauses[i])
    case ContractTooLarge => c.payloadBytes > limits.maxBytes
  }

  ghost predicate LintClean(c: Contract, limits: EvidenceLimits) {
    forall issue :: !Deserved(issue, c, limits)
  }

  ghost function StackLeaves(stack: seq<Pending>): seq<string> {
    if stack == [] then [] else Leaves(Top(stack).expr) + StackLeaves(Pop(stack))
  }

  lemma {:induction false} PushAllLeaves(stack: seq<Pending>, children: seq<Expr>, depth: nat)
    ensures StackLeaves(PushAll(stack, children, depth)) == LeavesAll(children) + StackLeaves(stack)
  {
    if children != [] {
      PushAllLeaves(stack, children[1..], depth);
      assert Pop(PushAll(stack, children, depth)) == PushAll(stack, children[1..], depth);
    }
  }

  function FoundLeaf(e: Expr): seq<string> {
    if e.ClauseRef? then [e.clauseId] else []
  }

  lemma PushedLeaves(rest: seq<Pending>, top: Pending)
    ensures Leaves(top.expr) + StackLeaves(rest) == FoundLeaf(top.expr) + StackLeaves(PushChildren(rest, top))
  {
    LeavesOfChildren(top.expr);
    PushAllLeaves(rest, Children(top.expr), top.depth + 1);
  }

  /** Visiting the top node keeps the leaves in order, whatever order the stack holds them in. */
  lemma VisitLeaves(stack: seq<Pending>)
    requires stack != []
    ensures StackLeaves(stack) == FoundLeaf(Top(stack).expr) + StackLeaves(PushChildren(Pop(stack), Top(stack)))
  {
    PushedLeaves(Pop(stack), Top(stack));
  }

  /** What has been collected, together with what is still on the stack, measures the whole. */
  ghost predicate Walking(e: Expr, stack: seq<Pending>, references: seq<string>, nodes: nat, maxDepth: nat) {
    && (forall i :: 0 <= i < |stack| ==> stack[i].depth >= 1)
    && references + StackLeaves(stack) == Leaves(e)
    && nodes + StackNodes(stack) == Nodes(e)
    && Max(maxDepth, StackDepth(stack)) == Depth(e)
  }

  lemma WalkOn(e: Expr, stack: seq<Pending>, references: seq<string>, nodes: nat, maxDepth: nat)
    requires stack != [] && Walking(e, stack, references, nodes, maxDepth)
    ensures var current := Top(stack);
            Walking(e, PushChildren(Pop(stack), current),
                    if current.expr.ClauseRef? then references + [current.expr.clauseId] else references,
                    nodes + 1, Max(maxDepth, current.depth))
    ensures StackNodes(PushChildren(Pop(stack), Top(stack))) < StackNodes(stack)
  {
    var current := Top(stack);
    VisitMeasures(stack);
    VisitLeaves(stack);
    PushAllDepths(Pop(stack), Children(current.expr), current.depth + 1);
    var next := PushChildren(Pop(stack), current);
    ConcatAssociates(references, FoundLeaf(current.expr), StackLeaves(next));
    assert references + [] == references;
  }

  lemma WalkStarts(e: Expr)
    ensures Walking(e, [Pending(e, 1)], [], 0, 0)
  {
    var stack := [Pending(e, 1)];
    assert Pop(stack) == [];
    assert [] + (Leaves(e) + []) == Leaves(e);
  }

  /** The linter's walk computes the recursive measures of the expression. */
  method MeasureExpression(expression: Expr) returns (references: seq<string>, nodes: nat, maxDepth: nat)
    ensures references == Leaves(expression)
    ensures nodes == Nodes(expression) && maxDepth == Depth(expression)
  {
    references, nodes, maxDepth := [], 0, 0;
    var stack := [Pending(expression, 1)];
    WalkStarts(expression);
    while stack != []
      invariant Walking(expression, stack, references, nodes, maxDepth)
      decreases StackNodes(stack)
    {
      var current := Top(stack);
      WalkOn(expression, stack, references, nodes, maxDepth);
      nodes := nodes + 1;
      maxDepth := Max(maxDepth, current.depth);
      if current.expr.ClauseRef? {
        references := references + [current.expr.clauseId];
      }
      stack := PushChildren(Pop(stack), current);
    }
  }

  /** The issues about references, found in one pass with the identifiers seen so far. */
  method LintReferences(references: seq<string>, known: set<string>) returns (issues: set<LintIssue>, seen: set<string>)
    ensures forall x :: x in issues <==>
              || (x.UnknownReference? && x.index < |references| && references[x.index] == x.clauseId
                  && x.clauseId !in known)
              || (x.DuplicateReference? && x.index < |references| && references[x.index] == x.clauseId &&
                  x.clauseId in references[..x.index])
    ensures forall id :: id in seen <==> id in references
  {
    issues, seen := {}, {};
    for i := 0 to |references|
      invariant forall x :: x in issues <==>
                  || (x.UnknownReference? && x.index < i && references[x.index] == x.clauseId && x.clauseId !in known)
                  || (x.DuplicateReference? && x.index < i && references[x.index] == x.clauseId &&
                      x.clauseId in references[..x.index])
      invariant forall id :: id in seen <==> id in references[..i]
    {
      var id := references[i];
      if id !in known {
        issues := issues + {UnknownReference(i, id)};
      }
      if id in seen {
        issues := issues + {DuplicateReference(i, id)};
      }
      seen := seen + {id};
    }
  }

  lemma ClauseIdsMembers(clauses: seq<Clause>)
    ensures forall id :: id in ClauseIds(clauses) <==> exists j :: 0 <= j < |clauses| && clauses[j].id == id
  {
    forall j | 0 <= j < |clauses| ensures clauses[j].id in ClauseIds(clauses) {
      assert ClauseIds(clauses)[j] == clauses[j].id;
    }
  }

  method LintClauses(clauses: seq<Clause>, seen: set<string>) returns (issues: set<LintIssue>)
    ensures forall x :: x in issues <==>
              || (x.UnusedClause? && x.clauseId !in seen && x.clauseId in ClauseIds(clauses))
              || (x.InvalidExpectedType? &&
                  exists i :: 0 <= i < |clauses| && clauses[i].id == x.clauseId && BadExpected(clauses[i]))
  {
    issues := {};
    for i := 0 to |clauses|
      invariant forall x :: x in issues <==>
                  || (x.UnusedClause? && x.clauseId !in seen && exists j :: 0 <= j < i && clauses[j].id == x.clauseId)
                  || (x.InvalidExpectedType? &&
                      exists j :: 0 <= j < i && clauses[j].id == x.clauseId && BadExpected(clauses[j]))
    {
      if clauses[i].id !in seen {
        issues := issues + {UnusedClause(clauses[i].id)};
      }
      if BadExpected(clauses[i]) {
        issues := issues + {InvalidExpectedType(clauses[i].id)};
      }
    }
    ClauseIdsMembers(clauses);
  }

  /** Exactly the deserved issues are reported. */
  method Lint(c: Contract, limits: EvidenceLimits) returns (issues: set<LintIssue>)
    ensures forall x :: x in issues <==> Deserved(x, c, limits)
  {
    var references, nodes, maxDepth := MeasureExpression(c.taskSuccess);
    issues := {};
    if |c.clauses| > limits.maxClauses {
      issues := issues + {TooManyClauses};
    }
    if nodes > limits.maxNodes {
      issues := issues + {ExpressionTooLarge};
    }
    if maxDepth > limits.maxDepth {
      issues := issues + {ExpressionTooDeep};
    }
    if c.payloadBytes > limits.maxBytes {
      issues := issues + {ContractTooLarge};
    }
    var known := set id | id in ClauseIds(c.clauses);
    var aboutReferences, seen := LintReferences(references, known);
    var aboutClauses := LintClauses(c.clauses, seen);
    issues := issues + aboutReferences + aboutClauses;
  }

  /** A linted contract is read-once: its leaves are a permutation of its clause identifiers. */
  lemma LintedIsReadOnce(c: Contract, limits: EvidenceLimits)
    requires ValidContract(c) && LintClean(c, limits)
    ensures Distinct(Leaves(c.taskSuccess))
    ensures multiset(Leaves(c.taskSuccess)) == multiset(ClauseIds(c.clauses))
  {
    var leaves, ids := Leaves(c.taskSuccess), ClauseIds(c.clauses);
    forall i, j | 0 <= i < j < |leaves|
      ensures leaves[i] != leaves[j]
    {
      assert !Deserved(DuplicateReference(j, leaves[j]), c, limits);
    }
    forall id ensures id in leaves <==> id in ids {
      assert !Deserved(UnusedClause(id), c, limits);
      if id in leaves {
        var i :| 0 <= i < |leaves| && leaves[i] == id;
        assert !Deserved(UnknownReference(i, id), c, limits);
      }
    }
    DistinctSameMembers(leaves, ids);
  }

  lemma {:induction false} DistinctCounts<T>(s: seq<T>, x: T)
    requires Distinct(s)
    ensures multiset(s)[x] == if x in s then 1 else 0
  {
    if s != [] {
      DistinctCounts(s[1..], x);
      assert s == [s[0]] + s[1..];
    }
  }

  lemma DistinctSameMembers<T(!new)>(a: seq<T>, b: seq<T>)
    requires Distinct(a) && Distinct(b)
    requires forall x :: x in a <==> x in b
    ensures multiset(a) == multiset(b)
  {
    forall x ensures multiset(a)[x] == multiset(b)[x] {
      DistinctCounts(a, x);
      DistinctCounts(b, x);
    }
  }

  // ----- evaluation -----

  /** A digest stands for what it covers: observations are sorted first, so for their multiset. */
  datatype SetDigest = OfSet(observations: multiset<Observation>) | Refused(count: nat, limit: nat)

  datatype ErrorCode = TooManyObservations | LintFailed | DuplicateObservationId

  datatype Evaluation =
    | Completed(digest: SetDigest, verdict: Logical, predicates: seq<PredicateEvaluation>)
    | Error(digest: SetDigest, error: ErrorCode)

  function ObservationIds(observations: seq<Observation>): seq<string> {
    seq(|observations|, i requires 0 <= i < |observations| => observations[i].id)
  }

  /** The dictionary from clause identifier to result. */
  function ResultTable(predicates: seq<PredicateEvaluation>): (table: Results)
    ensures forall id :: id in table <==> exists i :: 0 <= i < |predicates| && predicates[i].clauseId == id
  {
    if predicates == [] then map[]
    else
      var last := predicates[|predicates| - 1];
      ResultTable(predicates[..|predicates| - 1])[last.clauseId := last.result]
  }

  lemma {:induction false} ResultTableHolds(predicates: seq<PredicateEvaluation>, i: nat)
    requires i < |predicates|
    requires forall j, k :: 0 <= j < k < |predicates| ==> predicates[j].clauseId != predicates[k].clauseId
    ensures ResultTable(predicates)[predicates[i].clauseId] == predicates[i].result
  {
    if i < |predicates| - 1 {
      ResultTableHolds(predicates[..|predicates| - 1], i);
    }
  }

  /** Every reference of a linted contract has a result. */
  lemma LintedIsKnown(c: Contract, limits: EvidenceLimits, observations: seq<Observation>)
    requires ValidContract(c) && LintClean(c, limits)
    ensures Known(Leaves(c.taskSuccess), ResultTable(ClauseResults(c.clauses, observations)).Keys)
  {
    var results := ClauseResults(c.clauses, observations);
    LintedIsReadOnce(c, limits);
    forall id | id in Leaves(c.taskSuccess)
      ensures id in ResultTable(results)
    {
      assert id in multiset(ClauseIds(c.clauses));
      assert id in ClauseIds(c.clauses);
      var i :| 0 <= i < |c.clauses| && ClauseIds(c.clauses)[i] == id;
      assert results[i].clauseId == id;
    }
  }

  ghost function Verdict(c: Contract, limits: EvidenceLimits, observations: seq<Observation>): Logical
    requires ValidContract(c) && LintClean(c, limits)
  {
    LintedIsKnown(c, limits, observations);
    Eval(c.taskSuccess, ResultTable(ClauseResults(c.clauses, observations)))
  }

  ghost function EvaluationOf(c: Contract, limits: EvidenceLimits, observations: seq<Observation>): Evaluation
    requires ValidContract(c)
  {
    if |observations| > limits.maxObservations then
      Error(Refused(|observations|, limits.maxObservations), TooManyObservations)
    else if !LintClean(c, limits) then Error(OfSet(multiset(observations)), LintFailed)
    else if !Distinct(ObservationIds(observations)) then Error(OfSet(multiset(observations)), DuplicateObservationId)
    else
      Completed(OfSet(multiset(observations)), Verdict(c, limits, observations), ClauseResults(c.clauses, observations))
  }

  method Evaluate(c: Contract, limits: EvidenceLimits, observations: seq<Observation>) returns (r: Evaluation)
    requires ValidContract(c)
    ensures r == EvaluationOf(c, limits, observations)
  {
    if |observations| > limits.maxObservations {
      return Error(Refused(|observations|, limits.maxObservations), TooManyObservations);
    }
    var digest := OfSet(multiset(observations));
    var issues := Lint(c, limits);
    if issues != {} {
      return Error(digest, LintFailed);
    }
    if !Distinct(ObservationIds(observations)) {
      return Error(digest, DuplicateObservationId);
    }
    var predicates := EvaluateClauses(c.clauses, observations);
    LintedIsKnown(c, limits, observations);
    r := Completed(digest, Eval(c.taskSuccess, ResultTable(predicates)), predicates);
  }

  /** A completed verdict is exact with respect to the ways the open clauses might still turn out. */
  lemma CompletedVerdictIsExact(c: Contract, limits: EvidenceLimits, observations: seq<Observation>)
    requires ValidContract(c) && EvaluationOf(c, limits, observations).Completed?
    ensures var e, p, verdict := c.taskSuccess, ResultTable(ClauseResults(c.clauses, observations)),
                                 EvaluationOf(c, limits, observations).verdict;
            && Known(Leaves(e), p.Keys)
            && (verdict == Pass <==> forall v :: Completes(p, v) ==> CompletionWith(e, p, v, true))
            && (verdict == Fail <==> forall v :: Completes(p, v) ==> CompletionWith(e, p, v, false))
            && (verdict == Indeterminate <==>
                  (exists v :: CompletionWith(e, p, v, true)) && (exists v :: CompletionWith(e, p, v, false)))
  {
    LintedIsReadOnce(c, limits);
    LintedIsKnown(c, limits, observations);
    VerdictIsExact(c.taskSuccess, ResultTable(ClauseResults(c.clauses, observations)));
  }

  // ----- how the verdict moves with the observations -----

  /** Only the matching observations count, and only a single one can decide. */
  lemma ClauseResultIs(clause: Clause, observations: seq<Observation>)
    ensures var matches := Matching(observations, clause.selector);
            EvaluateClause(clause, observations).result ==
            if |matches| == 1 then JudgeOne(clause, matches[0].status).0 else Indeterminate
  {
    var entries := ById(Matching(observations, clause.selector));
    if |entries| == 1 {
      assert SortByKey(entries)[0] in entries;
    }
  }

  lemma {:induction false} MatchingAppends(a: seq<Observation>, b: seq<Observation>, selector: Selector)
    ensures Matching(a + b, selector) == Matching(a, selector) + Matching(b, selector)
  {
    if a == [] {
      assert a + b == b;
    } else {
      assert (a + b)[1..] == a[1..] + b;
      MatchingAppends(a[1..], b, selector);
    }
  }

  ghost predicate ClausesRefine(c: Contract, coarse: seq<Observation>, fine: seq<Observation>) {
    forall i :: 0 <= i < |c.clauses| ==>
      Refines(EvaluateClause(c.clauses[i], coarse).result, EvaluateClause(c.clauses[i], fine).result)
  }

  lemma TableLookup(c: Contract, observations: seq<Observation>, i: nat)
    requires ValidContract(c) && i < |c.clauses|
    ensures c.clauses[i].id in ResultTable(ClauseResults(c.clauses, observations))
    ensures ResultTable(ClauseResults(c.clauses, observations))[c.clauses[i].id] ==
            EvaluateClause(c.clauses[i], observations).result
  {
    var results := ClauseResults(c.clauses, observations);
    assert results[i].clauseId == c.clauses[i].id;
    forall j, k | 0 <= j < k < |results| ensures results[j].clauseId != results[k].clauseId {
      assert ClauseIds(c.clauses)[j] != ClauseIds(c.clauses)[k];
    }
    ResultTableHolds(results, i);
  }

  lemma VerdictFollowsClauses(c: Contract, limits: EvidenceLimits, coarse: seq<Observation>, fine: seq<Observation>)
    requires ValidContract(c) && LintClean(c, limits)
    requires ClausesRefine(c, coarse, fine)
    ensures Refines(Verdict(c, limits, coarse), Verdict(c, limits, fine))
  {
    LintedIsKnown(c, limits, coarse);
    LintedIsKnown(c, limits, fine);
    LintedIsReadOnce(c, limits);
    var p, q := ResultTable(ClauseResults(c.clauses, coarse)), ResultTable(ClauseResults(c.clauses, fine));
    forall id | id in Leaves(c.taskSuccess)
      ensures Refines(p[id], q[id])
    {
      assert id in multiset(ClauseIds(c.clauses));
      var i :| 0 <= i < |c.clauses| && ClauseIds(c.clauses)[i] == id;
      TableLookup(c, coarse, i);
      TableLookup(c, fine, i);
    }
    VerdictIsMonotone(c.taskSuccess, p, q);
  }

  /** The two evaluations of one contract complete, and the verdict only gains information. */
  ghost predicate OnlyResolves(c: Contract, limits: EvidenceLimits, before: seq<Observation>, after: seq<Observation>)
    requires ValidContract(c)
  {
    EvaluationOf(c, limits, before).Completed? && EvaluationOf(c, limits, after).Completed? ==>
      Refines(EvaluationOf(c, limits, before).verdict, EvaluationOf(c, limits, after).verdict)
  }

  /** Replacing an unavailable or errored observation by any other for its selector never flips a
      PASS or FAIL. */
  lemma ResolvingNeverFlips(c: Contract, limits: EvidenceLimits, before: seq<Observation>, i: nat,
                            resolved: Observation)
    requires ValidContract(c)
    requires i < |before| && !before[i].status.Observed? && resolved.selector == before[i].selector
    ensures OnlyResolves(c, limits, before, before[i := resolved])
  {
    var after := before[i := resolved];
    assert before == before[..i] + ([before[i]] + before[i + 1..]);
    assert after == before[..i] + ([resolved] + before[i + 1..]);
    forall k | 0 <= k < |c.clauses|
      ensures Refines(EvaluateClause(c.clauses[k], before).result, EvaluateClause(c.clauses[k], after).result)
    {
      var clause := c.clauses[k];
      MatchingAround(before[..i], before[i], before[i + 1..], clause.selector);
      MatchingAround(before[..i], resolved, before[i + 1..], clause.selector);
      ClauseResultIs(clause, before);
      ClauseResultIs(clause, after);
    }
    if EvaluationOf(c, limits, before).Completed? && EvaluationOf(c, limits, after).Completed? {
      VerdictFollowsClauses(c, limits, before, after);
    }
  }

  lemma MatchingAround(front: seq<Observation>, o: Observation, back: seq<Observation>, selector: Selector)
    ensures Matching(front + ([o] + back), selector) ==
            Matching(front, selector) + ((if o.selector == selector then [o] else []) + Matching(back, selector))
    ensures Matching(front + back, selector) == Matching(front, selector) + Matching(back, selector)
  {
    MatchingAppends(front, [o] + back, selector);
    MatchingAppends(front, back, selector);
    assert ([o] + back)[1..] == back;
  }

  /** An observation for a selector that had none never flips a PASS or FAIL; one for a selector
      that had some can only move the verdict towards INDETERMINATE. */
  lemma AddingAnObservation(c: Contract, limits: EvidenceLimits, front: seq<Observation>, added: Observation,
                            back: seq<Observation>)
    requires ValidContract(c)
    ensures Matching(front + back, added.selector) == [] ==>
              OnlyResolves(c, limits, front + back, front + ([added] + back))
    ensures Matching(front + back, added.selector) != [] ==>
              OnlyResolves(c, limits, front + ([added] + back), front + back)
  {
    var before, after := front + back, front + ([added] + back);
    forall k | 0 <= k < |c.clauses|
      ensures var b, a := EvaluateClause(c.clauses[k], before).result, EvaluateClause(c.clauses[k], after).result;
              if Matching(before, added.selector) == [] then Refines(b, a) else Refines(a, b)
    {
      var clause := c.clauses[k];
      MatchingAround(front, added, back, clause.selector);
      ClauseResultIs(clause, before);
      ClauseResultIs(clause, after);
    }
    if EvaluationOf(c, limits, before).Completed? && EvaluationOf(c, limits, after).Completed? {
      if Matching(before, added.selector) == [] {
        VerdictFollowsClauses(c, limits, before, after);
      } else {
        VerdictFollowsClauses(c, limits, after, before);
      }
    }
  }

  // ----- permutations -----

  lemma {:induction false} MatchingKeepsDistinct(observations: seq<Observation>, selector: Selector)
    requires Distinct(ObservationIds(observations))
    ensures Distinct(ObservationIds(Matching(observations, selector)))
  {
    if observations != [] {
      var rest := observations[1..];
      DistinctTail(observations);
      MatchingKeepsDistinct(rest, selector);
      if observations[0].selector == selector {
        DistinctCons(observations[0], Matching(rest, selector));
      } else {
        assert [] + Matching(rest, selector) == Matching(rest, selector);
      }
    }
  }

  lemma DistinctCons(o: Observation, rest: seq<Observation>)
    requires Distinct(ObservationIds(rest))
    requires forall x :: x in rest ==> x.id != o.id
    ensures Distinct(ObservationIds([o] + rest))
  {
    var ids := ObservationIds([o] + rest);
    assert ids == [o.id] + ObservationIds(rest);
    forall i, j | 0 <= i < j < |ids|
      ensures ids[i] != ids[j]
    {
      assert rest[j - 1] in rest && ids[j] == rest[j - 1].id;
      if i > 0 {
        assert ids[i] == ObservationIds(rest)[i - 1] && ids[j] == ObservationIds(rest)[j - 1];
      }
    }
  }

  lemma DistinctTail(observations: seq<Observation>)
    requires observations != [] && Distinct(ObservationIds(observations))
    ensures Distinct(ObservationIds(observations[1..]))
    ensures forall o :: o in observations[1..] ==> o.id != observations[0].id
  {
    forall i | 0 <= i < |observations| - 1
      ensures observations[1..][i].id != observations[0].id
    {
      assert ObservationIds(observations)[0] != ObservationIds(observations)[i + 1];
    }
    forall i, j | 0 <= i < j < |observations| - 1
      ensures ObservationIds(observations[1..])[i] != ObservationIds(observations[1..])[j]
    {
      assert ObservationIds(observations)[i + 1] != ObservationIds(observations)[j + 1];
    }
  }

  /** Sorting the matches by identifier forgets the order in which they came. */
  lemma SortedMatchesAgree(a: seq<Observation>, b: seq<Observation>)
    requires Distinct(ObservationIds(a)) && Distinct(ObservationIds(b))
    requires forall o :: o in a <==> o in b
    ensures SortByKey(ById(a)) == SortByKey(ById(b))
  {
    EntriesDistinct(a);
    EntriesDistinct(b);
    SortAscends(ById(a));
    SortAscends(ById(b));
    EntriesIncluded(a, b);
    EntriesIncluded(b, a);
    AscendingUnique(SortByKey(ById(a)), SortByKey(ById(b)));
  }

  lemma EntriesDistinct(a: seq<Observation>)
    requires Distinct(ObservationIds(a))
    ensures DistinctKeys(ById(a))
  {
    forall i, j | 0 <= i < j < |a|
      ensures ById(a)[i].key != ById(a)[j].key
    {
      assert ObservationIds(a)[i] != ObservationIds(a)[j];
      if Codes(a[i].id) == Codes(a[j].id) {
        CodesInjective(a[i].id, a[j].id);
      }
    }
  }

  lemma EntriesIncluded(a: seq<Observation>, b: seq<Observation>)
    requires forall o :: o in a ==> o in b
    ensures forall e :: e in ById(a) ==> e in ById(b)
  {
    forall e | e in ById(a) ensures e in ById(b) {
      assert e.item in a;
      var j :| 0 <= j < |b| && b[j] == e.item;
      assert ById(b)[j] == e;
    }
  }

  /** Whether identifiers repeat does not depend on the order of the observations. */
  ghost predicate OneEach(m: multiset<Observation>) {
    forall x, y :: x in m && y in m && x.id == y.id ==> x == y && m[x] == 1
  }

  lemma DistinctIdsByMultiset(a: seq<Observation>)
    ensures Distinct(ObservationIds(a)) <==> OneEach(multiset(a))
  {
    if Distinct(ObservationIds(a)) {
      forall i, j | 0 <= i < j < |a| ensures a[i] != a[j] {
        assert ObservationIds(a)[i] != ObservationIds(a)[j];
      }
      forall x, y | x in multiset(a) && y in multiset(a) && x.id == y.id
        ensures x == y && multiset(a)[x] == 1
      {
        DistinctCounts(a, x);
        var i :| 0 <= i < |a| && a[i] == x;
        var j :| 0 <= j < |a| && a[j] == y;
        assert ObservationIds(a)[i] == ObservationIds(a)[j];
      }
    } else {
      var i, j :| 0 <= i < j < |a| && ObservationIds(a)[i] == ObservationIds(a)[j];
      assert a[i] in multiset(a) && a[j] in multiset(a);
      RepeatedCount(a, i, j);
    }
  }

  lemma RepeatedCount<T>(a: seq<T>, i: nat, j: nat)
    requires i < j < |a|
    ensures a[i] == a[j] ==> multiset(a)[a[i]] >= 2
  {
    assert a == a[..j] + a[j..];
    assert multiset(a) == multiset(a[..j]) + multiset(a[j..]);
    assert a[i] == a[..j][i] && a[j] == a[j..][0];
  }

  /** Permuting the observations changes nothing: not the digest, the errors, the predicate
      evaluations or the verdict. */
  lemma PermutationChangesNothing(c: Contract, limits: EvidenceLimits, a: seq<Observation>, b: seq<Observation>)
    requires ValidContract(c) && multiset(a) == multiset(b)
    ensures EvaluationOf(c, limits, a) == EvaluationOf(c, limits, b)
  {
    assert |a| == |multiset(a)| == |multiset(b)| == |b|;
    DistinctIdsByMultiset(a);
    DistinctIdsByMultiset(b);
    if LintClean(c, limits) && Distinct(ObservationIds(a)) {
      forall i | 0 <= i < |c.clauses|
        ensures ClauseResults(c.clauses, a)[i] == ClauseResults(c.clauses, b)[i]
      {
        PermutationKeepsClause(c.clauses[i], a, b);
      }
      assert ClauseResults(c.clauses, a) == ClauseResults(c.clauses, b);
    }
  }

  lemma PermutationKeepsClause(clause: Clause, a: seq<Observation>, b: seq<Observation>)
    requires multiset(a) == multiset(b) && Distinct(ObservationIds(a)) && Distinct(ObservationIds(b))
    ensures EvaluateClause(clause, a) == EvaluateClause(clause, b)
  {
    forall o ensures o in a <==> o in b {
      assert o in a <==> o in multiset(a);
      assert o in b <==> o in multiset(b);
    }
    MatchingKeepsDistinct(a, clause.selector);
    MatchingKeepsDistinct(b, clause.selector);
    SortedMatchesAgree(Matching(a, clause.selector), Matching(b, clause.selector));
  }
}
