/**
 What a clause says about the one observation that matches it, operator by operator, and
 what a contract says whose clauses are all decided.
 */
module EvidenceTruth {
  import opened Options
  import opened Ordering
  import opened EvidenceExpression
  import opened EvidenceLogic
  import opened EvidenceEvaluation

  // ----- one clause -----

  /** The i-th observation is the only one for the clause. */
  ghost predicate OnlyMatch(clause: Clause, observations: seq<Observation>, i: nat) {
    && i < |observations| && observations[i].selector == clause.selector
    && forall j :: 0 <= j < |observations| && j != i ==> observations[j].selector != clause.selector
  }

  lemma {:induction false} NoMatch(observations: seq<Observation>, selector: Selector)
    requires forall o :: o in observations ==> o.selector != selector
    ensures Matching(observations, selector) == []
  {
    if observations != [] {
      NoMatch(observations[1..], selector);
    }
  }

  lemma OnlyMatchIs(clause: Clause, observations: seq<Observation>, i: nat)
    requires OnlyMatch(clause, observations, i)
    ensures Matching(observations, clause.selector) == [observations[i]]
  {
    var front, o, back := observations[..i], observations[i], observations[i + 1..];
    assert observations == front + ([o] + back);
    MatchingAround(front, o, back, clause.selector);
    NoMatch(front, clause.selector);
    NoMatch(back, clause.selector);
  }

  lemma {:induction false} TwoMatch(observations: seq<Observation>, selector: Selector, i: nat, j: nat)
    requires i < j < |observations|
    requires observations[i].selector == selector && observations[j].selector == selector
    ensures |Matching(observations, selector)| >= 2
  {
    if i > 0 {
      TwoMatch(observations[1..], selector, i - 1, j - 1);
    } else {
      assert observations[1..][j - 1] in observations[1..];
      assert observations[j] in Matching(observations[1..], selector);
    }
  }

  ghost predicate Says(e: PredicateEvaluation, clause: Clause, result: Logical, reason: ReasonCode) {
    e.clauseId == clause.id && e.result == result && e.reason == reason
  }

  /** A clause that no observation, or more than one, matches is open. */
  lemma UnmatchedClause(clause: Clause, observations: seq<Observation>)
    ensures (forall o :: o in observations ==> o.selector != clause.selector) ==>
              Says(EvaluateClause(clause, observations), clause, Indeterminate, MissingObservation)
    ensures forall i, j :: 0 <= i < j < |observations| && observations[i].selector == clause.selector &&
                           observations[j].selector == clause.selector ==>
              Says(EvaluateClause(clause, observations), clause, Indeterminate, AmbiguousObservation)
  {
    if forall o :: o in observations ==> o.selector != clause.selector {
      NoMatch(observations, clause.selector);
    }
    forall i, j | 0 <= i < j < |observations| &&
                  observations[i].selector == clause.selector && observations[j].selector == clause.selector
      ensures Says(EvaluateClause(clause, observations), clause, Indeterminate, AmbiguousObservation)
    {
      TwoMatch(observations, clause.selector, i, j);
    }
  }

  lemma MatchedClause(clause: Clause, observations: seq<Observation>, i: nat)
    requires OnlyMatch(clause, observations, i)
    ensures var judged := JudgeOne(clause, observations[i].status);
            EvaluateClause(clause, observations) ==
            PredicateEvaluation(clause.id, judged.0, [observations[i].id], judged.1)
  {
    OnlyMatchIs(clause, observations, i);
    var entries := ById([observations[i]]);
    assert SortByKey(entries)[0] in entries;
  }

  /** An observation that could not be made leaves the clause open and says why. */
  lemma UnobservedClause(clause: Clause, observations: seq<Observation>, i: nat)
    requires OnlyMatch(clause, observations, i)
    ensures observations[i].status.Unavailable? ==>
              Says(EvaluateClause(clause, observations), clause, Indeterminate, ObservationUnavailable)
    ensures observations[i].status.Errored? ==>
              Says(EvaluateClause(clause, observations), clause, Indeterminate, ObservationError)
  {
    MatchedClause(clause, observations, i);
  }

  // ----- the truth table -----

  predicate SameKind(a: Scalar, b: Scalar) {
    (a.SBool? && b.SBool?) || (a.SInt? && b.SInt?) || (a.SString? && b.SString?)
  }

  predicate BothInts(v: Value, w: Value) {
    v.One? && v.scalar.SInt? && w.One? && w.scalar.SInt?
  }

  predicate BothLists(v: Value, w: Value) {
    v.Many? && w.Many?
  }

  predicate HasKind(x: Scalar, ys: seq<Scalar>) {
    exists j :: 0 <= j < |ys| && SameKind(x, ys[j])
  }

  /** Every item of one list has a counterpart of its kind in the other. */
  predicate KindsWithin(xs: seq<Scalar>, ys: seq<Scalar>) {
    forall i :: 0 <= i < |xs| ==> HasKind(xs[i], ys)
  }

  /** The value has a type that the operator can hold against the expected one. */
  predicate TypesFit(operator: Operator, v: Value, w: Value) {
    match operator
    case Equals => true
    case NotEquals =>
      || (v.One? && w.One? && SameKind(v.scalar, w.scalar))
      || (v.Many? && w.Many? &&
          forall i :: 0 <= i < |v.items| && i < |w.items| ==> SameKind(v.items[i], w.items[i]))
    case LessThan => BothInts(v, w)
    case LessThanOrEqual => BothInts(v, w)
    case GreaterThan => BothInts(v, w)
    case GreaterThanOrEqual => BothInts(v, w)
    case Contains => v.Many? && w.One?
    case Subset => BothLists(v, w)
    case Disjoint =>
      BothLists(v, w) &&
      (v.items == [] || w.items == [] || (KindsWithin(v.items, w.items) && KindsWithin(w.items, v.items)))
  }

  /** The relation that the operator names. */
  predicate Holds(operator: Operator, v: Value, w: Value)
    requires TypesFit(operator, v, w)
  {
    match operator
    case Equals => v == w
    case NotEquals => v != w
    case LessThan => v.scalar.n < w.scalar.n
    case LessThanOrEqual => v.scalar.n <= w.scalar.n
    case GreaterThan => v.scalar.n > w.scalar.n
    case GreaterThanOrEqual => v.scalar.n >= w.scalar.n
    case Contains => exists i :: 0 <= i < |v.items| && v.items[i] == w.scalar
    case Subset => forall i :: 0 <= i < |v.items| ==> v.items[i] in w.items
    case Disjoint => forall i :: 0 <= i < |v.items| ==> v.items[i] !in w.items
  }

  lemma HasKindIff(x: Scalar, ys: seq<Scalar>)
    ensures HasKind(x, ys) <==> TypeOf(x) in TypesIn(ys)
  {
    if HasKind(x, ys) {
      var j :| 0 <= j < |ys| && SameKind(x, ys[j]);
      assert ys[j] in ys && TypeOf(ys[j]) == TypeOf(x);
    }
    if TypeOf(x) in TypesIn(ys) {
      var y :| y in ys && TypeOf(y) == TypeOf(x);
      var j :| 0 <= j < |ys| && ys[j] == y;
      assert SameKind(x, ys[j]);
    }
  }

  lemma TypesGiveKinds(xs: seq<Scalar>, ys: seq<Scalar>)
    requires TypesIn(xs) <= TypesIn(ys)
    ensures KindsWithin(xs, ys)
  {
    forall i | 0 <= i < |xs|
      ensures HasKind(xs[i], ys)
    {
      assert TypeOf(xs[i]) in TypesIn(xs);
      HasKindIff(xs[i], ys);
    }
  }

  lemma KindsGiveTypes(xs: seq<Scalar>, ys: seq<Scalar>)
    requires KindsWithin(xs, ys)
    ensures TypesIn(xs) <= TypesIn(ys)
  {
    forall t | t in TypesIn(xs)
      ensures t in TypesIn(ys)
    {
      var x :| x in xs && TypeOf(x) == t;
      var i :| 0 <= i < |xs| && xs[i] == x;
      HasKindIff(xs[i], ys);
    }
  }

  lemma KindsAgree(xs: seq<Scalar>, ys: seq<Scalar>)
    ensures TypesIn(xs) == TypesIn(ys) <==> KindsWithin(xs, ys) && KindsWithin(ys, xs)
  {
    if TypesIn(xs) == TypesIn(ys) {
      TypesGiveKinds(xs, ys);
      TypesGiveKinds(ys, xs);
    }
    if KindsWithin(xs, ys) && KindsWithin(ys, xs) {
      KindsGiveTypes(xs, ys);
      KindsGiveTypes(ys, xs);
    }
  }

  lemma AppliesMeans(operator: Operator, v: Value, w: Value)
    ensures Applies(operator, v, w) == if TypesFit(operator, v, w) then Some(Holds(operator, v, w)) else None
  {
    if operator.Disjoint? && BothLists(v, w) {
      KindsAgree(v.items, w.items);
    }
  }

  /** The truth table of a clause with one matching observation that has a value: it is satisfied if the
      types fit and the relation holds, not satisfied if the types fit and it does not, and open if the
      types do not fit. */
  lemma ClauseTruthTable(clause: Clause, observations: seq<Observation>, i: nat, v: Value)
    requires OnlyMatch(clause, observations, i) && observations[i].status == Observed(v)
    ensures var e, operator, w := EvaluateClause(clause, observations), clause.operator, clause.expected;
            && e.observationIds == [observations[i].id]
            && (!TypesFit(operator, v, w) ==> Says(e, clause, Indeterminate, TypeMismatch))
            && (TypesFit(operator, v, w) && Holds(operator, v, w) ==> Says(e, clause, Pass, Satisfied))
            && (TypesFit(operator, v, w) && !Holds(operator, v, w) ==> Says(e, clause, Fail, NotSatisfied))
  {
    MatchedClause(clause, observations, i);
    AppliesMeans(clause.operator, v, clause.expected);
  }

  // ----- the contract -----

  /** The clause has one observation, whose value fits: it is decided. */
  ghost predicate IsDecided(clause: Clause, observations: seq<Observation>) {
    exists i: nat :: OnlyMatch(clause, observations, i) && observations[i].status.Observed?
                && TypesFit(clause.operator, observations[i].status.value, clause.expected)
  }

  /** The clause is true of its one observation. */
  ghost predicate IsTrue(clause: Clause, observations: seq<Observation>) {
    exists i: nat :: OnlyMatch(clause, observations, i) && observations[i].status.Observed?
                && TypesFit(clause.operator, observations[i].status.value, clause.expected)
                && Holds(clause.operator, observations[i].status.value, clause.expected)
  }

  /** A clause passes exactly if it is true of its one observation, fails exactly if it is decided and
      not true, and is open otherwise. */
  lemma ClauseResultMeans(clause: Clause, observations: seq<Observation>)
    ensures EvaluateClause(clause, observations).result ==
            if IsTrue(clause, observations) then Pass
            else if IsDecided(clause, observations) then Fail
            else Indeterminate
  {
    if i: nat :| OnlyMatch(clause, observations, i) {
      match observations[i].status
      case Observed(v) => ClauseTruthTable(clause, observations, i, v);
      case _ => UnobservedClause(clause, observations, i);
    } else {
      UnmatchedClause(clause, observations);
      if o :| o in observations && o.selector == clause.selector {
        var i :| 0 <= i < |observations| && observations[i] == o;
        assert !OnlyMatch(clause, observations, i);
      }
    }
  }

  ghost predicate ClauseAgrees(clause: Clause, observations: seq<Observation>, v: Valuation) {
    clause.id in v && (IsDecided(clause, observations) ==> (v[clause.id] <==> IsTrue(clause, observations)))
  }

  /** The valuation gives every clause a truth value, and decided clauses the one that is observed. */
  ghost predicate AgreesWith(c: Contract, observations: seq<Observation>, v: Valuation) {
    forall i :: 0 <= i < |c.clauses| ==> ClauseAgrees(c.clauses[i], observations, v)
  }

  ghost predicate Settles(p: Results, v: Valuation, id: string)
    requires id in p
  {
    id in v && (p[id] == Pass ==> v[id]) && (p[id] == Fail ==> !v[id])
  }

  lemma SettlesIffAgrees(c: Contract, observations: seq<Observation>, v: Valuation, i: nat)
    requires ValidContract(c) && i < |c.clauses|
    ensures var p := ResultTable(ClauseResults(c.clauses, observations));
            c.clauses[i].id in p && (Settles(p, v, c.clauses[i].id) <==> ClauseAgrees(c.clauses[i], observations, v))
  {
    TableLookup(c, observations, i);
    ClauseResultMeans(c.clauses[i], observations);
    assert IsTrue(c.clauses[i], observations) ==> IsDecided(c.clauses[i], observations);
  }

  lemma TableIsOfClauses(c: Contract, observations: seq<Observation>, id: string) returns (i: nat)
    requires id in ResultTable(ClauseResults(c.clauses, observations))
    ensures i < |c.clauses| && c.clauses[i].id == id
  {
    var results := ClauseResults(c.clauses, observations);
    i :| 0 <= i < |results| && results[i].clauseId == id;
  }

  lemma CompletesIffAgrees(c: Contract, observations: seq<Observation>, v: Valuation)
    requires ValidContract(c)
    ensures Completes(ResultTable(ClauseResults(c.clauses, observations)), v) <==> AgreesWith(c, observations, v)
  {
    var p := ResultTable(ClauseResults(c.clauses, observations));
    if AgreesWith(c, observations, v) {
      forall id | id in p
        ensures Settles(p, v, id)
      {
        var i := TableIsOfClauses(c, observations, id);
        SettlesIffAgrees(c, observations, v, i);
      }
    }
    if Completes(p, v) {
      forall i | 0 <= i < |c.clauses|
        ensures ClauseAgrees(c.clauses[i], observations, v)
      {
        SettlesIffAgrees(c, observations, v, i);
      }
    }
  }

  lemma ClausesCoverLeaves(c: Contract, limits: EvidenceLimits, observations: seq<Observation>, v: Valuation)
    requires ValidContract(c) && LintClean(c, limits) && AgreesWith(c, observations, v)
    ensures Known(Leaves(c.taskSuccess), v.Keys)
  {
    LintedIsKnown(c, limits, observations);
    CompletesIffAgrees(c, observations, v);
  }

  /** The expression comes out as `truth` under a valuation that agrees with the observations. */
  ghost predicate MayTurnOut(c: Contract, observations: seq<Observation>, v: Valuation, truth: bool) {
    AgreesWith(c, observations, v) && Known(Leaves(c.taskSuccess), v.Keys) && Truth(c.taskSuccess, v) == truth
  }

  /** What an evaluation says, without its tables: the verdict is PASS exactly if the expression is true
      under every valuation that agrees with the observations, and FAIL exactly if it is false under
      every such valuation. */
  lemma VerdictMeans(c: Contract, limits: EvidenceLimits, observations: seq<Observation>)
    requires ValidContract(c) && EvaluationOf(c, limits, observations).Completed?
    ensures var verdict := EvaluationOf(c, limits, observations).verdict;
            && (verdict == Pass <==>
                  forall v :: AgreesWith(c, observations, v) ==> MayTurnOut(c, observations, v, true))
            && (verdict == Fail <==>
                  forall v :: AgreesWith(c, observations, v) ==> MayTurnOut(c, observations, v, false))
  {
    var p := ResultTable(ClauseResults(c.clauses, observations));
    CompletedVerdictIsExact(c, limits, observations);
    forall v: Valuation
      ensures Completes(p, v) <==> AgreesWith(c, observations, v)
      ensures CompletionWith(c.taskSuccess, p, v, true) <==> MayTurnOut(c, observations, v, true)
      ensures CompletionWith(c.taskSuccess, p, v, false) <==> MayTurnOut(c, observations, v, false)
    {
      CompletesIffAgrees(c, observations, v);
    }
  }

  /** A contract that asks for one clause says what that clause says. */
  lemma SingleClauseVerdict(c: Contract, limits: EvidenceLimits, observations: seq<Observation>)
    requires ValidContract(c) && EvaluationOf(c, limits, observations).Completed?
    requires |c.clauses| == 1 && c.taskSuccess == ClauseRef(c.clauses[0].id)
    ensures EvaluationOf(c, limits, observations).verdict ==
            if IsTrue(c.clauses[0], observations) then Pass
            else if IsDecided(c.clauses[0], observations) then Fail
            else Indeterminate
  {
    TableLookup(c, observations, 0);
    ClauseResultMeans(c.clauses[0], observations);
  }
}
