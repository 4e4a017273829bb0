/**
 The three-valued verdict of an expression over clause results, its two-valued
 meaning, and how exactly the first predicts the second.
 */
module EvidenceLogic {
  import opened Collections
  import opened EvidenceExpression

  datatype Logical = Pass | Fail | Indeterminate

  type Results = map<string, Logical>

  type Valuation = map<string, bool>

  /** The referenced clause identifiers, left to right. */
  function Leaves(e: Expr): seq<string> {
    match e
    case ClauseRef(id) => [id]
    case AllOf(cs) => LeavesAll(cs)
    case AnyOf(cs) => LeavesAll(cs)
    case AtLeast(_, cs) => LeavesAll(cs)
    case Not(c) => Leaves(c)
  }

  function LeavesAll(es: seq<Expr>): seq<string> {
    if es == [] then [] else Leaves(es[0]) + LeavesAll(es[1..])
  }

  lemma LeavesOfChildren(e: Expr)
    ensures Leaves(e) == (if e.ClauseRef? then [e.clauseId] else LeavesAll(Children(e)))
  {
    if e.Not? {
      assert LeavesAll([e.child]) == Leaves(e.child) + LeavesAll([e.child][1..]);
    }
  }

  predicate Known(ids: seq<string>, keys: set<string>) {
    forall id :: id in ids ==> id in keys
  }

  function Count<T(==)>(s: seq<T>, x: T): nat {
    if s == [] then 0 else (if s[0] == x then 1 else 0) + Count(s[1..], x)
  }

  // ----- strong Kleene evaluation -----

  function EvalAll(es: seq<Expr>, p: Results): (rs: seq<Logical>)
    requires Known(LeavesAll(es), p.Keys)
    ensures |rs| == |es|
  {
    if es == [] then [] else [Eval(es[0], p)] + EvalAll(es[1..], p)
  }

  function Eval(e: Expr, p: Results): Logical
    requires Known(Leaves(e), p.Keys)
  {
    match e
    case ClauseRef(id) => assert id in Leaves(e); p[id]
    case AllOf(cs) =>
      var rs := EvalAll(cs, p);
      if Fail in rs then Fail
      else if forall i :: 0 <= i < |rs| ==> rs[i] == Pass then Pass
      else Indeterminate
    case AnyOf(cs) =>
      var rs := EvalAll(cs, p);
      if Pass in rs then Pass
      else if forall i :: 0 <= i < |rs| ==> rs[i] == Fail then Fail
      else Indeterminate
    case AtLeast(minimum, cs) =>
      var rs := EvalAll(cs, p);
      var passes, indeterminate := Count(rs, Pass), Count(rs, Indeterminate);
      if passes >= minimum then Pass
      else if passes + indeterminate < minimum then Fail
      else Indeterminate
    case Not(c) => Negate(Eval(c, p))
  }

  function Negate(r: Logical): Logical {
    match r
    case Pass => Fail
    case Fail => Pass
    case Indeterminate => Indeterminate
  }

  // ----- two-valued meaning -----

  predicate Truth(e: Expr, v: Valuation)
    requires Known(Leaves(e), v.Keys)
  {
    match e
    case ClauseRef(id) => assert id in Leaves(e); v[id]
    case AllOf(cs) => forall i :: 0 <= i < |cs| ==> TruthAll(cs, v)[i]
    case AnyOf(cs) => exists i :: 0 <= i < |cs| && TruthAll(cs, v)[i]
    case AtLeast(minimum, cs) => Count(TruthAll(cs, v), true) >= minimum
    case Not(c) => !Truth(c, v)
  }

  function TruthAll(es: seq<Expr>, v: Valuation): (ts: seq<bool>)
    requires Known(LeavesAll(es), v.Keys)
    ensures |ts| == |es|
  {
    if es == [] then [] else [Truth(es[0], v)] + TruthAll(es[1..], v)
  }

  /** `v` settles every indeterminate result one way or the other. */
  predicate Completes(p: Results, v: Valuation) {
    forall id :: id in p ==> id in v && (p[id] == Pass ==> v[id]) && (p[id] == Fail ==> !v[id])
  }

  // ----- all branches are thresholds -----

  function Threshold(e: Expr): int
    requires e.Branches()
  {
    match e
    case AllOf(cs) => |cs|
    case AnyOf(_) => 1
    case AtLeast(minimum, _) => minimum
  }

  lemma {:induction false} CountAll<T>(s: seq<T>, x: T)
    ensures Count(s, x) <= |s|
    ensures Count(s, x) == |s| <==> forall i :: 0 <= i < |s| ==> s[i] == x
    ensures Count(s, x) >= 1 <==> x in s
  {
    if s != [] {
      CountAll(s[1..], x);
      assert s == [s[0]] + s[1..];
    }
  }

  lemma {:induction false} CountsPartition(rs: seq<Logical>)
    ensures Count(rs, Pass) + Count(rs, Fail) + Count(rs, Indeterminate) == |rs|
  {
    if rs != [] {
      CountsPartition(rs[1..]);
      assert rs[0].Pass? || rs[0].Fail? || rs[0].Indeterminate?;
    }
  }

  /** Every branch asks how many children pass: all, one, or the stated minimum. */
  lemma EvalByThreshold(e: Expr, p: Results)
    requires e.Branches() && Known(Leaves(e), p.Keys)
    ensures var passes, open := Count(EvalAll(e.children, p), Pass), Count(EvalAll(e.children, p), Indeterminate);
            Eval(e, p) == if passes >= Threshold(e) then Pass
                          else if passes + open < Threshold(e) then Fail
                          else Indeterminate
  {
    var rs := EvalAll(e.children, p);
    CountsPartition(rs);
    CountAll(rs, Pass);
    CountAll(rs, Fail);
  }

  lemma TruthByThreshold(e: Expr, v: Valuation)
    requires e.Branches() && Known(Leaves(e), v.Keys)
    ensures Truth(e, v) <==> Count(TruthAll(e.children, v), true) >= Threshold(e)
  {
    CountAll(TruthAll(e.children, v), true);
  }

  // ----- soundness -----

  /** A definite verdict holds under every completion, whether or not references repeat. */
  lemma {:induction false} Sound(e: Expr, p: Results, v: Valuation)
    requires Known(Leaves(e), p.Keys) && Known(Leaves(e), v.Keys) && Completes(p, v)
    ensures Eval(e, p) == Pass ==> Truth(e, v)
    ensures Eval(e, p) == Fail ==> !Truth(e, v)
  {
    match e
    case ClauseRef(id) => assert id in Leaves(e);
    case Not(c) => Sound(c, p, v);
    case _ =>
      SoundAll(e.children, p, v);
      EvalByThreshold(e, p);
      TruthByThreshold(e, v);
  }

  lemma {:induction false} SoundAll(es: seq<Expr>, p: Results, v: Valuation)
    requires Known(LeavesAll(es), p.Keys) && Known(LeavesAll(es), v.Keys) && Completes(p, v)
    ensures Count(EvalAll(es, p), Pass) <= Count(TruthAll(es, v), true)
    ensures Count(TruthAll(es, v), true) <= Count(EvalAll(es, p), Pass) + Count(EvalAll(es, p), Indeterminate)
  {
    if es != [] {
      Sound(es[0], p, v);
      SoundAll(es[1..], p, v);
    }
  }

  // ----- exactness for read-once expressions -----

  /** Settle the indeterminate leaves of a read-once expression so as to push its value as far as
      possible towards `want`: under a negation, push the other way. */
  ghost function Push(e: Expr, p: Results, want: bool): (v: Valuation)
    requires Known(Leaves(e), p.Keys)
    ensures forall id :: id in v <==> id in Leaves(e)
    ensures forall id :: id in v ==> (p[id] == Pass ==> v[id]) && (p[id] == Fail ==> !v[id])
  {
    match e
    case ClauseRef(id) =>
      assert id in Leaves(e);
      map[id := p[id] == Pass || (p[id] == Indeterminate && want)]
    case Not(c) => Push(c, p, !want)
    case AllOf(cs) => PushEach(cs, p, want)
    case AnyOf(cs) => PushEach(cs, p, want)
    case AtLeast(_, cs) => PushEach(cs, p, want)
  }

  ghost function PushEach(es: seq<Expr>, p: Results, want: bool): (v: Valuation)
    requires Known(LeavesAll(es), p.Keys)
    ensures forall id :: id in v <==> id in LeavesAll(es)
    ensures forall id :: id in v ==> (p[id] == Pass ==> v[id]) && (p[id] == Fail ==> !v[id])
  {
    if es == [] then map[] else Push(es[0], p, want) + PushEach(es[1..], p, want)
  }

  ghost predicate Follows(v: Valuation, w: Valuation) {
    forall id :: id in w ==> id in v && v[id] == w[id]
  }

  lemma {:induction false} PushDecides(e: Expr, p: Results, want: bool, v: Valuation)
    requires Known(Leaves(e), p.Keys) && Distinct(Leaves(e))
    requires Follows(v, Push(e, p, want))
    ensures Known(Leaves(e), v.Keys)
    ensures Truth(e, v) <==> if want then Eval(e, p) != Fail else Eval(e, p) == Pass
  {
    match e
    case ClauseRef(id) =>
      assert id in Leaves(e);
    case Not(c) =>
      PushDecides(c, p, !want, v);
    case _ =>
      PushEachDecides(e.children, p, want, v);
      EvalByThreshold(e, p);
      TruthByThreshold(e, v);
  }

  lemma {:induction false} PushEachDecides(es: seq<Expr>, p: Results, want: bool, v: Valuation)
    requires Known(LeavesAll(es), p.Keys) && Distinct(LeavesAll(es))
    requires Follows(v, PushEach(es, p, want))
    ensures Known(LeavesAll(es), v.Keys)
    ensures Count(TruthAll(es, v), true) ==
            Count(EvalAll(es, p), Pass) + if want then Count(EvalAll(es, p), Indeterminate) else 0
  {
    if es != [] {
      var first, rest := Leaves(es[0]), LeavesAll(es[1..]);
      DistinctParts(first, rest);
      PushDecides(es[0], p, want, v);
      PushEachDecides(es[1..], p, want, v);
    }
  }

  lemma DistinctParts<T>(a: seq<T>, b: seq<T>)
    requires Distinct(a + b)
    ensures Distinct(a) && Distinct(b)
    ensures forall x :: x in a ==> x !in b
  {
    var s := a + b;
    assert forall i :: 0 <= i < |a| ==> a[i] == s[i];
    assert forall i :: 0 <= i < |b| ==> b[i] == s[|a| + i];
  }

  ghost function Settled(p: Results): Valuation {
    map id | id in p :: p[id] == Pass
  }

  ghost predicate CompletionWith(e: Expr, p: Results, v: Valuation, value: bool)
    requires Known(Leaves(e), p.Keys)
  {
    Completes(p, v) && Truth(e, v) == value
  }

  /** The pushed valuation, completed on the other results. */
  lemma PushCompletes(e: Expr, p: Results, want: bool) returns (v: Valuation)
    requires Known(Leaves(e), p.Keys) && Distinct(Leaves(e))
    ensures Completes(p, v)
    ensures Truth(e, v) <==> if want then Eval(e, p) != Fail else Eval(e, p) == Pass
  {
    v := Settled(p) + Push(e, p, want);
    PushDecides(e, p, want, v);
  }

  /** For a read-once expression the verdict is exact: PASS exactly when every completion is true,
      FAIL exactly when every one is false, INDETERMINATE exactly when there is one of each. */
  lemma VerdictIsExact(e: Expr, p: Results)
    requires Known(Leaves(e), p.Keys) && Distinct(Leaves(e))
    ensures Eval(e, p) == Pass <==> forall v :: Completes(p, v) ==> CompletionWith(e, p, v, true)
    ensures Eval(e, p) == Fail <==> forall v :: Completes(p, v) ==> CompletionWith(e, p, v, false)
    ensures Eval(e, p) == Indeterminate <==>
            (exists v :: CompletionWith(e, p, v, true)) && (exists v :: CompletionWith(e, p, v, false))
  {
    forall v | Completes(p, v)
      ensures Eval(e, p) == Pass ==> CompletionWith(e, p, v, true)
      ensures Eval(e, p) == Fail ==> CompletionWith(e, p, v, false)
    {
      Sound(e, p, v);
    }
    var high := PushCompletes(e, p, true);
    var low := PushCompletes(e, p, false);
    assert Eval(e, p) != Fail ==> CompletionWith(e, p, high, true);
    assert Eval(e, p) != Pass ==> CompletionWith(e, p, low, false);
  }

  /** Without the read-once rule the verdict is only sound: here every completion is true, yet the
      verdict is INDETERMINATE. */
  lemma RepeatedReferenceIsInexact()
    ensures var e, p := AnyOf([ClauseRef("c"), Not(ClauseRef("c"))]), map["c" := Indeterminate];
            && Known(Leaves(e), p.Keys) && !Distinct(Leaves(e))
            && Eval(e, p) == Indeterminate
            && forall v :: Completes(p, v) ==> CompletionWith(e, p, v, true)
  {
    var c := ClauseRef("c");
    var e, p := AnyOf([c, Not(c)]), map["c" := Indeterminate];
    ChildrenOfPair(c, Not(c));
    assert Leaves(e) == ["c", "c"];
    assert Leaves(e)[0] == Leaves(e)[1];
    assert EvalAll([Not(c)], p) == [Indeterminate];
    assert EvalAll(e.children, p) == [Indeterminate, Indeterminate];
    assert EvalAll(e.children, p)[0] == Indeterminate;
    forall v: Valuation | Completes(p, v)
      ensures CompletionWith(e, p, v, true)
    {
      assert TruthAll(e.children, v)[0] == v["c"];
      assert TruthAll([Not(c)], v)[0] == Truth(Not(c), v);
      assert TruthAll(e.children, v)[1] == TruthAll(e.children[1..], v)[0];
    }
  }

  lemma ChildrenOfPair(a: Expr, b: Expr)
    ensures [a, b][1..] == [b] && [b][1..] == []
    ensures LeavesAll([a, b]) == Leaves(a) + Leaves(b)
  {
    assert [a, b][1..] == [b] && [b][1..] == [];
    assert LeavesAll([b]) == Leaves(b) + LeavesAll([b][1..]) == Leaves(b);
    assert LeavesAll([a, b]) == Leaves(a) + LeavesAll([b]);
  }

  // ----- monotonicity -----

  /** The information order: only an indeterminate result may still change. */
  predicate Refines(coarse: Logical, fine: Logical) {
    coarse == Indeterminate || coarse == fine
  }

  predicate AllRefine(ids: seq<string>, coarse: Results, fine: Results) {
    Known(ids, coarse.Keys) && Known(ids, fine.Keys) && forall id :: id in ids ==> Refines(coarse[id], fine[id])
  }

  /** Learning more about the clauses never flips a definite verdict. */
  lemma {:induction false} VerdictIsMonotone(e: Expr, coarse: Results, fine: Results)
    requires AllRefine(Leaves(e), coarse, fine)
    ensures Refines(Eval(e, coarse), Eval(e, fine))
  {
    match e
    case ClauseRef(id) => assert id in Leaves(e);
    case Not(c) => VerdictIsMonotone(c, coarse, fine);
    case _ =>
      CountsAreMonotone(e.children, coarse, fine);
      EvalByThreshold(e, coarse);
      EvalByThreshold(e, fine);
  }

  lemma {:induction false} CountsAreMonotone(es: seq<Expr>, coarse: Results, fine: Results)
    requires AllRefine(LeavesAll(es), coarse, fine)
    ensures Count(EvalAll(es, coarse), Pass) <= Count(EvalAll(es, fine), Pass)
    ensures Count(EvalAll(es, coarse), Pass) + Count(EvalAll(es, coarse), Indeterminate) >=
            Count(EvalAll(es, fine), Pass) + Count(EvalAll(es, fine), Indeterminate)
  {
    if es != [] {
      VerdictIsMonotone(es[0], coarse, fine);
      CountsAreMonotone(es[1..], coarse, fine);
    }
  }
}
