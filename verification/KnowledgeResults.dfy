/**
 The derived results of the knowledge graph and the checks that their constructors make.
 A result that fails its check is never built: the operation raises instead.
 */
module KnowledgeResults {
  import opened Collections
  import opened DependencyGraph
  import opened KnowledgeModel
  import opened KnowledgeStore
  import opened Ordering
  import opened GraphPaths

  const MAX_DEPTH: nat := 3

  const MAX_RESULTS: nat := 1000

  // ----- paths -----

  predicate Connects(step: Step, current: NodeId, following: NodeId) {
    && step.edge.source != step.edge.target
    && (step.edge.source, step.edge.target) ==
       if step.forward then (current, following) else (following, current)
  }

  predicate AcceptedPath(p: GraphPath, start: NodeId, terminal: NodeId, dependencyOnly: bool) {
    && 1 <= p.depth <= MAX_DEPTH
    && |p.nodeIds| == p.depth + 1 && |p.steps| == p.depth
    && Distinct(p.nodeIds)
    && p.nodeIds[0] == start && p.nodeIds[p.depth] == terminal
    && forall i :: 0 <= i < p.depth ==>
         && Connects(p.steps[i], p.nodeIds[i], p.nodeIds[i + 1])
         && (dependencyOnly ==> p.steps[i].forward && p.steps[i].edge.edgeType.IsDependency())
  }

  lemma LinkConnects(s: Store, view: View, from: NodeId, link: Link)
    requires link in Links(s, view, from)
    ensures Connects(link.step, from, link.other)
    ensures view == Dependencies ==> link.step.forward && link.step.edge.edgeType.IsDependency()
  {
    var e :| e in EdgesAt(s, from) && Offers(view, e, from) && link == LinkOf(e, from);
    var k :| k in s.edges && s.edges[k] == e;
  }

  /** The path check accepts a least path to another node unless it is too long: it never comes back
      to a node, its steps connect, and among dependencies it only goes forward. */
  lemma LeastPathAcceptedIff(s: Store, view: View, start: NodeId, to: NodeId, p: GraphPath)
    requires LeastPath(s, view, start, to, p) && start != to
    ensures AcceptedPath(p, start, to, view == Dependencies) <==> p.depth <= MAX_DEPTH
  {
    LeastPathIsSimple(s, view, start, to, p);
    forall i | 0 <= i < p.depth
      ensures Connects(p.steps[i], p.nodeIds[i], p.nodeIds[i + 1])
      ensures view == Dependencies ==> p.steps[i].forward && p.steps[i].edge.edgeType.IsDependency()
    {
      LinkConnects(s, view, p.nodeIds[i], Link(p.nodeIds[i + 1], p.steps[i]));
    }
  }

  // ----- dependency inspections -----

  datatype DependencyState = DependencyState(id: NodeId, status: TaskStatus, path: GraphPath, satisfied: bool)

  datatype Reason =
    | DependencyUnmet(id: NodeId, status: TaskStatus)
    | TraversalTruncated(depth: nat)
    | TaskNotReady(status: TaskStatus)

  datatype Inspection = Inspection(
    task: NodeId,
    maxDepth: nat,
    revision: Store,
    dependencies: seq<DependencyState>,
    allSatisfied: bool,
    truncated: bool,
    unmetReasons: seq<Reason>)

  function ReasonOf(d: DependencyState): seq<Reason> {
    if d.satisfied then [] else [DependencyUnmet(d.id, d.status)]
  }

  /** One reason for every dependency that is not satisfied, in order. */
  function Unmet(dependencies: seq<DependencyState>): (reasons: seq<Reason>)
    ensures reasons == [] <==> forall d :: d in dependencies ==> d.satisfied
    ensures |reasons| <= |dependencies|
  {
    if dependencies == [] then [] else ReasonOf(dependencies[0]) + Unmet(dependencies[1..])
  }

  function UnmetReasons(dependencies: seq<DependencyState>, truncated: bool, maxDepth: nat): seq<Reason> {
    Unmet(dependencies) + if truncated then [TraversalTruncated(maxDepth)] else []
  }

  /** A reason for each dependency that is not satisfied, naming it and its status, and no other reason. */
  lemma {:induction false} UnmetTells(dependencies: seq<DependencyState>)
    ensures forall r :: r in Unmet(dependencies) <==>
              exists d :: d in dependencies && !d.satisfied && r == DependencyUnmet(d.id, d.status)
  {
    if dependencies != [] {
      UnmetTells(dependencies[1..]);
      assert forall d :: d in dependencies <==> d == dependencies[0] || d in dependencies[1..];
    }
  }

  /** The reasons come in the order of the dependencies. */
  lemma {:induction false} UnmetInOrder(a: seq<DependencyState>, b: seq<DependencyState>)
    ensures Unmet(a + b) == Unmet(a) + Unmet(b)
  {
    if a == [] {
      assert a + b == b;
    } else {
      TailOfConcat(a, b);
      UnmetInOrder(a[1..], b);
      ConcatAssociates(ReasonOf(a[0]), Unmet(a[1..]), Unmet(b));
    }
  }

  function StateEntry(d: DependencyState): Keyed<DependencyState> {
    Keyed([d.path.depth, d.id], d)
  }

  function StateEntries(states: seq<DependencyState>): seq<Keyed<DependencyState>> {
    seq(|states|, i requires 0 <= i < |states| => StateEntry(states[i]))
  }

  /** The check does not know the task yet: it takes the start of the path as it is. */
  predicate AcceptedState(d: DependencyState) {
    && d.path.nodeIds != [] && AcceptedPath(d.path, d.path.nodeIds[0], d.id, true)
    && (d.satisfied <==> d.status == Completed)
  }

  predicate AcceptedInspection(r: Inspection) {
    && r.maxDepth <= MAX_DEPTH
    && |r.dependencies| <= MAX_RESULTS
    && (forall d :: d in r.dependencies ==>
          AcceptedState(d) && d.path.nodeIds[0] == r.task && d.path.depth <= r.maxDepth)
    && Ascending(StateEntries(r.dependencies))
    && (forall i, j :: 0 <= i < j < |r.dependencies| ==> r.dependencies[i].id != r.dependencies[j].id)
    && |r.unmetReasons| <= MAX_RESULTS + 1
    && r.unmetReasons == UnmetReasons(r.dependencies, r.truncated, r.maxDepth)
    && (r.allSatisfied <==> r.unmetReasons == [])
  }

  // ----- scores and search hits -----

  datatype Score = Score(matched: seq<Match>, lexical: nat, graph: int, total: int)

  function Lexical(matched: seq<Match>): nat {
    if matched == [] then 0 else matched[0].weight + Lexical(matched[1..])
  }

  /** Nearer is better: one step is worth ten points. */
  function ScoreFor(matched: seq<Match>, depth: nat): Score {
    var lexical, graph := Lexical(matched), (MAX_DEPTH + 1 - depth) * 10;
    Score(matched, lexical, graph, lexical * 100 + graph)
  }

  datatype Hit = Hit(anchor: NodeId, revision: Store, node: Node, path: GraphPath, score: Score)

  function HitEntry(h: Hit): Keyed<Hit> {
    Keyed([-h.score.total, h.path.depth, h.node.id], h)
  }

  function TermsOf(matched: seq<Match>): (terms: seq<Term>)
    ensures |terms| == |matched|
  {
    if matched == [] then [] else [matched[0].term] + TermsOf(matched[1..])
  }

  /** The weight that a node gives to some of its terms. */
  function WeightOf(weights: map<Term, nat>, terms: seq<Term>): nat
    requires forall t :: t in terms ==> t in weights
  {
    if terms == [] then 0 else weights[terms[0]] + WeightOf(weights, terms[1..])
  }

  predicate AcceptedTerms(terms: seq<Term>) {
    |terms| <= MAX_QUERY_TERMS && Normalized(terms)
  }

  predicate AcceptedScore(score: Score, node: Node, depth: nat) {
    var terms := TermsOf(score.matched);
    && AcceptedTerms(terms)
    && (forall t :: t in terms ==> t in node.terms)
    && 1 <= depth <= MAX_DEPTH
    && score.lexical == WeightOf(node.terms, terms)
    && score.graph == (MAX_DEPTH + 1 - depth) * 10
    && score.total == score.lexical * 100 + score.graph
    && score.graph >= 0 && score.total >= 0
  }

  predicate AcceptedHit(h: Hit) {
    && AcceptedPath(h.path, h.anchor, h.node.id, false)
    && AcceptedScore(h.score, h.node, h.path.depth) && h.score.matched != []
  }

  predicate TermsFit(terms: seq<Term>, weights: map<Term, nat>, query: seq<Term>) {
    && |terms| <= |query| && Normalized(terms)
    && forall t :: t in terms ==> t in weights && t in query
  }

  lemma TermsFitTail(terms: seq<Term>, weights: map<Term, nat>, query: seq<Term>)
    requires Normalized(query) && query != [] && TermsFit(terms, weights, query[1..])
    ensures TermsFit(terms, weights, query)
    ensures query[0] in weights ==> TermsFit([query[0]] + terms, weights, query)
  {
    forall t | t in terms
      ensures query[0] < t && t in query
    {
      var k :| 0 <= k < |query[1..]| && query[1..][k] == t;
      assert query[k + 1] == t;
    }
    assert forall i :: 0 <= i < |terms| ==> terms[i] in terms;
  }

  /** Every term that is in the query and in the node is matched, with its weight there. */
  lemma {:induction false} EveryTermIsMatched(weights: map<Term, nat>, query: seq<Term>)
    ensures forall m :: m in Matches(weights, query) <==>
              m.term in query && m.term in weights && m.weight == weights[m.term]
  {
    if query != [] {
      EveryTermIsMatched(weights, query[1..]);
      assert forall t :: t in query <==> t == query[0] || t in query[1..];
    }
  }

  /** The terms matched by a normalised query are normalised, are those on both sides, and weigh what
      the node gives them. */
  lemma {:induction false} MatchedTerms(weights: map<Term, nat>, query: seq<Term>)
    requires Normalized(query)
    ensures TermsFit(TermsOf(Matches(weights, query)), weights, query)
    ensures forall m :: m in Matches(weights, query) <==>
              m.term in query && m.term in weights && m.weight == weights[m.term]
    ensures Lexical(Matches(weights, query)) == WeightOf(weights, TermsOf(Matches(weights, query)))
  {
    EveryTermIsMatched(weights, query);
    if query != [] {
      var rest := Matches(weights, query[1..]);
      MatchedTerms(weights, query[1..]);
      TermsFitTail(TermsOf(rest), weights, query);
      if query[0] in weights {
        TailOfConcat([Match(query[0], weights[query[0]])], rest);
        TailOfConcat([query[0]], TermsOf(rest));
      } else {
        assert Matches(weights, query) == rest;
      }
    }
  }

  /** The score check accepts what scoring a stored node against a query of permitted size yields. */
  lemma ScoreIsAccepted(node: Node, query: seq<Term>, depth: nat)
    requires AcceptedTerms(query) && 1 <= depth <= MAX_DEPTH
    ensures AcceptedScore(ScoreFor(Matches(node.terms, query), depth), node, depth)
  {
    MatchedTerms(node.terms, query);
  }

  // ----- next-step candidates and plans -----

  datatype Candidate = Candidate(
    anchor: NodeId,
    task: Node,
    path: GraphPath,
    score: Score,
    inspection: Inspection,
    eligible: bool,
    unmetReasons: seq<Reason>)

  /** A candidate in its place, counted from one. */
  datatype Ranked = Ranked(rank: nat, candidate: Candidate)

  datatype Plan = Plan(
    anchor: NodeId,
    queryTerms: seq<Term>,
    maxDepth: nat,
    dependencyMaxDepth: nat,
    revision: Store,
    candidates: seq<Ranked>)

  function CandidateEntry(c: Candidate): Keyed<Candidate> {
    Keyed([if c.eligible then 0 else 1, -c.score.total, c.path.depth, c.task.id], c)
  }

  function RankedEntries(candidates: seq<Ranked>): seq<Keyed<Candidate>> {
    seq(|candidates|, i requires 0 <= i < |candidates| => CandidateEntry(candidates[i].candidate))
  }

  function StatusReasons(status: TaskStatus): seq<Reason> {
    if status == Ready then [] else [TaskNotReady(status)]
  }

  /** The check takes the inspection as one that has passed its own. */
  predicate AcceptedCandidate(r: Ranked) {
    var c := r.candidate;
    && 1 <= r.rank <= MAX_RESULTS
    && c.task.kind.Task?
    && AcceptedPath(c.path, c.anchor, c.task.id, false)
    && AcceptedScore(c.score, c.task, c.path.depth)
    && c.inspection.task == c.task.id
    && |c.unmetReasons| <= MAX_RESULTS + 2
    && c.unmetReasons == StatusReasons(c.task.kind.status) + c.inspection.unmetReasons
    && (c.eligible <==> c.unmetReasons == [])
  }

  /** What a plan demands of each candidate. */
  predicate FitsPlan(p: Plan, c: Candidate) {
    && c.anchor == p.anchor && c.path.depth <= p.maxDepth
    && (forall t :: t in TermsOf(c.score.matched) ==> t in p.queryTerms)
    && c.inspection.maxDepth == p.dependencyMaxDepth && c.inspection.revision == p.revision
  }

  /** Ranks count from one, tasks are distinct, and better candidates come first. */
  predicate InOrder(candidates: seq<Ranked>) {
    && (forall i :: 0 <= i < |candidates| ==> candidates[i].rank == i + 1)
    && (forall i, j :: 0 <= i < j < |candidates| ==>
          candidates[i].candidate.task.id != candidates[j].candidate.task.id)
    && Ascending(RankedEntries(candidates))
  }

  predicate AcceptedPlan(p: Plan) {
    && AcceptedTerms(p.queryTerms)
    && p.maxDepth <= MAX_DEPTH && p.dependencyMaxDepth <= MAX_DEPTH
    && |p.candidates| <= MAX_RESULTS
    && InOrder(p.candidates)
    && (forall i :: 0 <= i < |p.candidates| ==> FitsPlan(p, p.candidates[i].candidate))
  }

  // ----- what the reasons say -----

  /** The reasons of an accepted inspection: each dependency that is not completed, with its status, and
      whether the traversal was cut off. */
  lemma InspectionReasons(r: Inspection)
    requires AcceptedInspection(r)
    ensures forall id, status :: DependencyUnmet(id, status) in r.unmetReasons <==>
              status != Completed && exists d :: d in r.dependencies && d.id == id && d.status == status
    ensures forall depth :: TraversalTruncated(depth) in r.unmetReasons <==> r.truncated && depth == r.maxDepth
    ensures forall status :: TaskNotReady(status) !in r.unmetReasons
  {
    UnmetTells(r.dependencies);
  }

  /** Those of a candidate are these and, before them, its own status if that is not ready. */
  lemma CandidateReasons(c: Ranked)
    requires AcceptedCandidate(c) && AcceptedInspection(c.candidate.inspection)
    ensures forall status :: TaskNotReady(status) in c.candidate.unmetReasons <==>
              status == c.candidate.task.kind.status != Ready
    ensures forall r :: r in c.candidate.unmetReasons && !r.TaskNotReady? <==>
              r in c.candidate.inspection.unmetReasons
  {
    InspectionReasons(c.candidate.inspection);
  }
}
