/**
 What the deterministic key of paths means: which of two shortest paths to a node is
 delivered, said in terms of node identifiers and of the texts of the steps.
 */
module PathOrder {
  import opened DependencyGraph
  import opened KnowledgeModel
  import opened KnowledgeStore
  import opened Ordering
  import opened GraphPaths

  lemma LinkIsStored(s: Store, view: View, a: NodeId, link: Link) returns (k: EdgeKey)
    requires link in Links(s, view, a)
    ensures k in s.edges && Offers(view, s.edges[k], a) && link == LinkOf(s.edges[k], a)
  {
    var e :| e in EdgesAt(s, a) && Offers(view, e, a) && link == LinkOf(e, a);
    k :| k in s.edges && s.edges[k] == e;
  }

  lemma StoredIsLink(s: Store, view: View, a: NodeId, k: EdgeKey)
    requires k in s.edges && Offers(view, s.edges[k], a)
    ensures LinkOf(s.edges[k], a) in Links(s, view, a)
  {
    assert s.edges[k] in EdgesAt(s, a);
  }

  predicate Joins(e: RawEdge, a: NodeId, b: NodeId) {
    (e.source == a && e.target == b) || (e.source == b && e.target == a)
  }

  predicate Demands(e: RawEdge, a: NodeId, b: NodeId) {
    e.source == a && e.target == b && (e.edgeType == DependsOn || e.edgeType == Requires)
  }

  ghost predicate Linked(s: Store, view: View, a: NodeId, b: NodeId) {
    exists link :: link in Links(s, view, a) && link.other == b
  }

  /** Two nodes are neighbours exactly when some stored edge joins them in either direction, and one
      depends directly on the other exactly when a stored `depends_on` or `requires` edge leads there. */
  lemma LinkedIff(s: Store, a: NodeId, b: NodeId)
    ensures Linked(s, Neighborhood, a, b) <==> exists k :: k in s.edges && Joins(s.edges[k], a, b)
    ensures Linked(s, Dependencies, a, b) <==> exists k :: k in s.edges && Demands(s.edges[k], a, b)
  {
    forall view, link | link in Links(s, view, a) && link.other == b
      ensures exists k :: k in s.edges && Joins(s.edges[k], a, b)
      ensures view == Dependencies ==> exists k :: k in s.edges && Demands(s.edges[k], a, b)
    {
      var k := LinkIsStored(s, view, a, link);
      assert Joins(s.edges[k], a, b);
      assert view == Dependencies ==> Demands(s.edges[k], a, b);
    }
    forall k | k in s.edges
      ensures Joins(s.edges[k], a, b) ==> Linked(s, Neighborhood, a, b)
      ensures Demands(s.edges[k], a, b) ==> Linked(s, Dependencies, a, b)
    {
      if Joins(s.edges[k], a, b) {
        StoredIsLink(s, Neighborhood, a, k);
      }
      if Demands(s.edges[k], a, b) {
        StoredIsLink(s, Dependencies, a, k);
      }
    }
  }

  /** The text of an edge type, by which the key compares it. */
  function WireName(t: EdgeType): string {
    match t
    case DependsOn => "depends_on"
    case Requires => "requires"
    case Supports => "supports"
    case Contradicts => "contradicts"
    case RelatesTo => "relates_to"
    case Refines => "refines"
    case Supersedes => "supersedes"
    case DerivedFrom => "derived_from"
    case Mentions => "mentions"
  }

  /** Where the names of two edge types part. */
  function PartingOf(a: EdgeType, b: EdgeType): nat {
    if WireName(a)[0] != WireName(b)[0] then 0 else if WireName(a)[0] == 's' then 3 else 2
  }

  /** The edge types are ranked as their names are ordered. */
  lemma RanksFollowNames(a: EdgeType, b: EdgeType)
    requires a.Rank() < b.Rank()
    ensures TextBefore(WireName(a), WireName(b))
  {
    assert DiffersAt(WireName(a), WireName(b), PartingOf(a, b));
  }

  /** A step comes before another: by the name of its edge type, then backward before forward, then by
      what its edge holds. */
  ghost predicate StepBefore(a: Step, b: Step) {
    || TextBefore(WireName(a.edge.edgeType), WireName(b.edge.edgeType))
    || (a.edge.edgeType == b.edge.edgeType && !a.forward && b.forward)
    || (a.edge.edgeType == b.edge.edgeType && a.forward == b.forward && a.edge.body < b.edge.body)
  }

  /** At the first node where the paths differ, `p` has the smaller identifier. */
  ghost predicate NodesBefore(p: GraphPath, q: GraphPath) {
    exists k :: 0 <= k < |p.nodeIds| && k < |q.nodeIds|
                && p.nodeIds[..k] == q.nodeIds[..k] && p.nodeIds[k] < q.nodeIds[k]
  }

  /** They visit the same nodes, and at the first step that differs, `p` has the earlier one. */
  ghost predicate StepsBefore(p: GraphPath, q: GraphPath) {
    p.nodeIds == q.nodeIds &&
    exists k :: 0 <= k < |p.steps| && k < |q.steps|
                && p.steps[..k] == q.steps[..k] && StepBefore(p.steps[k], q.steps[k])
  }

  /** Among all paths to the node this one is shortest, and of the shortest it comes first. */
  ghost predicate FirstPath(s: Store, view: View, start: NodeId, to: NodeId, p: GraphPath) {
    && PathTo(s, view, start, to, p)
    && forall q :: PathTo(s, view, start, to, q) ==>
         p.depth < q.depth || (p.depth == q.depth && (p == q || NodesBefore(p, q) || StepsBefore(p, q)))
  }

  lemma RankInjective(a: EdgeType, b: EdgeType)
    requires a.Rank() == b.Rank()
    ensures a == b
  {
  }

  /** Steps between the same nodes are ordered by name, direction and content. */
  lemma LessStepIsBefore(a: Step, b: Step, current: NodeId, following: NodeId)
    requires StepLess(a, b) && StepJoins(a, current, following) && StepJoins(b, current, following)
    ensures StepBefore(a, b)
  {
    var x, y := Label(a), Label(b);
    var k := FirstDifference(IntLess, x, y);
    forall i | 0 <= i < k ensures x[i] == y[i] {
      assert x[..k][i] == y[..k][i];
    }
    if k == 0 {
      RanksFollowNames(a.edge.edgeType, b.edge.edgeType);
    } else {
      assert x[0] == y[0];
      RankInjective(a.edge.edgeType, b.edge.edgeType);
      assert k > 1 ==> x[1] == y[1];
      assert k > 2 ==> a.edge.source == b.edge.source && a.edge.target == b.edge.target;
    }
  }

  predicate StepJoins(step: Step, current: NodeId, following: NodeId) {
    (step.edge.source, step.edge.target) == if step.forward then (current, following) else (following, current)
  }

  lemma StepsJoin(s: Store, view: View, start: NodeId, to: NodeId, p: GraphPath, k: nat)
    requires PathTo(s, view, start, to, p) && k < |p.steps|
    ensures StepJoins(p.steps[k], p.nodeIds[k], p.nodeIds[k + 1])
  {
    var link := Link(p.nodeIds[k + 1], p.steps[k]);
    assert link in Links(s, view, p.nodeIds[k]);
    var e :| e in EdgesAt(s, p.nodeIds[k]) && Offers(view, e, p.nodeIds[k]) && link == LinkOf(e, p.nodeIds[k]);
  }

  lemma SmallerKeyIsBefore(s: Store, view: View, start: NodeId, to: NodeId, p: GraphPath, q: GraphPath)
    requires PathTo(s, view, start, to, p) && PathTo(s, view, start, to, q) && p.depth == q.depth && KeyLess(p, q)
    ensures NodesBefore(p, q) || StepsBefore(p, q)
  {
    if SeqLess(IdLess, p.nodeIds, q.nodeIds) {
      var k := FirstDifference(IdLess, p.nodeIds, q.nodeIds);
    } else {
      var k := FirstDifference(StepLess, p.steps, q.steps);
      StepsJoin(s, view, start, to, p, k);
      StepsJoin(s, view, start, to, q, k);
      LessStepIsBefore(p.steps[k], q.steps[k], p.nodeIds[k], p.nodeIds[k + 1]);
    }
  }

  /** What the traversals deliver is, among the shortest paths to the node, the one whose nodes come
      first, and among those the one whose steps come first. */
  lemma LeastPathIsFirst(s: Store, view: View, start: NodeId, to: NodeId, p: GraphPath)
    requires LeastPath(s, view, start, to, p)
    ensures FirstPath(s, view, start, to, p)
  {
    forall q | PathTo(s, view, start, to, q)
      ensures p.depth < q.depth || (p.depth == q.depth && (p == q || NodesBefore(p, q) || StepsBefore(p, q)))
    {
      if p.depth == q.depth && p != q {
        SmallerKeyIsBefore(s, view, start, to, p, q);
      }
    }
  }

  lemma LeastPathsAreFirst(s: Store, view: View, start: NodeId, paths: map<NodeId, GraphPath>)
    requires forall n :: n in paths ==> LeastPath(s, view, start, n, paths[n])
    ensures forall n :: n in paths ==> FirstPath(s, view, start, n, paths[n])
  {
    forall n | n in paths
      ensures FirstPath(s, view, start, n, paths[n])
    {
      LeastPathIsFirst(s, view, start, n, paths[n]);
    }
  }
}
