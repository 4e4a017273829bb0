/**
 The integrity check's cycle test: Kahn's count of the nodes that can be removed
 in topological order. It is run on a list of edges, in which the two dependency
 types may put parallel arcs between the same nodes.
 */
module KnowledgeIntegrity {
  import opened Collections
  import opened DependencyGraph
  import opened KnowledgeModel

  /** The dependency edges of the list, in order. */
  function DependencyEdges(edges: seq<RawEdge>): (r: seq<RawEdge>)
    ensures forall e :: e in r <==> e in edges && e.edgeType.IsDependency()
  {
    if edges == [] then []
    else
      (if edges[0].edgeType.IsDependency() then [edges[0]] else []) + DependencyEdges(edges[1..])
  }

  /** Targets of the listed edges that leave `source`, one entry per edge. */
  ghost function Targets(edges: seq<RawEdge>, source: NodeId): seq<NodeId> {
    if edges == [] then []
    else
      Targets(edges[..|edges| - 1], source) +
      if edges[|edges| - 1].source == source then [edges[|edges| - 1].target] else []
  }

  /** Number of listed edges into `node` whose source has not been removed. */
  ghost function InDegree(edges: seq<RawEdge>, node: NodeId, removed: set<NodeId>): nat {
    if edges == [] then 0
    else
      InDegree(edges[..|edges| - 1], node, removed) +
      if edges[|edges| - 1].target == node && edges[|edges| - 1].source !in removed then 1 else 0
  }

  /** Removing a node lowers the in-degree of every node by the parallel arcs between them. */
  lemma {:induction false} RemovalLowersInDegree(edges: seq<RawEdge>, node: NodeId, removed: set<NodeId>, next: NodeId)
    requires next !in removed
    ensures InDegree(edges, node, removed) ==
            InDegree(edges, node, removed + {next}) + multiset(Targets(edges, next))[node]
  {
    if edges != [] {
      RemovalLowersInDegree(edges[..|edges| - 1], node, removed, next);
    }
  }

  lemma {:induction false} InDegreeZeroIff(edges: seq<RawEdge>, node: NodeId, removed: set<NodeId>)
    ensures InDegree(edges, node, removed) == 0 <==>
            forall e :: e in edges && e.target == node ==> e.source in removed
  {
    if edges != [] {
      var rest, last := edges[..|edges| - 1], edges[|edges| - 1];
      assert edges == rest + [last];
      InDegreeZeroIff(rest, node, removed);
    }
  }

  lemma {:induction false} TargetsAreTargets(edges: seq<RawEdge>, source: NodeId)
    ensures forall t :: t in Targets(edges, source) ==> exists e :: e in edges && e.target == t
  {
    if edges != [] {
      var rest, last := edges[..|edges| - 1], edges[|edges| - 1];
      assert edges == rest + [last];
      TargetsAreTargets(rest, source);
      assert last in edges;
    }
  }

  /** A numbering of some nodes, below `bound`, that rises along every arc into them. */
  ghost predicate Ranks(arcs: set<Arc>, rank: map<NodeId, nat>, bound: nat) {
    && (forall v :: v in rank ==> rank[v] < bound)
    && (forall a :: a in arcs && a.target in rank ==> a.source in rank && rank[a.source] < rank[a.target])
  }

  /** A numbering of every arc target rules out cycles. */
  lemma RankedGraphIsAcyclic(arcs: set<Arc>, rank: map<NodeId, nat>, bound: nat)
    requires Ranks(arcs, rank, bound)
    requires forall a :: a in arcs ==> a.target in rank
    ensures !HasCycle(arcs)
  {
    forall walk | IsWalk(arcs, walk) && |walk| >= 2
      ensures walk[0] != walk[|walk| - 1]
    {
      RankedWalkRises(arcs, rank, walk);
    }
  }

  ghost predicate CountsAgree(edges: seq<RawEdge>, nodes: set<NodeId>, removed: set<NodeId>,
                              incoming: map<NodeId, int>, pending: multiset<NodeId>)
  {
    && incoming.Keys == nodes
    && forall v :: v in nodes ==> incoming[v] == InDegree(edges, v, removed) + pending[v]
  }

  function EndpointIds(edges: seq<RawEdge>): (ids: set<NodeId>)
    ensures forall e :: e in edges ==> e.source in ids && e.target in ids
  {
    (set e | e in edges :: e.source) + (set e | e in edges :: e.target)
  }

  method BuildTables(edges: seq<RawEdge>, nodeIds: set<NodeId>)
    returns (outgoing: map<NodeId, seq<NodeId>>, incoming: map<NodeId, int>)
    requires forall e :: e in edges ==> e.source in nodeIds && e.target in nodeIds
    ensures outgoing.Keys == nodeIds
    ensures forall v :: v in nodeIds ==> outgoing[v] == Targets(edges, v)
    ensures CountsAgree(edges, nodeIds, {}, incoming, multiset{})
  {
    outgoing := map v | v in nodeIds :: [];
    incoming := map v | v in nodeIds :: 0;
    for i := 0 to |edges|
      invariant outgoing.Keys == nodeIds
      invariant forall v :: v in nodeIds ==> outgoing[v] == Targets(edges[..i], v)
      invariant CountsAgree(edges[..i], nodeIds, {}, incoming, multiset{})
    {
      var edge := edges[i];
      var prefix := edges[..i + 1];
      assert prefix[..i] == edges[..i] && prefix[i] == edge;
      assert edge in edges;
      outgoing := outgoing[edge.source := outgoing[edge.source] + [edge.target]];
      incoming := incoming[edge.target := incoming[edge.target] + 1];
    }
    assert edges[..|edges|] == edges;
  }

  /** One node has been removed: lower the counts of its targets, and make ready the ones that
      reach zero. Each node becomes ready at most once. */
  method ReleaseTargets(ghost edges: seq<RawEdge>, ghost nodeIds: set<NodeId>, ghost removed: set<NodeId>,
                        targets: seq<NodeId>, incoming: map<NodeId, int>, ready: set<NodeId>)
    returns (lowered: map<NodeId, int>, nowReady: set<NodeId>)
    requires forall t :: t in targets ==> t in nodeIds
    requires CountsAgree(edges, nodeIds, removed, incoming, multiset(targets))
    requires ReadyAtZero(nodeIds, removed, incoming, ready)
    ensures CountsAgree(edges, nodeIds, removed, lowered, multiset{})
    ensures ReadyAtZero(nodeIds, removed, lowered, nowReady)
  {
    var pending := multiset(targets);
    lowered, nowReady := incoming, ready;
    while pending != multiset{}
      invariant forall t :: t in pending ==> t in nodeIds
      invariant CountsAgree(edges, nodeIds, removed, lowered, pending)
      invariant ReadyAtZero(nodeIds, removed, lowered, nowReady)
      decreases |pending|
    {
      var target := TakeSomeOf(pending);
      assert lowered[target] > 0;
      pending := pending - multiset{target};
      lowered := lowered[target := lowered[target] - 1];
      if lowered[target] == 0 {
        assert target !in nowReady && target !in removed;
        nowReady := nowReady + {target};
      }
    }
  }

  /** True exactly when the dependency edges of the list contain a directed cycle, whatever
      order the ready nodes and their targets are taken in. */
  method DependencyEdgesContainCycle(edges: seq<RawEdge>) returns (cyclic: bool)
    ensures cyclic <==> HasCycle(DependencyArcs(set e | e in edges))
  {
    var dependencyEdges := DependencyEdges(edges);
    ghost var arcs := DependencyArcs(set e | e in edges);
    assert ArcsOfEdges(dependencyEdges, arcs);
    if dependencyEdges == [] {
      RankedGraphIsAcyclic(arcs, map[], 0);
      return false;
    }
    var nodeIds := EndpointIds(dependencyEdges);
    var outgoing, incoming := BuildTables(dependencyEdges, nodeIds);
    var visited := CountRemovable(dependencyEdges, arcs, nodeIds, outgoing, incoming);
    cyclic := visited != |nodeIds|;
  }

  /** The removal loop: every node is counted exactly when the graph is acyclic. */
  method CountRemovable(ghost edges: seq<RawEdge>, ghost arcs: set<Arc>, nodeIds: set<NodeId>,
                        outgoing: map<NodeId, seq<NodeId>>, counts: map<NodeId, int>)
    returns (visited: nat)
    requires ArcsOfEdges(edges, arcs)
    requires forall e :: e in edges ==> e.source in nodeIds && e.target in nodeIds
    requires outgoing.Keys == nodeIds
    requires forall v :: v in nodeIds ==> outgoing[v] == Targets(edges, v)
    requires CountsAgree(edges, nodeIds, {}, counts, multiset{})
    ensures visited != |nodeIds| <==> HasCycle(arcs)
  {
    var incoming := counts;
    var ready := set v | v in nodeIds && incoming[v] == 0;
    visited := 0;
    ghost var rank: map<NodeId, nat> := map[];
    while ready != {}
      invariant visited == |rank.Keys|
      invariant RemovalState(edges, arcs, nodeIds, rank, visited, incoming, ready)
      decreases nodeIds - rank.Keys
    {
      var current := TakeSome(ready);
      RemoveReadyNode(edges, arcs, nodeIds, rank, visited, incoming, ready, current);
      ready := ready - {current};
      rank := rank[current := visited];
      visited := visited + 1;
      incoming, ready := ReleaseTargets(edges, nodeIds, rank.Keys, outgoing[current], incoming, ready);
    }
    AllRemovedIffAcyclic(edges, arcs, nodeIds, rank, visited);
  }

  /** Between removals: the nodes removed so far are ranked, the counts are the in-degrees that
      remain, and the nodes at zero are exactly the removed and the ready ones. */
  ghost predicate RemovalState(edges: seq<RawEdge>, arcs: set<Arc>, nodeIds: set<NodeId>,
                               rank: map<NodeId, nat>, bound: nat, incoming: map<NodeId, int>, ready: set<NodeId>)
  {
    && Ranks(arcs, rank, bound)
    && CountsAgree(edges, nodeIds, rank.Keys, incoming, multiset{})
    && ReadyAtZero(nodeIds, rank.Keys, incoming, ready)
  }

  ghost predicate ReadyAtZero(nodeIds: set<NodeId>, removed: set<NodeId>, incoming: map<NodeId, int>,
                              ready: set<NodeId>)
  {
    && incoming.Keys == nodeIds
    && removed <= nodeIds && ready <= nodeIds && ready !! removed
    && forall v :: v in nodeIds ==> (incoming[v] == 0 <==> v in removed || v in ready)
  }

  /** Taking a ready node off the heap ranks it next; its targets' counts are then due. */
  lemma RemoveReadyNode(edges: seq<RawEdge>, arcs: set<Arc>, nodeIds: set<NodeId>, rank: map<NodeId, nat>,
                        bound: nat, incoming: map<NodeId, int>, ready: set<NodeId>, next: NodeId)
    requires ArcsOfEdges(edges, arcs)
    requires forall e :: e in edges ==> e.source in nodeIds && e.target in nodeIds
    requires RemovalState(edges, arcs, nodeIds, rank, bound, incoming, ready) && next in ready
    ensures var rank' := rank[next := bound];
            && |rank'.Keys| == |rank.Keys| + 1
            && Ranks(arcs, rank', bound + 1)
            && CountsAgree(edges, nodeIds, rank'.Keys, incoming, multiset(Targets(edges, next)))
            && ReadyAtZero(nodeIds, rank'.Keys, incoming, ready - {next})
    ensures forall t :: t in Targets(edges, next) ==> t in nodeIds
  {
    assert rank[next := bound].Keys == rank.Keys + {next};
    ExtendRanks(edges, arcs, rank, bound, next);
    CountsAfterRemoval(edges, nodeIds, rank.Keys, incoming, next);
  }

  lemma CountsAfterRemoval(edges: seq<RawEdge>, nodeIds: set<NodeId>, removed: set<NodeId>,
                           incoming: map<NodeId, int>, next: NodeId)
    requires forall e :: e in edges ==> e.source in nodeIds && e.target in nodeIds
    requires CountsAgree(edges, nodeIds, removed, incoming, multiset{}) && next !in removed
    ensures CountsAgree(edges, nodeIds, removed + {next}, incoming, multiset(Targets(edges, next)))
    ensures forall t :: t in Targets(edges, next) ==> t in nodeIds
  {
    forall v | v in nodeIds {
      RemovalLowersInDegree(edges, v, removed, next);
    }
    TargetsAreTargets(edges, next);
  }

  ghost predicate ArcsOfEdges(edges: seq<RawEdge>, arcs: set<Arc>) {
    && (forall e :: e in edges ==> ArcOf(e) in arcs)
    && (forall a :: a in arcs ==> exists e :: e in edges && ArcOf(e) == a)
  }

  lemma ExtendRanks(edges: seq<RawEdge>, arcs: set<Arc>, rank: map<NodeId, nat>, bound: nat, next: NodeId)
    requires ArcsOfEdges(edges, arcs)
    requires Ranks(arcs, rank, bound)
    requires next !in rank && InDegree(edges, next, rank.Keys) == 0
    ensures Ranks(arcs, rank[next := bound], bound + 1)
  {
    InDegreeZeroIff(edges, next, rank.Keys);
    forall a | a in arcs && a.target == next
      ensures a.source in rank
    {
      var e :| e in edges && ArcOf(e) == a;
    }
  }

  /** What remains when no node is ready: nothing if the graph is acyclic, otherwise a set in
      which every node has a predecessor. */
  lemma AllRemovedIffAcyclic(edges: seq<RawEdge>, arcs: set<Arc>, nodes: set<NodeId>,
                             rank: map<NodeId, nat>, bound: nat)
    requires ArcsOfEdges(edges, arcs)
    requires forall e :: e in edges ==> e.source in nodes && e.target in nodes
    requires Ranks(arcs, rank, bound) && rank.Keys <= nodes
    requires forall v :: v in nodes ==> (InDegree(edges, v, rank.Keys) == 0 <==> v in rank)
    ensures |rank.Keys| != |nodes| <==> HasCycle(arcs)
  {
    if rank.Keys == nodes {
      RankedGraphIsAcyclic(arcs, rank, bound);
    } else {
      var trapped := nodes - rank.Keys;
      assert nodes == rank.Keys + trapped;
      forall v | v in trapped
        ensures Preceded(arcs, trapped, v)
      {
        InDegreeZeroIff(edges, v, rank.Keys);
        var e :| e in edges && e.target == v && e.source !in rank.Keys;
        assert ArcOf(e) in arcs;
      }
      EveryNodePrecededImpliesCycle(arcs, trapped);
    }
  }
}
