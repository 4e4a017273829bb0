/**
 Which limits on dependencies keep an inspection from being refused by its own constructor.
 */
module KnowledgeLimits {
  import opened DependencyGraph
  import opened KnowledgeModel
  import opened KnowledgeStore
  import opened GraphPaths
  import opened KnowledgeResults
  import opened KnowledgeDependencies

  // ----- a task that depends directly on n others -----

  ghost function UpTo(n: nat): set<NodeId> {
    if n == 0 then {0} else UpTo(n - 1) + {n}
  }

  lemma {:induction false} UpToSize(n: nat)
    ensures |UpTo(n)| == n + 1 && 0 in UpTo(n)
    ensures forall i :: i in UpTo(n) ==> i <= n
  {
    if n > 0 {
      UpToSize(n - 1);
    }
  }

  function StarTask(id: NodeId): Node {
    Node(id, Task(Ready), 0, map[])
  }

  function Spoke(id: NodeId): Edge
    requires id != 0
  {
    RawEdge.Edge(0, id, DependsOn, 0)
  }

  /** Task 0 depends on the tasks 1 to n. */
  function Star(n: nat): Store {
    if n == 0 then WithNode(EMPTY_STORE, StarTask(0))
    else WithEdge(WithNode(Star(n - 1), StarTask(n)), Spoke(n))
  }

  lemma {:induction false} StarNodes(n: nat)
    ensures Star(n).nodes.Keys == UpTo(n) == Star(n).terms.Keys
    ensures forall i :: i in UpTo(n) ==> Star(n).nodes[i] == StarTask(i) && Star(n).terms[i] == map[]
  {
    if n > 0 {
      StarNodes(n - 1);
    }
  }

  lemma {:induction false} StarEdges(n: nat)
    ensures forall k :: k in Star(n).edges <==> k.target in UpTo(n) && k.target != 0 && k == KeyOf(Spoke(k.target))
    ensures forall k :: k in Star(n).edges ==> Star(n).edges[k] == Spoke(k.target)
  {
    if n > 0 {
      StarEdges(n - 1);
    }
  }

  lemma StarShape(n: nat)
    ensures Star(n).nodes.Keys == UpTo(n) == Star(n).terms.Keys
    ensures forall i :: i in UpTo(n) ==> Star(n).nodes[i] == StarTask(i) && Star(n).terms[i] == map[]
    ensures forall k :: k in Star(n).edges <==> k.target in UpTo(n) && k.target != 0 && k == KeyOf(Spoke(k.target))
    ensures forall k :: k in Star(n).edges ==> Star(n).edges[k] == Spoke(k.target)
  {
    StarNodes(n);
    StarEdges(n);
  }

  lemma StarHasNoCycle(n: nat)
    ensures !HasCycle(Arcs(Star(n)))
  {
    StarShape(n);
    var arcs := Arcs(Star(n));
    forall walk | IsWalk(arcs, walk) && |walk| >= 2
      ensures walk[0] != walk[|walk| - 1]
    {
      var last := |walk| - 1;
      assert Arc(walk[0], walk[1]) in arcs && Arc(walk[last - 1], walk[last]) in arcs;
    }
  }

  lemma StarIsSound(n: nat)
    ensures Integrity(Star(n))
  {
    StarShape(n);
    UpToSize(n);
    var s := Star(n);
    forall k | k in s.edges
      ensures KeyOf(s.edges[k]) == k && EndpointsStored(s, k)
    {
    }
    StarHasNoCycle(n);
  }

  lemma SpokeIsLink(n: nat, i: NodeId)
    requires i in UpTo(n) && i != 0
    ensures LinkOf(Spoke(i), 0) in Links(Star(n), Dependencies, 0)
  {
    StarShape(n);
    assert Star(n).edges[KeyOf(Spoke(i))] in EdgesAt(Star(n), 0);
  }

  lemma LinkIsSpoke(n: nat, link: Link)
    requires link in Links(Star(n), Dependencies, 0)
    ensures link.other in UpTo(n)
  {
    StarShape(n);
    var e :| e in EdgesAt(Star(n), 0) && Offers(Dependencies, e, 0) && link == LinkOf(e, 0);
    var k :| k in Star(n).edges && Star(n).edges[k] == e;
  }

  /** Everything lies one step away. */
  lemma StarBall(n: nat)
    ensures Ball(Star(n), Dependencies, 0, 1) == UpTo(n)
  {
    var s, ball := Star(n), Ball(Star(n), Dependencies, 0, 1);
    UpToSize(n);
    assert Ball(s, Dependencies, 0, 0) == {0};
    forall i | i in UpTo(n)
      ensures i in ball
    {
      if i != 0 {
        SpokeIsLink(n, i);
        NeighbourInNextBall(s, Dependencies, 0, 0, 0, LinkOf(Spoke(i), 0));
      }
    }
    forall i | i in ball
      ensures i in UpTo(n)
    {
      if i != 0 {
        var l :| l in Links(s, Dependencies, 0) && l.other == i;
        LinkIsSpoke(n, l);
      }
    }
  }

  /** A limit above a thousand lets through a task with a thousand and one dependencies, and no
      inspection of it can be built. */
  lemma LargeLimitIsRefused(limits: Limits)
    requires limits.dependencyStates > MAX_RESULTS
    ensures Integrity(Star(MAX_RESULTS + 1))
    ensures InspectsTo(Star(MAX_RESULTS + 1), limits, 0, 1, Err(ResultRefused))
  {
    StarIsSound(MAX_RESULTS + 1);
    StarBall(MAX_RESULTS + 1);
    UpToSize(MAX_RESULTS + 1);
  }

  /** Under a limit of at most a thousand the traversal gives up before a constructor could refuse. */
  lemma SmallLimitIsNotRefused(s: Store, limits: Limits, task: NodeId, maxDepth: nat, r: Outcome<Inspection>)
    requires limits.dependencyStates <= MAX_RESULTS && maxDepth <= MAX_DEPTH
    requires InspectsTo(s, limits, task, maxDepth, r)
    ensures r != Err(ResultRefused)
  {
  }

  ghost predicate EverRefused(limits: Limits) {
    exists s, task, maxDepth: nat ::
      maxDepth <= MAX_DEPTH && Integrity(s) && InspectsTo(s, limits, task, maxDepth, Err(ResultRefused))
  }

  /** So no inspection of a permitted depth is ever refused exactly when the limit of the service is at
      most a thousand. */
  lemma EverRefusedIff(limits: Limits)
    ensures EverRefused(limits) <==> limits.dependencyStates > MAX_RESULTS
  {
    if limits.dependencyStates > MAX_RESULTS {
      LargeLimitIsRefused(limits);
    } else if EverRefused(limits) {
      var s, task, maxDepth: nat :|
        maxDepth <= MAX_DEPTH && Integrity(s) && InspectsTo(s, limits, task, maxDepth, Err(ResultRefused));
      SmallLimitIsNotRefused(s, limits, task, maxDepth, Err(ResultRefused));
    }
  }

  lemma GraphLimitsNeverRefuse()
    ensures !EverRefused(GRAPH_LIMITS)
  {
    EverRefusedIff(GRAPH_LIMITS);
  }
}
