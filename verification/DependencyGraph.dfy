/**
 Directed graphs over node identifiers, as the dependency edges of the knowledge
 index form them: walks, reachability, cycles, and the facts about finite graphs
 that the cycle guards rest on.
 */
module DependencyGraph {

  import opened Collections

  // Identifiers come from a totally ordered type.
  type NodeId = nat

  datatype Arc = Arc(source: NodeId, target: NodeId)

  /** A nonempty sequence of nodes, each joined to the next by an arc. */
  ghost predicate IsWalk(arcs: set<Arc>, walk: seq<NodeId>) {
    && |walk| >= 1
    && forall i :: 0 <= i < |walk| - 1 ==> Arc(walk[i], walk[i + 1]) in arcs
  }

  ghost predicate WalkBetween(arcs: set<Arc>, walk: seq<NodeId>, from: NodeId, to: NodeId) {
    IsWalk(arcs, walk) && walk[0] == from && walk[|walk| - 1] == to
  }

  /** Reachability by zero or more arcs. */
  ghost predicate Reaches(arcs: set<Arc>, from: NodeId, to: NodeId) {
    exists walk :: WalkBetween(arcs, walk, from, to)
  }

  /** A directed cycle: a walk of at least one arc that returns to its start. */
  ghost predicate HasCycle(arcs: set<Arc>) {
    exists walk :: IsWalk(arcs, walk) && |walk| >= 2 && walk[0] == walk[|walk| - 1]
  }

  lemma ReachesSelf(arcs: set<Arc>, node: NodeId)
    ensures Reaches(arcs, node, node)
  {
    assert WalkBetween(arcs, [node], node, node);
  }

  lemma ReachesStep(arcs: set<Arc>, from: NodeId, via: NodeId, to: NodeId)
    requires Reaches(arcs, from, via) && Arc(via, to) in arcs
    ensures Reaches(arcs, from, to)
  {
    var walk :| WalkBetween(arcs, walk, from, via);
    assert WalkBetween(arcs, walk + [to], from, to);
  }

  /** Nothing outside a set closed under arcs is reachable from inside it. */
  lemma {:induction false} ClosedSetHolds(arcs: set<Arc>, closed: set<NodeId>, walk: seq<NodeId>)
    requires IsWalk(arcs, walk) && walk[0] in closed
    requires forall a :: a in arcs && a.source in closed ==> a.target in closed
    ensures walk[|walk| - 1] in closed
  {
    if |walk| > 1 {
      assert Arc(walk[0], walk[1]) in arcs;
      ClosedSetHolds(arcs, closed, walk[1..]);
    }
  }

  /** A set with a topological numbering has no walk that returns to its start. */
  lemma {:induction false} RankedWalkRises(arcs: set<Arc>, rank: map<NodeId, int>, walk: seq<NodeId>)
    requires IsWalk(arcs, walk)
    requires forall a :: a in arcs ==> a.source in rank && a.target in rank && rank[a.source] < rank[a.target]
    requires |walk| >= 2
    ensures walk[0] in rank && walk[|walk| - 1] in rank && rank[walk[0]] < rank[walk[|walk| - 1]]
  {
    assert Arc(walk[0], walk[1]) in arcs;
    if |walk| > 2 {
      RankedWalkRises(arcs, rank, walk[1..]);
    }
  }

  ghost predicate Preceded(arcs: set<Arc>, among: set<NodeId>, node: NodeId) {
    exists u :: u in among && Arc(u, node) in arcs
  }

  /** Pigeonhole: if every node of a nonempty finite set has a predecessor in the set, walking
      backwards must come around, so there is a cycle. */
  lemma EveryNodePrecededImpliesCycle(arcs: set<Arc>, trapped: set<NodeId>)
    requires trapped != {}
    requires forall v :: v in trapped ==> Preceded(arcs, trapped, v)
    ensures HasCycle(arcs)
  {
    var v := SomeMember(trapped);
    assert IsWalk(arcs, [v]);
    WalkBackwards(arcs, trapped, [v]);
  }

  lemma {:induction false} WalkBackwards(arcs: set<Arc>, trapped: set<NodeId>, walk: seq<NodeId>)
    requires forall v :: v in trapped ==> Preceded(arcs, trapped, v)
    requires IsWalk(arcs, walk) && Distinct(walk)
    requires forall i :: 0 <= i < |walk| ==> walk[i] in trapped
    ensures HasCycle(arcs)
    decreases |trapped| - |walk|
  {
    assert Preceded(arcs, trapped, walk[0]);
    var u :| u in trapped && Arc(u, walk[0]) in arcs;
    var longer := [u] + walk;
    assert IsWalk(arcs, longer);
    if u in walk {
      var i :| 0 <= i < |walk| && walk[i] == u;
      var loop := longer[..i + 2];
      assert IsWalk(arcs, loop) && loop[0] == loop[|loop| - 1];
    } else {
      DistinctFits(longer, trapped);
      WalkBackwards(arcs, trapped, longer);
    }
  }

  /** Adding one arc to an acyclic graph closes a cycle exactly when its source was already
      reachable from its target. */
  lemma NewArcClosesCycleIff(arcs: set<Arc>, added: Arc)
    requires !HasCycle(arcs)
    ensures HasCycle(arcs + {added}) <==> Reaches(arcs, added.target, added.source)
  {
    if Reaches(arcs, added.target, added.source) {
      var back :| WalkBetween(arcs, back, added.target, added.source);
      var loop := [added.source] + back;
      assert forall i :: 0 <= i < |loop| - 1 ==> Arc(loop[i], loop[i + 1]) in arcs + {added};
      assert IsWalk(arcs + {added}, loop);
    }
    if HasCycle(arcs + {added}) {
      var loop :| IsWalk(arcs + {added}, loop) && |loop| >= 2 && loop[0] == loop[|loop| - 1];
      CycleUsesNewArc(arcs, added, loop);
    }
  }

  lemma ReachesTransitive(arcs: set<Arc>, from: NodeId, via: NodeId, to: NodeId)
    requires Reaches(arcs, from, via) && Reaches(arcs, via, to)
    ensures Reaches(arcs, from, to)
  {
    var first :| WalkBetween(arcs, first, from, via);
    var second :| WalkBetween(arcs, second, via, to);
    var joined := first + second[1..];
    assert forall i :: |first| - 1 <= i < |joined| - 1 ==> joined[i] == second[i + 1 - |first|];
    assert WalkBetween(arcs, joined, from, to);
  }

  /** A walk that may use one extra arc either avoids it or splits at its first and last use. */
  lemma {:induction false} SplitAtNewArc(arcs: set<Arc>, added: Arc, walk: seq<NodeId>)
    requires IsWalk(arcs + {added}, walk)
    ensures || Reaches(arcs, walk[0], walk[|walk| - 1])
            || (Reaches(arcs, walk[0], added.source) && Reaches(arcs, added.target, walk[|walk| - 1]))
  {
    ReachesSelf(arcs, walk[0]);
    if |walk| > 1 {
      var rest := walk[1..];
      assert Arc(walk[0], walk[1]) in arcs + {added};
      SplitAtNewArc(arcs, added, rest);
      if Arc(walk[0], walk[1]) in arcs {
        ReachesStep(arcs, walk[0], walk[0], walk[1]);
        if Reaches(arcs, rest[0], rest[|rest| - 1]) {
          ReachesTransitive(arcs, walk[0], walk[1], walk[|walk| - 1]);
        } else {
          ReachesTransitive(arcs, walk[0], walk[1], added.source);
        }
      }
    }
  }

  lemma CycleUsesNewArc(arcs: set<Arc>, added: Arc, loop: seq<NodeId>)
    requires IsWalk(arcs + {added}, loop) && |loop| >= 2 && loop[0] == loop[|loop| - 1]
    ensures HasCycle(arcs) || Reaches(arcs, added.target, added.source)
  {
    if k :| 0 <= k < |loop| - 1 && Arc(loop[k], loop[k + 1]) == added {
      SplitAtNewArc(arcs, added, loop[k + 1..]);
      SplitAtNewArc(arcs, added, loop[..k + 1]);
      ReachesTransitive(arcs, added.target, loop[0], added.source);
    } else {
      assert forall i :: 0 <= i < |loop| - 1 ==> Arc(loop[i], loop[i + 1]) in arcs;
      assert IsWalk(arcs, loop);
    }
  }
}
