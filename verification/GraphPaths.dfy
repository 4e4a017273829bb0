/**
 Paths from an anchor through the knowledge graph, the key that orders them, and the
 level-by-level construction of the least shortest path to every node within a depth.
 */
module GraphPaths {
  import opened Collections
  import opened DependencyGraph
  import opened KnowledgeModel
  import opened KnowledgeStore
  import opened Ordering

  /** Which edges a traversal follows: every incident edge in either direction, or only the
      outgoing dependency edges. */
  datatype View = Neighborhood | Dependencies

  datatype Step = Step(edge: RawEdge, forward: bool)

  datatype GraphPath = GraphPath(depth: nat, nodeIds: seq<NodeId>, steps: seq<Step>)

  datatype Link = Link(other: NodeId, step: Step)

  function Trivial(start: NodeId): GraphPath {
    GraphPath(0, [start], [])
  }

  function Extend(p: GraphPath, link: Link): GraphPath {
    GraphPath(p.depth + 1, p.nodeIds + [link.other], p.steps + [link.step])
  }

  // ----- the deterministic key -----

  /** What a step contributes to the key: edge type, direction and digest. A digest stands for the
      content it hashes; bodies are numbered in the order of the digests. */
  function Label(s: Step): seq<int> {
    [s.edge.edgeType.Rank(), if s.forward then 1 else 0, s.edge.body, s.edge.source, s.edge.target]
  }

  predicate IdLess(a: NodeId, b: NodeId) {
    a < b
  }

  predicate StepLess(a: Step, b: Step) {
    SeqLess(IntLess, Label(a), Label(b))
  }

  predicate KeyLess(p: GraphPath, q: GraphPath) {
    SeqLess(IdLess, p.nodeIds, q.nodeIds) ||
    (p.nodeIds == q.nodeIds && SeqLess(StepLess, p.steps, q.steps))
  }

  predicate KeyAtMost(p: GraphPath, q: GraphPath) {
    (p.nodeIds == q.nodeIds && p.steps == q.steps) || KeyLess(p, q)
  }

  lemma StepLessStrictTotal()
    ensures StrictTotal(StepLess)
  {
    assert StrictTotal(IntLess);
    forall x: Step ensures !StepLess(x, x) {
      SeqTotal(IntLess, Label(x), Label(x));
    }
    forall x: Step, y: Step, z: Step | StepLess(x, y) && StepLess(y, z) ensures StepLess(x, z) {
      SeqTransitive(IntLess, Label(x), Label(y), Label(z));
    }
    forall x: Step, y: Step ensures x == y || StepLess(x, y) || StepLess(y, x) {
      SeqTotal(IntLess, Label(x), Label(y));
      if Label(x) == Label(y) {
        assert Label(x)[0] == Label(y)[0] && Label(x)[1] == Label(y)[1] && Label(x)[2] == Label(y)[2];
        assert Label(x)[3] == Label(y)[3] && Label(x)[4] == Label(y)[4];
      }
    }
  }

  /** The key orders paths totally, so the least candidate does not depend on the order in which
      candidates are met. */
  lemma KeyTotal(p: GraphPath, q: GraphPath)
    ensures KeyAtMost(p, q) || KeyLess(q, p)
  {
    StepLessStrictTotal();
    assert StrictTotal(IdLess);
    SeqTotal(IdLess, p.nodeIds, q.nodeIds);
    SeqTotal(StepLess, p.steps, q.steps);
  }

  lemma KeyTransitive(p: GraphPath, q: GraphPath, r: GraphPath)
    requires KeyAtMost(p, q) && KeyAtMost(q, r)
    ensures KeyAtMost(p, r)
  {
    StepLessStrictTotal();
    assert StrictTotal(IdLess);
    if SeqLess(IdLess, p.nodeIds, q.nodeIds) && SeqLess(IdLess, q.nodeIds, r.nodeIds) {
      SeqTransitive(IdLess, p.nodeIds, q.nodeIds, r.nodeIds);
    }
    if SeqLess(StepLess, p.steps, q.steps) && SeqLess(StepLess, q.steps, r.steps) {
      SeqTransitive(StepLess, p.steps, q.steps, r.steps);
    }
  }

  lemma KeyAntisymmetric(p: GraphPath, q: GraphPath)
    requires KeyAtMost(p, q) && KeyAtMost(q, p)
    ensures p.nodeIds == q.nodeIds && p.steps == q.steps
  {
    StepLessStrictTotal();
    assert StrictTotal(IdLess);
    SeqAntisymmetric(IdLess, p.nodeIds, q.nodeIds);
    SeqAntisymmetric(StepLess, p.steps, q.steps);
  }

  /** Extending both of two equally long paths by one link keeps their order. */
  lemma KeyExtends(p: GraphPath, q: GraphPath, link: Link)
    requires |p.nodeIds| == |q.nodeIds| && |p.steps| == |q.steps|
    requires KeyAtMost(p, q)
    ensures KeyAtMost(Extend(p, link), Extend(q, link))
  {
    if SeqLess(IdLess, p.nodeIds, q.nodeIds) {
      SeqLessExtends(IdLess, p.nodeIds, q.nodeIds, link.other, link.other);
    } else if p.steps != q.steps {
      SeqLessExtends(StepLess, p.steps, q.steps, link.step, link.step);
    }
  }

  // ----- links, paths and balls in one snapshot -----

  /** The step that one edge offers from a node, if the view may use it. */
  predicate Offers(view: View, e: RawEdge, from: NodeId) {
    match view
    case Neighborhood => e.source == from || e.target == from
    case Dependencies => e.source == from && e.edgeType.IsDependency()
  }

  function LinkOf(e: RawEdge, from: NodeId): Link {
    var forward := e.source == from;
    Link(if forward then e.target else e.source, Step(e, forward))
  }

  function LinksFrom(edges: set<RawEdge>, view: View, from: NodeId): set<Link> {
    set e | e in edges && Offers(view, e, from) :: LinkOf(e, from)
  }

  ghost function Links(s: Store, view: View, from: NodeId): set<Link> {
    LinksFrom(EdgesAt(s, from), view, from)
  }

  ghost predicate PathTo(s: Store, view: View, start: NodeId, to: NodeId, p: GraphPath) {
    && p.depth == |p.steps| && |p.nodeIds| == |p.steps| + 1
    && p.nodeIds[0] == start && p.nodeIds[|p.steps|] == to
    && forall i :: 0 <= i < |p.steps| ==> Link(p.nodeIds[i + 1], p.steps[i]) in Links(s, view, p.nodeIds[i])
  }

  /** A shortest path to the node whose key is least among all shortest paths to it. */
  ghost predicate LeastPath(s: Store, view: View, start: NodeId, to: NodeId, p: GraphPath) {
    && PathTo(s, view, start, to, p)
    && forall q :: PathTo(s, view, start, to, q) ==> p.depth < q.depth || (p.depth == q.depth && KeyAtMost(p, q))
  }

  /** There is only one such path. */
  lemma LeastPathUnique(s: Store, view: View, start: NodeId, to: NodeId, p: GraphPath, q: GraphPath)
    requires LeastPath(s, view, start, to, p) && LeastPath(s, view, start, to, q)
    ensures p == q
  {
    KeyAntisymmetric(p, q);
  }

  /** The nodes within `depth` links of the start. */
  ghost function Ball(s: Store, view: View, start: NodeId, depth: nat): set<NodeId> {
    if depth == 0 then {start}
    else
      var inner := Ball(s, view, start, depth - 1);
      inner + set m, l | m in inner && l in Links(s, view, m) :: l.other
  }

  ghost predicate WithinDepth(s: Store, view: View, start: NodeId, depth: nat, to: NodeId) {
    exists p :: PathTo(s, view, start, to, p) && p.depth <= depth
  }

  lemma PathExtends(s: Store, view: View, start: NodeId, via: NodeId, p: GraphPath, link: Link)
    requires PathTo(s, view, start, via, p) && link in Links(s, view, via)
    ensures PathTo(s, view, start, link.other, Extend(p, link))
  {
    var q := Extend(p, link);
    forall i | 0 <= i < |q.steps|
      ensures Link(q.nodeIds[i + 1], q.steps[i]) in Links(s, view, q.nodeIds[i])
    {
      if i < |p.steps| {
        assert Link(p.nodeIds[i + 1], p.steps[i]) in Links(s, view, p.nodeIds[i]);
      }
    }
  }

  /** A nonempty path is a path one link shorter, extended by its last link. */
  lemma PathSplits(s: Store, view: View, start: NodeId, to: NodeId, p: GraphPath)
    returns (via: NodeId, shorter: GraphPath, link: Link)
    requires PathTo(s, view, start, to, p) && p.depth > 0
    ensures PathTo(s, view, start, via, shorter) && link in Links(s, view, via)
    ensures link.other == to && p == Extend(shorter, link)
  {
    var n := |p.steps| - 1;
    via := p.nodeIds[n];
    shorter := GraphPath(n, p.nodeIds[..n + 1], p.steps[..n]);
    link := Link(p.nodeIds[n + 1], p.steps[n]);
    assert p.nodeIds == shorter.nodeIds + [link.other];
    assert p.steps == shorter.steps + [link.step];
    forall i | 0 <= i < |shorter.steps|
      ensures Link(shorter.nodeIds[i + 1], shorter.steps[i]) in Links(s, view, shorter.nodeIds[i])
    {
      assert Link(p.nodeIds[i + 1], p.steps[i]) in Links(s, view, p.nodeIds[i]);
    }
  }

  /** A path that comes back to a node has a shorter path with the same ends. */
  lemma CutLoop(s: Store, view: View, start: NodeId, to: NodeId, p: GraphPath, i: nat, j: nat)
    returns (shorter: GraphPath)
    requires PathTo(s, view, start, to, p)
    requires i < j < |p.nodeIds| && p.nodeIds[i] == p.nodeIds[j]
    ensures PathTo(s, view, start, to, shorter) && shorter.depth < p.depth
  {
    shorter := GraphPath(p.depth - (j - i), p.nodeIds[..i] + p.nodeIds[j..], p.steps[..i] + p.steps[j..]);
    forall k | 0 <= k < |shorter.steps|
      ensures Link(shorter.nodeIds[k + 1], shorter.steps[k]) in Links(s, view, shorter.nodeIds[k])
    {
      var at := if k < i then k else k + j - i;
      assert Link(p.nodeIds[at + 1], p.steps[at]) in Links(s, view, p.nodeIds[at]);
    }
  }

  /** A least path never comes back to a node. */
  lemma LeastPathIsSimple(s: Store, view: View, start: NodeId, to: NodeId, p: GraphPath)
    requires LeastPath(s, view, start, to, p)
    ensures Distinct(p.nodeIds)
  {
    forall i, j | 0 <= i < j < |p.nodeIds|
      ensures p.nodeIds[i] != p.nodeIds[j]
    {
      if p.nodeIds[i] == p.nodeIds[j] {
        var shorter := CutLoop(s, view, start, to, p, i, j);
        assert false;
      }
    }
  }

  /** What the traversal knows after finishing a level: exactly the ball of that depth has been
      reached, each node by its least path, and the frontier is the outermost shell. */
  ghost predicate LevelDone(s: Store, view: View, start: NodeId, depth: nat,
                            paths: map<NodeId, GraphPath>, frontier: set<NodeId>)
  {
    && paths.Keys == Ball(s, view, start, depth)
    && frontier <= paths.Keys
    && (forall n :: n in paths ==> PathTo(s, view, start, n, paths[n]) && paths[n].depth <= depth)
    && (forall n :: n in paths ==> (n in frontier <==> paths[n].depth == depth))
    && (forall n, q :: PathTo(s, view, start, n, q) && q.depth <= depth ==>
          n in paths && (paths[n].depth < q.depth || (paths[n].depth == q.depth && KeyAtMost(paths[n], q))))
  }

  lemma StartLevel(s: Store, view: View, start: NodeId)
    ensures LevelDone(s, view, start, 0, map[start := Trivial(start)], {start})
  {
  }

  /** The links read for the nodes of a frontier. */
  type LinkTable = map<NodeId, set<Link>>

  ghost predicate TableOf(s: Store, view: View, table: LinkTable) {
    forall c :: c in table ==> table[c] == Links(s, view, c)
  }

  /** The proposals of the nodes in the table: every new neighbour of theirs, with the least
      extension of a path to one of them that leads to it. */
  ghost predicate Proposed(table: LinkTable, paths: map<NodeId, GraphPath>, proposals: map<NodeId, GraphPath>)
    requires table.Keys <= paths.Keys
  {
    && (forall n :: n in proposals ==> n !in paths && HasSource(table, paths, n, proposals[n]))
    && (forall c, link :: c in table && link in table[c] && link.other !in paths ==>
          link.other in proposals && KeyAtMost(proposals[link.other], Extend(paths[c], link)))
  }

  ghost predicate HasSource(table: LinkTable, paths: map<NodeId, GraphPath>, n: NodeId, proposal: GraphPath)
    requires table.Keys <= paths.Keys
  {
    exists c, link :: c in table && link in table[c] && link.other == n && proposal == Extend(paths[c], link)
  }

  /** A node left behind by the frontier has no neighbour outside the paths. */
  lemma InteriorIsClosed(s: Store, view: View, start: NodeId, depth: nat,
                         paths: map<NodeId, GraphPath>, frontier: set<NodeId>, c: NodeId, link: Link)
    requires LevelDone(s, view, start, depth, paths, frontier)
    requires c in paths && c !in frontier && link in Links(s, view, c)
    ensures link.other in paths
  {
    PathExtends(s, view, start, c, paths[c], link);
  }

  /** A proposal is a path to its node, one link longer than the level before. */
  lemma ProposalIsPath(s: Store, view: View, start: NodeId, depth: nat, paths: map<NodeId, GraphPath>,
                       table: LinkTable, proposals: map<NodeId, GraphPath>, n: NodeId)
    requires LevelDone(s, view, start, depth, paths, table.Keys) && TableOf(s, view, table)
    requires Proposed(table, paths, proposals) && n in proposals
    ensures PathTo(s, view, start, n, proposals[n]) && proposals[n].depth == depth + 1
    ensures n in Ball(s, view, start, depth + 1)
  {
    assert HasSource(table, paths, n, proposals[n]);
    var c, link :| c in table && link in table[c] && link.other == n && proposals[n] == Extend(paths[c], link);
    PathExtends(s, view, start, c, paths[c], link);
    NeighbourInNextBall(s, view, start, depth, c, link);
  }

  lemma NeighbourInNextBall(s: Store, view: View, start: NodeId, depth: nat, c: NodeId, link: Link)
    requires c in Ball(s, view, start, depth) && link in Links(s, view, c)
    ensures link.other in Ball(s, view, start, depth + 1)
  {
  }

  /** No path of the new length to a new node has a smaller key than its proposal. */
  lemma ProposalIsLeast(s: Store, view: View, start: NodeId, depth: nat, paths: map<NodeId, GraphPath>,
                        table: LinkTable, proposals: map<NodeId, GraphPath>, n: NodeId, q: GraphPath)
    requires LevelDone(s, view, start, depth, paths, table.Keys) && TableOf(s, view, table)
    requires Proposed(table, paths, proposals)
    requires PathTo(s, view, start, n, q) && q.depth == depth + 1 && n !in paths
    ensures n in proposals && KeyAtMost(proposals[n], q)
  {
    var via, shorter, link := PathSplits(s, view, start, n, q);
    if via !in table {
      InteriorIsClosed(s, view, start, depth, paths, table.Keys, via, link);
    }
    KeyExtends(paths[via], shorter, link);
    KeyTransitive(proposals[n], Extend(paths[via], link), q);
  }

  lemma NextBall(s: Store, view: View, start: NodeId, depth: nat, paths: map<NodeId, GraphPath>,
                 table: LinkTable, proposals: map<NodeId, GraphPath>)
    requires LevelDone(s, view, start, depth, paths, table.Keys) && TableOf(s, view, table)
    requires Proposed(table, paths, proposals)
    ensures (paths + proposals).Keys == Ball(s, view, start, depth + 1)
  {
    var outer := Ball(s, view, start, depth + 1);
    forall n | n in outer
      ensures n in paths || n in proposals
    {
      if n !in paths {
        var m, l :| m in paths.Keys && l in Links(s, view, m) && l.other == n;
        if m !in table {
          InteriorIsClosed(s, view, start, depth, paths, table.Keys, m, l);
        }
      }
    }
    forall n | n in proposals
      ensures n in outer
    {
      ProposalIsPath(s, view, start, depth, paths, table, proposals, n);
    }
  }

  /** Committing one level's proposals finishes the next level. */
  lemma NextLevel(s: Store, view: View, start: NodeId, depth: nat, paths: map<NodeId, GraphPath>,
                  table: LinkTable, proposals: map<NodeId, GraphPath>)
    requires LevelDone(s, view, start, depth, paths, table.Keys) && TableOf(s, view, table)
    requires Proposed(table, paths, proposals)
    ensures LevelDone(s, view, start, depth + 1, paths + proposals, proposals.Keys)
  {
    NextBall(s, view, start, depth, paths, table, proposals);
    var all := paths + proposals;
    forall n | n in all
      ensures PathTo(s, view, start, n, all[n]) && all[n].depth <= depth + 1
      ensures n in proposals.Keys <==> all[n].depth == depth + 1
    {
      if n in proposals {
        ProposalIsPath(s, view, start, depth, paths, table, proposals, n);
      }
    }
    forall n, q | PathTo(s, view, start, n, q) && q.depth <= depth + 1
      ensures n in all && (all[n].depth < q.depth || (all[n].depth == q.depth && KeyAtMost(all[n], q)))
    {
      if n !in paths {
        ProposalIsLeast(s, view, start, depth, paths, table, proposals, n, q);
      }
    }
  }

  lemma NothingNew(s: Store, view: View, start: NodeId, depth: nat, paths: map<NodeId, GraphPath>)
    ensures LevelDone(s, view, start, depth, paths, {}) ==> LevelDone(s, view, start, depth + 1, paths, {})
  {
    if LevelDone(s, view, start, depth, paths, {}) {
      var table: LinkTable, none: map<NodeId, GraphPath> := map[], map[];
      assert table.Keys == {} && none.Keys == {};
      NextLevel(s, view, start, depth, paths, table, none);
      assert paths + none == paths;
    }
  }

  lemma {:induction false} BallGrows(s: Store, view: View, start: NodeId, depth: nat, deeper: nat)
    requires depth <= deeper
    ensures Ball(s, view, start, depth) <= Ball(s, view, start, deeper)
  {
    if depth < deeper {
      BallGrows(s, view, start, depth, deeper - 1);
    }
  }

  /** A ball that stops growing has reached everything there is to reach. */
  lemma {:induction false} BallSaturates(s: Store, view: View, start: NodeId, depth: nat, deeper: nat)
    requires depth <= deeper && Ball(s, view, start, depth + 1) == Ball(s, view, start, depth)
    ensures Ball(s, view, start, deeper) == Ball(s, view, start, depth)
  {
    if depth < deeper {
      BallSaturates(s, view, start, depth, deeper - 1);
    }
  }

  lemma {:induction false} BallHasPaths(s: Store, view: View, start: NodeId, depth: nat, n: NodeId)
    requires n in Ball(s, view, start, depth)
    ensures WithinDepth(s, view, start, depth, n)
  {
    if depth == 0 {
      assert PathTo(s, view, start, start, Trivial(start));
    } else if n in Ball(s, view, start, depth - 1) {
      BallHasPaths(s, view, start, depth - 1, n);
    } else {
      var m, l :| m in Ball(s, view, start, depth - 1) && l in Links(s, view, m) && l.other == n;
      BallHasPaths(s, view, start, depth - 1, m);
      var p :| PathTo(s, view, start, m, p) && p.depth <= depth - 1;
      PathExtends(s, view, start, m, p, l);
    }
  }

  lemma {:induction false} PathsEndInBall(s: Store, view: View, start: NodeId, depth: nat, n: NodeId, p: GraphPath)
    requires PathTo(s, view, start, n, p) && p.depth <= depth
    ensures n in Ball(s, view, start, depth)
  {
    if p.depth == 0 {
      BallGrows(s, view, start, 0, depth);
    } else {
      var via, shorter, link := PathSplits(s, view, start, n, p);
      PathsEndInBall(s, view, start, depth - 1, via, shorter);
    }
  }

  /** The ball is the set of nodes with a path of at most that length. */
  lemma BallIsWithinDepth(s: Store, view: View, start: NodeId, depth: nat, n: NodeId)
    ensures n in Ball(s, view, start, depth) <==> WithinDepth(s, view, start, depth, n)
  {
    if n in Ball(s, view, start, depth) {
      BallHasPaths(s, view, start, depth, n);
    }
    if WithinDepth(s, view, start, depth, n) {
      var p :| PathTo(s, view, start, n, p) && p.depth <= depth;
      PathsEndInBall(s, view, start, depth, n, p);
    }
  }

  /** An empty frontier stays empty: the traversal may stop at any later depth just as well. */
  lemma EmptyFrontierIsFinal(s: Store, view: View, start: NodeId, depth: nat, deeper: nat,
                             paths: map<NodeId, GraphPath>)
    requires LevelDone(s, view, start, depth, paths, {}) && depth <= deeper
    ensures LevelDone(s, view, start, deeper, paths, {})
  {
    NothingNew(s, view, start, depth, paths);
    BallSaturates(s, view, start, depth, deeper);
    forall n, q | PathTo(s, view, start, n, q) && q.depth <= deeper
      ensures n in paths
    {
      PathsEndInBall(s, view, start, deeper, n, q);
    }
  }

  /** What a finished traversal delivers. */
  lemma LevelIsLeast(s: Store, view: View, start: NodeId, depth: nat,
                     paths: map<NodeId, GraphPath>, frontier: set<NodeId>)
    requires LevelDone(s, view, start, depth, paths, frontier)
    ensures forall n :: n in paths <==> WithinDepth(s, view, start, depth, n)
    ensures forall n :: n in paths ==> LeastPath(s, view, start, n, paths[n])
  {
    forall n ensures n in paths <==> WithinDepth(s, view, start, depth, n) {
      BallIsWithinDepth(s, view, start, depth, n);
    }
  }

  // ----- merging the links of one frontier node into the proposals -----

  /** `merged` holds, for every node proposed before or offered now, a least of the candidates. */
  ghost predicate Merged(paths: map<NodeId, GraphPath>, path: GraphPath, links: set<Link>,
                         proposals: map<NodeId, GraphPath>, merged: map<NodeId, GraphPath>)
  {
    && (forall n :: n in merged ==> IsCandidate(paths, path, links, proposals, n, merged[n]))
    && (forall n :: n in proposals ==> n in merged && KeyAtMost(merged[n], proposals[n]))
    && (forall l :: l in links && l.other !in paths ==>
          l.other in merged && KeyAtMost(merged[l.other], Extend(path, l)))
  }

  ghost predicate IsCandidate(paths: map<NodeId, GraphPath>, path: GraphPath, links: set<Link>,
                              proposals: map<NodeId, GraphPath>, n: NodeId, candidate: GraphPath)
  {
    n !in paths && ((n in proposals && candidate == proposals[n]) || IsOffered(path, links, n, candidate))
  }

  ghost predicate IsOffered(path: GraphPath, links: set<Link>, n: NodeId, candidate: GraphPath) {
    exists l :: l in links && l.other == n && candidate == Extend(path, l)
  }

  lemma CandidateHasSource(table: LinkTable, paths: map<NodeId, GraphPath>, current: NodeId, links: set<Link>,
                           proposals: map<NodeId, GraphPath>, n: NodeId, candidate: GraphPath)
    requires table.Keys + {current} <= paths.Keys && current !in table
    requires Proposed(table, paths, proposals)
    requires IsCandidate(paths, paths[current], links, proposals, n, candidate)
    ensures HasSource(table[current := links], paths, n, candidate)
  {
    if n in proposals && candidate == proposals[n] {
      assert HasSource(table, paths, n, proposals[n]);
      var c, link :| c in table && link in table[c] && link.other == n && proposals[n] == Extend(paths[c], link);
      assert c in table[current := links] && link in table[current := links][c];
    } else {
      var l :| l in links && l.other == n && candidate == Extend(paths[current], l);
      assert current in table[current := links] && l in table[current := links][current];
    }
  }

  /** Merging one more node's links extends the proposals to that node. */
  lemma MergeAdvances(table: LinkTable, paths: map<NodeId, GraphPath>, current: NodeId, links: set<Link>,
                      proposals: map<NodeId, GraphPath>, merged: map<NodeId, GraphPath>)
    requires table.Keys + {current} <= paths.Keys && current !in table
    requires Proposed(table, paths, proposals)
    requires Merged(paths, paths[current], links, proposals, merged)
    ensures Proposed(table[current := links], paths, merged)
  {
    var table' := table[current := links];
    assert table'.Keys == table.Keys + {current};
    forall n | n in merged
      ensures n !in paths && HasSource(table', paths, n, merged[n])
    {
      CandidateHasSource(table, paths, current, links, proposals, n, merged[n]);
    }
    forall c: NodeId, link: Link | c in table' && link in table'[c] && link.other !in paths
      ensures link.other in merged && KeyAtMost(merged[link.other], Extend(paths[c], link))
    {
      if c != current {
        KeyTransitive(merged[link.other], proposals[link.other], Extend(paths[c], link));
      }
    }
  }
}
