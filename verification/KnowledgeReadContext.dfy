/**
 One graph read operation: the revision it opened on, its caches, and the two
 level-by-level traversals. Other writers may commit before every read of the index,
 so what a traversal returns is only promised while the store still is the opening
 revision; because the index only ever grows, checking that once at the end is enough.
 */
module KnowledgeReadContext {
  import opened Options
  import opened Collections
  import opened DependencyGraph
  import opened KnowledgeModel
  import opened KnowledgeStore
  import opened GraphPaths
  import opened PathOrder

  datatype Traversal = Overflow | Reached(paths: map<NodeId, GraphPath>, frontier: set<NodeId>)

  datatype DependencyPaths = TooManyDependencies | Found(paths: map<NodeId, GraphPath>, truncated: bool)

  /** The expansion limit trips when the ball outgrows it; the start alone never trips it. */
  ghost predicate Overflows(s: Store, view: View, start: NodeId, depth: nat, allowance: nat) {
    |Ball(s, view, start, depth)| > allowance && |Ball(s, view, start, depth)| > 1
  }

  /** Proposals are only ever added while there is room. */
  ghost predicate Fits(paths: map<NodeId, GraphPath>, proposals: map<NodeId, GraphPath>, allowance: nat) {
    |proposals.Keys| == 0 || |paths.Keys| + |proposals.Keys| <= allowance
  }

  ghost predicate Roomy(paths: map<NodeId, GraphPath>, allowance: nat) {
    |paths.Keys| <= allowance || |paths.Keys| <= 1
  }

  lemma RoomAfter(paths: map<NodeId, GraphPath>, proposals: map<NodeId, GraphPath>, allowance: nat)
    requires Roomy(paths, allowance) && Fits(paths, proposals, allowance) && proposals.Keys !! paths.Keys
    ensures Roomy(paths + proposals, allowance)
  {
    assert (paths + proposals).Keys == paths.Keys + proposals.Keys;
    assert |(paths + proposals).Keys| == |paths.Keys| + |proposals.Keys|;
  }

  /** New nodes met through the table that exceed the limit. */
  ghost predicate TooMany(table: LinkTable, paths: map<NodeId, GraphPath>, extra: set<NodeId>, allowance: nat) {
    && extra != {} && |paths.Keys| + |extra| > allowance
    && forall n :: n in extra ==> n !in paths && Met(table, n)
  }

  ghost predicate Met(table: LinkTable, n: NodeId) {
    exists c, link :: c in table && link in table[c] && link.other == n
  }

  /** Fold the links of one frontier node into the proposals, unless the limit trips. */
  method MergeLinks(paths: map<NodeId, GraphPath>, ghost table: LinkTable, current: NodeId, links: set<Link>,
                    proposals: map<NodeId, GraphPath>, allowance: nat)
    returns (merged: map<NodeId, GraphPath>, overflow: bool, ghost extra: set<NodeId>)
    requires table.Keys + {current} <= paths.Keys && current !in table
    requires Proposed(table, paths, proposals) && Fits(paths, proposals, allowance)
    ensures !overflow ==> Proposed(table[current := links], paths, merged) && Fits(paths, merged, allowance)
    ensures overflow ==> TooMany(table[current := links], paths, extra, allowance)
  {
    merged, overflow, extra := proposals, false, {};
    var remaining := links;
    ghost var done: set<Link> := {};
    while remaining != {}
      invariant remaining <= links && forall l :: l in links ==> l in done || l in remaining
      invariant done <= links
      invariant Merged(paths, paths[current], done, proposals, merged)
      invariant Fits(paths, merged, allowance)
      decreases remaining
    {
      var link := TakeSome(remaining);
      if link.other !in paths && link.other !in merged && |paths.Keys| + |merged.Keys| >= allowance {
        overflow, extra := true, merged.Keys + {link.other};
        AllMet(paths, table, current, links, done, link, proposals, merged, allowance);
        return;
      }
      MergeLinkKeeps(paths, paths[current], done, proposals, merged, link);
      merged := MergeLink(paths, paths[current], merged, link);
      remaining := remaining - {link};
      done := done + {link};
    }
    assert done == links;
    MergeAdvances(table, paths, current, links, proposals, merged);
  }

  /** Take the candidate if it is the first for its node or its key is smaller. */
  function MergeLink(paths: map<NodeId, GraphPath>, path: GraphPath, merged: map<NodeId, GraphPath>, link: Link)
    : map<NodeId, GraphPath>
  {
    if link.other in paths then merged
    else if link.other !in merged || KeyLess(Extend(path, link), merged[link.other]) then
      merged[link.other := Extend(path, link)]
    else merged
  }

  lemma MergeLinkKeeps(paths: map<NodeId, GraphPath>, path: GraphPath, done: set<Link>,
                       proposals: map<NodeId, GraphPath>, merged: map<NodeId, GraphPath>, link: Link)
    requires Merged(paths, path, done, proposals, merged)
    ensures Merged(paths, path, done + {link}, proposals, MergeLink(paths, path, merged, link))
    ensures |MergeLink(paths, path, merged, link).Keys| ==
            |merged.Keys| + if link.other in paths || link.other in merged then 0 else 1
  {
    assert merged[link.other := Extend(path, link)].Keys == merged.Keys + {link.other};
    if link.other in paths {
      SkipMerges(paths, path, done, proposals, merged, link);
    } else if link.other !in merged || KeyLess(Extend(path, link), merged[link.other]) {
      ReplaceMerges(paths, path, done, proposals, merged, link);
    } else {
      KeepMerges(paths, path, done, proposals, merged, link);
    }
  }

  lemma CandidateMet(paths: map<NodeId, GraphPath>, table: LinkTable, current: NodeId, links: set<Link>,
                     done: set<Link>, proposals: map<NodeId, GraphPath>, n: NodeId, candidate: GraphPath)
    requires table.Keys + {current} <= paths.Keys && current !in table && done <= links
    requires Proposed(table, paths, proposals)
    requires IsCandidate(paths, paths[current], done, proposals, n, candidate)
    ensures Met(table[current := links], n)
  {
    var table': LinkTable := table[current := links];
    if n in proposals {
      assert HasSource(table, paths, n, proposals[n]);
      var c, l :| c in table && l in table[c] && l.other == n && proposals[n] == Extend(paths[c], l);
      assert c in table' && l in table'[c];
    } else {
      var l :| l in done && l.other == n && candidate == Extend(paths[current], l);
      assert current in table' && l in table'[current];
    }
  }

  lemma AllMet(paths: map<NodeId, GraphPath>, table: LinkTable, current: NodeId, links: set<Link>, done: set<Link>,
               link: Link, proposals: map<NodeId, GraphPath>, merged: map<NodeId, GraphPath>, allowance: nat)
    requires table.Keys + {current} <= paths.Keys && current !in table
    requires done <= links && link in links && link.other !in paths && link.other !in merged
    requires |paths.Keys| + |merged.Keys| >= allowance
    requires Proposed(table, paths, proposals)
    requires Merged(paths, paths[current], done, proposals, merged)
    ensures TooMany(table[current := links], paths, merged.Keys + {link.other}, allowance)
  {
    var table': LinkTable := table[current := links];
    var extra: set<NodeId> := merged.Keys + {link.other};
    assert current in table' && link in table'[current];
    assert |extra| == |merged.Keys| + 1;
    forall n | n in extra
      ensures n !in paths && Met(table', n)
    {
      if n in merged {
        CandidateMet(paths, table, current, links, done, proposals, n, merged[n]);
      }
    }
  }

  /** Candidates stay candidates when more links have been looked at. */
  lemma CandidatePersists(paths: map<NodeId, GraphPath>, path: GraphPath, done: set<Link>,
                          proposals: map<NodeId, GraphPath>, link: Link, n: NodeId, candidate: GraphPath)
    requires IsCandidate(paths, path, done, proposals, n, candidate)
    ensures IsCandidate(paths, path, done + {link}, proposals, n, candidate)
  {
    if !(n in proposals && candidate == proposals[n]) {
      var l :| l in done && l.other == n && candidate == Extend(path, l);
      assert l in done + {link};
    }
  }

  lemma SkipMerges(paths: map<NodeId, GraphPath>, path: GraphPath, done: set<Link>,
                   proposals: map<NodeId, GraphPath>, merged: map<NodeId, GraphPath>, link: Link)
    requires Merged(paths, path, done, proposals, merged) && link.other in paths
    ensures Merged(paths, path, done + {link}, proposals, merged)
  {
    forall n | n in merged {
      CandidatePersists(paths, path, done, proposals, link, n, merged[n]);
    }
  }

  lemma KeepMerges(paths: map<NodeId, GraphPath>, path: GraphPath, done: set<Link>,
                   proposals: map<NodeId, GraphPath>, merged: map<NodeId, GraphPath>, link: Link)
    requires Merged(paths, path, done, proposals, merged)
    requires link.other in merged && !KeyLess(Extend(path, link), merged[link.other])
    ensures Merged(paths, path, done + {link}, proposals, merged)
  {
    KeyTotal(merged[link.other], Extend(path, link));
    forall n | n in merged {
      CandidatePersists(paths, path, done, proposals, link, n, merged[n]);
    }
  }

  lemma ReplaceMerges(paths: map<NodeId, GraphPath>, path: GraphPath, done: set<Link>,
                      proposals: map<NodeId, GraphPath>, merged: map<NodeId, GraphPath>, link: Link)
    requires Merged(paths, path, done, proposals, merged) && link.other !in paths
    requires link.other !in merged || KeyLess(Extend(path, link), merged[link.other])
    ensures Merged(paths, path, done + {link}, proposals, merged[link.other := Extend(path, link)])
  {
    var candidate, k := Extend(path, link), link.other;
    KeyTotal(candidate, candidate);
    var next := merged[k := candidate];
    forall n | n in next
      ensures IsCandidate(paths, path, done + {link}, proposals, n, next[n])
    {
      if n == k {
        assert link in done + {link};
      } else {
        CandidatePersists(paths, path, done, proposals, link, n, merged[n]);
      }
    }
    if k in proposals {
      KeyTransitive(candidate, merged[k], proposals[k]);
    }
    forall l | l in done && l.other == k
      ensures KeyAtMost(candidate, Extend(path, l))
    {
      KeyTransitive(candidate, merged[k], Extend(path, l));
    }
  }

  lemma KeysWith(table: LinkTable, current: NodeId, links: set<Link>)
    ensures table[current := links].Keys == table.Keys + {current}
  {
  }

  class ReadContext {
    const index: KnowledgeIndex
    const maxGraphExpansionNodes: nat
    const maxDependencyStates: nat
    const revision: Store
    var nodeCache: map<NodeId, Node>
    var edgeCache: map<NodeId, set<RawEdge>>

    /** No write has been committed since the operation opened. */
    ghost predicate Stable()
      reads index
    {
      index.store == revision
    }

    /** The caches answer as the opening revision would, as long as it still is the store. */
    ghost predicate Valid()
      reads this, index
    {
      && Integrity(index.store)
      && Extends(revision, index.store)
      && (Stable() ==>
            && (forall id :: id in nodeCache ==> id in revision.nodes && nodeCache[id] == revision.nodes[id])
            && (forall id :: id in edgeCache ==> edgeCache[id] == EdgesAt(revision, id)))
    }

    constructor (index: KnowledgeIndex, maxGraphExpansionNodes: nat, maxDependencyStates: nat)
      requires Integrity(index.store)
      modifies index
      ensures Valid() && Stable()
      ensures this.index == index && Extends(old(index.store), revision)
      ensures this.maxGraphExpansionNodes == maxGraphExpansionNodes
      ensures this.maxDependencyStates == maxDependencyStates
    {
      this.index := index;
      this.maxGraphExpansionNodes := maxGraphExpansionNodes;
      this.maxDependencyStates := maxDependencyStates;
      var opening := index.RevisionDigest();
      revision := opening;
      nodeCache, edgeCache := map[], map[];
    }

    /** History only grows, so a store that is the opening revision now has been it all along. */
    twostate predicate StableSince()
      reads this, index
    {
      Stable() ==> old(Stable())
    }

    twostate lemma NoWayBack()
      requires old(Valid()) && Extends(old(index.store), index.store)
      ensures StableSince() && Extends(revision, index.store)
    {
      if Stable() {
        ExtendsAntisymmetric(revision, old(index.store));
      }
    }

    method RequiredNode(id: NodeId) returns (node: Option<Node>)
      requires Valid()
      modifies this`nodeCache, index
      ensures Valid() && StableSince()
      ensures Stable() ==> node == if id in revision.nodes then Some(revision.nodes[id]) else None
    {
      if id in nodeCache {
        return Some(nodeCache[id]);
      }
      node := index.GetNode(id);
      NoWayBack();
      if node.Some? {
        nodeCache := nodeCache[id := node.value];
      }
    }

    method EdgesFor(id: NodeId) returns (edges: set<RawEdge>)
      requires Valid()
      modifies this`edgeCache, index
      ensures Valid() && StableSince()
      ensures Stable() ==> edges == EdgesAt(revision, id)
    {
      if id in edgeCache {
        return edgeCache[id];
      }
      edges := index.EdgesFor(id);
      NoWayBack();
      edgeCache := edgeCache[id := edges];
    }

    /** The lexical scores are read from the index directly, without a cache. */
    method TermScores(query: seq<Term>, ids: set<NodeId>) returns (reply: TermReply)
      requires Valid()
      modifies index
      ensures Valid() && StableSince()
      ensures reply.TooManyTerms? <==> ids != {} && |query| > MAX_QUERY_TERMS
      ensures reply.Scores? ==> reply.scores.Keys <= ids
      ensures Stable() && !reply.TooManyTerms? && ids <= revision.nodes.Keys ==>
                reply == Scores(ScoresIn(revision, query, ids))
    {
      reply := index.TermScores(query, ids);
      NoWayBack();
    }

    /** True exactly when nothing was committed since the operation opened. */
    method StableRevision() returns (stable: bool)
      requires Valid()
      modifies index
      ensures Valid() && StableSince()
      ensures stable <==> Stable()
    {
      var closing := index.RevisionDigest();
      NoWayBack();
      stable := closing == revision;
    }

    function Allowance(view: View): nat {
      match view
      case Neighborhood => maxGraphExpansionNodes
      case Dependencies => maxDependencyStates + 1
    }

    /** The links that a node's edges offer. */
    method LinksOf(view: View, current: NodeId) returns (links: set<Link>)
      requires Valid()
      modifies this`edgeCache, index
      ensures Valid() && StableSince()
      ensures Stable() ==> links == Links(revision, view, current)
    {
      var edges := EdgesFor(current);
      links := LinksFrom(edges, view, current);
    }

    /** One frontier node's turn: read its edges and merge the steps they offer. */
    method ProposeFrom(view: View, paths: map<NodeId, GraphPath>, ghost table: LinkTable, current: NodeId,
                       proposals: map<NodeId, GraphPath>)
      returns (merged: map<NodeId, GraphPath>, overflow: bool, ghost table': LinkTable, ghost extra: set<NodeId>)
      requires Valid() && (Stable() ==> TableOf(revision, view, table))
      requires table.Keys + {current} <= paths.Keys && current !in table
      requires Proposed(table, paths, proposals) && Fits(paths, proposals, Allowance(view))
      modifies this`edgeCache, index
      ensures Valid() && StableSince()
      ensures table'.Keys == table.Keys + {current}
      ensures Stable() ==> TableOf(revision, view, table')
      ensures !overflow ==> Proposed(table', paths, merged) && Fits(paths, merged, Allowance(view))
      ensures overflow ==> TooMany(table', paths, extra, Allowance(view))
    {
      var links := LinksOf(view, current);
      merged, overflow, extra := MergeLinks(paths, table, current, links, proposals, Allowance(view));
      table' := table[current := links];
      KeysWith(table, current, links);
    }

    /** The proposals of one level, from the links read for each frontier node, or an overflow. */
    method ProposeLevel(view: View, paths: map<NodeId, GraphPath>, frontier: set<NodeId>)
      returns (proposals: map<NodeId, GraphPath>, overflow: bool, ghost table: LinkTable, ghost extra: set<NodeId>)
      requires Valid() && frontier <= paths.Keys
      modifies this`edgeCache, index
      ensures Valid() && StableSince()
      ensures Stable() ==> TableOf(revision, view, table)
      ensures table.Keys <= frontier
      ensures !overflow ==> table.Keys == frontier && Proposed(table, paths, proposals)
      ensures !overflow ==> Fits(paths, proposals, Allowance(view))
      ensures overflow ==> TooMany(table, paths, extra, Allowance(view))
    {
      proposals, overflow, table, extra := map[], false, map[], {};
      var remaining := frontier;
      while remaining != {} && !overflow
        invariant Valid() && StableSince()
        invariant Stable() ==> TableOf(revision, view, table)
        invariant remaining <= frontier && table.Keys <= frontier && remaining !! table.Keys
        invariant forall c :: c in frontier ==> c in table || c in remaining
        invariant !overflow ==> Proposed(table, paths, proposals) && Fits(paths, proposals, Allowance(view))
        invariant overflow ==> TooMany(table, paths, extra, Allowance(view))
        decreases remaining
      {
        var current := TakeSome(remaining);
        proposals, overflow, table, extra := ProposeFrom(view, paths, table, current, proposals);
        remaining := remaining - {current};
      }
    }

    /** One level deeper: the paths found so far and the new frontier. */
    method AdvanceLevel(view: View, ghost start: NodeId, ghost depth: nat,
                        paths: map<NodeId, GraphPath>, frontier: set<NodeId>)
      returns (r: Traversal)
      requires Valid() && frontier <= paths.Keys
      requires Stable() ==> LevelDone(revision, view, start, depth, paths, frontier)
      requires Roomy(paths, Allowance(view))
      modifies this`edgeCache, index
      ensures Valid() && StableSince()
      ensures r.Overflow? && Stable() ==> Overflows(revision, view, start, depth + 1, Allowance(view))
      ensures r.Reached? ==> r.frontier <= r.paths.Keys && Roomy(r.paths, Allowance(view))
      ensures r.Reached? && Stable() ==> LevelDone(revision, view, start, depth + 1, r.paths, r.frontier)
    {
      var proposals, overflow, table, extra := ProposeLevel(view, paths, frontier);
      if Stable() {
        if overflow {
          OverflowsBall(revision, view, start, depth, paths, frontier, table, extra, Allowance(view));
        } else {
          NextLevel(revision, view, start, depth, paths, table, proposals);
        }
      }
      if overflow {
        return Overflow;
      }
      RoomAfter(paths, proposals, Allowance(view));
      r := Reached(paths + proposals, proposals.Keys);
    }

    /** The traversal that both path queries share. */
    method LevelPaths(view: View, start: NodeId, maxDepth: nat) returns (r: Traversal)
      requires Valid()
      modifies this`edgeCache, index
      ensures Valid() && StableSince()
      ensures Stable() && r.Overflow? ==> Overflows(revision, view, start, maxDepth, Allowance(view))
      ensures Stable() && r.Reached? ==> LevelDone(revision, view, start, maxDepth, r.paths, r.frontier)
      ensures r.Reached? ==> Roomy(r.paths, Allowance(view))
    {
      r := Reached(map[start := Trivial(start)], {start});
      StartLevel(revision, view, start);
      var depth := 0;
      while depth < maxDepth
        invariant 0 <= depth <= maxDepth
        invariant Valid() && StableSince()
        invariant r.Reached? && r.frontier <= r.paths.Keys && Roomy(r.paths, Allowance(view))
        invariant Stable() ==> LevelDone(revision, view, start, depth, r.paths, r.frontier)
      {
        r := AdvanceLevel(view, start, depth, r.paths, r.frontier);
        depth := depth + 1;
        if r.Overflow? {
          OverflowPersists(revision, view, start, depth, maxDepth, Allowance(view));
          return;
        }
        if r.frontier == {} {
          if Stable() {
            EmptyFrontierIsFinal(revision, view, start, depth, maxDepth, r.paths);
          }
          return;
        }
      }
    }

    /** Exactly the nodes within the depth, each with its least shortest path; an overflow exactly
        when more than the permitted number of nodes lie in that ball. */
    method ReachablePaths(anchor: NodeId, maxDepth: nat) returns (r: Option<map<NodeId, GraphPath>>)
      requires Valid()
      modifies this`edgeCache, index
      ensures Valid() && StableSince()
      ensures Stable() ==> (r.None? <==> Overflows(revision, Neighborhood, anchor, maxDepth, maxGraphExpansionNodes))
      ensures Stable() && r.Some? ==>
                forall n :: n in r.value <==> WithinDepth(revision, Neighborhood, anchor, maxDepth, n)
      ensures Stable() && r.Some? ==>
                forall n :: n in r.value ==> LeastPath(revision, Neighborhood, anchor, n, r.value[n])
      ensures Stable() && r.Some? ==>
                forall n :: n in r.value ==> FirstPath(revision, Neighborhood, anchor, n, r.value[n])
    {
      var traversal := LevelPaths(Neighborhood, anchor, maxDepth);
      if traversal.Overflow? {
        return None;
      }
      if Stable() {
        LevelIsLeast(revision, Neighborhood, anchor, maxDepth, traversal.paths, traversal.frontier);
        LeastPathsAreFirst(revision, Neighborhood, anchor, traversal.paths);
      }
      r := Some(traversal.paths);
    }

    /** Whether some frontier node still has a link that leaves the paths. */
    method LeadsOutside(view: View, paths: map<NodeId, GraphPath>, frontier: set<NodeId>) returns (outside: bool)
      requires Valid()
      modifies this`edgeCache, index
      ensures Valid() && StableSince()
      ensures Stable() ==> (outside <==> FrontierLeaves(revision, view, frontier, paths.Keys))
    {
      outside := false;
      var remaining := frontier;
      while remaining != {} && !outside
        invariant Valid() && StableSince()
        invariant remaining <= frontier
        invariant Stable() && !outside ==>
                    forall c :: c in frontier && LinksLeave(revision, view, c, paths.Keys) ==> c in remaining
        invariant Stable() && outside ==> FrontierLeaves(revision, view, frontier, paths.Keys)
        decreases remaining
      {
        var current := TakeSome(remaining);
        var edges := EdgesFor(current);
        outside := exists l :: l in LinksFrom(edges, view, current) && l.other !in paths;
        assert Stable() && outside ==> LinksLeave(revision, view, current, paths.Keys);
        remaining := remaining - {current};
      }
    }

    /** The transitive dependencies of a task within a depth, each by its least shortest path, and
        whether that is not yet all of them. */
    method DependencyPathsOf(task: NodeId, maxDepth: nat) returns (r: DependencyPaths)
      requires Valid()
      modifies this`edgeCache, index
      ensures Valid() && StableSince()
      ensures Stable() ==>
                (r.TooManyDependencies? <==> Overflows(revision, Dependencies, task, maxDepth, maxDependencyStates + 1))
      ensures Stable() && r.Found? ==> DependenciesFound(revision, task, maxDepth, r.paths, r.truncated)
      ensures Stable() && r.Found? ==>
                forall n :: n in r.paths ==> FirstPath(revision, Dependencies, task, n, r.paths[n])
    {
      var traversal := LevelPaths(Dependencies, task, maxDepth);
      if traversal.Overflow? {
        return TooManyDependencies;
      }
      var truncated := LeadsOutside(Dependencies, traversal.paths, traversal.frontier);
      if Stable() {
        DependenciesDone(revision, task, maxDepth, traversal.paths, traversal.frontier, truncated);
        LeastPathsAreFirst(revision, Dependencies, task, traversal.paths - {task});
      }
      r := Found(traversal.paths - {task}, truncated);
    }
  }

  ghost predicate LinksLeave(s: Store, view: View, c: NodeId, known: set<NodeId>) {
    exists l :: l in Links(s, view, c) && l.other !in known
  }

  ghost predicate FrontierLeaves(s: Store, view: View, frontier: set<NodeId>, known: set<NodeId>) {
    exists c :: c in frontier && LinksLeave(s, view, c, known)
  }

  /** `n` is a direct or indirect dependency, at any depth. */
  ghost predicate DependsTransitively(s: Store, task: NodeId, n: NodeId) {
    n != task && exists depth: nat :: WithinDepth(s, Dependencies, task, depth, n)
  }

  ghost predicate DependenciesFound(s: Store, task: NodeId, maxDepth: nat, paths: map<NodeId, GraphPath>,
                                    truncated: bool)
  {
    && (forall n :: n in paths <==> n != task && WithinDepth(s, Dependencies, task, maxDepth, n))
    && (forall n :: n in paths ==> LeastPath(s, Dependencies, task, n, paths[n]))
    && (truncated <==> exists n :: DependsTransitively(s, task, n) && n !in paths)
  }

  /** The frontier leads outside exactly when the next ball is larger. */
  lemma LeavesIffBallGrows(s: Store, view: View, start: NodeId, depth: nat,
                           paths: map<NodeId, GraphPath>, frontier: set<NodeId>)
    requires LevelDone(s, view, start, depth, paths, frontier)
    ensures FrontierLeaves(s, view, frontier, paths.Keys) <==>
            Ball(s, view, start, depth + 1) != Ball(s, view, start, depth)
  {
    if FrontierLeaves(s, view, frontier, paths.Keys) {
      var c :| c in frontier && LinksLeave(s, view, c, paths.Keys);
      var l :| l in Links(s, view, c) && l.other !in paths.Keys;
      NeighbourInNextBall(s, view, start, depth, c, l);
    } else {
      forall n | n in Ball(s, view, start, depth + 1)
        ensures n in Ball(s, view, start, depth)
      {
        if n !in Ball(s, view, start, depth) {
          var m, l :| m in Ball(s, view, start, depth) && l in Links(s, view, m) && l.other == n;
          if m in frontier {
            assert LinksLeave(s, view, m, paths.Keys);
          } else {
            InteriorIsClosed(s, view, start, depth, paths, frontier, m, l);
          }
        }
      }
    }
  }

  /** A ball that grows once more misses a node that some longer path reaches. */
  lemma GrowthMissesNode(s: Store, view: View, start: NodeId, depth: nat) returns (n: NodeId)
    requires Ball(s, view, start, depth + 1) != Ball(s, view, start, depth)
    ensures n !in Ball(s, view, start, depth) && WithinDepth(s, view, start, depth + 1, n)
  {
    BallGrows(s, view, start, depth, depth + 1);
    n := NewMember(Ball(s, view, start, depth), Ball(s, view, start, depth + 1));
    BallHasPaths(s, view, start, depth + 1, n);
  }

  /** A ball that does not grow is the closure. */
  lemma NoGrowthIsFinal(s: Store, view: View, start: NodeId, depth: nat, deeper: nat, n: NodeId)
    requires Ball(s, view, start, depth + 1) == Ball(s, view, start, depth)
    requires WithinDepth(s, view, start, deeper, n)
    ensures n in Ball(s, view, start, depth)
  {
    BallIsWithinDepth(s, view, start, deeper, n);
    if depth <= deeper {
      BallSaturates(s, view, start, depth, deeper);
    } else {
      BallGrows(s, view, start, deeper, depth);
    }
  }

  lemma DependenciesDone(s: Store, task: NodeId, depth: nat, paths: map<NodeId, GraphPath>,
                         frontier: set<NodeId>, truncated: bool)
    requires LevelDone(s, Dependencies, task, depth, paths, frontier)
    requires truncated <==> FrontierLeaves(s, Dependencies, frontier, paths.Keys)
    ensures DependenciesFound(s, task, depth, paths - {task}, truncated)
  {
    LevelIsLeast(s, Dependencies, task, depth, paths, frontier);
    LeavesIffBallGrows(s, Dependencies, task, depth, paths, frontier);
    TruncatedIffMissing(s, task, depth, paths.Keys, truncated);
  }

  lemma TruncatedIffMissing(s: Store, task: NodeId, depth: nat, known: set<NodeId>, truncated: bool)
    requires known == Ball(s, Dependencies, task, depth)
    requires truncated <==> Ball(s, Dependencies, task, depth + 1) != known
    ensures truncated <==> exists n :: DependsTransitively(s, task, n) && n !in known
    ensures task in known
  {
    BallGrows(s, Dependencies, task, 0, depth);
    if truncated {
      var n := GrowthMissesNode(s, Dependencies, task, depth);
      assert DependsTransitively(s, task, n);
    } else {
      forall n | DependsTransitively(s, task, n)
        ensures n in known
      {
        var deeper: nat :| WithinDepth(s, Dependencies, task, deeper, n);
        NoGrowthIsFinal(s, Dependencies, task, depth, deeper, n);
      }
    }
  }

  lemma OverflowPersists(s: Store, view: View, start: NodeId, depth: nat, deeper: nat, allowance: nat)
    requires depth <= deeper
    ensures Overflows(s, view, start, depth, allowance) ==> Overflows(s, view, start, deeper, allowance)
  {
    BallGrows(s, view, start, depth, deeper);
    SubsetSize(Ball(s, view, start, depth), Ball(s, view, start, deeper));
  }

  /** If the nodes met on the way out of a level are too many, so is the next ball. */
  lemma OverflowsBall(s: Store, view: View, start: NodeId, depth: nat, paths: map<NodeId, GraphPath>,
                      frontier: set<NodeId>, table: LinkTable, extra: set<NodeId>, allowance: nat)
    requires LevelDone(s, view, start, depth, paths, frontier)
    requires table.Keys <= frontier && TableOf(s, view, table)
    requires TooMany(table, paths, extra, allowance)
    ensures Overflows(s, view, start, depth + 1, allowance)
  {
    var inner, outer := Ball(s, view, start, depth), Ball(s, view, start, depth + 1);
    forall n | n in extra
      ensures n in outer
    {
      assert Met(table, n);
      var c, link :| c in table && link in table[c] && link.other == n;
      NeighbourInNextBall(s, view, start, depth, c, link);
    }
    DisjointSubsetsSize(inner, extra, outer);
    BallGrows(s, view, start, 0, depth);
    SubsetSize({start}, inner);
    SubsetSize({SomeMember(extra)}, extra);
  }
}
