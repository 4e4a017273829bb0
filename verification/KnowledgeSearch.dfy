/**
 Lexical search restricted to the neighbourhood of an anchor.
 */
module KnowledgeSearch {
  import opened Collections
  import opened DependencyGraph
  import opened KnowledgeModel
  import opened KnowledgeStore
  import opened Ordering
  import opened GraphPaths
  import opened KnowledgeReadContext
  import opened KnowledgeResults
  import opened KnowledgeDependencies

  predicate ValidLimit(limit: int) {
    1 <= limit <= MAX_RESULTS
  }

  // ----- what a search of one snapshot finds -----

  ghost predicate Neighbour(s: Store, anchor: NodeId, maxDepth: nat, n: NodeId) {
    n != anchor && WithinDepth(s, Neighborhood, anchor, maxDepth, n)
  }

  ghost predicate Hits(s: Store, anchor: NodeId, query: Terms, maxDepth: nat, n: NodeId) {
    Neighbour(s, anchor, maxDepth, n) && n in s.terms && Matches(s.terms[n], query) != []
  }

  ghost predicate HitOf(s: Store, anchor: NodeId, query: Terms, h: Hit) {
    && h.anchor == anchor && h.revision == s
    && h.node.id in s.nodes && h.node == s.nodes[h.node.id] && h.node.id in s.terms
    && LeastPath(s, Neighborhood, anchor, h.node.id, h.path)
    && h.score == ScoreFor(Matches(s.terms[h.node.id], query), h.path.depth)
  }

  ghost predicate HitFor(hits: seq<Keyed<Hit>>, n: NodeId) {
    exists e :: e in hits && e.item.node.id == n
  }

  /** All hits, best first. */
  ghost predicate RankedHits(s: Store, anchor: NodeId, query: Terms, maxDepth: nat, all: seq<Keyed<Hit>>) {
    && Ascending(all)
    && (forall e :: e in all ==> e == HitEntry(e.item) && HitOf(s, anchor, query, e.item))
    && (forall n :: HitFor(all, n) <==> Hits(s, anchor, query, maxDepth, n))
  }

  ghost predicate SearchesTo(s: Store, limits: Limits, anchor: NodeId, query: Terms, maxDepth: nat, limit: nat,
                             r: Outcome<seq<Hit>>)
  {
    if anchor !in s.nodes then r == Err(NoSuchNode(anchor))
    else if query == [] then r == Err(InvalidArgument)
    else if Overflows(s, Neighborhood, anchor, maxDepth, limits.expansionNodes) then r == Err(TooManyNodes)
    else MatchesRanked(s, anchor, query, maxDepth, limit, r)
  }

  /** The constructor accepts every hit of a search that the index answers. */
  lemma HitIsAccepted(s: Store, anchor: NodeId, query: Terms, maxDepth: nat, h: Hit)
    requires Integrity(s) && maxDepth <= MAX_DEPTH && |query| <= MAX_QUERY_TERMS
    requires HitOf(s, anchor, query, h) && Hits(s, anchor, query, maxDepth, h.node.id)
    ensures AcceptedHit(h)
  {
    var p :| PathTo(s, Neighborhood, anchor, h.node.id, p) && p.depth <= maxDepth;
    LeastPathAcceptedIff(s, Neighborhood, anchor, h.node.id, h.path);
    ScoreIsAccepted(h.node, query, h.path.depth);
  }

  /** The outcome of a search is determined by the snapshot. */
  lemma SearchUnique(s: Store, limits: Limits, anchor: NodeId, query: Terms, maxDepth: nat, limit: nat,
                     a: Outcome<seq<Hit>>, b: Outcome<seq<Hit>>)
    requires SearchesTo(s, limits, anchor, query, maxDepth, limit, a)
    requires SearchesTo(s, limits, anchor, query, maxDepth, limit, b)
    ensures a == b
  {
    if a.Ok? && b.Ok? {
      var p :| RankedHits(s, anchor, query, maxDepth, p) && a == Ok(TopItems(p, limit));
      var q :| RankedHits(s, anchor, query, maxDepth, q) && b == Ok(TopItems(q, limit));
      HitsIncluded(s, anchor, query, maxDepth, p, q);
      HitsIncluded(s, anchor, query, maxDepth, q, p);
      AscendingUnique(p, q);
    }
  }

  lemma HitsIncluded(s: Store, anchor: NodeId, query: Terms, maxDepth: nat, p: seq<Keyed<Hit>>, q: seq<Keyed<Hit>>)
    requires RankedHits(s, anchor, query, maxDepth, p) && RankedHits(s, anchor, query, maxDepth, q)
    ensures forall e :: e in p ==> e in q
  {
    forall e | e in p
      ensures e in q
    {
      assert HitFor(p, e.item.node.id);
      assert HitFor(q, e.item.node.id);
      var f :| f in q && f.item.node.id == e.item.node.id;
      LeastPathUnique(s, Neighborhood, anchor, e.item.node.id, e.item.path, f.item.path);
    }
  }

  // ----- the search itself -----

  ghost predicate HitsAmong(s: Store, anchor: NodeId, query: Terms, ids: set<NodeId>, hits: seq<Keyed<Hit>>) {
    && (forall e :: e in hits ==> e == HitEntry(e.item) && e.item.node.id in ids && HitOf(s, anchor, query, e.item))
    && (forall n :: n in ids ==> HitFor(hits, n))
    && DistinctKeys(hits)
  }

  lemma OneMoreHit(s: Store, anchor: NodeId, query: Terms, ids: set<NodeId>, hits: seq<Keyed<Hit>>, h: Hit)
    requires HitsAmong(s, anchor, query, ids, hits) && HitOf(s, anchor, query, h) && h.node.id !in ids
    ensures HitsAmong(s, anchor, query, ids + {h.node.id}, hits + [HitEntry(h)])
  {
    var longer := hits + [HitEntry(h)];
    assert forall e :: e in hits ==> e.key[2] != h.node.id;
    AppendKeepsDistinct(hits, HitEntry(h));
    forall n | n in ids
      ensures HitFor(longer, n)
    {
      assert HitFor(hits, n);
      var e :| e in hits && e.item.node.id == n;
      assert e in longer;
    }
    assert HitEntry(h) in longer;
  }

  /** Read the nodes with matching terms one by one. */
  method CollectHits(context: ReadContext, anchor: NodeId, ghost query: Terms, ghost maxDepth: nat,
                     scores: map<NodeId, seq<Match>>, paths: map<NodeId, GraphPath>)
    returns (r: Outcome<seq<Keyed<Hit>>>)
    requires context.Valid() && scores.Keys <= paths.Keys
    requires context.Stable() ==> ReadyToCollect(context.revision, anchor, query, maxDepth, scores, paths)
    modifies context`nodeCache, context.index
    ensures context.Valid() && context.StableSince()
    ensures context.Stable() ==> r.Ok? && HitsAmong(context.revision, anchor, query, scores.Keys, r.value)
  {
    var hits: seq<Keyed<Hit>> := [];
    var remaining := scores.Keys;
    ghost var done: set<NodeId> := {};
    while remaining != {}
      invariant context.Valid() && context.StableSince()
      invariant remaining <= scores.Keys && done <= scores.Keys && remaining !! done
      invariant forall id :: id in scores ==> id in done || id in remaining
      invariant context.Stable() ==> HitsAmong(context.revision, anchor, query, done, hits)
      decreases remaining
    {
      var id := TakeSome(remaining);
      remaining := remaining - {id};
      var node := context.RequiredNode(id);
      if node.None? {
        return Err(NoSuchNode(id));
      }
      var hit := Hit(anchor, context.revision, node.value, paths[id], ScoreFor(scores[id], paths[id].depth));
      if context.Stable() {
        HitIsAccepted(context.revision, anchor, query, maxDepth, hit);
      }
      if !AcceptedHit(hit) {
        return Err(ResultRefused);
      }
      if context.Stable() {
        OneMoreHit(context.revision, anchor, query, done, hits, hit);
      }
      hits := hits + [HitEntry(hit)];
      done := done + {id};
    }
    assert done == scores.Keys;
    r := Ok(hits);
  }

  ghost predicate ReadyToCollect(s: Store, anchor: NodeId, query: Terms, maxDepth: nat,
                                 scores: map<NodeId, seq<Match>>, paths: map<NodeId, GraphPath>)
  {
    forall id :: id in scores ==>
      && maxDepth <= MAX_DEPTH && |query| <= MAX_QUERY_TERMS && Hits(s, anchor, query, maxDepth, id)
      && id in paths && id in s.nodes && s.nodes[id].id == id && id in s.terms
      && scores[id] == Matches(s.terms[id], query)
      && LeastPath(s, Neighborhood, anchor, id, paths[id])
  }

  /** Sorting the collected hits ranks all hits of the snapshot. */
  lemma CollectedAreRanked(s: Store, anchor: NodeId, query: Terms, maxDepth: nat, ids: set<NodeId>,
                           hits: seq<Keyed<Hit>>)
    requires HitsAmong(s, anchor, query, ids, hits)
    requires forall n :: n in ids <==> Hits(s, anchor, query, maxDepth, n)
    ensures RankedHits(s, anchor, query, maxDepth, SortByKey(hits))
  {
    var all := SortByKey(hits);
    SortAscends(hits);
    forall n ensures HitFor(all, n) <==> n in ids {
      if n in ids {
        assert HitFor(hits, n);
      }
    }
  }

  lemma ScoredAreHits(s: Store, anchor: NodeId, query: Terms, maxDepth: nat, paths: map<NodeId, GraphPath>,
                      ids: set<NodeId>, scores: map<NodeId, seq<Match>>)
    requires Integrity(s) && anchor in s.nodes && maxDepth <= MAX_DEPTH
    requires ids != {} ==> |query| <= MAX_QUERY_TERMS
    requires IsBall(s, anchor, maxDepth, paths)
    requires ids == paths.Keys - {anchor} && scores == ScoresIn(s, query, ids)
    ensures ReadyToCollect(s, anchor, query, maxDepth, scores, paths)
    ensures forall n :: n in scores <==> Hits(s, anchor, query, maxDepth, n)
  {
    forall n | n in scores
      ensures n in s.nodes
    {
      LinkedNodeIsStored(s, Neighborhood, anchor, n, maxDepth);
    }
  }

  ghost predicate IsBall(s: Store, anchor: NodeId, maxDepth: nat, paths: map<NodeId, GraphPath>) {
    && (forall n :: n in paths <==> WithinDepth(s, Neighborhood, anchor, maxDepth, n))
    && (forall n :: n in paths ==> LeastPath(s, Neighborhood, anchor, n, paths[n]))
  }

  ghost predicate MatchesRanked(s: Store, anchor: NodeId, query: Terms, maxDepth: nat, limit: nat,
                                r: Outcome<seq<Hit>>)
  {
    if |query| > MAX_QUERY_TERMS && (exists n :: Neighbour(s, anchor, maxDepth, n)) then
      r == Err(ReadError.TooManyTerms)
    else exists all :: RankedHits(s, anchor, query, maxDepth, all) && r == Ok(TopItems(all, limit))
  }

  /** Score and rank the nodes of the neighbourhood that match. */
  method RankMatches(context: ReadContext, anchor: NodeId, query: Terms, ghost maxDepth: nat, limit: nat,
                     paths: map<NodeId, GraphPath>)
    returns (r: Outcome<seq<Hit>>)
    requires context.Valid() && maxDepth <= MAX_DEPTH
    requires context.Stable() ==> anchor in context.revision.nodes && IsBall(context.revision, anchor, maxDepth, paths)
    modifies context`nodeCache, context.index
    ensures context.Valid() && context.StableSince()
    ensures context.Stable() ==> MatchesRanked(context.revision, anchor, query, maxDepth, limit, r)
  {
    var ids := paths.Keys - {anchor};
    if context.Stable() {
      NeighboursAreStored(context.revision, anchor, maxDepth, paths);
    }
    var reply := context.TermScores(query, ids);
    if context.Stable() {
      assert ids != {} <==> exists n :: Neighbour(context.revision, anchor, maxDepth, n) by {
        NeighboursExistIff(context.revision, anchor, maxDepth, paths);
      }
    }
    if !reply.Scores? {
      return Err(if reply.TooManyTerms? then ReadError.TooManyTerms else ReadError.TermsDiffer);
    }
    var scores := reply.scores;
    if context.Stable() {
      ScoredAreHits(context.revision, anchor, query, maxDepth, paths, ids, scores);
    }
    var hits := CollectHits(context, anchor, query, maxDepth, scores, paths);
    if hits.Err? {
      return Err(hits.error);
    }
    if context.Stable() {
      CollectedAreRanked(context.revision, anchor, query, maxDepth, scores.Keys, hits.value);
    }
    r := Ok(TopItems(SortByKey(hits.value), limit));
  }

  lemma NeighboursAreStored(s: Store, anchor: NodeId, maxDepth: nat, paths: map<NodeId, GraphPath>)
    requires Integrity(s) && IsBall(s, anchor, maxDepth, paths)
    ensures paths.Keys - {anchor} <= s.nodes.Keys
  {
    forall n | n in paths.Keys - {anchor}
      ensures n in s.nodes
    {
      LinkedNodeIsStored(s, Neighborhood, anchor, n, maxDepth);
    }
  }

  lemma NeighboursExistIff(s: Store, anchor: NodeId, maxDepth: nat, paths: map<NodeId, GraphPath>)
    requires IsBall(s, anchor, maxDepth, paths)
    ensures paths.Keys - {anchor} != {} <==> exists n :: Neighbour(s, anchor, maxDepth, n)
  {
    if n :| Neighbour(s, anchor, maxDepth, n) {
      assert n in paths.Keys - {anchor};
    }
    if n :| n in paths.Keys - {anchor} {
      assert Neighbour(s, anchor, maxDepth, n);
    }
  }

  method SearchInContext(context: ReadContext, limits: Limits, anchor: NodeId, query: Terms, maxDepth: nat, limit: nat)
    returns (r: Outcome<seq<Hit>>)
    requires context.Valid() && context.maxGraphExpansionNodes == limits.expansionNodes && maxDepth <= MAX_DEPTH
    modifies context`nodeCache, context`edgeCache, context.index
    ensures context.Valid() && context.StableSince()
    ensures context.Stable() ==> SearchesTo(context.revision, limits, anchor, query, maxDepth, limit, r)
  {
    var node := context.RequiredNode(anchor);
    if node.None? {
      return Err(NoSuchNode(anchor));
    }
    if query == [] {
      return Err(InvalidArgument);
    }
    var reached := context.ReachablePaths(anchor, maxDepth);
    if reached.None? {
      return Err(TooManyNodes);
    }
    r := RankMatches(context, anchor, query, maxDepth, limit, reached.value);
  }

  /** As for an inspection: a search that returns hits returns those of the one snapshot that still
      is the store when it ends. */
  method Search(index: KnowledgeIndex, limits: Limits, anchor: NodeId, query: Terms, maxDepth: int, limit: int)
    returns (r: Outcome<seq<Hit>>, ghost opening: Store)
    requires Integrity(index.store)
    modifies index
    ensures Integrity(index.store) && Extends(old(index.store), opening) && Extends(opening, index.store)
    ensures !(0 <= maxDepth <= MAX_DEPTH && ValidLimit(limit)) ==> r == Err(InvalidArgument)
    ensures 0 <= maxDepth <= MAX_DEPTH && ValidLimit(limit) && index.store == opening ==>
              SearchesTo(opening, limits, anchor, query, maxDepth, limit, r)
    ensures r.Ok? ==> index.store == opening
  {
    opening := index.store;
    if !(0 <= maxDepth <= MAX_DEPTH && ValidLimit(limit)) {
      return Err(InvalidArgument), opening;
    }
    var context := new ReadContext(index, limits.expansionNodes, limits.dependencyStates);
    opening := context.revision;
    r := SearchInContext(context, limits, anchor, query, maxDepth, limit);
    if r.Ok? {
      var stable := context.StableRevision();
      if !stable {
        r := Err(IndexChanged);
      }
    }
  }
}
