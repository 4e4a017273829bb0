/**
 What the order of search hits and of next-step candidates means, and what a limit cuts off.
 */
module KnowledgeRanking {
  import opened DependencyGraph
  import opened KnowledgeModel
  import opened KnowledgeStore
  import opened Ordering
  import opened GraphPaths
  import opened KnowledgeResults
  import opened KnowledgeDependencies
  import opened KnowledgeSearch
  import opened KnowledgePlanning

  /** Higher total first, then the nearer node, then the smaller identifier. */
  predicate Outranks(totalA: int, depthA: nat, idA: NodeId, totalB: int, depthB: nat, idB: NodeId) {
    totalA > totalB || (totalA == totalB && (depthA < depthB || (depthA == depthB && idA < idB)))
  }

  predicate BetterHit(a: Hit, b: Hit) {
    Outranks(a.score.total, a.path.depth, a.node.id, b.score.total, b.path.depth, b.node.id)
  }

  /** Eligible candidates come first, each class in the order of hits. */
  predicate BetterCandidate(a: Candidate, b: Candidate) {
    (a.eligible && !b.eligible) ||
    (a.eligible == b.eligible &&
     Outranks(a.score.total, a.path.depth, a.task.id, b.score.total, b.path.depth, b.task.id))
  }

  lemma TripleLess(a: seq<int>, b: seq<int>)
    requires |a| == |b| == 3 && SeqLess(IntLess, a, b)
    ensures a[0] < b[0] || (a[0] == b[0] && (a[1] < b[1] || (a[1] == b[1] && a[2] < b[2])))
  {
    var k := FirstDifference(IntLess, a, b);
    assert forall i :: 0 <= i < k ==> a[..k][i] == b[..k][i];
    assert k > 0 ==> a[0] == b[0];
    assert k > 1 ==> a[1] == b[1];
  }

  lemma HitOrder(a: Hit, b: Hit)
    requires Before(HitEntry(a), HitEntry(b))
    ensures BetterHit(a, b)
  {
    TripleLess(HitEntry(a).key, HitEntry(b).key);
  }

  lemma CandidateOrder(a: Candidate, b: Candidate)
    requires Before(CandidateEntry(a), CandidateEntry(b))
    ensures BetterCandidate(a, b)
  {
    var x, y := CandidateEntry(a).key, CandidateEntry(b).key;
    if a.eligible == b.eligible {
      assert SeqLess(IntLess, x[1..], y[1..]);
      TripleLess(x[1..], y[1..]);
    }
  }

  // ----- inspections -----

  lemma PairLess(a: seq<int>, b: seq<int>)
    requires |a| == |b| == 2 && SeqLess(IntLess, a, b)
    ensures a[0] < b[0] || (a[0] == b[0] && a[1] < b[1])
  {
    var k := FirstDifference(IntLess, a, b);
    assert forall i :: 0 <= i < k ==> a[..k][i] == b[..k][i];
    assert k > 0 ==> a[0] == b[0];
  }

  /** An inspection lists nearer dependencies first, and those of one depth by their identifiers. */
  lemma NearerDependenciesFirst(r: Inspection, i: nat, j: nat)
    requires AcceptedInspection(r) && i < j < |r.dependencies|
    ensures var a, b := r.dependencies[i], r.dependencies[j];
            a.path.depth < b.path.depth || (a.path.depth == b.path.depth && a.id < b.id)
  {
    var entries := StateEntries(r.dependencies);
    assert Before(entries[i], entries[j]);
    PairLess(entries[i].key, entries[j].key);
  }

  // ----- searches -----

  /** A node is a hit if it is another node near enough that has a term of the query. */
  lemma HitsIff(s: Store, anchor: NodeId, query: Terms, maxDepth: nat, n: NodeId)
    requires Integrity(s)
    ensures Hits(s, anchor, query, maxDepth, n) <==>
              && n in s.nodes && n != anchor && WithinDepth(s, Neighborhood, anchor, maxDepth, n)
              && exists t :: t in query && t in s.nodes[n].terms
  {
    if n in s.nodes {
      EveryTermIsMatched(s.terms[n], query);
      if t :| t in query && t in s.nodes[n].terms {
        assert Match(t, s.terms[n][t]) in Matches(s.terms[n], query);
      }
      if Matches(s.terms[n], query) != [] {
        assert Matches(s.terms[n], query)[0] in Matches(s.terms[n], query);
      }
    }
  }

  /** A hit of the snapshot, wherever it ranks. */
  ghost predicate IsHit(s: Store, anchor: NodeId, query: Terms, maxDepth: nat, h: Hit) {
    HitOf(s, anchor, query, h) && Hits(s, anchor, query, maxDepth, h.node.id)
  }

  lemma HitIsRanked(s: Store, anchor: NodeId, query: Terms, maxDepth: nat, all: seq<Keyed<Hit>>, h: Hit,
                    limit: nat)
    returns (k: nat)
    requires RankedHits(s, anchor, query, maxDepth, all) && IsHit(s, anchor, query, maxDepth, h)
    ensures k < |all| && all[k].item == h
    ensures h !in TopItems(all, limit) ==> k >= limit
  {
    assert HitFor(all, h.node.id);
    var e :| e in all && e.item.node.id == h.node.id;
    k :| 0 <= k < |all| && all[k] == e;
    LeastPathUnique(s, Neighborhood, anchor, h.node.id, h.path, e.item.path);
    if k < limit {
      assert TopItems(all, limit)[k] == h;
    }
  }

  lemma RankedInOrder(s: Store, anchor: NodeId, query: Terms, maxDepth: nat, all: seq<Keyed<Hit>>, i: nat, j: nat)
    requires RankedHits(s, anchor, query, maxDepth, all) && i < j < |all|
    ensures BetterHit(all[i].item, all[j].item)
  {
    assert all[i] in all && all[j] in all && Before(all[i], all[j]);
    HitOrder(all[i].item, all[j].item);
  }

  /** The hits a search returns are hits, better ones first and as many as the limit permits; a hit that is
      not listed was cut off by the limit and is worse than every listed one. */
  lemma SearchReturnsTheBest(s: Store, limits: Limits, anchor: NodeId, query: Terms, maxDepth: nat, limit: nat,
                             hits: seq<Hit>)
    requires SearchesTo(s, limits, anchor, query, maxDepth, limit, Ok(hits))
    ensures |hits| <= limit && forall h :: h in hits ==> IsHit(s, anchor, query, maxDepth, h)
    ensures forall i, j :: 0 <= i < j < |hits| ==> BetterHit(hits[i], hits[j])
    ensures forall h :: IsHit(s, anchor, query, maxDepth, h) && h !in hits ==>
              |hits| == limit && forall i :: 0 <= i < |hits| ==> BetterHit(hits[i], h)
  {
    var all :| RankedHits(s, anchor, query, maxDepth, all) && hits == TopItems(all, limit);
    forall h | h in hits
      ensures IsHit(s, anchor, query, maxDepth, h)
    {
      var i :| 0 <= i < |hits| && hits[i] == h;
      assert all[i] in all && HitFor(all, h.node.id);
    }
    forall i, j | 0 <= i < j < |hits|
      ensures BetterHit(hits[i], hits[j])
    {
      RankedInOrder(s, anchor, query, maxDepth, all, i, j);
    }
    forall h | IsHit(s, anchor, query, maxDepth, h) && h !in hits
      ensures |hits| == limit && forall i :: 0 <= i < |hits| ==> BetterHit(hits[i], h)
    {
      var k := HitIsRanked(s, anchor, query, maxDepth, all, h, limit);
      forall i | 0 <= i < |hits|
        ensures BetterHit(hits[i], h)
      {
        RankedInOrder(s, anchor, query, maxDepth, all, i, k);
      }
    }
  }

  // ----- plans -----

  ghost predicate IsCandidate(s: Store, request: Request, terms: Terms, c: Candidate) {
    CandidateOf(s, request, terms, c) && NearbyTask(s, request, c.task.id)
  }

  ghost predicate IsListed(plan: Plan, c: Candidate) {
    exists i :: 0 <= i < |plan.candidates| && plan.candidates[i].candidate == c
  }

  lemma CandidateIsRanked(s: Store, request: Request, terms: Terms, all: seq<Keyed<Candidate>>, c: Candidate)
    returns (k: nat)
    requires RankedCandidates(s, request, terms, all) && IsCandidate(s, request, terms, c)
    ensures k < |all| && all[k].item == c
  {
    assert CandidateFor(all, c.task.id);
    var e :| e in all && e.item.task.id == c.task.id;
    k :| 0 <= k < |all| && all[k] == e;
    SameTaskSameCandidate(s, request, terms, c, e.item);
  }

  lemma ListedWithinLimit(s: Store, request: Request, terms: Terms, all: seq<Keyed<Candidate>>, k: nat)
    requires RankedCandidates(s, request, terms, all) && k < |all|
    ensures !IsListed(PlanFrom(s, request, terms, all), all[k].item) ==> k >= request.limit
  {
    if k < request.limit {
      assert PlanFrom(s, request, terms, all).candidates[k].candidate == all[k].item;
    }
  }

  lemma PlannedInOrder(s: Store, request: Request, terms: Terms, all: seq<Keyed<Candidate>>, i: nat, j: nat)
    requires RankedCandidates(s, request, terms, all) && i < j < |all|
    ensures BetterCandidate(all[i].item, all[j].item)
  {
    assert all[i] in all && all[j] in all && Before(all[i], all[j]);
    CandidateOrder(all[i].item, all[j].item);
  }

  /** The same of the candidates of a plan, which are ranked from one; and the plan asks for the first 128
      terms of its query, or of the anchor's text if it has none. */
  lemma PlanListsTheBest(s: Store, request: Request, anchorTerms: Terms, plan: Plan)
    requires IsPlan(s, request, QueryTerms(request, anchorTerms), plan)
    ensures var asked := if request.query.Some? then request.query.value else anchorTerms;
            plan.queryTerms <= asked && |plan.queryTerms| == if |asked| < 128 then |asked| else 128
    ensures |plan.candidates| <= request.limit
    ensures forall i :: 0 <= i < |plan.candidates| ==>
              plan.candidates[i].rank == i + 1
              && IsCandidate(s, request, QueryTerms(request, anchorTerms), plan.candidates[i].candidate)
    ensures forall i, j :: 0 <= i < j < |plan.candidates| ==>
              BetterCandidate(plan.candidates[i].candidate, plan.candidates[j].candidate)
    ensures forall c :: IsCandidate(s, request, QueryTerms(request, anchorTerms), c) && !IsListed(plan, c) ==>
              && |plan.candidates| == request.limit
              && forall i :: 0 <= i < |plan.candidates| ==> BetterCandidate(plan.candidates[i].candidate, c)
  {
    var terms := QueryTerms(request, anchorTerms);
    var all: seq<Keyed<Candidate>> :|
      RankedCandidates(s, request, terms, all) && plan == PlanFrom(s, request, terms, all);
    forall i | 0 <= i < |plan.candidates|
      ensures IsCandidate(s, request, terms, plan.candidates[i].candidate)
    {
      assert all[i] in all && CandidateFor(all, all[i].item.task.id);
    }
    forall i, j | 0 <= i < j < |plan.candidates|
      ensures BetterCandidate(plan.candidates[i].candidate, plan.candidates[j].candidate)
    {
      PlannedInOrder(s, request, terms, all, i, j);
    }
    forall c | IsCandidate(s, request, terms, c) && !IsListed(plan, c)
      ensures |plan.candidates| == request.limit
      ensures forall i :: 0 <= i < |plan.candidates| ==> BetterCandidate(plan.candidates[i].candidate, c)
    {
      var k := CandidateIsRanked(s, request, terms, all, c);
      ListedWithinLimit(s, request, terms, all, k);
      forall i | 0 <= i < |plan.candidates|
        ensures BetterCandidate(plan.candidates[i].candidate, c)
      {
        PlannedInOrder(s, request, terms, all, i, k);
      }
    }
  }
}
