/**
 Next-step planning: the tasks near an anchor, each with its dependency inspection,
 eligible ones first.
 */
module KnowledgePlanning {
  import opened Options
  import opened Collections
  import opened DependencyGraph
  import opened KnowledgeModel
  import opened KnowledgeStore
  import opened Ordering
  import opened GraphPaths
  import opened KnowledgeReadContext
  import opened KnowledgeResults
  import opened KnowledgeDependencies
  import opened KnowledgeSearch

  /** What one planning call asks for. `query` is absent when blank; the terms of the anchor's own
      text are used then. */
  datatype Request = Request(
    anchor: NodeId,
    query: Option<Terms>,
    maxDepth: nat,
    dependencyMaxDepth: nat,
    limit: nat)

  predicate ValidArguments(maxDepth: int, dependencyMaxDepth: int, limit: int) {
    0 <= maxDepth <= MAX_DEPTH && 0 <= dependencyMaxDepth <= MAX_DEPTH && ValidLimit(limit)
  }

  predicate ValidRequest(request: Request) {
    ValidArguments(request.maxDepth, request.dependencyMaxDepth, request.limit)
  }

  function AssembleCandidate(anchor: NodeId, task: Node, path: GraphPath, matched: seq<Match>, inspection: Inspection)
    : Candidate
    requires task.kind.Task?
  {
    var unmet := StatusReasons(task.kind.status) + inspection.unmetReasons;
    Candidate(anchor, task, path, ScoreFor(matched, path.depth), inspection, unmet == [], unmet)
  }

  function QueryTerms(request: Request, anchorTerms: Terms): (terms: Terms)
    ensures |terms| <= MAX_QUERY_TERMS
  {
    var source := if request.query.Some? then request.query.value else anchorTerms;
    if |source| <= MAX_QUERY_TERMS then source else source[..MAX_QUERY_TERMS]
  }

  // ----- what planning over one snapshot yields -----

  ghost predicate NearbyTask(s: Store, request: Request, n: NodeId) {
    Neighbour(s, request.anchor, request.maxDepth, n) && n in s.nodes && s.nodes[n].kind.Task?
  }

  ghost predicate CandidateOf(s: Store, request: Request, terms: Terms, c: Candidate) {
    && c.task.id in s.nodes && c.task == s.nodes[c.task.id] && c.task.kind.Task? && c.task.id in s.terms
    && LeastPath(s, Neighborhood, request.anchor, c.task.id, c.path)
    && InspectionOf(s, c.task.id, request.dependencyMaxDepth, c.inspection) && AcceptedInspection(c.inspection)
    && c == AssembleCandidate(request.anchor, c.task, c.path, Matches(s.terms[c.task.id], terms), c.inspection)
  }

  ghost predicate CandidateFor(all: seq<Keyed<Candidate>>, n: NodeId) {
    exists e :: e in all && e.item.task.id == n
  }

  /** All nearby tasks, best first. */
  ghost predicate RankedCandidates(s: Store, request: Request, terms: Terms, all: seq<Keyed<Candidate>>) {
    && Ascending(all)
    && (forall e :: e in all ==> e == CandidateEntry(e.item) && CandidateOf(s, request, terms, e.item))
    && (forall n :: CandidateFor(all, n) <==> NearbyTask(s, request, n))
  }

  ghost function NearbyTasks(s: Store, request: Request): set<NodeId> {
    set n | n in Ball(s, Neighborhood, request.anchor, request.maxDepth) && NearbyTask(s, request, n)
  }

  ghost predicate TooDeep(s: Store, limits: Limits, request: Request, n: NodeId) {
    Overflows(s, Dependencies, n, request.dependencyMaxDepth, limits.dependencyStates + 1)
  }

  ghost predicate NotInspected(s: Store, limits: Limits, request: Request, n: NodeId) {
    TooDeep(s, limits, request, n) || Refused(s, n, request.dependencyMaxDepth)
  }

  ghost function FailureOf(s: Store, limits: Limits, request: Request, n: NodeId): ReadError {
    if TooDeep(s, limits, request, n) then ReadError.TooManyDependencies else ResultRefused
  }

  /** Tasks are inspected in the order of their identifiers; the first failure ends the planning. */
  ghost predicate FailsFirst(s: Store, limits: Limits, request: Request, tasks: set<NodeId>, n: NodeId) {
    && n in tasks && NotInspected(s, limits, request, n)
    && forall m :: m in tasks && m < n ==> !NotInspected(s, limits, request, m)
  }

  ghost predicate PlansTo(s: Store, limits: Limits, anchorTerms: Node -> Terms, request: Request, r: Outcome<Plan>) {
    if request.anchor !in s.nodes then r == Err(NoSuchNode(request.anchor))
    else if Overflows(s, Neighborhood, request.anchor, request.maxDepth, limits.expansionNodes) then
      r == Err(TooManyNodes)
    else if |NearbyTasks(s, request)| > limits.nextStepCandidates then r == Err(TooManyCandidates)
    else if exists n :: n in NearbyTasks(s, request) && NotInspected(s, limits, request, n) then
      exists n ::
        FailsFirst(s, limits, request, NearbyTasks(s, request), n) && r == Err(FailureOf(s, limits, request, n))
    else
      && r.Ok?
      && IsPlan(s, request, QueryTerms(request, anchorTerms(s.nodes[request.anchor])), r.value)
  }

  ghost predicate IsPlan(s: Store, request: Request, terms: Terms, plan: Plan) {
    exists all :: RankedCandidates(s, request, terms, all) && plan == PlanFrom(s, request, terms, all)
  }

  function PlanFrom(revision: Store, request: Request, terms: Terms, all: seq<Keyed<Candidate>>): Plan {
    Plan(request.anchor, terms, request.maxDepth, request.dependencyMaxDepth, revision, InPlaces(all, request.limit))
  }

  function InPlaces(all: seq<Keyed<Candidate>>, limit: nat): seq<Ranked> {
    seq(if limit < |all| then limit else |all|, i requires 0 <= i < |all| => Ranked(i + 1, all[i].item))
  }

  /** A ready task all of whose transitive dependencies, at any depth, are completed and lie
      within the dependency depth. */
  ghost predicate Admissible(s: Store, task: NodeId, dependencyMaxDepth: nat) {
    && task in s.nodes && s.nodes[task].kind == Task(Ready)
    && forall n :: DependsTransitively(s, task, n) ==>
         IsCompleted(s, n) && WithinDepth(s, Dependencies, task, dependencyMaxDepth, n)
  }

  lemma EligibleIffAdmissible(s: Store, request: Request, terms: Terms, c: Candidate)
    requires CandidateOf(s, request, terms, c)
    ensures c.eligible <==> Admissible(s, c.task.id, request.dependencyMaxDepth)
  {
    AllSatisfiedIff(s, c.task.id, request.dependencyMaxDepth, c.inspection);
  }

  /** Admissible tasks come first: when an ineligible candidate made the list, no admissible task
      was cut off by the limit, and each of them stands before that candidate. */
  lemma AdmissibleComeFirst(s: Store, request: Request, terms: Terms, plan: Plan, i: nat, n: NodeId)
    requires IsPlan(s, request, terms, plan)
    requires i < |plan.candidates| && !plan.candidates[i].candidate.eligible
    requires NearbyTask(s, request, n) && Admissible(s, n, request.dependencyMaxDepth)
    ensures exists j :: 0 <= j < i && plan.candidates[j].candidate.task.id == n
  {
    var all: seq<Keyed<Candidate>> :|
      RankedCandidates(s, request, terms, all) && plan == PlanFrom(s, request, terms, all);
    assert CandidateFor(all, n);
    var e: Keyed<Candidate> :| e in all && e.item.task.id == n;
    var k :| 0 <= k < |all| && all[k] == e;
    assert all[i] in all && all[i] == CandidateEntry(plan.candidates[i].candidate);
    EligibleIffAdmissible(s, request, terms, e.item);
    EligibleBefore(e.item, plan.candidates[i].candidate);
    SmallerKeyStandsBefore(all, i, k);
    assert plan.candidates[k].candidate.task.id == n;
  }

  lemma EligibleBefore(a: Candidate, b: Candidate)
    requires a.eligible && !b.eligible
    ensures Before(CandidateEntry(a), CandidateEntry(b))
  {
  }

  // ----- which plans can be built -----

  lemma SameTaskSameCandidate(s: Store, request: Request, terms: Terms, c: Candidate, d: Candidate)
    requires CandidateOf(s, request, terms, c) && CandidateOf(s, request, terms, d) && c.task.id == d.task.id
    ensures c == d
  {
    LeastPathUnique(s, Neighborhood, request.anchor, c.task.id, c.path, d.path);
    InspectionUnique(s, c.task.id, request.dependencyMaxDepth, c.inspection, d.inspection);
  }

  lemma CandidateIsAccepted(s: Store, request: Request, terms: Terms, c: Candidate, rank: nat)
    requires Integrity(s) && ValidRequest(request) && AcceptedTerms(terms) && 1 <= rank <= request.limit
    requires CandidateOf(s, request, terms, c) && NearbyTask(s, request, c.task.id)
    ensures AcceptedCandidate(Ranked(rank, c)) && c.path.depth <= request.maxDepth
  {
    var p :| PathTo(s, Neighborhood, request.anchor, c.task.id, p) && p.depth <= request.maxDepth;
    LeastPathAcceptedIff(s, Neighborhood, request.anchor, c.task.id, c.path);
    ScoreIsAccepted(c.task, terms, c.path.depth);
  }

  lemma CandidateFitsPlan(s: Store, request: Request, terms: Terms, all: seq<Keyed<Candidate>>, c: Candidate)
    requires Integrity(s) && CandidateOf(s, request, terms, c) && c.path.depth <= request.maxDepth
    ensures FitsPlan(PlanFrom(s, request, terms, all), c)
  {
    MatchedTerms(c.task.terms, terms);
  }

  lemma PlacesAreInOrder(s: Store, request: Request, terms: Terms, all: seq<Keyed<Candidate>>, limit: nat)
    requires RankedCandidates(s, request, terms, all)
    ensures InOrder(InPlaces(all, limit))
  {
    var entries := RankedEntries(InPlaces(all, limit));
    forall i | 0 <= i < |entries| ensures entries[i] == all[i] {
      assert all[i] in all;
    }
    forall i, j | 0 <= i < j < |entries|
      ensures all[i].item.task.id != all[j].item.task.id
    {
      assert all[i] in all && all[j] in all && Before(all[i], all[j]);
      KeysTotal(all[i].key, all[i].key);
      if all[i].item.task.id == all[j].item.task.id {
        SameTaskSameCandidate(s, request, terms, all[i].item, all[j].item);
      }
    }
  }

  ghost predicate Accepted(plan: Plan) {
    && AcceptedPlan(plan)
    && forall i :: 0 <= i < |plan.candidates| ==>
         AcceptedCandidate(plan.candidates[i]) && AcceptedInspection(plan.candidates[i].candidate.inspection)
  }

  lemma PlaceIsAccepted(s: Store, request: Request, terms: Terms, all: seq<Keyed<Candidate>>, i: nat)
    requires Integrity(s) && ValidRequest(request) && AcceptedTerms(terms)
    requires RankedCandidates(s, request, terms, all) && i < |all| && i < request.limit
    ensures AcceptedCandidate(Ranked(i + 1, all[i].item)) && AcceptedInspection(all[i].item.inspection)
    ensures FitsPlan(PlanFrom(s, request, terms, all), all[i].item)
  {
    assert all[i] in all;
    assert CandidateFor(all, all[i].item.task.id);
    CandidateIsAccepted(s, request, terms, all[i].item, i + 1);
    CandidateFitsPlan(s, request, terms, all, all[i].item);
  }

  lemma PlanFromIsAccepted(s: Store, request: Request, terms: Terms, all: seq<Keyed<Candidate>>)
    requires Integrity(s) && ValidRequest(request) && AcceptedTerms(terms)
    requires RankedCandidates(s, request, terms, all)
    ensures Accepted(PlanFrom(s, request, terms, all))
  {
    var plan := PlanFrom(s, request, terms, all);
    PlacesAreInOrder(s, request, terms, all, request.limit);
    forall i | 0 <= i < |plan.candidates|
      ensures AcceptedCandidate(plan.candidates[i]) && FitsPlan(plan, plan.candidates[i].candidate)
      ensures AcceptedInspection(plan.candidates[i].candidate.inspection)
    {
      PlaceIsAccepted(s, request, terms, all, i);
    }
  }

  /** The constructors accept every plan and each of its candidates: planning can only be refused
      over an inspection. */
  lemma PlanIsAccepted(s: Store, request: Request, terms: Terms, plan: Plan)
    requires Integrity(s) && ValidRequest(request) && AcceptedTerms(terms)
    requires IsPlan(s, request, terms, plan)
    ensures Accepted(plan)
  {
    var all: seq<Keyed<Candidate>> :|
      RankedCandidates(s, request, terms, all) && plan == PlanFrom(s, request, terms, all);
    PlanFromIsAccepted(s, request, terms, all);
  }

  /** With a limit of at most a thousand dependencies nothing is refused by a constructor. */
  lemma SmallLimitIsNotRefused(s: Store, limits: Limits, anchorTerms: Node -> Terms, request: Request, r: Outcome<Plan>)
    requires limits.dependencyStates <= MAX_RESULTS && ValidRequest(request)
    requires PlansTo(s, limits, anchorTerms, request, r)
    ensures r != Err(ResultRefused)
  {
  }

  /** The outcome of planning is determined by the snapshot. */
  lemma PlanUnique(s: Store, limits: Limits, anchorTerms: Node -> Terms, request: Request,
                   a: Outcome<Plan>, b: Outcome<Plan>)
    requires PlansTo(s, limits, anchorTerms, request, a) && PlansTo(s, limits, anchorTerms, request, b)
    ensures a == b
  {
    if a.Ok? && b.Ok? {
      var terms := QueryTerms(request, anchorTerms(s.nodes[request.anchor]));
      var p: seq<Keyed<Candidate>> :|
        RankedCandidates(s, request, terms, p) && a.value == PlanFrom(s, request, terms, p);
      var q: seq<Keyed<Candidate>> :|
        RankedCandidates(s, request, terms, q) && b.value == PlanFrom(s, request, terms, q);
      CandidatesIncluded(s, request, terms, p, q);
      CandidatesIncluded(s, request, terms, q, p);
      AscendingUnique(p, q);
    }
  }

  lemma CandidatesIncluded(s: Store, request: Request, terms: Terms, p: seq<Keyed<Candidate>>, q: seq<Keyed<Candidate>>)
    requires RankedCandidates(s, request, terms, p) && RankedCandidates(s, request, terms, q)
    ensures forall e :: e in p ==> e in q
  {
    forall e | e in p
      ensures e in q
    {
      var n := e.item.task.id;
      assert CandidateFor(p, n);
      assert CandidateFor(q, n);
      var f :| f in q && f.item.task.id == n;
      SameTaskSameCandidate(s, request, terms, e.item, f.item);
    }
  }

  // ----- planning itself -----

  ghost function TasksIn(s: Store, ids: set<NodeId>): set<NodeId> {
    set n | n in ids && n in s.nodes && s.nodes[n].kind.Task?
  }

  lemma OneMoreId(s: Store, ids: set<NodeId>, id: NodeId)
    requires id in s.nodes && id !in ids
    ensures TasksIn(s, ids + {id}) == TasksIn(s, ids) + if s.nodes[id].kind.Task? then {id} else {}
    ensures |TasksIn(s, ids + {id})| == |TasksIn(s, ids)| + if s.nodes[id].kind.Task? then 1 else 0
  {
    assert id !in TasksIn(s, ids);
    if s.nodes[id].kind.Task? {
      assert TasksIn(s, ids + {id}) == TasksIn(s, ids) + {id};
    } else {
      assert TasksIn(s, ids + {id}) == TasksIn(s, ids);
    }
  }

  /** The nearby tasks, unless there are too many. */
  method TasksAmong(context: ReadContext, limits: Limits, ids: set<NodeId>) returns (r: Outcome<set<NodeId>>)
    requires context.Valid()
    requires context.Stable() ==> ids <= context.revision.nodes.Keys
    modifies context`nodeCache, context.index
    ensures context.Valid() && context.StableSince()
    ensures r.Ok? ==> r.value <= ids
    ensures context.Stable() ==>
              r == if |TasksIn(context.revision, ids)| > limits.nextStepCandidates then Err(TooManyCandidates)
                   else Ok(TasksIn(context.revision, ids))
  {
    var tasks: set<NodeId> := {};
    var remaining := ids;
    ghost var done: set<NodeId> := {};
    while remaining != {}
      invariant context.Valid() && context.StableSince()
      invariant remaining <= ids && done <= ids && remaining !! done && tasks <= done
      invariant forall n :: n in ids ==> n in done || n in remaining
      invariant |tasks| <= limits.nextStepCandidates
      invariant context.Stable() ==> tasks == TasksIn(context.revision, done)
      decreases remaining
    {
      var id := TakeSome(remaining);
      var node := context.RequiredNode(id);
      if node.None? {
        return Err(NoSuchNode(id));
      }
      if context.Stable() {
        OneMoreId(context.revision, done, id);
      }
      if node.value.kind.Task? {
        if |tasks| >= limits.nextStepCandidates {
          if context.Stable() {
            SubsetSize(TasksIn(context.revision, done + {id}), TasksIn(context.revision, ids));
          }
          return Err(TooManyCandidates);
        }
        tasks := tasks + {id};
      }
      remaining := remaining - {id};
      done := done + {id};
    }
    assert done == ids;
    r := Ok(tasks);
  }

  ghost predicate CandidatesAmong(s: Store, request: Request, terms: Terms, ids: set<NodeId>,
                                  drafts: seq<Keyed<Candidate>>)
  {
    && (forall e :: e in drafts ==>
          e == CandidateEntry(e.item) && e.item.task.id in ids && CandidateOf(s, request, terms, e.item))
    && (forall n :: n in ids ==> CandidateFor(drafts, n))
    && DistinctKeys(drafts)
  }

  lemma NewTaskNewKey(ids: set<NodeId>, drafts: seq<Keyed<Candidate>>, c: Candidate)
    requires forall e :: e in drafts ==> e == CandidateEntry(e.item) && e.item.task.id in ids
    requires c.task.id !in ids
    ensures forall e :: e in drafts ==> e.key != CandidateEntry(c).key
  {
    forall e | e in drafts
      ensures e.key != CandidateEntry(c).key
    {
      assert e.key[3] == e.item.task.id && CandidateEntry(c).key[3] == c.task.id;
    }
  }

  lemma StillCandidateFor(drafts: seq<Keyed<Candidate>>, e: Keyed<Candidate>)
    ensures forall n :: CandidateFor(drafts, n) ==> CandidateFor(drafts + [e], n)
    ensures CandidateFor(drafts + [e], e.item.task.id)
  {
    var longer := drafts + [e];
    forall n | CandidateFor(drafts, n)
      ensures CandidateFor(longer, n)
    {
      var d: Keyed<Candidate> :| d in drafts && d.item.task.id == n;
      assert d in longer;
    }
    assert longer[|drafts|] == e;
  }

  lemma OneMoreCandidate(s: Store, request: Request, terms: Terms, ids: set<NodeId>, drafts: seq<Keyed<Candidate>>,
                         c: Candidate)
    requires CandidatesAmong(s, request, terms, ids, drafts)
    requires CandidateOf(s, request, terms, c) && c.task.id !in ids
    ensures CandidatesAmong(s, request, terms, ids + {c.task.id}, drafts + [CandidateEntry(c)])
  {
    NewTaskNewKey(ids, drafts, c);
    AppendKeepsDistinct(drafts, CandidateEntry(c));
    StillCandidateFor(drafts, CandidateEntry(c));
  }

  ghost predicate ReadyToDraft(s: Store, request: Request, terms: Terms, id: NodeId, path: GraphPath,
                               matched: seq<Match>)
  {
    && id in s.nodes && s.nodes[id].kind.Task? && id in s.terms
    && LeastPath(s, Neighborhood, request.anchor, id, path)
    && matched == Matches(s.terms[id], terms)
  }

  /** One nearby task: inspect its dependencies and put its candidate together. */
  method DraftCandidate(context: ReadContext, limits: Limits, request: Request, ghost terms: Terms, id: NodeId,
                        path: GraphPath, matched: seq<Match>)
    returns (r: Outcome<Candidate>)
    requires context.Valid() && context.maxDependencyStates == limits.dependencyStates
    requires context.Stable() ==> ReadyToDraft(context.revision, request, terms, id, path, matched)
    modifies context`nodeCache, context`edgeCache, context.index
    ensures context.Valid() && context.StableSince()
    ensures context.Stable() ==>
              if NotInspected(context.revision, limits, request, id) then
                r == Err(FailureOf(context.revision, limits, request, id))
              else r.Ok? && CandidateOf(context.revision, request, terms, r.value) && r.value.task.id == id
  {
    var task := context.RequiredNode(id);
    if task.None? {
      return Err(NoSuchNode(id));
    }
    var inspection := InspectInContext(context, limits, id, request.dependencyMaxDepth);
    if inspection.Err? {
      return Err(inspection.error);
    }
    if !task.value.kind.Task? {
      return Err(NotATask);
    }
    r := Ok(AssembleCandidate(request.anchor, task.value, path, matched, inspection.value));
  }

  ghost predicate DraftsOf(s: Store, limits: Limits, request: Request, terms: Terms, tasks: set<NodeId>,
                           r: Outcome<seq<Keyed<Candidate>>>)
  {
    if exists n :: n in tasks && NotInspected(s, limits, request, n) then
      exists n :: FailsFirst(s, limits, request, tasks, n) && r == Err(FailureOf(s, limits, request, n))
    else r.Ok? && CandidatesAmong(s, request, terms, tasks, r.value)
  }

  lemma NoEarlierFailure(s: Store, limits: Limits, request: Request, terms: Terms, tasks: set<NodeId>,
                         done: set<NodeId>, drafts: seq<Keyed<Candidate>>, id: NodeId)
    requires DraftsOf(s, limits, request, terms, done, Ok(drafts))
    requires id in tasks && NotInspected(s, limits, request, id)
    requires forall m :: m in tasks && m < id ==> m in done
    ensures FailsFirst(s, limits, request, tasks, id)
  {
  }

  lemma OneMoreDraft(s: Store, limits: Limits, request: Request, terms: Terms, done: set<NodeId>,
                     drafts: seq<Keyed<Candidate>>, c: Candidate)
    requires DraftsOf(s, limits, request, terms, done, Ok(drafts))
    requires CandidateOf(s, request, terms, c) && c.task.id !in done && !NotInspected(s, limits, request, c.task.id)
    ensures DraftsOf(s, limits, request, terms, done + {c.task.id}, Ok(drafts + [CandidateEntry(c)]))
  {
    OneMoreCandidate(s, request, terms, done, drafts, c);
  }

  /** The first identifier in sorted order. */
  method TakeLeast(ids: set<NodeId>) returns (least: NodeId)
    requires ids != {}
    ensures least in ids && forall id :: id in ids ==> least <= id
  {
    least := TakeSome(ids);
    var remaining := ids - {least};
    while remaining != {}
      invariant remaining <= ids && least in ids
      invariant forall id :: id in ids ==> id in remaining || least <= id
    {
      var id := TakeSome(remaining);
      remaining := remaining - {id};
      if id < least {
        least := id;
      }
    }
  }

  /** The drafts with one more candidate, or its failure. */
  method DraftNext(context: ReadContext, limits: Limits, request: Request, ghost terms: Terms, ghost done: set<NodeId>,
                   drafts: seq<Keyed<Candidate>>, id: NodeId, path: GraphPath, matched: seq<Match>)
    returns (r: Outcome<seq<Keyed<Candidate>>>)
    requires context.Valid() && context.maxDependencyStates == limits.dependencyStates && id !in done
    requires context.Stable() ==> ReadyToDraft(context.revision, request, terms, id, path, matched)
    requires context.Stable() ==> DraftsOf(context.revision, limits, request, terms, done, Ok(drafts))
    modifies context`nodeCache, context`edgeCache, context.index
    ensures context.Valid() && context.StableSince()
    ensures context.Stable() ==>
              if NotInspected(context.revision, limits, request, id) then
                r == Err(FailureOf(context.revision, limits, request, id))
              else r.Ok? && DraftsOf(context.revision, limits, request, terms, done + {id}, r)
  {
    var draft := DraftCandidate(context, limits, request, terms, id, path, matched);
    if draft.Err? {
      return Err(draft.error);
    }
    if context.Stable() && !NotInspected(context.revision, limits, request, id) {
      OneMoreDraft(context.revision, limits, request, terms, done, drafts, draft.value);
    }
    r := Ok(drafts + [CandidateEntry(draft.value)]);
  }

  /** Draft the candidates in the order of their identifiers, up to the first failure. */
  method DraftAll(context: ReadContext, limits: Limits, request: Request, ghost terms: Terms, tasks: set<NodeId>,
                  paths: map<NodeId, GraphPath>, scores: map<NodeId, seq<Match>>)
    returns (r: Outcome<seq<Keyed<Candidate>>>)
    requires context.Valid() && context.maxDependencyStates == limits.dependencyStates
    requires tasks <= paths.Keys
    requires context.Stable() ==>
               forall n :: n in tasks ==>
                 ReadyToDraft(context.revision, request, terms, n, paths[n], MatchesFor(scores, n))
    modifies context`nodeCache, context`edgeCache, context.index
    ensures context.Valid() && context.StableSince()
    ensures context.Stable() ==> DraftsOf(context.revision, limits, request, terms, tasks, r)
  {
    var drafts: seq<Keyed<Candidate>> := [];
    var remaining := tasks;
    ghost var done: set<NodeId> := {};
    while remaining != {}
      invariant context.Valid() && context.StableSince()
      invariant remaining <= tasks && done == tasks - remaining
      invariant forall m, n :: m in done && n in remaining ==> m < n
      invariant context.Stable() ==> DraftsOf(context.revision, limits, request, terms, done, Ok(drafts))
      decreases remaining
    {
      var id := TakeLeast(remaining);
      var next := DraftNext(context, limits, request, terms, done, drafts, id, paths[id], MatchesFor(scores, id));
      if next.Err? {
        if context.Stable() {
          NoEarlierFailure(context.revision, limits, request, terms, tasks, done, drafts, id);
        }
        return Err(next.error);
      }
      drafts := next.value;
      remaining := remaining - {id};
      done := done + {id};
    }
    assert done == tasks;
    r := Ok(drafts);
  }

  function MatchesFor(scores: map<NodeId, seq<Match>>, id: NodeId): seq<Match> {
    if id in scores then scores[id] else []
  }

  lemma TasksAreReady(s: Store, request: Request, terms: Terms, paths: map<NodeId, GraphPath>, tasks: set<NodeId>)
    requires Integrity(s) && IsBall(s, request.anchor, request.maxDepth, paths)
    requires tasks == TasksIn(s, paths.Keys - {request.anchor})
    ensures forall n :: n in tasks ==>
              ReadyToDraft(s, request, terms, n, paths[n], MatchesFor(ScoresIn(s, terms, tasks), n))
  {
  }

  lemma NearbyTasksAre(s: Store, request: Request, paths: map<NodeId, GraphPath>)
    requires IsBall(s, request.anchor, request.maxDepth, paths)
    ensures NearbyTasks(s, request) == TasksIn(s, paths.Keys - {request.anchor})
    ensures forall n :: NearbyTask(s, request, n) <==> n in NearbyTasks(s, request)
  {
    forall n | NearbyTask(s, request, n) ensures n in NearbyTasks(s, request) {
      BallIsWithinDepth(s, Neighborhood, request.anchor, request.maxDepth, n);
    }
  }

  lemma DraftsAreRanked(s: Store, request: Request, terms: Terms, tasks: set<NodeId>, drafts: seq<Keyed<Candidate>>)
    requires CandidatesAmong(s, request, terms, tasks, drafts)
    requires forall n :: NearbyTask(s, request, n) <==> n in tasks
    ensures RankedCandidates(s, request, terms, SortByKey(drafts))
  {
    var all := SortByKey(drafts);
    SortAscends(drafts);
    forall n ensures CandidateFor(all, n) <==> n in tasks {
      if n in tasks {
        assert CandidateFor(drafts, n);
      }
    }
  }

  ghost predicate TasksPlanned(s: Store, limits: Limits, request: Request, terms: Terms, r: Outcome<Plan>) {
    if |NearbyTasks(s, request)| > limits.nextStepCandidates then r == Err(TooManyCandidates)
    else if exists n :: n in NearbyTasks(s, request) && NotInspected(s, limits, request, n) then
      exists n ::
        FailsFirst(s, limits, request, NearbyTasks(s, request), n) && r == Err(FailureOf(s, limits, request, n))
    else r.Ok? && IsPlan(s, request, terms, r.value)
  }

  /** Select, score, inspect and rank the tasks of the neighbourhood. */
  method PlanTasks(context: ReadContext, limits: Limits, request: Request, terms: Terms, paths: map<NodeId, GraphPath>)
    returns (r: Outcome<Plan>)
    requires context.Valid() && context.maxDependencyStates == limits.dependencyStates
    requires ValidRequest(request) && AcceptedTerms(terms)
    requires context.Stable() ==> IsBall(context.revision, request.anchor, request.maxDepth, paths)
    modifies context`nodeCache, context`edgeCache, context.index
    ensures context.Valid() && context.StableSince()
    ensures context.Stable() ==> TasksPlanned(context.revision, limits, request, terms, r)
    ensures r.Ok? ==> r.value.revision == context.revision
  {
    var ids := paths.Keys - {request.anchor};
    if context.Stable() {
      NeighboursAreStored(context.revision, request.anchor, request.maxDepth, paths);
    }
    var tasks := TasksAmong(context, limits, ids);
    if context.Stable() {
      NearbyTasksAre(context.revision, request, paths);
    }
    if tasks.Err? {
      return Err(tasks.error);
    }
    var reply := context.TermScores(terms, tasks.value);
    if !reply.Scores? {
      return Err(ReadError.TermsDiffer);
    }
    if context.Stable() {
      TasksAreReady(context.revision, request, terms, paths, tasks.value);
    }
    var drafts := DraftAll(context, limits, request, terms, tasks.value, paths, reply.scores);
    if drafts.Err? {
      return Err(drafts.error);
    }
    if context.Stable() && drafts.Ok? {
      DraftsAreRanked(context.revision, request, terms, tasks.value, drafts.value);
    }
    var plan := PlanFrom(context.revision, request, terms, SortByKey(drafts.value));
    if context.Stable() {
      assert IsPlan(context.revision, request, terms, plan);
      PlanIsAccepted(context.revision, request, terms, plan);
    }
    if !(forall i :: 0 <= i < |plan.candidates| ==> AcceptedCandidate(plan.candidates[i])) || !AcceptedPlan(plan) {
      return Err(ResultRefused);
    }
    r := Ok(plan);
  }

  method PlanInContext(context: ReadContext, limits: Limits, anchorTerms: Node -> Terms, request: Request)
    returns (r: Outcome<Plan>)
    requires context.Valid() && ValidRequest(request)
    requires context.maxDependencyStates == limits.dependencyStates
    requires context.maxGraphExpansionNodes == limits.expansionNodes
    modifies context`nodeCache, context`edgeCache, context.index
    ensures context.Valid() && context.StableSince()
    ensures context.Stable() ==> PlansTo(context.revision, limits, anchorTerms, request, r)
    ensures r.Ok? ==> r.value.revision == context.revision
  {
    var anchor := context.RequiredNode(request.anchor);
    if anchor.None? {
      return Err(NoSuchNode(request.anchor));
    }
    var terms := QueryTerms(request, anchorTerms(anchor.value));
    var reached := context.ReachablePaths(request.anchor, request.maxDepth);
    if reached.None? {
      return Err(TooManyNodes);
    }
    r := PlanTasks(context, limits, request, terms, reached.value);
  }

  /** The fence around planning: a plan that is returned is the one its revision determines, and
      that revision is the store when the call ends. */
  method NextStepContext(index: KnowledgeIndex, limits: Limits, anchorTerms: Node -> Terms, anchor: NodeId,
                         query: Option<Terms>, maxDepth: int, dependencyMaxDepth: int, limit: int)
    returns (r: Outcome<Plan>, ghost opening: Store)
    requires Integrity(index.store)
    modifies index
    ensures Integrity(index.store) && Extends(old(index.store), opening) && Extends(opening, index.store)
    ensures !ValidArguments(maxDepth, dependencyMaxDepth, limit) ==> r == Err(InvalidArgument)
    ensures ValidArguments(maxDepth, dependencyMaxDepth, limit) && index.store == opening ==>
              PlansTo(opening, limits, anchorTerms, Request(anchor, query, maxDepth, dependencyMaxDepth, limit), r)
    ensures r.Ok? ==> index.store == opening == r.value.revision
  {
    opening := index.store;
    if !ValidArguments(maxDepth, dependencyMaxDepth, limit) {
      return Err(InvalidArgument), opening;
    }
    var context := new ReadContext(index, limits.expansionNodes, limits.dependencyStates);
    opening := context.revision;
    r := PlanInContext(context, limits, anchorTerms, Request(anchor, query, maxDepth, dependencyMaxDepth, limit));
    if r.Ok? {
      var stable := context.StableRevision();
      if !stable {
        r := Err(IndexChanged);
      }
    }
  }
}
