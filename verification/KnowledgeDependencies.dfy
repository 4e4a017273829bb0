/**
 Dependency inspection: the state of every transitive dependency of a task, and
 whether all of them are known to be satisfied.
 */
module KnowledgeDependencies {
  import opened Collections
  import opened DependencyGraph
  import opened KnowledgeModel
  import opened KnowledgeStore
  import opened Ordering
  import opened GraphPaths
  import opened KnowledgeReadContext
  import opened KnowledgeResults

  datatype ReadError =
    | InvalidArgument
    | NoSuchNode(id: NodeId)
    | NotATask
    | TooManyNodes
    | TooManyDependencies
    | TooManyCandidates
    | TooManyTerms
    | TermsDiffer
    | ResultRefused
    | IndexChanged

  datatype Outcome<+T> = Ok(value: T) | Err(error: ReadError)

  function PathEntry(id: NodeId, path: GraphPath): Keyed<NodeId> {
    Keyed([path.depth, id], id)
  }

  // ----- what an inspection of one snapshot says -----

  ghost predicate StateOf(s: Store, task: NodeId, d: DependencyState) {
    && d.id in s.nodes && s.nodes[d.id].kind == Task(d.status)
    && LeastPath(s, Dependencies, task, d.id, d.path)
    && (d.satisfied <==> d.status == Completed)
  }

  ghost predicate Listed(states: seq<DependencyState>, n: NodeId) {
    exists i :: 0 <= i < |states| && states[i].id == n
  }

  ghost predicate InspectionOf(s: Store, task: NodeId, maxDepth: nat, r: Inspection) {
    && r.task == task && r.maxDepth == maxDepth && r.revision == s
    && Ascending(StateEntries(r.dependencies))
    && (forall i :: 0 <= i < |r.dependencies| ==> StateOf(s, task, r.dependencies[i]))
    && (forall n :: Listed(r.dependencies, n) <==> n != task && WithinDepth(s, Dependencies, task, maxDepth, n))
    && (r.truncated <==>
          exists n :: DependsTransitively(s, task, n) && !WithinDepth(s, Dependencies, task, maxDepth, n))
    && r.unmetReasons == UnmetReasons(r.dependencies, r.truncated, maxDepth)
    && (r.allSatisfied <==> r.unmetReasons == [])
  }

  ghost predicate InspectsTo(s: Store, limits: Limits, task: NodeId, maxDepth: nat, r: Outcome<Inspection>) {
    if task !in s.nodes then r == Err(NoSuchNode(task))
    else if !s.nodes[task].kind.Task? then r == Err(NotATask)
    else if Overflows(s, Dependencies, task, maxDepth, limits.dependencyStates + 1) then
      r == Err(ReadError.TooManyDependencies)
    else if Refused(s, task, maxDepth) then r == Err(ResultRefused)
    else r.Ok? && InspectionOf(s, task, maxDepth, r.value) && AcceptedInspection(r.value)
  }

  /** What no inspection can be built for, whatever the limits of the service permit. */
  ghost predicate Refused(s: Store, task: NodeId, maxDepth: nat) {
    maxDepth > MAX_DEPTH || Overflows(s, Dependencies, task, maxDepth, MAX_RESULTS + 1)
  }

  datatype Limits = Limits(expansionNodes: nat, dependencyStates: nat, nextStepCandidates: nat)

  /** The limits that the knowledge graph passes to its services. */
  const GRAPH_LIMITS := Limits(10_000, 1_000, 1_000)

  ghost predicate IsCompleted(s: Store, n: NodeId) {
    n in s.nodes && s.nodes[n].kind == Task(Completed)
  }

  // ----- which inspections can be built -----

  function IdsOf(states: seq<DependencyState>): seq<NodeId> {
    seq(|states|, i requires 0 <= i < |states| => states[i].id)
  }

  /** An inspection lists each dependency once. */
  lemma DependenciesDistinct(s: Store, task: NodeId, maxDepth: nat, r: Inspection)
    requires InspectionOf(s, task, maxDepth, r)
    ensures forall i, j :: 0 <= i < j < |r.dependencies| ==> r.dependencies[i].id != r.dependencies[j].id
  {
    var entries := StateEntries(r.dependencies);
    forall i, j | 0 <= i < j < |r.dependencies|
      ensures r.dependencies[i].id != r.dependencies[j].id
    {
      var d, e := r.dependencies[i], r.dependencies[j];
      assert Before(entries[i], entries[j]);
      KeysTotal(entries[i].key, entries[i].key);
      if d.id == e.id {
        LeastPathUnique(s, Dependencies, task, d.id, d.path, e.path);
      }
    }
  }

  /** It lists as many as the ball holds beside the task. */
  lemma DependencyCount(s: Store, task: NodeId, maxDepth: nat, r: Inspection)
    requires InspectionOf(s, task, maxDepth, r)
    ensures |r.dependencies| + 1 == |Ball(s, Dependencies, task, maxDepth)|
  {
    var ball, ids := Ball(s, Dependencies, task, maxDepth), IdsOf(r.dependencies);
    DependenciesDistinct(s, task, maxDepth, r);
    forall n ensures n in ids <==> n in ball - {task} {
      BallIsWithinDepth(s, Dependencies, task, maxDepth, n);
      if n in ids {
        var i :| 0 <= i < |ids| && ids[i] == n;
        assert r.dependencies[i].id == n && Listed(r.dependencies, n);
      } else {
        assert forall i :: 0 <= i < |r.dependencies| ==> r.dependencies[i].id == ids[i];
      }
    }
    DistinctCount(ids, ball - {task});
    BallGrows(s, Dependencies, task, 0, maxDepth);
  }

  lemma StateIsAccepted(s: Store, task: NodeId, d: DependencyState)
    requires StateOf(s, task, d) && d.id != task
    ensures AcceptedState(d) <==> d.path.depth <= MAX_DEPTH
    ensures d.path.nodeIds[0] == task
  {
    LeastPathAcceptedIff(s, Dependencies, task, d.id, d.path);
  }

  lemma ListedWithinDepth(s: Store, task: NodeId, maxDepth: nat, r: Inspection, i: nat)
    requires InspectionOf(s, task, maxDepth, r) && i < |r.dependencies|
    ensures r.dependencies[i].id != task && r.dependencies[i].path.depth <= maxDepth
  {
    var d := r.dependencies[i];
    assert Listed(r.dependencies, d.id);
    var p :| PathTo(s, Dependencies, task, d.id, p) && p.depth <= maxDepth;
  }

  /** The constructor accepts the inspection of a snapshot exactly when the depth is a permitted one
      and at most a thousand dependencies lie within it. */
  lemma InspectionAcceptedIff(s: Store, task: NodeId, maxDepth: nat, r: Inspection)
    requires InspectionOf(s, task, maxDepth, r)
    ensures AcceptedInspection(r) <==> !Refused(s, task, maxDepth)
  {
    DependencyCount(s, task, maxDepth, r);
    DependenciesDistinct(s, task, maxDepth, r);
    if maxDepth <= MAX_DEPTH {
      forall d | d in r.dependencies
        ensures AcceptedState(d) && d.path.nodeIds[0] == task && d.path.depth <= maxDepth
      {
        var i :| 0 <= i < |r.dependencies| && r.dependencies[i] == d;
        ListedWithinDepth(s, task, maxDepth, r, i);
        StateIsAccepted(s, task, d);
      }
    }
  }

  /** All satisfied means exactly that every transitive dependency, at any depth, is completed and
      close enough to have been looked at. */
  lemma AllSatisfiedIff(s: Store, task: NodeId, maxDepth: nat, r: Inspection)
    requires InspectionOf(s, task, maxDepth, r)
    ensures r.allSatisfied <==>
            forall n :: DependsTransitively(s, task, n) ==>
                          IsCompleted(s, n) && WithinDepth(s, Dependencies, task, maxDepth, n)
  {
    if r.allSatisfied {
      forall n | DependsTransitively(s, task, n)
        ensures IsCompleted(s, n) && WithinDepth(s, Dependencies, task, maxDepth, n)
      {
        assert Listed(r.dependencies, n);
        var i :| 0 <= i < |r.dependencies| && r.dependencies[i].id == n;
        assert StateOf(s, task, r.dependencies[i]) && r.dependencies[i].satisfied;
      }
    } else if !r.truncated {
      var d :| d in r.dependencies && !d.satisfied;
      var i :| 0 <= i < |r.dependencies| && r.dependencies[i] == d;
      assert StateOf(s, task, d) && Listed(r.dependencies, d.id);
      assert DependsTransitively(s, task, d.id) && !IsCompleted(s, d.id);
    }
  }

  /** Every other node on a path is stored, and every direct or indirect dependency is a task. */
  lemma LinkedNodeIsStored(s: Store, view: View, start: NodeId, n: NodeId, depth: nat)
    requires Integrity(s) && WithinDepth(s, view, start, depth, n) && n != start
    ensures n in s.nodes
    ensures view == Dependencies ==> s.nodes[n].kind.Task?
  {
    var p :| PathTo(s, view, start, n, p) && p.depth <= depth;
    var via, shorter, link := PathSplits(s, view, start, n, p);
    LinkTargetIsStored(s, view, via, link);
  }

  lemma LinkTargetIsStored(s: Store, view: View, via: NodeId, link: Link)
    requires Integrity(s) && link in Links(s, view, via)
    ensures link.other in s.nodes
    ensures view == Dependencies ==> s.nodes[link.other].kind.Task?
  {
    var e :| e in EdgesAt(s, via) && Offers(view, e, via) && link == LinkOf(e, via);
    var k :| k in s.edges && s.edges[k] == e;
    assert KeyOf(s.edges[k]) == k && EndpointsStored(s, k);
  }

  /** An inspection is determined by the snapshot. */
  lemma InspectionUnique(s: Store, task: NodeId, maxDepth: nat, a: Inspection, b: Inspection)
    requires InspectionOf(s, task, maxDepth, a) && InspectionOf(s, task, maxDepth, b)
    ensures a == b
  {
    StatesIncluded(s, task, a.dependencies, b.dependencies);
    StatesIncluded(s, task, b.dependencies, a.dependencies);
    AscendingUnique(StateEntries(a.dependencies), StateEntries(b.dependencies));
    EntriesInjective(a.dependencies, b.dependencies);
  }

  lemma EntriesInjective(a: seq<DependencyState>, b: seq<DependencyState>)
    requires StateEntries(a) == StateEntries(b)
    ensures a == b
  {
    assert |a| == |StateEntries(a)| == |b|;
    forall i | 0 <= i < |a| ensures a[i] == b[i] {
      assert StateEntries(a)[i] == StateEntries(b)[i];
    }
  }

  lemma StatesIncluded(s: Store, task: NodeId, a: seq<DependencyState>, b: seq<DependencyState>)
    requires forall i :: 0 <= i < |a| ==> StateOf(s, task, a[i])
    requires forall i :: 0 <= i < |b| ==> StateOf(s, task, b[i])
    requires forall n :: Listed(a, n) ==> Listed(b, n)
    ensures forall e :: e in StateEntries(a) ==> e in StateEntries(b)
  {
    forall e | e in StateEntries(a)
      ensures e in StateEntries(b)
    {
      var i :| 0 <= i < |a| && StateEntries(a)[i] == e;
      assert Listed(a, a[i].id);
      var j :| 0 <= j < |b| && b[j].id == a[i].id;
      LeastPathUnique(s, Dependencies, task, b[j].id, a[i].path, b[j].path);
      assert StateEntries(b)[j] == e;
    }
  }

  // ----- the inspection itself -----

  ghost predicate PathOrder(paths: map<NodeId, GraphPath>, order: seq<Keyed<NodeId>>) {
    && Ascending(order)
    && (forall i :: 0 <= i < |order| ==>
          order[i].item in paths && order[i] == PathEntry(order[i].item, paths[order[i].item]))
    && (forall n :: n in paths ==> PathEntry(n, paths[n]) in order)
  }

  /** The items of a path table in order of depth, then identifier. */
  method SortedPaths(paths: map<NodeId, GraphPath>) returns (order: seq<Keyed<NodeId>>)
    ensures PathOrder(paths, order)
  {
    var entries: seq<Keyed<NodeId>> := [];
    var remaining := paths.Keys;
    while remaining != {}
      invariant remaining <= paths.Keys
      invariant forall e :: e in entries ==>
                  e.item in paths && e.item !in remaining && e == PathEntry(e.item, paths[e.item])
      invariant forall n :: n in paths ==> n in remaining || PathEntry(n, paths[n]) in entries
      invariant DistinctKeys(entries)
    {
      var id := TakeSome(remaining);
      remaining := remaining - {id};
      assert forall e :: e in entries ==> e.key[1] != id;
      AppendKeepsDistinct(entries, PathEntry(id, paths[id]));
      entries := entries + [PathEntry(id, paths[id])];
    }
    order := SortByKey(entries);
    SortAscends(entries);
    forall i | 0 <= i < |order|
      ensures order[i].item in paths && order[i] == PathEntry(order[i].item, paths[order[i].item])
    {
      assert order[i] in order;
    }
  }

  ghost predicate StateRead(s: Store, id: NodeId, paths: map<NodeId, GraphPath>, state: DependencyState) {
    && id in paths && id in s.nodes
    && state.id == id && state.path == paths[id]
    && s.nodes[id].kind == Task(state.status)
    && (state.satisfied <==> state.status == Completed)
  }

  ghost predicate StatesAlong(s: Store, order: seq<Keyed<NodeId>>, paths: map<NodeId, GraphPath>,
                              states: seq<DependencyState>)
  {
    |states| == |order| && forall i :: 0 <= i < |order| ==> StateRead(s, order[i].item, paths, states[i])
  }

  /** The path to some dependency cannot be recorded. */
  ghost predicate SomeStateRefused(s: Store, paths: map<NodeId, GraphPath>) {
    exists id, state :: StateRead(s, id, paths, state) && !AcceptedState(state)
  }

  /** Read the listed dependencies one by one. */
  method CollectStates(context: ReadContext, order: seq<Keyed<NodeId>>, paths: map<NodeId, GraphPath>)
    returns (r: Outcome<seq<DependencyState>>)
    requires context.Valid()
    requires forall i :: 0 <= i < |order| ==> order[i].item in paths
    requires context.Stable() ==>
               forall n :: n in paths ==> n in context.revision.nodes && context.revision.nodes[n].kind.Task?
    modifies context`nodeCache, context.index
    ensures context.Valid() && context.StableSince()
    ensures context.Stable() && r.Ok? ==> StatesAlong(context.revision, order, paths, r.value)
    ensures context.Stable() && r.Err? ==> r.error == ResultRefused && SomeStateRefused(context.revision, paths)
  {
    var states: seq<DependencyState> := [];
    for i := 0 to |order|
      invariant context.Valid() && context.StableSince()
      invariant |states| == i
      invariant context.Stable() ==>
                  forall j :: 0 <= j < i ==> StateRead(context.revision, order[j].item, paths, states[j])
    {
      var id := order[i].item;
      var node := context.RequiredNode(id);
      if node.None? {
        return Err(NoSuchNode(id));
      }
      if !node.value.kind.Task? {
        return Err(NotATask);
      }
      var status := node.value.kind.status;
      var state := DependencyState(id, status, paths[id], status == Completed);
      assert context.Stable() ==> StateRead(context.revision, id, paths, state);
      if !AcceptedState(state) {
        return Err(ResultRefused);
      }
      states := states + [state];
    }
    r := Ok(states);
  }

  lemma FoundAreTasks(s: Store, task: NodeId, maxDepth: nat, paths: map<NodeId, GraphPath>, truncated: bool)
    requires Integrity(s) && DependenciesFound(s, task, maxDepth, paths, truncated)
    ensures forall n :: n in paths ==> n in s.nodes && s.nodes[n].kind.Task?
  {
    forall n | n in paths
      ensures n in s.nodes && s.nodes[n].kind.Task?
    {
      LinkedNodeIsStored(s, Dependencies, task, n, maxDepth);
    }
  }

  lemma RefusedOnlyBeyondDepth(s: Store, task: NodeId, maxDepth: nat, paths: map<NodeId, GraphPath>, truncated: bool)
    requires DependenciesFound(s, task, maxDepth, paths, truncated) && SomeStateRefused(s, paths)
    ensures maxDepth > MAX_DEPTH
  {
    var id, state :| StateRead(s, id, paths, state) && !AcceptedState(state);
    var p :| PathTo(s, Dependencies, task, id, p) && p.depth <= maxDepth;
    StateIsAccepted(s, task, state);
  }

  function Summary(task: NodeId, maxDepth: nat, revision: Store, states: seq<DependencyState>, truncated: bool)
    : Inspection
  {
    var unmet := UnmetReasons(states, truncated, maxDepth);
    Inspection(task, maxDepth, revision, states, unmet == [], truncated, unmet)
  }

  /** States collected along the order are themselves in order. */
  lemma StatesAscend(s: Store, paths: map<NodeId, GraphPath>, order: seq<Keyed<NodeId>>, states: seq<DependencyState>)
    requires PathOrder(paths, order) && StatesAlong(s, order, paths, states)
    ensures Ascending(StateEntries(states))
  {
    var entries := StateEntries(states);
    forall i, j | 0 <= i < j < |entries|
      ensures Before(entries[i], entries[j])
    {
      assert Before(order[i], order[j]);
    }
  }

  lemma StatesListPaths(s: Store, paths: map<NodeId, GraphPath>, order: seq<Keyed<NodeId>>,
                        states: seq<DependencyState>)
    requires PathOrder(paths, order) && StatesAlong(s, order, paths, states)
    ensures forall n :: Listed(states, n) <==> n in paths
  {
    forall n | n in paths
      ensures Listed(states, n)
    {
      var i :| 0 <= i < |order| && order[i] == PathEntry(n, paths[n]);
      assert states[i].id == n;
    }
  }

  lemma StatesMakeInspection(s: Store, task: NodeId, maxDepth: nat, paths: map<NodeId, GraphPath>, truncated: bool,
                             order: seq<Keyed<NodeId>>, states: seq<DependencyState>)
    requires DependenciesFound(s, task, maxDepth, paths, truncated)
    requires PathOrder(paths, order) && StatesAlong(s, order, paths, states)
    ensures InspectionOf(s, task, maxDepth, Summary(task, maxDepth, s, states, truncated))
  {
    StatesAscend(s, paths, order, states);
    StatesListPaths(s, paths, order, states);
    TruncatedMeansBeyond(s, task, maxDepth, paths, truncated);
  }

  lemma TruncatedMeansBeyond(s: Store, task: NodeId, maxDepth: nat, paths: map<NodeId, GraphPath>, truncated: bool)
    requires DependenciesFound(s, task, maxDepth, paths, truncated)
    ensures truncated <==>
            exists n :: DependsTransitively(s, task, n) && !WithinDepth(s, Dependencies, task, maxDepth, n)
  {
  }

  method InspectInContext(context: ReadContext, limits: Limits, task: NodeId, maxDepth: nat)
    returns (r: Outcome<Inspection>)
    requires context.Valid() && context.maxDependencyStates == limits.dependencyStates
    modifies context`nodeCache, context`edgeCache, context.index
    ensures context.Valid() && context.StableSince()
    ensures context.Stable() ==> InspectsTo(context.revision, limits, task, maxDepth, r)
    ensures r.Ok? ==> r.value.revision == context.revision
  {
    var node := context.RequiredNode(task);
    if node.None? {
      return Err(NoSuchNode(task));
    }
    if !node.value.kind.Task? {
      return Err(NotATask);
    }
    var found := context.DependencyPathsOf(task, maxDepth);
    if found.TooManyDependencies? {
      return Err(ReadError.TooManyDependencies);
    }
    if context.Stable() {
      FoundAreTasks(context.revision, task, maxDepth, found.paths, found.truncated);
    }
    var order := SortedPaths(found.paths);
    var states := CollectStates(context, order, found.paths);
    if states.Err? {
      if context.Stable() {
        RefusedOnlyBeyondDepth(context.revision, task, maxDepth, found.paths, found.truncated);
      }
      return Err(states.error);
    }
    var inspection := Summary(task, maxDepth, context.revision, states.value, found.truncated);
    if context.Stable() {
      StatesMakeInspection(context.revision, task, maxDepth, found.paths, found.truncated, order, states.value);
      InspectionAcceptedIff(context.revision, task, maxDepth, inspection);
    }
    if !AcceptedInspection(inspection) {
      return Err(ResultRefused);
    }
    r := Ok(inspection);
  }

  /** With other writers interleaved anywhere, an inspection that is returned is the one that its
      revision determines, and that revision is the store when the call ends. An inspection fails
      for another reason than a concurrent write only as that snapshot makes it fail. */
  method InspectDependencies(index: KnowledgeIndex, limits: Limits, task: NodeId, maxDepth: int)
    returns (r: Outcome<Inspection>, ghost opening: Store)
    requires Integrity(index.store)
    modifies index
    ensures Integrity(index.store) && Extends(old(index.store), opening) && Extends(opening, index.store)
    ensures !(0 <= maxDepth <= MAX_DEPTH) ==> r == Err(InvalidArgument)
    ensures 0 <= maxDepth <= MAX_DEPTH && index.store == opening ==> InspectsTo(opening, limits, task, maxDepth, r)
    ensures r.Ok? ==> index.store == opening == r.value.revision
  {
    opening := index.store;
    if !(0 <= maxDepth <= MAX_DEPTH) {
      return Err(InvalidArgument), opening;
    }
    var context := new ReadContext(index, limits.expansionNodes, limits.dependencyStates);
    opening := context.revision;
    r := InspectInContext(context, limits, task, maxDepth);
    if r.Ok? {
      var stable := context.StableRevision();
      if !stable {
        r := Err(IndexChanged);
      }
    }
  }
}
