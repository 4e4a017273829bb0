/**
 What the replies to writes say about the writes before them, over any history of an index that
 started empty.
 */
module KnowledgeHistory {
  import opened DependencyGraph
  import opened KnowledgeModel
  import opened KnowledgeStore

  ghost function StoreAfter(history: seq<Write>): Store {
    AfterAll(EMPTY_STORE, history)
  }

  /** The write at `n` put its record into the index. */
  ghost predicate InsertedAt(history: seq<Write>, n: nat)
    requires n < |history|
  {
    ReplyTo(StoreAfter(history[..n]), history[n]) == Inserted
  }

  ghost predicate WasInserted(history: seq<Write>, write: Write) {
    exists n :: 0 <= n < |history| && history[n] == write && InsertedAt(history, n)
  }

  predicate RightWriter(write: Write) {
    match write
    case PutNode(_) => true
    case PutEdge(edge) => edge.edgeType != DependsOn && edge.edgeType != Requires
    case PutDependency(edge) => edge.edgeType == DependsOn || edge.edgeType == Requires
  }

  /** The record of the write is in the store, as it was written. */
  predicate IsStored(s: Store, write: Write) {
    match write
    case PutNode(node) => node.id in s.nodes && s.nodes[node.id] == node
    case PutEdge(edge) => RightWriter(write) && KeyOf(edge) in s.edges && s.edges[KeyOf(edge)] == edge
    case PutDependency(edge) => RightWriter(write) && KeyOf(edge) in s.edges && s.edges[KeyOf(edge)] == edge
  }

  /** Nodes are known by their identifier, edges by their ends and their type. */
  predicate SameKey(a: Write, b: Write) {
    if a.PutNode? then b.PutNode? && a.node.id == b.node.id
    else
      && !b.PutNode? && a.PutEdge? == b.PutEdge?
      && a.edge.source == b.edge.source && a.edge.target == b.edge.target && a.edge.edgeType == b.edge.edgeType
  }

  // ----- what is stored was inserted -----

  lemma StoredAfterWrite(s: Store, last: Write, write: Write)
    requires Integrity(s)
    ensures IsStored(After(s, last), write) <==> IsStored(s, write) || (write == last && ReplyTo(s, last) == Inserted)
  {
  }

  lemma InsertedByFrontOrLast(front: seq<Write>, last: Write, write: Write)
    ensures WasInserted(front + [last], write) <==>
            WasInserted(front, write) || (write == last && ReplyTo(StoreAfter(front), last) == Inserted)
  {
    var history := front + [last];
    assert history[..|front|] == front && history[|front|] == last;
    forall n | 0 <= n < |front|
      ensures history[n] == front[n] && InsertedAt(history, n) == InsertedAt(front, n)
    {
      assert history[..n] == front[..n];
    }
    if WasInserted(front, write) {
      var n :| 0 <= n < |front| && front[n] == write && InsertedAt(front, n);
      assert history[n] == write && InsertedAt(history, n);
    }
    if write == last && ReplyTo(StoreAfter(front), last) == Inserted {
      assert InsertedAt(history, |front|);
    }
  }

  /** The index holds the records that were inserted, as they were written, and no others. */
  lemma {:induction false} StoredIffInserted(history: seq<Write>, write: Write)
    ensures IsStored(StoreAfter(history), write) <==> WasInserted(history, write)
  {
    if history == [] {
    } else {
      var front, last := history[..|history| - 1], history[|history| - 1];
      assert history == front + [last];
      EveryReachableStoreHasIntegrity(front);
      StoredIffInserted(front, write);
      StoredAfterWrite(StoreAfter(front), last, write);
      InsertedByFrontOrLast(front, last, write);
    }
  }

  ghost predicate HasNode(history: seq<Write>, id: NodeId) {
    exists node: Node :: node.id == id && WasInserted(history, PutNode(node))
  }

  ghost predicate HasTask(history: seq<Write>, id: NodeId) {
    exists node: Node :: node.id == id && node.kind.Task? && WasInserted(history, PutNode(node))
  }

  /** Different content was inserted under the key of the write. */
  ghost predicate HasOther(history: seq<Write>, write: Write) {
    exists other :: other != write && SameKey(other, write) && WasInserted(history, other)
  }

  lemma NodeStoredIff(history: seq<Write>, id: NodeId)
    ensures HasNode(history, id) <==> id in StoreAfter(history).nodes
    ensures HasTask(history, id) <==> id in StoreAfter(history).nodes && StoreAfter(history).nodes[id].kind.Task?
  {
    var s := StoreAfter(history);
    EveryReachableStoreHasIntegrity(history);
    forall node: Node
      ensures WasInserted(history, PutNode(node)) <==> node.id in s.nodes && s.nodes[node.id] == node
    {
      StoredIffInserted(history, PutNode(node));
    }
    if id in s.nodes {
      assert WasInserted(history, PutNode(s.nodes[id]));
    }
  }

  ghost predicate HasDependency(history: seq<Write>, edge: Edge) {
    WasInserted(history, PutDependency(edge))
  }

  /** The dependency graph is that of the dependency edges inserted. */
  lemma ArcsAreInserted(history: seq<Write>)
    ensures forall edge: Edge :: HasDependency(history, edge) ==>
              Arc(edge.source, edge.target) in Arcs(StoreAfter(history))
    ensures forall a :: a in Arcs(StoreAfter(history)) ==>
              exists edge: Edge :: HasDependency(history, edge) && Arc(edge.source, edge.target) == a
  {
    var s := StoreAfter(history);
    EveryReachableStoreHasIntegrity(history);
    forall edge: Edge | HasDependency(history, edge)
      ensures Arc(edge.source, edge.target) in Arcs(s)
    {
      StoredIffInserted(history, PutDependency(edge));
      assert KeyOf(edge) in s.edges;
    }
    forall a | a in Arcs(s)
      ensures exists edge: Edge :: HasDependency(history, edge) && Arc(edge.source, edge.target) == a
    {
      var k :| k in s.edges && k.edgeType.IsDependency() && Arc(k.source, k.target) == a;
      StoredIffInserted(history, PutDependency(s.edges[k]));
      assert HasDependency(history, s.edges[k]);
    }
  }

  // ----- what the replies say -----

  lemma StoredUnderKey(s: Store, write: Write) returns (other: Write)
    requires Integrity(s) && RightWriter(write)
    requires if write.PutNode? then write.node.id in s.nodes else KeyOf(write.edge) in s.edges
    ensures SameKey(other, write) && IsStored(s, other)
    ensures forall w :: SameKey(w, write) && IsStored(s, w) ==> w == other
  {
    match write
    case PutNode(node) => other := PutNode(s.nodes[node.id]);
    case PutEdge(edge) => other := PutEdge(s.edges[KeyOf(edge)]);
    case PutDependency(edge) => other := PutDependency(s.edges[KeyOf(edge)]);
  }

  lemma KeyInUse(s: Store, write: Write, w: Write)
    requires SameKey(w, write) && IsStored(s, w)
    ensures RightWriter(write)
    ensures if write.PutNode? then write.node.id in s.nodes else KeyOf(write.edge) in s.edges
  {
  }

  /** Repeating an insert changes nothing, and writing anything else under its key is a conflict. */
  lemma KeyIsTaken(history: seq<Write>, write: Write)
    ensures ReplyTo(StoreAfter(history), write) == Unchanged <==> WasInserted(history, write)
    ensures ReplyTo(StoreAfter(history), write) == Failed(ContentConflict) <==> HasOther(history, write)
  {
    var s := StoreAfter(history);
    EveryReachableStoreHasIntegrity(history);
    forall w
      ensures WasInserted(history, w) <==> IsStored(s, w)
    {
      StoredIffInserted(history, w);
    }
    if w :| SameKey(w, write) && IsStored(s, w) {
      KeyInUse(s, write, w);
    }
    if RightWriter(write) && if write.PutNode? then write.node.id in s.nodes else KeyOf(write.edge) in s.edges {
      var other := StoredUnderKey(s, write);
    }
  }

  lemma EndpointsIff(history: seq<Write>, edge: Edge)
    ensures EndpointsStored(StoreAfter(history), KeyOf(edge)) <==>
            if edge.edgeType == DependsOn || edge.edgeType == Requires
            then HasTask(history, edge.source) && HasTask(history, edge.target)
            else HasNode(history, edge.source) && HasNode(history, edge.target)
  {
    NodeStoredIff(history, edge.source);
    NodeStoredIff(history, edge.target);
  }

  lemma EndpointsRefusal(s: Store, write: Write)
    requires Integrity(s) && !write.PutNode?
    ensures ReplyTo(s, write) in {Failed(MissingEndpoint), Failed(EndpointNotTask)} <==>
            RightWriter(write) && !EndpointsStored(s, KeyOf(write.edge))
    ensures ReplyTo(s, write) == Failed(MissingEndpoint) ==> write.PutEdge?
    ensures ReplyTo(s, write) == Failed(EndpointNotTask) ==> write.PutDependency?
    ensures ReplyTo(s, write) == Failed(WrongWriter) <==> !RightWriter(write)
    ensures ReplyTo(s, write) != Failed(CorruptIndex)
  {
    if KeyOf(write.edge) in s.edges {
      assert EndpointsStored(s, KeyOf(write.edge));
    }
  }

  /** Each remaining refusal, from the inserts of the history. No write of such a history finds the index corrupt. */
  lemma RefusedIff(history: seq<Write>, write: Write)
    ensures ReplyTo(StoreAfter(history), write) == Failed(WrongWriter) <==> !RightWriter(write)
    ensures ReplyTo(StoreAfter(history), write) == Failed(MissingEndpoint) <==>
              && write.PutEdge? && RightWriter(write)
              && !(HasNode(history, write.edge.source) && HasNode(history, write.edge.target))
    ensures ReplyTo(StoreAfter(history), write) == Failed(EndpointNotTask) <==>
              && write.PutDependency? && RightWriter(write)
              && !(HasTask(history, write.edge.source) && HasTask(history, write.edge.target))
    ensures ReplyTo(StoreAfter(history), write) != Failed(CorruptIndex)
  {
    EveryReachableStoreHasIntegrity(history);
    if !write.PutNode? {
      EndpointsIff(history, write.edge);
      EndpointsRefusal(StoreAfter(history), write);
    }
  }

  ghost predicate IsFresh(history: seq<Write>, write: Write) {
    !WasInserted(history, write) && !HasOther(history, write)
  }

  /** A dependency edge closes a cycle exactly when its target already depends on its source. */
  lemma CycleIff(history: seq<Write>, write: Write)
    ensures ReplyTo(StoreAfter(history), write) == Cycle <==>
              && write.PutDependency? && RightWriter(write) && IsFresh(history, write)
              && HasTask(history, write.edge.source) && HasTask(history, write.edge.target)
              && Reaches(Arcs(StoreAfter(history)), write.edge.target, write.edge.source)
  {
    EveryReachableStoreHasIntegrity(history);
    KeyIsTaken(history, write);
    RefusedIff(history, write);
    if write.PutDependency? {
      NewArcClosesCycleIff(Arcs(StoreAfter(history)), ArcOf(write.edge));
    }
  }

  /** A valid new record is inserted, and stays in the index whatever is written later. */
  lemma NewRecordIsKept(history: seq<Write>, write: Write, later: seq<Write>)
    requires RightWriter(write) && IsFresh(history, write)
    requires write.PutEdge? ==> HasNode(history, write.edge.source) && HasNode(history, write.edge.target)
    requires write.PutDependency? ==>
               && HasTask(history, write.edge.source) && HasTask(history, write.edge.target)
               && !Reaches(Arcs(StoreAfter(history)), write.edge.target, write.edge.source)
    ensures ReplyTo(StoreAfter(history), write) == Inserted
    ensures IsStored(StoreAfter(history + [write] + later), write)
    ensures ReplyTo(StoreAfter(history + [write] + later), write) == Unchanged
  {
    KeyIsTaken(history, write);
    RefusedIff(history, write);
    CycleIff(history, write);
    var longer := history + [write] + later;
    assert longer[..|history|] == history && InsertedAt(longer, |history|);
    KeyIsTaken(longer, write);
    StoredIffInserted(longer, write);
  }
}
