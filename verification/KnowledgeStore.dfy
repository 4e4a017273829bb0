/**
 The stored knowledge index and its three writers. Every write is one transaction:
 it checks the whole store, inserts at most one record, and checks the whole store
 again, so that no reachable store has a dependency cycle.
 */
module KnowledgeStore {
  import opened Options
  import opened Collections
  import opened DependencyGraph
  import opened KnowledgeModel
  import opened KnowledgeIntegrity

  datatype Store = Store(
    nodes: map<NodeId, Node>,
    edges: map<EdgeKey, Edge>,
    terms: map<NodeId, map<Term, nat>>)

  const EMPTY_STORE := Store(map[], map[], map[])

  ghost function Arcs(s: Store): set<Arc> {
    set k | k in s.edges && k.edgeType.IsDependency() :: Arc(k.source, k.target)
  }

  predicate EndpointsStored(s: Store, key: EdgeKey) {
    && key.source in s.nodes && key.target in s.nodes
    && (key.edgeType.IsDependency() ==> s.nodes[key.source].kind.Task? && s.nodes[key.target].kind.Task?)
  }

  /** What the revision digest insists on: rows filed under their own keys, edges between stored
      nodes, dependencies between tasks, no dependency cycle, and a term table that repeats
      the node payloads. */
  ghost predicate Integrity(s: Store) {
    && (forall id :: id in s.nodes ==> s.nodes[id].id == id)
    && (forall k :: k in s.edges ==> KeyOf(s.edges[k]) == k && EndpointsStored(s, k))
    && !HasCycle(Arcs(s))
    && s.terms.Keys == s.nodes.Keys
    && (forall id :: id in s.nodes ==> s.terms[id] == s.nodes[id].terms)
  }

  /** `later` holds every record of `earlier`, unchanged. */
  ghost predicate Extends(earlier: Store, later: Store) {
    && (forall id :: id in earlier.nodes ==> id in later.nodes && later.nodes[id] == earlier.nodes[id])
    && (forall k :: k in earlier.edges ==> k in later.edges && later.edges[k] == earlier.edges[k])
    && (forall id :: id in earlier.terms ==> id in later.terms && later.terms[id] == earlier.terms[id])
  }

  /** The stored edges that touch a node. */
  function EdgesAt(s: Store, node: NodeId): set<RawEdge> {
    set k | k in s.edges && (s.edges[k].source == node || s.edges[k].target == node) :: s.edges[k]
  }

  datatype Match = Match(term: Term, weight: nat)

  /** The queried terms that a node holds, with their weights there, in query order. */
  function Matches(weights: map<Term, nat>, query: seq<Term>): seq<Match> {
    if query == [] then []
    else (if query[0] in weights then [Match(query[0], weights[query[0]])] else []) + Matches(weights, query[1..])
  }

  function ScoresIn(s: Store, query: seq<Term>, ids: set<NodeId>): map<NodeId, seq<Match>> {
    map id | id in ids && id in s.terms && Matches(s.terms[id], query) != [] :: Matches(s.terms[id], query)
  }

  const MAX_QUERY_TERMS: nat := 128

  datatype TermReply = TooManyTerms | TermsDiffer | Scores(scores: map<NodeId, seq<Match>>)

  /** Nodes without a match get no entry. */
  function Record(scores: map<NodeId, seq<Match>>, id: NodeId, matched: seq<Match>): map<NodeId, seq<Match>> {
    if matched == [] then scores else scores[id := matched]
  }

  /** The entries recorded for the nodes in `done`; those that `s` holds are as `s` says. */
  ghost predicate ScoresSoFar(s: Store, query: seq<Term>, done: set<NodeId>, scores: map<NodeId, seq<Match>>) {
    && scores.Keys <= done
    && forall id :: id in done && id in s.nodes ==>
         if Matches(s.nodes[id].terms, query) == [] then id !in scores
         else id in scores && scores[id] == Matches(s.nodes[id].terms, query)
  }

  lemma RecordingKeeps(s: Store, query: seq<Term>, done: set<NodeId>, scores: map<NodeId, seq<Match>>, id: NodeId,
                       matched: seq<Match>)
    requires ScoresSoFar(s, query, done, scores) && id !in done
    requires id in s.nodes ==> matched == Matches(s.nodes[id].terms, query)
    ensures ScoresSoFar(s, query, done + {id}, Record(scores, id, matched))
  {
  }

  lemma CompleteScores(s: Store, query: seq<Term>, ids: set<NodeId>, scores: map<NodeId, seq<Match>>)
    requires Integrity(s) && ids <= s.nodes.Keys && ScoresSoFar(s, query, ids, scores)
    ensures scores == ScoresIn(s, query, ids)
  {
  }

  /** Insert-only histories cannot leave a store and come back to it. */
  lemma ExtendsAntisymmetric(earlier: Store, later: Store)
    requires Extends(earlier, later) && Extends(later, earlier)
    ensures earlier == later
  {
    assert earlier.nodes == later.nodes;
    assert earlier.edges == later.edges;
    assert earlier.terms == later.terms;
  }

  datatype Write = PutNode(node: Node) | PutEdge(edge: Edge) | PutDependency(edge: Edge)

  datatype WriteError = CorruptIndex | WrongWriter | ContentConflict | MissingEndpoint | EndpointNotTask

  datatype Reply = Inserted | Unchanged | Cycle | Failed(error: WriteError)

  function WithNode(s: Store, node: Node): Store {
    s.(nodes := s.nodes[node.id := node], terms := s.terms[node.id := node.terms])
  }

  function WithEdge(s: Store, edge: Edge): Store {
    s.(edges := s.edges[KeyOf(edge) := edge])
  }

  /** The reply each write must give, in terms of the graph rather than of the search. */
  ghost function ReplyTo(s: Store, write: Write): Reply {
    match write
    case PutNode(node) =>
      if !Integrity(s) then Failed(CorruptIndex)
      else if node.id !in s.nodes then Inserted
      else if s.nodes[node.id] == node then Unchanged
      else Failed(ContentConflict)
    case PutEdge(edge) =>
      if edge.edgeType.IsDependency() then Failed(WrongWriter)
      else if !Integrity(s) then Failed(CorruptIndex)
      else if KeyOf(edge) in s.edges then
        if s.edges[KeyOf(edge)] == edge then Unchanged else Failed(ContentConflict)
      else if !EndpointsStored(s, KeyOf(edge)) then Failed(MissingEndpoint)
      else Inserted
    case PutDependency(edge) =>
      if !edge.edgeType.IsDependency() then Failed(WrongWriter)
      else if !Integrity(s) then Failed(CorruptIndex)
      else if !EndpointsStored(s, KeyOf(edge)) then Failed(EndpointNotTask)
      else if KeyOf(edge) in s.edges then
        if s.edges[KeyOf(edge)] == edge then Unchanged else Failed(ContentConflict)
      else if HasCycle(Arcs(s) + {ArcOf(edge)}) then Cycle
      else Inserted
  }

  ghost function After(s: Store, write: Write): Store {
    if ReplyTo(s, write) != Inserted then s
    else
      match write
      case PutNode(node) => WithNode(s, node)
      case PutEdge(edge) => WithEdge(s, edge)
      case PutDependency(edge) => WithEdge(s, edge)
  }

  ghost function AfterAll(s: Store, writes: seq<Write>): Store {
    if writes == [] then s else After(AfterAll(s, writes[..|writes| - 1]), writes[|writes| - 1])
  }

  lemma ArcsWithEdge(s: Store, edge: Edge)
    ensures Arcs(WithEdge(s, edge)) ==
            if edge.edgeType.IsDependency() then Arcs(s) + {ArcOf(edge)} else Arcs(s)
  {
    var t := WithEdge(s, edge);
    assert forall k :: k in t.edges <==> k in s.edges || k == KeyOf(edge);
    if edge.edgeType.IsDependency() {
      assert KeyOf(edge) in t.edges;
    }
  }

  lemma NewNodeKeepsIntegrity(s: Store, node: Node)
    requires Integrity(s) && node.id !in s.nodes
    ensures Integrity(WithNode(s, node))
  {
    var t := WithNode(s, node);
    assert Arcs(t) == Arcs(s);
    assert forall k :: k in t.edges ==> EndpointsStored(s, k);
  }

  lemma NewEdgeKeepsIntegrity(s: Store, edge: Edge)
    requires Integrity(s) && EndpointsStored(s, KeyOf(edge))
    requires edge.edgeType.IsDependency() ==> !HasCycle(Arcs(s) + {ArcOf(edge)})
    ensures Integrity(WithEdge(s, edge))
  {
    ArcsWithEdge(s, edge);
    assert forall k :: k in WithEdge(s, edge).edges ==> EndpointsStored(s, k);
  }

  /** One write keeps the whole-store invariant and every stored record. */
  lemma WriteKeepsIntegrity(s: Store, write: Write)
    ensures Integrity(s) ==> Integrity(After(s, write))
    ensures Extends(s, After(s, write))
  {
    if ReplyTo(s, write) == Inserted {
      match write
      case PutNode(node) => NewNodeKeepsIntegrity(s, node);
      case PutEdge(edge) => NewEdgeKeepsIntegrity(s, edge);
      case PutDependency(edge) => NewEdgeKeepsIntegrity(s, edge);
    }
  }

  /** Every store reachable from the empty one by any writes has integrity, so in particular its
      dependency edges are acyclic; and history only grows. */
  lemma {:induction false} EveryReachableStoreHasIntegrity(writes: seq<Write>)
    ensures Integrity(AfterAll(EMPTY_STORE, writes))
    ensures !HasCycle(Arcs(AfterAll(EMPTY_STORE, writes)))
    ensures forall n :: 0 <= n <= |writes| ==>
              Extends(AfterAll(EMPTY_STORE, writes[..n]), AfterAll(EMPTY_STORE, writes))
  {
    if writes == [] {
      RankedGraphIsAcyclic(Arcs(EMPTY_STORE), map[], 0);
    } else {
      var front := writes[..|writes| - 1];
      EveryReachableStoreHasIntegrity(front);
      WriteKeepsIntegrity(AfterAll(EMPTY_STORE, front), writes[|writes| - 1]);
      forall n | 0 <= n <= |writes|
        ensures Extends(AfterAll(EMPTY_STORE, writes[..n]), AfterAll(EMPTY_STORE, writes))
      {
        if n < |writes| {
          assert front[..n] == writes[..n];
        } else {
          assert writes[..n] == writes;
        }
      }
    }
  }

  /** Breadth-first search over the dependency rows. It ends because every turn either shortens
      the queue or visits a new node of a finite set. */
  method DependencyReaches(rows: seq<RawEdge>, start: NodeId, goal: NodeId) returns (found: bool)
    ensures found <==> Reaches(DependencyArcs(set e | e in rows), start, goal)
  {
    ghost var arcs := DependencyArcs(set e | e in rows);
    ghost var universe := {start} + set a | a in arcs :: a.target;
    var outgoing := OutgoingLists(rows);
    var pending := [start];
    var visited: set<NodeId> := {};
    ReachesSelf(arcs, start);
    while pending != []
      invariant goal !in visited
      invariant visited <= universe
      invariant forall v :: v in pending ==> v in universe
      invariant forall v :: v in visited || v in pending ==> Reaches(arcs, start, v)
      invariant start in visited || start in pending
      invariant forall a :: a in arcs && a.source in visited ==> a.target in visited || a.target in pending
      decreases universe - visited, |pending|
    {
      var current := pending[0];
      ghost var queue := pending;
      pending := pending[1..];
      assert queue == [current] + pending;
      if current == goal {
        return true;
      }
      if current !in visited {
        visited := visited + {current};
        var discovered := Unvisited(if current in outgoing then outgoing[current] else [], visited);
        forall v | v in discovered ensures Reaches(arcs, start, v) && v in universe {
          assert Arc(current, v) in arcs;
          ReachesStep(arcs, start, current, v);
        }
        pending := pending + discovered;
      }
    }
    found := false;
    forall walk | WalkBetween(arcs, walk, start, goal) ensures false {
      ClosedSetHolds(arcs, visited, walk);
    }
  }

  function Unvisited(ids: seq<NodeId>, visited: set<NodeId>): (r: seq<NodeId>)
    ensures forall v :: v in r <==> v in ids && v !in visited
  {
    if ids == [] then []
    else (if ids[0] in visited then [] else [ids[0]]) + Unvisited(ids[1..], visited)
  }

  method OutgoingLists(rows: seq<RawEdge>) returns (outgoing: map<NodeId, seq<NodeId>>)
    ensures forall v, t :: v in outgoing && t in outgoing[v] ==> Arc(v, t) in DependencyArcs(set e | e in rows)
    ensures forall a :: a in DependencyArcs(set e | e in rows) ==>
              a.source in outgoing && a.target in outgoing[a.source]
  {
    outgoing := map[];
    for i := 0 to |rows|
      invariant forall v, t :: v in outgoing && t in outgoing[v] ==>
                  exists j :: 0 <= j < i && rows[j].edgeType.IsDependency() && ArcOf(rows[j]) == Arc(v, t)
      invariant forall j :: 0 <= j < i && rows[j].edgeType.IsDependency() ==>
                  rows[j].source in outgoing && rows[j].target in outgoing[rows[j].source]
    {
      var row := rows[i];
      if row.edgeType.IsDependency() {
        var known := if row.source in outgoing then outgoing[row.source] else [];
        outgoing := outgoing[row.source := known + [row.target]];
      }
    }
  }

  /** The edge table read row by row. */
  method EdgeRows(edges: map<EdgeKey, Edge>) returns (rows: seq<RawEdge>)
    ensures forall e :: e in rows <==> e in edges.Values
  {
    rows := [];
    var remaining := edges.Keys;
    while remaining != {}
      invariant remaining <= edges.Keys
      invariant forall e :: e in rows <==> exists k :: k in edges && k !in remaining && edges[k] == e
    {
      var key := TakeSome(remaining);
      remaining := remaining - {key};
      rows := rows + [edges[key]];
    }
  }

  lemma RowsDescribeArcs(s: Store, rows: seq<RawEdge>)
    requires forall e :: e in rows <==> e in s.edges.Values
    requires forall k :: k in s.edges ==> KeyOf(s.edges[k]) == k
    ensures DependencyArcs(set e | e in rows) == Arcs(s)
  {
    forall a | a in Arcs(s)
      ensures a in DependencyArcs(set e | e in rows)
    {
      var k :| k in s.edges && k.edgeType.IsDependency() && Arc(k.source, k.target) == a;
      assert s.edges[k] in rows && ArcOf(s.edges[k]) == a;
    }
  }

  /** The whole-store check behind every revision digest. */
  method CheckIntegrity(s: Store) returns (sound: bool)
    ensures sound <==> Integrity(s)
  {
    if !(forall id :: id in s.nodes ==> s.nodes[id].id == id) {
      return false;
    }
    if !(forall k :: k in s.edges ==> KeyOf(s.edges[k]) == k && EndpointsStored(s, k)) {
      return false;
    }
    var rows := EdgeRows(s.edges);
    var cyclic := DependencyEdgesContainCycle(rows);
    RowsDescribeArcs(s, rows);
    sound := !cyclic && s.terms.Keys == s.nodes.Keys && forall id :: id in s.nodes ==> s.terms[id] == s.nodes[id].terms;
  }

  /** The index over one database. Its writers are transactions: on any error the store is left
      as it was. */
  class KnowledgeIndex {
    var store: Store
    // What the other writers do between consecutive reads: any interleaving is some schedule.
    var schedule: seq<seq<Write>>

    constructor (schedule: seq<seq<Write>>)
      ensures store == EMPTY_STORE && Integrity(store) && this.schedule == schedule
    {
      store := EMPTY_STORE;
      this.schedule := schedule;
      RankedGraphIsAcyclic(Arcs(EMPTY_STORE), map[], 0);
    }

    method PutNode(node: Node) returns (reply: Reply)
      modifies this`store
      ensures reply == ReplyTo(old(store), Write.PutNode(node))
      ensures store == After(old(store), Write.PutNode(node))
    {
      var sound := CheckIntegrity(store);
      if !sound {
        return Failed(CorruptIndex);
      }
      if node.id in store.nodes {
        return if store.nodes[node.id] == node then Unchanged else Failed(ContentConflict);
      }
      NewNodeKeepsIntegrity(store, node);
      reply := InsertChecked(WithNode(store, node));
    }

    method PutEdge(edge: Edge) returns (reply: Reply)
      modifies this`store
      ensures reply == ReplyTo(old(store), Write.PutEdge(edge))
      ensures store == After(old(store), Write.PutEdge(edge))
    {
      if edge.edgeType.IsDependency() {
        return Failed(WrongWriter);
      }
      var sound := CheckIntegrity(store);
      if !sound {
        return Failed(CorruptIndex);
      }
      if KeyOf(edge) in store.edges {
        return if store.edges[KeyOf(edge)] == edge then Unchanged else Failed(ContentConflict);
      }
      if !EndpointsStored(store, KeyOf(edge)) {
        return Failed(MissingEndpoint);
      }
      NewEdgeKeepsIntegrity(store, edge);
      reply := InsertChecked(WithEdge(store, edge));
    }

    /** The search and the integrity check agree: the search says CYCLE exactly when the check
        after the insert would have found one, so that check never rejects. */
    method PutDependencyEdge(edge: Edge) returns (reply: Reply)
      modifies this`store
      ensures reply == ReplyTo(old(store), PutDependency(edge))
      ensures store == After(old(store), PutDependency(edge))
    {
      if !edge.edgeType.IsDependency() {
        return Failed(WrongWriter);
      }
      var sound := CheckIntegrity(store);
      if !sound {
        return Failed(CorruptIndex);
      }
      if !EndpointsStored(store, KeyOf(edge)) {
        return Failed(EndpointNotTask);
      }
      if KeyOf(edge) in store.edges {
        return if store.edges[KeyOf(edge)] == edge then Unchanged else Failed(ContentConflict);
      }
      var rows := EdgeRows(store.edges);
      var closes := DependencyReaches(rows, edge.target, edge.source);
      RowsDescribeArcs(store, rows);
      NewArcClosesCycleIff(Arcs(store), ArcOf(edge));
      if closes {
        return Cycle;
      }
      NewEdgeKeepsIntegrity(store, edge);
      reply := InsertChecked(WithEdge(store, edge));
    }

    /** The end of every insert: keep the new rows only if the whole store is still sound. */
    method InsertChecked(next: Store) returns (reply: Reply)
      modifies this`store
      ensures reply == if Integrity(next) then Inserted else Failed(CorruptIndex)
      ensures store == if Integrity(next) then next else old(store)
    {
      var before := store;
      store := next;
      var sound := CheckIntegrity(store);
      if !sound {
        store := before;
      }
      reply := if sound then Inserted else Failed(CorruptIndex);
    }

    method Perform(write: Write) returns (reply: Reply)
      modifies this`store
      ensures reply == ReplyTo(old(store), write)
      ensures store == After(old(store), write)
    {
      match write
      case PutNode(node) => reply := PutNode(node);
      case PutEdge(edge) => reply := PutEdge(edge);
      case PutDependency(edge) => reply := PutDependencyEdge(edge);
    }

    /** The transactions that other writers get in before our next read. */
    method OtherWriters()
      requires Integrity(store)
      modifies this
      ensures Integrity(store) && Extends(old(store), store)
      ensures if old(schedule) == [] then store == old(store) && schedule == []
              else store == AfterAll(old(store), old(schedule)[0]) && schedule == old(schedule)[1..]
    {
      if schedule == [] {
        return;
      }
      var writes := schedule[0];
      schedule := schedule[1..];
      for i := 0 to |writes|
        invariant schedule == old(schedule)[1..]
        invariant store == AfterAll(old(store), writes[..i])
        invariant Integrity(store) && Extends(old(store), store)
      {
        WriteKeepsIntegrity(store, writes[i]);
        var reply := Perform(writes[i]);
        assert writes[..i + 1][..i] == writes[..i];
      }
      assert writes[..|writes|] == writes;
    }

    // Every read opens its own connection, so other writers may commit just before it.

    method RevisionDigest() returns (revision: Store)
      requires Integrity(store)
      modifies this
      ensures Integrity(store) && Extends(old(store), store)
      ensures revision == store
    {
      OtherWriters();
      revision := store;
    }

    method GetNode(id: NodeId) returns (node: Option<Node>)
      requires Integrity(store)
      modifies this
      ensures Integrity(store) && Extends(old(store), store)
      ensures node == if id in store.nodes then Some(store.nodes[id]) else None
    {
      OtherWriters();
      node := if id in store.nodes then Some(store.nodes[id]) else None;
    }

    method EdgesFor(id: NodeId) returns (edges: set<RawEdge>)
      requires Integrity(store)
      modifies this
      ensures Integrity(store) && Extends(old(store), store)
      ensures edges == EdgesAt(store, id)
    {
      OtherWriters();
      edges := EdgesAt(store, id);
    }

    /** One node's rows of the term table that match the query. */
    method TermRows(query: seq<Term>, id: NodeId) returns (matched: seq<Match>)
      requires Integrity(store)
      modifies this
      ensures Integrity(store) && Extends(old(store), store)
      ensures matched == if id in store.terms then Matches(store.terms[id], query) else []
    {
      OtherWriters();
      matched := if id in store.terms then Matches(store.terms[id], query) else [];
    }

    /** What the stored node itself says should match. */
    method TermsOfNode(query: seq<Term>, id: NodeId) returns (matched: seq<Match>)
      requires Integrity(store)
      modifies this
      ensures Integrity(store) && Extends(old(store), store)
      ensures matched == if id in store.nodes then Matches(store.nodes[id].terms, query) else []
    {
      OtherWriters();
      matched := if id in store.nodes then Matches(store.nodes[id].terms, query) else [];
    }

    /** The matches of the query in the term table, compared with what the nodes say. Each read is a
        statement of its own, so writers may commit in between; but what is stored never changes, so
        for stored nodes the two always agree and give the matches of the store at the start. The
        nodes are read one by one, which allows every interleaving that larger chunks allow. */
    method TermScores(query: seq<Term>, ids: set<NodeId>) returns (reply: TermReply)
      requires Integrity(store)
      modifies this
      ensures Integrity(store) && Extends(old(store), store)
      ensures reply.TooManyTerms? <==> ids != {} && |query| > MAX_QUERY_TERMS
      ensures reply.Scores? ==> reply.scores.Keys <= ids
      ensures !reply.TooManyTerms? && ids <= old(store).nodes.Keys ==> reply == Scores(ScoresIn(old(store), query, ids))
    {
      if query == [] || ids == {} {
        return Scores(map[]);
      }
      if |query| > MAX_QUERY_TERMS {
        return TooManyTerms;
      }
      var rows, expected: map<NodeId, seq<Match>> := map[], map[];
      var remaining := ids;
      while remaining != {}
        invariant Integrity(store) && Extends(old(store), store) && remaining <= ids
        invariant ScoresSoFar(old(store), query, ids - remaining, rows)
        invariant ScoresSoFar(old(store), query, ids - remaining, expected)
      {
        var id := TakeSome(remaining);
        var matched := TermRows(query, id);
        RecordingKeeps(old(store), query, ids - remaining, rows, id, matched);
        rows := Record(rows, id, matched);
        matched := TermsOfNode(query, id);
        RecordingKeeps(old(store), query, ids - remaining, expected, id, matched);
        expected := Record(expected, id, matched);
        assert ids - (remaining - {id}) == ids - remaining + {id};
        remaining := remaining - {id};
      }
      assert ids - remaining == ids;
      if ids <= old(store).nodes.Keys {
        CompleteScores(old(store), query, ids, rows);
        CompleteScores(old(store), query, ids, expected);
      }
      reply := if rows == expected then Scores(rows) else TermsDiffer;
    }
  }
}
