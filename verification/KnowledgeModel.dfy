/**
 Nodes and typed edges of the knowledge index. A digest stands for the content it
 hashes, so `body` below is whatever else the record's digest covers.
 */
module KnowledgeModel {
  import opened DependencyGraph

  /** Terms are numbered in string order. */
  type Term = nat

  /** What normalising a text yields: its terms in order, each once. */
  predicate Normalized(terms: seq<Term>) {
    forall i, j :: 0 <= i < j < |terms| ==> terms[i] < terms[j]
  }

  type Terms = terms: seq<Term> | Normalized(terms)

  datatype TaskStatus = Completed | Ready | Blocked

  datatype NodeKind = Task(status: TaskStatus) | Knowledge

  /** `terms` are the weighted terms that the text of the node determines. */
  datatype Node = Node(id: NodeId, kind: NodeKind, body: int, terms: map<Term, nat>)

  datatype EdgeType =
    | Contradicts
    | DependsOn
    | DerivedFrom
    | Mentions
    | Refines
    | RelatesTo
    | Requires
    | Supersedes
    | Supports
  {
    predicate IsDependency() {
      this == DependsOn || this == Requires
    }

    /** Position of the wire name of the type in string order. */
    function Rank(): int {
      match this
      case Contradicts => 0
      case DependsOn => 1
      case DerivedFrom => 2
      case Mentions => 3
      case Refines => 4
      case RelatesTo => 5
      case Requires => 6
      case Supersedes => 7
      case Supports => 8
    }
  }

  datatype RawEdge = Edge(source: NodeId, target: NodeId, edgeType: EdgeType, body: int)

  /** Self-edges are rejected when an edge is constructed. */
  type Edge = e: RawEdge | e.source != e.target witness RawEdge.Edge(0, 1, Mentions, 0)

  /** The key of the edge table: parallel edges of different types may coexist. */
  datatype EdgeKey = EdgeKey(source: NodeId, target: NodeId, edgeType: EdgeType)

  function KeyOf(edge: RawEdge): EdgeKey {
    EdgeKey(edge.source, edge.target, edge.edgeType)
  }

  function ArcOf(edge: RawEdge): Arc {
    Arc(edge.source, edge.target)
  }

  /** The dependency graph that a collection of edges describes. */
  ghost function DependencyArcs(edges: set<RawEdge>): set<Arc> {
    set e | e in edges && e.edgeType.IsDependency() :: ArcOf(e)
  }
}
