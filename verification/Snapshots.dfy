// The immutable snapshot and its adjacency index.

module Snapshots {
  import opened Types

  datatype EdgeRef = EdgeRef(neighbor: NodeId, edgeIndex: nat)

  datatype Metadata = Metadata(
    snapshotId: string,
    generation: nat,
    createdMs: int64,
    machineIdentity: string,
    schemaVersion: string,
    providerVersions: string,
    partialDiscovery: bool,
    synthetic: bool,
    warnings: seq<string>)

  datatype ValidationError =
    | UnknownSource(id: NodeId)
    | UnknownTarget(id: NodeId)
    | DuplicateIdentity(key: string, first: NodeId, second: NodeId)
    | SelfContainment(id: NodeId)
    | ContainmentCycle
    | ForcedError(text: string)

  // The source keeps a flag beside the list; add_error sets it, nothing clears it.
  datatype Validation = Validation(ok: bool, errors: seq<ValidationError>) {
    function AddError(e: ValidationError): Validation {
      Validation(false, errors + [e])
    }
  }

  datatype Snapshot = Snapshot(
    nodes: map<NodeId, Node>,
    edges: seq<Edge>,
    adjacency: map<NodeId, seq<EdgeRef>>,
    metadata: Metadata,
    validation: Validation)
  {
    // An id without an entry has the empty list.
    function Adjacency(id: NodeId): seq<EdgeRef> {
      if id in adjacency then adjacency[id] else []
    }

    // The index of a finished snapshot: each node's references in edge order.
    ghost predicate Indexed() {
      forall id :: Adjacency(id) == RefsOf(edges, id)
    }

    predicate NoDangling() {
      forall e :: e in edges ==> e.source in nodes && e.target in nodes
    }
  }

  // The references one edge contributes to a node: one per endpoint, so two for a self-loop.
  function RefsOfEdge(e: Edge, i: nat, id: NodeId): seq<EdgeRef> {
    (if e.source == id then [EdgeRef(e.target, i)] else []) +
    (if e.target == id then [EdgeRef(e.source, i)] else [])
  }

  function RefsOf(edges: seq<Edge>, id: NodeId): seq<EdgeRef> {
    if edges == [] then []
    else
      var n := |edges| - 1;
      RefsOf(edges[..n], id) + RefsOfEdge(edges[n], n, id)
  }

  // Edge i joins the two ids, in one orientation or the other.
  ghost predicate Joins(edges: seq<Edge>, a: NodeId, i: nat, b: NodeId) {
    i < |edges| &&
    ((edges[i].source == a && edges[i].target == b) || (edges[i].target == a && edges[i].source == b))
  }

  // The adjacency list of a node holds exactly the other ends of its edges: traversal is
  // undirected whatever the direction of the edge.
  lemma {:induction false} RefsAreTheEdgesOfANode(edges: seq<Edge>, id: NodeId, r: EdgeRef)
    ensures r in RefsOf(edges, id) <==> Joins(edges, id, r.edgeIndex, r.neighbor)
  {
    if edges != [] {
      var n := |edges| - 1;
      RefsAreTheEdgesOfANode(edges[..n], id, r);
      assert r in RefsOf(edges, id) <==> r in RefsOf(edges[..n], id) || r in RefsOfEdge(edges[n], n, id);
    }
  }

  // ---- Handshake -------------------------------------------------------------

  ghost function EndsIn(edges: seq<Edge>, S: set<NodeId>): nat {
    if edges == [] then 0
    else
      var e := edges[|edges| - 1];
      EndsIn(edges[..|edges| - 1], S) + (if e.source in S then 1 else 0) + (if e.target in S then 1 else 0)
  }

  lemma {:induction false} EndsInBound(edges: seq<Edge>, S: set<NodeId>)
    ensures EndsIn(edges, S) <= 2 * |edges|
  {
    if edges != [] {
      EndsInBound(edges[..|edges| - 1], S);
    }
  }

  // The adjacency lists of the nodes in S hold EndsIn(edges, S) references altogether.
  lemma {:induction false} EndsInGrows(edges: seq<Edge>, S: set<NodeId>, u: NodeId)
    requires u !in S
    ensures EndsIn(edges, S + {u}) == EndsIn(edges, S) + |RefsOf(edges, u)|
  {
    if edges != [] {
      EndsInGrows(edges[..|edges| - 1], S, u);
    }
  }
}
