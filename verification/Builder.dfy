// The snapshot builder and its validation.

module Builder {
  import opened Types
  import opened Identity
  import opened Snapshots
  import opened Hierarchy
  import opened Containment

  ghost predicate AllEndpointsKnown(nodes: map<NodeId, Node>, edges: seq<Edge>) {
    forall e :: e in edges ==> e.source in nodes && e.target in nodes
  }

  function KeyAt(nodes: map<NodeId, Node>, id: NodeId): string
    requires id in nodes
  {
    CanonicalKey(nodes[id].native)
  }

  ghost predicate SameIdentity(nodes: map<NodeId, Node>, a: NodeId, b: NodeId) {
    a in nodes && b in nodes && a != b && KeyAt(nodes, a) != "" && KeyAt(nodes, a) == KeyAt(nodes, b)
  }

  // Nodes that report an identity report different ones.
  ghost predicate IdentitiesDistinct(nodes: map<NodeId, Node>) {
    forall a, b :: !SameIdentity(nodes, a, b)
  }

  ghost predicate WellFormedGraph(nodes: map<NodeId, Node>, edges: seq<Edge>) {
    AllEndpointsKnown(nodes, edges) && IdentitiesDistinct(nodes) && !HasCycle(edges)
  }

  ghost predicate SelfContained(edges: seq<Edge>, id: NodeId) {
    Linked(edges, Contains, id, id)
  }

  method CheckEndpoints(nodes: map<NodeId, Node>, edges: seq<Edge>) returns (errors: seq<ValidationError>)
    ensures forall id :: UnknownSource(id) in errors <==> id !in nodes && exists e :: e in edges && e.source == id
    ensures forall id :: UnknownTarget(id) in errors <==> id !in nodes && exists e :: e in edges && e.target == id
    ensures forall x :: x in errors ==> x.UnknownSource? || x.UnknownTarget?
    ensures errors == [] <==> AllEndpointsKnown(nodes, edges)
  {
    errors := [];
    for i := 0 to |edges|
      invariant forall id :: UnknownSource(id) in errors <==>
                             id !in nodes && exists j :: 0 <= j < i && edges[j].source == id
      invariant forall id :: UnknownTarget(id) in errors <==>
                             id !in nodes && exists j :: 0 <= j < i && edges[j].target == id
      invariant forall x :: x in errors ==> x.UnknownSource? || x.UnknownTarget?
      invariant errors == [] <==> forall j :: 0 <= j < i ==> edges[j].source in nodes && edges[j].target in nodes
    {
      if edges[i].source !in nodes {
        errors := errors + [UnknownSource(edges[i].source)];
      }
      if edges[i].target !in nodes {
        errors := errors + [UnknownTarget(edges[i].target)];
      }
    }
  }

  ghost predicate DistinctWithin(nodes: map<NodeId, Node>, S: set<NodeId>) {
    forall a, b :: a in S && b in S ==> !SameIdentity(nodes, a, b)
  }

  // The first holder of every key met so far.
  ghost predicate SeenOk(nodes: map<NodeId, Node>, S: set<NodeId>, seen: map<string, NodeId>) {
    && S <= nodes.Keys
    && (forall k :: k in seen ==> seen[k] in S && KeyAt(nodes, seen[k]) == k && k != "")
    && (forall id :: id in S && KeyAt(nodes, id) != "" ==> KeyAt(nodes, id) in seen)
  }

  // Some error names the node as the second holder of a key.
  ghost predicate Complained(errors: seq<ValidationError>, id: NodeId) {
    exists x :: x in errors && x.DuplicateIdentity? && x.second == id
  }

  lemma StillComplained(before: seq<ValidationError>, errors: seq<ValidationError>, id: NodeId)
    requires |before| < |errors| && before == errors[..|before|]
    requires errors[|errors| - 1].DuplicateIdentity? && errors[|errors| - 1].second == id
    ensures Complained(errors, id) && forall y :: Complained(before, y) ==> Complained(errors, y)
  {
    assert errors[|errors| - 1] in errors;
    assert forall x :: x in before ==> x in errors;
  }

  // Visits the nodes in any order, remembering the first holder of every key.
  method CheckIdentities(nodes: map<NodeId, Node>) returns (errors: seq<ValidationError>)
    ensures errors == [] <==> IdentitiesDistinct(nodes)
    ensures forall a, b :: SameIdentity(nodes, a, b) ==> Complained(errors, a) || Complained(errors, b)
    ensures forall x :: x in errors ==>
                          x.DuplicateIdentity? && SameIdentity(nodes, x.first, x.second) && KeyAt(nodes, x.first) == x.key
  {
    hide CanonicalKey;
    errors := [];
    var seen: map<string, NodeId> := map[];
    var left := nodes.Keys;
    ghost var done: set<NodeId> := {};
    while left != {}
      invariant left !! done && left + done == nodes.Keys
      invariant SeenOk(nodes, done, seen)
      invariant errors == [] <==> DistinctWithin(nodes, done)
      invariant forall id :: id in done && KeyAt(nodes, id) != "" && seen[KeyAt(nodes, id)] != id ==> Complained(errors, id)
      invariant forall x :: x in errors ==>
                              x.DuplicateIdentity? && SameIdentity(nodes, x.first, x.second) && KeyAt(nodes, x.first) == x.key
      decreases left
    {
      var id :| id in left;
      left := left - {id};
      var key := KeyAt(nodes, id);
      if key != "" {
        if key in seen && seen[key] != id {
          ghost var before := errors;
          errors := errors + [DuplicateIdentity(key, seen[key], id)];
          StillComplained(before, errors, id);
        } else if key !in seen {
          seen := seen[key := id];
        }
      }
      done := done + {id};
    }
    assert done == nodes.Keys;
  }

  method CheckSelfContainment(edges: seq<Edge>) returns (errors: seq<ValidationError>)
    ensures forall id :: SelfContainment(id) in errors <==> SelfContained(edges, id)
    ensures forall x :: x in errors ==> x.SelfContainment?
    ensures errors != [] ==> HasCycle(edges)
  {
    errors := [];
    for i := 0 to |edges|
      invariant forall id :: SelfContainment(id) in errors <==>
                             exists j :: 0 <= j < i && edges[j].edgeType == Contains && edges[j].source == id && edges[j].target == id
      invariant forall x :: x in errors ==> x.SelfContainment?
    {
      if edges[i].edgeType == Contains && edges[i].source == edges[i].target {
        errors := errors + [SelfContainment(edges[i].source)];
      }
    }
    if errors != [] {
      var id := errors[0].id;
      assert SelfContainment(id) in errors;
      LinkIsAbove(edges, Contains, id, id);
    }
  }

  // The four error classes of validation; warnings never affect the verdict.
  method Validate(nodes: map<NodeId, Node>, edges: seq<Edge>) returns (v: Validation)
    ensures v.ok <==> WellFormedGraph(nodes, edges)
    ensures v.ok <==> v.errors == []
    ensures forall id :: UnknownSource(id) in v.errors <==> id !in nodes && exists e :: e in edges && e.source == id
    ensures forall id :: UnknownTarget(id) in v.errors <==> id !in nodes && exists e :: e in edges && e.target == id
    ensures forall id :: SelfContainment(id) in v.errors <==> SelfContained(edges, id)
    ensures ContainmentCycle in v.errors <==> HasCycle(edges)
    ensures forall a, b :: SameIdentity(nodes, a, b) ==> Complained(v.errors, a) || Complained(v.errors, b)
    ensures forall x :: x in v.errors && x.DuplicateIdentity? ==> SameIdentity(nodes, x.first, x.second) && KeyAt(nodes, x.first) == x.key
  {
    hide HasCycle, Linked, IdentitiesDistinct, AllEndpointsKnown, SelfContained;
    var dangling := CheckEndpoints(nodes, edges);
    var duplicates := CheckIdentities(nodes);
    var selves := CheckSelfContainment(edges);
    var cyclic := HasCycleKahn(edges);
    var errors := dangling + duplicates + selves + if cyclic then [ContainmentCycle] else [];
    forall id | Complained(duplicates, id)
      ensures Complained(errors, id)
    {
      var x :| x in duplicates && x.DuplicateIdentity? && x.second == id;
      assert x in errors;
    }
    v := Validation(errors == [], errors);
  }

  function RefsAt(adjacency: map<NodeId, seq<EdgeRef>>, id: NodeId): seq<EdgeRef> {
    if id in adjacency then adjacency[id] else []
  }

  function AddRef(adjacency: map<NodeId, seq<EdgeRef>>, id: NodeId, r: EdgeRef): (next: map<NodeId, seq<EdgeRef>>)
    ensures forall x :: RefsAt(next, x) == RefsAt(adjacency, x) + if x == id then [r] else []
  {
    adjacency[id := RefsAt(adjacency, id) + [r]]
  }

  // One reference per endpoint, appended in edge order.
  method BuildAdjacency(edges: seq<Edge>) returns (adjacency: map<NodeId, seq<EdgeRef>>)
    ensures forall id :: RefsAt(adjacency, id) == RefsOf(edges, id)
  {
    hide AddRef;
    adjacency := map[];
    for i := 0 to |edges|
      invariant forall id :: RefsAt(adjacency, id) == RefsOf(edges[..i], id)
    {
      var e := edges[i];
      ghost var before := adjacency;
      adjacency := AddRef(adjacency, e.source, EdgeRef(e.target, i));
      adjacency := AddRef(adjacency, e.target, EdgeRef(e.source, i));
      forall id
        ensures RefsAt(adjacency, id) == RefsOf(edges[..i + 1], id)
      {
        assert edges[..i + 1][..i] == edges[..i];
        assert RefsAt(adjacency, id) == RefsAt(before, id) + RefsOfEdge(e, i, id);
      }
    }
    assert edges[..|edges|] == edges;
  }

  const EMPTY_METADATA: Metadata := Metadata("", 0, 0, "", "1.0", "", false, false, [])

  class SnapshotBuilder {
    const bounds: Bounds
    var nodes: map<NodeId, Node>
    var edges: seq<Edge>
    var metadata: Metadata
    var forced: Validation
    var taken: bool

    ghost predicate Valid()
      reads this
    {
      && |nodes| <= bounds.maxNodes && |edges| <= bounds.maxEdges
      && (forall id :: id in nodes ==> nodes[id].id == id)
    }

    constructor (bounds: Bounds)
      ensures Valid() && this.bounds == bounds && !taken
      ensures nodes == map[] && edges == [] && metadata == EMPTY_METADATA && forced == Validation(true, [])
    {
      this.bounds := bounds;
      nodes, edges, metadata, forced, taken := map[], [], EMPTY_METADATA, Validation(true, []), false;
    }

    // The first node of an id is kept; a full or spent builder takes none.
    method AddNode(node: Node) returns (added: bool)
      requires Valid()
      modifies this`nodes
      ensures Valid()
      ensures added <==> !taken && |old(nodes)| < bounds.maxNodes && node.id !in old(nodes)
      ensures nodes == if added then old(nodes)[node.id := node] else old(nodes)
    {
      if taken || |nodes| >= bounds.maxNodes || node.id in nodes {
        return false;
      }
      nodes := nodes[node.id := node];
      added := true;
    }

    method AddEdge(edge: Edge) returns (added: bool)
      requires Valid()
      modifies this`edges
      ensures Valid()
      ensures added <==> !taken && |old(edges)| < bounds.maxEdges
      ensures edges == if added then old(edges) + [edge] else old(edges)
    {
      if taken || |edges| >= bounds.maxEdges {
        return false;
      }
      edges := edges + [edge];
      added := true;
    }

    method SetMetadata(meta: Metadata)
      modifies this`metadata
      ensures metadata == meta
    {
      metadata := meta;
    }

    method SetValidation(val: Validation)
      modifies this`forced
      ensures forced == val
    {
      forced := val;
    }

    // A builder is spent by its first take; a second one is an error (None). The snapshot is
    // valid exactly when its graph is well formed and no error was forced on it.
    method Take() returns (r: Option<Snapshot>)
      requires Valid()
      modifies this
      ensures Valid() && taken
      ensures r.None? <==> old(taken)
      ensures r.None? ==> nodes == old(nodes) && edges == old(edges)
      ensures r.Some? ==>
                && r.value.nodes == old(nodes) && r.value.edges == old(edges) && r.value.metadata == old(metadata)
                && r.value.Indexed()
                && (r.value.validation.ok <==> WellFormedGraph(old(nodes), old(edges)) && old(forced).errors == [])
                && (forall x :: x in old(forced).errors ==> x in r.value.validation.errors)
    {
      if taken {
        return None;
      }
      taken := true;
      var v := Validate(nodes, edges);
      for i := 0 to |forced.errors|
        invariant v.ok <==> WellFormedGraph(nodes, edges) && i == 0
        invariant forall j :: 0 <= j < i ==> forced.errors[j] in v.errors
        invariant nodes == old(nodes) && edges == old(edges) && metadata == old(metadata) && forced == old(forced) && taken
      {
        v := v.AddError(forced.errors[i]);
      }
      var adjacency := BuildAdjacency(edges);
      assert forall id :: Snapshot(nodes, edges, adjacency, metadata, v).Adjacency(id) == RefsAt(adjacency, id);
      r := Some(Snapshot(nodes, edges, adjacency, metadata, v));
      nodes, edges := map[], [];
    }
  }
}
