// compare_snapshots and material changes.

module Diff {
  import opened Types
  import opened Names
  import opened Sorting
  import opened Ordering
  import opened Snapshots
  import opened MergeGraph

  datatype DiffEventKind =
    | NodeAdded | NodeRemoved | EdgeAdded | EdgeRemoved | PropertyChanged
    | CapabilityChanged | LocalityChanged | ProviderChanged

  datatype DiffEvent = DiffEvent(kind: DiffEventKind, node: NodeId, node2: NodeId, key: string, onEdge: bool)

  datatype TopologyDiff = TopologyDiff(generationBefore: nat, generationAfter: nat, materialChange: bool, events: seq<DiffEvent>)

  // Property changes of nodes are telemetry; everything else is structure.
  predicate IsMaterialEvent(e: DiffEvent) {
    e.kind == PropertyChanged ==> e.onEdge
  }

  // ---- Fingerprints ---------------------------------------------------------------

  // The structural facts of a node.
  datatype NodePrint = NodePrint(
    capabilities: bv64,
    numaNode: Option<uint32>,
    cpuPackage: Option<uint32>,
    coreId: Option<uint32>,
    provider: string)

  function PrintOf(n: Node): NodePrint {
    NodePrint(n.capabilities, n.native.numaNode, n.native.cpuPackage, n.native.coreId, n.provenance.provider)
  }

  // The structural facts of a link.
  datatype LinkFacts = LinkFacts(
    bandwidth: Option<real>,
    latency: Option<real>,
    width: Option<int>,
    pcieGeneration: Option<int>,
    accessible: bool)

  function FactsOf(e: Edge): LinkFacts {
    LinkFacts(e.bandwidth, e.latency, e.width, e.pcieGeneration, e.accessible)
  }

  datatype Fingerprint = Fingerprint(nodes: map<NodeId, NodePrint>, links: map<EdgeKey, LinkFacts>)

  function NodePrints(nodes: map<NodeId, Node>): map<NodeId, NodePrint> {
    map id | id in nodes :: PrintOf(nodes[id])
  }

  // The facts of the first edge of every key.
  function LinksOf(es: seq<Edge>): (r: map<EdgeKey, LinkFacts>)
    ensures r.Keys == EdgeKeys(es)
  {
    if es == [] then map[]
    else
      var n := |es| - 1;
      var before := LinksOf(es[..n]);
      assert es == es[..n] + [es[n]];
      assert EdgeKeys(es) == EdgeKeys(es[..n]) + {KeyOf(es[n])};
      if KeyOf(es[n]) in before then before else before[KeyOf(es[n]) := FactsOf(es[n])]
  }

  function FingerprintOf(s: Snapshot): Fingerprint {
    Fingerprint(NodePrints(s.nodes), LinksOf(s.edges))
  }

  // ---- Events -----------------------------------------------------------------------

  // What each event says about the two snapshots.
  ghost predicate Happened(a: Snapshot, b: Snapshot, e: DiffEvent) {
    match e.kind
    case NodeAdded => e == DiffEvent(NodeAdded, e.node, NULL_NODE_ID, "", false) && e.node in b.nodes && e.node !in a.nodes
    case NodeRemoved => e == DiffEvent(NodeRemoved, e.node, NULL_NODE_ID, "", false) && e.node in a.nodes && e.node !in b.nodes
    case CapabilityChanged =>
      && e == DiffEvent(CapabilityChanged, e.node, NULL_NODE_ID, "", false) && e.node in a.nodes && e.node in b.nodes
      && a.nodes[e.node].capabilities != b.nodes[e.node].capabilities
    case LocalityChanged =>
      && e == DiffEvent(LocalityChanged, e.node, NULL_NODE_ID, "", false) && e.node in a.nodes && e.node in b.nodes
      && LocalityDiffers(a.nodes[e.node], b.nodes[e.node])
    case ProviderChanged =>
      && e == DiffEvent(ProviderChanged, e.node, NULL_NODE_ID, "", false) && e.node in a.nodes && e.node in b.nodes
      && a.nodes[e.node].provenance.provider != b.nodes[e.node].provenance.provider
    case PropertyChanged =>
      if e.onEdge then exists x :: x in b.edges && LinkChanged(a.edges, x) && e == LinkEvent(x)
      else
        && e == DiffEvent(PropertyChanged, e.node, NULL_NODE_ID, e.key, false) && e.node in a.nodes && e.node in b.nodes
        && e.key in b.nodes[e.node].properties
        && !(e.key in a.nodes[e.node].properties && a.nodes[e.node].properties[e.key] == b.nodes[e.node].properties[e.key])
    case EdgeAdded => exists x :: x in b.edges && KeyOf(x) !in EdgeKeys(a.edges) && e == EdgeEvent(EdgeAdded, x)
    case EdgeRemoved => exists x :: x in a.edges && KeyOf(x) !in EdgeKeys(b.edges) && e == EdgeEvent(EdgeRemoved, x)
  }

  predicate LocalityDiffers(na: Node, nb: Node) {
    na.native.numaNode != nb.native.numaNode || na.native.cpuPackage != nb.native.cpuPackage || na.native.coreId != nb.native.coreId
  }

  // An edge is compared with the first edge of the same key.
  predicate LinkChanged(before: seq<Edge>, x: Edge) {
    KeyOf(x) in EdgeKeys(before) && LinksOf(before)[KeyOf(x)] != FactsOf(x)
  }

  function EdgeEvent(kind: DiffEventKind, x: Edge): DiffEvent {
    DiffEvent(kind, x.source, x.target, EdgeTypeName(x.edgeType), true)
  }

  function LinkEvent(x: Edge): DiffEvent {
    DiffEvent(PropertyChanged, x.source, x.target, "edge.link", true)
  }

  // Everything the comparison looks at is unchanged.
  ghost predicate Unchanged(a: Snapshot, b: Snapshot) {
    && NodePrints(a.nodes) == NodePrints(b.nodes)
    && EdgeKeys(a.edges) == EdgeKeys(b.edges)
    && forall x :: x in b.edges ==> !LinkChanged(a.edges, x)
  }

  lemma UnchangedNodes(a: map<NodeId, Node>, b: map<NodeId, Node>)
    ensures NodePrints(a) == NodePrints(b) <==>
            a.Keys == b.Keys && forall id :: id in a && id in b ==> PrintOf(a[id]) == PrintOf(b[id])
  {
    if NodePrints(a) == NodePrints(b) {
      assert a.Keys == NodePrints(a).Keys == NodePrints(b).Keys == b.Keys;
      forall id | id in a && id in b
        ensures PrintOf(a[id]) == PrintOf(b[id])
      {
        assert NodePrints(a)[id] == NodePrints(b)[id];
      }
    }
  }

  // A change of one node's facts shows as an event about it.
  lemma NodeChangeHappens(a: Snapshot, b: Snapshot, id: NodeId)
    requires id in a.nodes && id in b.nodes && PrintOf(a.nodes[id]) != PrintOf(b.nodes[id])
    ensures exists e :: Happened(a, b, e) && IsMaterialEvent(e)
  {
    if a.nodes[id].capabilities != b.nodes[id].capabilities {
      assert Happened(a, b, DiffEvent(CapabilityChanged, id, NULL_NODE_ID, "", false));
    } else if LocalityDiffers(a.nodes[id], b.nodes[id]) {
      assert Happened(a, b, DiffEvent(LocalityChanged, id, NULL_NODE_ID, "", false));
    } else {
      assert Happened(a, b, DiffEvent(ProviderChanged, id, NULL_NODE_ID, "", false));
    }
  }

  lemma MaterialMeansChanged(a: Snapshot, b: Snapshot, e: DiffEvent)
    requires Happened(a, b, e) && IsMaterialEvent(e)
    ensures !Unchanged(a, b)
  {
    hide KeyOf, LinksOf;
    UnchangedNodes(a.nodes, b.nodes);
  }

  lemma EdgeChangeHappens(a: Snapshot, b: Snapshot)
    requires EdgeKeys(a.edges) != EdgeKeys(b.edges) || exists x :: x in b.edges && LinkChanged(a.edges, x)
    ensures exists e :: Happened(a, b, e) && IsMaterialEvent(e)
  {
    hide KeyOf, LinksOf, LinkChanged;
    if x :| x in b.edges && KeyOf(x) !in EdgeKeys(a.edges) {
      assert Happened(a, b, EdgeEvent(EdgeAdded, x));
    } else if x :| x in a.edges && KeyOf(x) !in EdgeKeys(b.edges) {
      assert Happened(a, b, EdgeEvent(EdgeRemoved, x));
    } else {
      var x :| x in b.edges && LinkChanged(a.edges, x);
      assert Happened(a, b, LinkEvent(x));
    }
  }

  lemma ChangedMeansMaterial(a: Snapshot, b: Snapshot)
    requires !Unchanged(a, b)
    ensures exists e :: Happened(a, b, e) && IsMaterialEvent(e)
  {
    hide KeyOf, LinksOf, LinkChanged, PrintOf;
    UnchangedNodes(a.nodes, b.nodes);
    if id :| id in b.nodes && id !in a.nodes {
      assert Happened(a, b, DiffEvent(NodeAdded, id, NULL_NODE_ID, "", false));
    } else if id :| id in a.nodes && id !in b.nodes {
      assert Happened(a, b, DiffEvent(NodeRemoved, id, NULL_NODE_ID, "", false));
    } else if id :| id in a.nodes && PrintOf(a.nodes[id]) != PrintOf(b.nodes[id]) {
      NodeChangeHappens(a, b, id);
    } else {
      assert a.nodes.Keys == b.nodes.Keys;
      EdgeChangeHappens(a, b);
    }
  }

  // ---- Materiality is a change of fingerprint ------------------------------------------

  // Edges of one key have one set of facts.
  ghost predicate ParallelEdgesAgree(es: seq<Edge>) {
    forall x, y :: x in es && y in es && KeyOf(x) == KeyOf(y) ==> FactsOf(x) == FactsOf(y)
  }

  // The facts of a key are those of some edge of the key.
  lemma {:induction false} LinkHasEdge(es: seq<Edge>, k: EdgeKey)
    requires k in EdgeKeys(es)
    ensures exists x :: x in es && KeyOf(x) == k && FactsOf(x) == LinksOf(es)[k]
  {
    hide KeyOf, FactsOf;
    var n := |es| - 1;
    assert es == es[..n] + [es[n]];
    if k in EdgeKeys(es[..n]) {
      LinkHasEdge(es[..n], k);
    }
  }

  // Every edge has the facts of the first edge of its key exactly when parallel edges agree.
  lemma AgreeingEdges(es: seq<Edge>)
    ensures ParallelEdgesAgree(es) <==> forall x :: x in es ==> LinksOf(es)[KeyOf(x)] == FactsOf(x)
  {
    hide KeyOf, FactsOf, LinksOf;
    LinkKeys(es);
    if ParallelEdgesAgree(es) {
      forall x | x in es
        ensures LinksOf(es)[KeyOf(x)] == FactsOf(x)
      {
        LinkHasEdge(es, KeyOf(x));
      }
    }
  }

  lemma UniqueKeysAgree(es: seq<Edge>)
    requires UniqueKeys(es)
    ensures ParallelEdgesAgree(es)
  {
    hide KeyOf, FactsOf;
  }

  lemma LinkKeys(es: seq<Edge>)
    ensures LinksOf(es).Keys == EdgeKeys(es)
    ensures forall k :: k in EdgeKeys(es) ==> exists x :: x in es && KeyOf(x) == k
    ensures forall x :: x in es ==> KeyOf(x) in EdgeKeys(es)
  {
    hide KeyOf, LinksOf;
  }

  lemma SameLinks(a: seq<Edge>, b: seq<Edge>)
    requires EdgeKeys(a) == EdgeKeys(b)
    ensures (forall x :: x in b ==> !LinkChanged(a, x)) <==> LinksOf(a) == LinksOf(b) && ParallelEdgesAgree(b)
  {
    hide KeyOf, FactsOf, LinksOf, EdgeKeys, ParallelEdgesAgree;
    LinkKeys(a);
    LinkKeys(b);
    AgreeingEdges(b);
    if forall x :: x in b ==> !LinkChanged(a, x) {
      forall k | k in EdgeKeys(b)
        ensures LinksOf(a)[k] == LinksOf(b)[k]
      {
        LinkHasEdge(b, k);
      }
      assert LinksOf(a) == LinksOf(b);
    }
  }

  // Nothing material happened exactly when the fingerprints are equal and, in the newer snapshot,
  // parallel edges agree on their facts.
  lemma UnchangedExactly(a: Snapshot, b: Snapshot)
    ensures Unchanged(a, b) <==> FingerprintOf(a) == FingerprintOf(b) && ParallelEdgesAgree(b.edges)
  {
    hide KeyOf, FactsOf, LinksOf, EdgeKeys, LinkChanged, NodePrints, ParallelEdgesAgree;
    LinkKeys(a.edges);
    LinkKeys(b.edges);
    if EdgeKeys(a.edges) == EdgeKeys(b.edges) {
      SameLinks(a.edges, b.edges);
    }
  }

  // With unique edge keys in the newer snapshot, that is equality of the fingerprints.
  lemma MaterialIsFingerprintChange(a: Snapshot, b: Snapshot)
    requires UniqueKeys(b.edges)
    ensures Unchanged(a, b) <==> FingerprintOf(a) == FingerprintOf(b)
  {
    hide Unchanged, FingerprintOf, UniqueKeys, ParallelEdgesAgree;
    UnchangedExactly(a, b);
    UniqueKeysAgree(b.edges);
  }

  // So among snapshots whose parallel edges agree, "no material change" is an equivalence.
  lemma NoMaterialChangeIsAnEquivalence(a: Snapshot, b: Snapshot, c: Snapshot)
    requires ParallelEdgesAgree(a.edges) && ParallelEdgesAgree(b.edges) && ParallelEdgesAgree(c.edges)
    ensures Unchanged(a, a)
    ensures Unchanged(a, b) <==> Unchanged(b, a)
    ensures Unchanged(a, b) && Unchanged(b, c) ==> Unchanged(a, c)
  {
    hide Unchanged, FingerprintOf, ParallelEdgesAgree;
    UnchangedExactly(a, a);
    UnchangedExactly(a, b);
    UnchangedExactly(b, a);
    UnchangedExactly(b, c);
    UnchangedExactly(a, c);
  }

  // A snapshot counts as unchanged against itself exactly when its parallel edges agree.
  lemma SelfComparison(s: Snapshot)
    ensures Unchanged(s, s) <==> ParallelEdgesAgree(s.edges)
  {
    hide Unchanged, FingerprintOf, ParallelEdgesAgree;
    UnchangedExactly(s, s);
  }

  // Two reports of one link with different widths: the snapshot differs from itself.
  lemma DisagreeingEdgesDifferFromThemselves(s: Snapshot, e: Edge)
    requires s.edges == [e.(width := Some(8)), e.(width := Some(16))]
    ensures !Unchanged(s, s)
  {
    hide Unchanged, FingerprintOf;
    SelfComparison(s);
    var x, y := s.edges[0], s.edges[1];
    assert x in s.edges && y in s.edges && KeyOf(x) == KeyOf(y);
    assert FactsOf(x).width != FactsOf(y).width;
  }

  // ---- compare_snapshots ------------------------------------------------------------------

  // One event for every edge whose key the other list lacks.
  ghost function MissingBag(xs: seq<Edge>, others: seq<Edge>, kind: DiffEventKind): multiset<DiffEvent> {
    if xs == [] then multiset{}
    else
      var n := |xs| - 1;
      MissingBag(xs[..n], others, kind) + if KeyOf(xs[n]) !in EdgeKeys(others) then multiset{EdgeEvent(kind, xs[n])} else multiset{}
  }

  // One event for every edge with other facts than the first edge of its key before.
  ghost function ChangedBag(before: seq<Edge>, after: seq<Edge>): multiset<DiffEvent> {
    if after == [] then multiset{}
    else
      var n := |after| - 1;
      ChangedBag(before, after[..n]) + if LinkChanged(before, after[n]) then multiset{LinkEvent(after[n])} else multiset{}
  }

  // How often an event is listed: once about a node, and once for every edge it is about.
  ghost function Occurrences(a: Snapshot, b: Snapshot, e: DiffEvent): nat {
    if !e.onEdge then if Happened(a, b, e) then 1 else 0
    else
      MissingBag(b.edges, a.edges, EdgeAdded)[e] + MissingBag(a.edges, b.edges, EdgeRemoved)[e] + ChangedBag(a.edges, b.edges)[e]
  }

  // Every event is in the list as often as it occurs, and no other event.
  ghost predicate ListsExactly(a: Snapshot, b: Snapshot, events: seq<DiffEvent>) {
    forall e :: multiset(events)[e] == Occurrences(a, b, e)
  }

  lemma {:induction false} InMissingBag(xs: seq<Edge>, others: seq<Edge>, kind: DiffEventKind, e: DiffEvent)
    ensures e in MissingBag(xs, others, kind) <==> exists x :: x in xs && KeyOf(x) !in EdgeKeys(others) && e == EdgeEvent(kind, x)
  {
    hide KeyOf, EdgeEvent, EdgeKeys;
    if xs != [] {
      var n := |xs| - 1;
      InMissingBag(xs[..n], others, kind, e);
      assert xs == xs[..n] + [xs[n]];
    }
  }

  lemma {:induction false} InChangedBag(before: seq<Edge>, after: seq<Edge>, e: DiffEvent)
    ensures e in ChangedBag(before, after) <==> exists x :: x in after && LinkChanged(before, x) && e == LinkEvent(x)
  {
    hide LinkChanged, LinkEvent;
    if after != [] {
      var n := |after| - 1;
      InChangedBag(before, after[..n], e);
      assert after == after[..n] + [after[n]];
    }
  }

  // An event occurs exactly when it happened.
  lemma OccursWhenHappened(a: Snapshot, b: Snapshot, e: DiffEvent)
    ensures Occurrences(a, b, e) > 0 <==> Happened(a, b, e)
  {
    hide KeyOf, EdgeKeys, LinkChanged, MissingBag, ChangedBag, LocalityDiffers;
    InMissingBag(b.edges, a.edges, EdgeAdded, e);
    InMissingBag(a.edges, b.edges, EdgeRemoved, e);
    InChangedBag(a.edges, b.edges, e);
  }

  ghost predicate AboutNode(e: DiffEvent, id: NodeId) {
    !e.onEdge && e.kind != EdgeAdded && e.kind != EdgeRemoved && e.node == id
  }

  // The events about one node of either snapshot.
  method NodeChanges(a: Snapshot, b: Snapshot, id: NodeId) returns (events: seq<DiffEvent>)
    ensures forall e :: e in events <==> Happened(a, b, e) && AboutNode(e, id)
    ensures AllDistinct(events)
  {
    hide KeyOf, LinkChanged, LinksOf, LocalityDiffers, EdgeEvent, LinkEvent;
    if id !in a.nodes && id !in b.nodes {
      return [];
    }
    if id !in a.nodes {
      return [DiffEvent(NodeAdded, id, NULL_NODE_ID, "", false)];
    }
    if id !in b.nodes {
      return [DiffEvent(NodeRemoved, id, NULL_NODE_ID, "", false)];
    }
    var facts := FactChanges(id, a.nodes[id], b.nodes[id]);
    var properties := PropertyChanges(id, a.nodes[id].properties, b.nodes[id].properties);
    JoinDistinct(facts, properties);
    events := facts + properties;
  }

  lemma JoinDistinct(a: seq<DiffEvent>, b: seq<DiffEvent>)
    requires AllDistinct(a) && AllDistinct(b) && forall e :: e in a ==> e !in b
    ensures AllDistinct(a + b)
  {
    forall i, j | 0 <= i < j < |a + b|
      ensures (a + b)[i] != (a + b)[j]
    {
      if i < |a| <= j {
        assert (a + b)[i] in a && (a + b)[j] in b;
      }
    }
  }

  method FactChanges(id: NodeId, na: Node, nb: Node) returns (events: seq<DiffEvent>)
    ensures forall e :: e in events <==>
                        e == DiffEvent(e.kind, id, NULL_NODE_ID, "", false) &&
                        ((e.kind == CapabilityChanged && na.capabilities != nb.capabilities) ||
                         (e.kind == LocalityChanged && LocalityDiffers(na, nb)) ||
                         (e.kind == ProviderChanged && na.provenance.provider != nb.provenance.provider))
    ensures AllDistinct(events)
  {
    hide LocalityDiffers;
    events := [];
    if na.capabilities != nb.capabilities {
      events := events + [DiffEvent(CapabilityChanged, id, NULL_NODE_ID, "", false)];
    }
    if LocalityDiffers(na, nb) {
      events := events + [DiffEvent(LocalityChanged, id, NULL_NODE_ID, "", false)];
    }
    if na.provenance.provider != nb.provenance.provider {
      events := events + [DiffEvent(ProviderChanged, id, NULL_NODE_ID, "", false)];
    }
  }

  // Properties that appeared or changed; a property that went away is not reported.
  method PropertyChanges(id: NodeId, before: PropertyMap, after: PropertyMap) returns (events: seq<DiffEvent>)
    ensures forall e :: e in events <==>
                        e == DiffEvent(PropertyChanged, id, NULL_NODE_ID, e.key, false) && e.key in after &&
                        !(e.key in before && before[e.key] == after[e.key])
    ensures AllDistinct(events)
  {
    events := [];
    var left := after.Keys;
    while left != {}
      invariant left <= after.Keys
      invariant forall e :: e in events <==>
                            e == DiffEvent(PropertyChanged, id, NULL_NODE_ID, e.key, false) && e.key in after && e.key !in left &&
                            !(e.key in before && before[e.key] == after[e.key])
      invariant AllDistinct(events)
      decreases left
    {
      var k :| k in left;
      left := left - {k};
      if !(k in before && before[k] == after[k]) {
        events := events + [DiffEvent(PropertyChanged, id, NULL_NODE_ID, k, false)];
      }
    }
  }

  method AllNodeChanges(a: Snapshot, b: Snapshot) returns (events: seq<DiffEvent>)
    ensures forall e :: e in events <==> Happened(a, b, e) && AboutNode(e, e.node)
    ensures AllDistinct(events)
  {
    hide KeyOf, LinkChanged, LinksOf;
    events := [];
    var left := a.nodes.Keys + b.nodes.Keys;
    while left != {}
      invariant left <= a.nodes.Keys + b.nodes.Keys
      invariant forall e :: e in events <==> Happened(a, b, e) && AboutNode(e, e.node) && e.node !in left
      invariant AllDistinct(events)
      decreases left
    {
      var id :| id in left;
      left := left - {id};
      var more := NodeChanges(a, b, id);
      JoinDistinct(events, more);
      events := events + more;
    }
  }

  // Edges of one list whose key the other list lacks.
  method MissingEdges(xs: seq<Edge>, others: seq<Edge>, kind: DiffEventKind) returns (events: seq<DiffEvent>)
    ensures multiset(events) == MissingBag(xs, others, kind)
  {
    hide KeyOf, EdgeEvent;
    var keys := EdgeKeys(others);
    events := [];
    for i := 0 to |xs|
      invariant multiset(events) == MissingBag(xs[..i], others, kind)
    {
      assert xs[..i + 1][..i] == xs[..i];
      if KeyOf(xs[i]) !in keys {
        events := events + [EdgeEvent(kind, xs[i])];
      }
    }
    assert xs[..|xs|] == xs;
  }

  // The search for the first edge of the same key.
  method FindFirst(es: seq<Edge>, key: EdgeKey) returns (found: Option<Edge>)
    ensures found.Some? <==> key in EdgeKeys(es)
    ensures found.Some? ==> FactsOf(found.value) == LinksOf(es)[key]
  {
    hide KeyOf, FactsOf;
    for i := 0 to |es|
      invariant key !in EdgeKeys(es[..i])
    {
      assert es[..i + 1] == es[..i] + [es[i]];
      if KeyOf(es[i]) == key {
        assert es[..i + 1][..i] == es[..i];
        FirstDecides(es, i + 1, key);
        assert es[i] in es;
        return Some(es[i]);
      }
    }
    assert es[..|es|] == es;
    found := None;
  }

  lemma {:induction false} FirstDecides(es: seq<Edge>, n: nat, key: EdgeKey)
    requires n <= |es| && key in EdgeKeys(es[..n])
    ensures key in EdgeKeys(es) && LinksOf(es)[key] == LinksOf(es[..n])[key]
    decreases |es|
  {
    hide KeyOf, FactsOf, LinksOf, EdgeKeys;
    if n < |es| {
      var m := |es| - 1;
      assert es[..m][..n] == es[..n];
      FirstDecides(es[..m], n, key);
      LaterEdgesChangeNothing(es, key);
    } else {
      assert es[..n] == es;
    }
  }

  lemma LaterEdgesChangeNothing(es: seq<Edge>, key: EdgeKey)
    requires es != [] && key in EdgeKeys(es[..|es| - 1])
    ensures key in EdgeKeys(es) && LinksOf(es)[key] == LinksOf(es[..|es| - 1])[key]
  {
    hide KeyOf, FactsOf;
    var m := |es| - 1;
    assert es == es[..m] + [es[m]];
  }

  lemma NothingChanged(before: seq<Edge>)
    ensures ChangedBag(before, []) == multiset{}
  {
  }

  lemma NextChanged(before: seq<Edge>, after: seq<Edge>, i: nat)
    requires i < |after|
    ensures ChangedBag(before, after[..i + 1]) ==
            ChangedBag(before, after[..i]) + if LinkChanged(before, after[i]) then multiset{LinkEvent(after[i])} else multiset{}
  {
    hide LinkChanged;
    assert after[..i + 1][..i] == after[..i];
  }

  method ChangedLinks(before: seq<Edge>, after: seq<Edge>) returns (events: seq<DiffEvent>)
    ensures multiset(events) == ChangedBag(before, after)
  {
    hide KeyOf, LinkEvent, LinksOf, FactsOf, ChangedBag;
    events := [];
    NothingChanged(before);
    for i := 0 to |after|
      invariant multiset(events) == ChangedBag(before, after[..i])
    {
      NextChanged(before, after, i);
      var first := FindFirst(before, KeyOf(after[i]));
      if first.Some? && FactsOf(first.value) != FactsOf(after[i]) {
        events := events + [LinkEvent(after[i])];
      }
    }
    assert after[..|after|] == after;
  }

  function KindIndex(k: DiffEventKind): nat {
    match k
    case NodeAdded => 0
    case NodeRemoved => 1
    case EdgeAdded => 2
    case EdgeRemoved => 3
    case PropertyChanged => 4
    case CapabilityChanged => 5
    case LocalityChanged => 6
    case ProviderChanged => 7
  }

  predicate EventLess(a: DiffEvent, b: DiffEvent) {
    if a.kind != b.kind then KindIndex(a.kind) < KindIndex(b.kind)
    else if a.node != b.node then IdLess(a.node, b.node)
    else if a.node2 != b.node2 then IdLess(a.node2, b.node2)
    else StringLess(a.key, b.key)
  }

  const EVENT_ORDER: seq<DiffEventKind> :=
    [NodeAdded, NodeRemoved, EdgeAdded, EdgeRemoved, PropertyChanged, CapabilityChanged, LocalityChanged, ProviderChanged]

  // Listed events come by kind, then by node, other node and key.
  lemma EventsInOrder(events: seq<DiffEvent>, i: nat, j: nat, p: nat, q: nat)
    requires SortedBy(EventLess, events) && i < j < |events| && p < |EVENT_ORDER| && q < |EVENT_ORDER|
    requires events[i].kind == EVENT_ORDER[p] && events[j].kind == EVENT_ORDER[q]
    ensures p <= q
    ensures p == q ==> !IdLess(events[j].node, events[i].node)
    ensures p == q && events[i].node == events[j].node ==> !IdLess(events[j].node2, events[i].node2)
    ensures p == q && events[i].node == events[j].node && events[i].node2 == events[j].node2 ==> !StringLess(events[j].key, events[i].key)
  {
    assert !EventLess(events[j], events[i]);
    assert KindIndex(EVENT_ORDER[p]) == p && KindIndex(EVENT_ORDER[q]) == q;
  }

  lemma EventLessIsOrder()
    ensures StrictWeakOrder(EventLess)
  {
    StringLessIsTotalOrder();
    forall a, b, c
      ensures EventLess(a, b) ==> !EventLess(b, a)
      ensures !EventLess(a, b) && !EventLess(b, c) ==> !EventLess(a, c)
    {
      LessIsAsymmetric(a.key, b.key);
      NotLessIsTransitive(a.key, b.key, c.key);
    }
  }

  method CollectEvents(before: Snapshot, after: Snapshot) returns (events: seq<DiffEvent>)
    ensures ListsExactly(before, after, events)
  {
    hide *;
    var nodes := AllNodeChanges(before, after);
    var added := MissingEdges(after.edges, before.edges, EdgeAdded);
    var removed := MissingEdges(before.edges, after.edges, EdgeRemoved);
    var links := ChangedLinks(before.edges, after.edges);
    events := nodes + added + removed + links;
    AllEvents(before, after, nodes, added, removed, links);
  }

  method AnyMaterial(events: seq<DiffEvent>) returns (material: bool)
    ensures material <==> exists e :: e in events && IsMaterialEvent(e)
  {
    for i := 0 to |events|
      invariant forall j :: 0 <= j < i ==> !IsMaterialEvent(events[j])
    {
      if IsMaterialEvent(events[i]) {
        assert events[i] in events;
        return true;
      }
    }
    material := false;
  }

  // The events in a fixed order; the change is material when one of them is.
  method CompareSnapshots(before: Snapshot, after: Snapshot) returns (d: TopologyDiff)
    ensures ListsExactly(before, after, d.events) && SortedBy(EventLess, d.events)
    ensures d.materialChange <==> !Unchanged(before, after)
    ensures d.generationBefore == before.metadata.generation && d.generationAfter == after.metadata.generation
  {
    hide EventLess, Happened, Unchanged, IsMaterialEvent, Occurrences;
    var events := CollectEvents(before, after);
    var sorted := Sort(EventLess, events);
    EventLessIsOrder();
    SortSorts(EventLess, events);
    SameElements(events, sorted);
    var material := AnyMaterial(sorted);
    forall e
      ensures e in sorted <==> Happened(before, after, e)
    {
      OccursWhenHappened(before, after, e);
      assert e in sorted <==> multiset(sorted)[e] > 0;
    }
    MaterialIffChanged(before, after);
    d := TopologyDiff(before.metadata.generation, after.metadata.generation, material, sorted);
  }

  lemma MaterialIffChanged(a: Snapshot, b: Snapshot)
    ensures (exists e :: Happened(a, b, e) && IsMaterialEvent(e)) <==> !Unchanged(a, b)
  {
    hide Happened, Unchanged, IsMaterialEvent;
    if e :| Happened(a, b, e) && IsMaterialEvent(e) {
      MaterialMeansChanged(a, b, e);
    } else if !Unchanged(a, b) {
      ChangedMeansMaterial(a, b);
    }
  }

  lemma AllEvents(a: Snapshot, b: Snapshot, nodes: seq<DiffEvent>, added: seq<DiffEvent>, removed: seq<DiffEvent>, links: seq<DiffEvent>)
    requires AllDistinct(nodes) && forall e :: e in nodes <==> Happened(a, b, e) && AboutNode(e, e.node)
    requires multiset(added) == MissingBag(b.edges, a.edges, EdgeAdded)
    requires multiset(removed) == MissingBag(a.edges, b.edges, EdgeRemoved)
    requires multiset(links) == ChangedBag(a.edges, b.edges)
    ensures ListsExactly(a, b, nodes + added + removed + links)
  {
    hide KeyOf, LinkChanged, EdgeKeys, MissingBag, ChangedBag, LocalityDiffers, AllDistinct;
    var all := nodes + added + removed + links;
    forall e
      ensures multiset(all)[e] == Occurrences(a, b, e)
    {
      assert multiset(all)[e] == multiset(nodes)[e] + multiset(added)[e] + multiset(removed)[e] + multiset(links)[e];
      InMissingBag(b.edges, a.edges, EdgeAdded, e);
      InMissingBag(a.edges, b.edges, EdgeRemoved, e);
      InChangedBag(a.edges, b.edges, e);
      DistinctCount(nodes, e);
      assert e in nodes <==> multiset(nodes)[e] > 0;
    }
  }
}
