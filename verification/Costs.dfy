// The cost policy and its networks.

module Costs {
  import opened Types
  import opened Snapshots
  import opened Walks

  datatype CostWeights = CostWeights(
    hopPenalty: real,
    numaPenalty: real,
    pciBridgePenalty: real,
    rootCrossingPenalty: real,
    latencyWeight: real,
    bandwidthScale: real,
    bandwidthRef: real,
    uncertaintyPenalty: real,
    policyPenalty: real,
    nodeTransitionPenalty: real,
    version: uint32)

  const DEFAULT_WEIGHTS: CostWeights :=
    CostWeights(1.0, 20.0, 5.0, 40.0, 0.0005, 0.25, 64000000000.0, 4.0, 0.0, 8.0, 1)

  datatype HardwareClass =
    | CpuClass | AcceleratorClass | PciClass | MemoryClass | StorageClass | NetworkClass | MachineClass | OtherClass

  function ClassOf(t: NodeType): HardwareClass {
    match t
    case CpuPackage | CpuCore | CpuThread => CpuClass
    case Accelerator | AcceleratorMemoryDomain => AcceleratorClass
    case PciRoot | PciBridge | PciDevice => PciClass
    case NumaNode | HostMemoryDomain | SharedMemoryDomain => MemoryClass
    case StorageDevice => StorageClass
    case NetworkInterface => NetworkClass
    case Machine => MachineClass
    case UnknownType | Extension => OtherClass
  }

  function DefaultLatency(v: Node): real {
    match v.nodeType
    case Accelerator => 300.0
    case CpuThread => 60.0
    case PciBridge => 120.0
    case PciRoot => 250.0
    case StorageDevice => 80.0
    case NetworkInterface => 500.0
    case _ => 100.0
  }

  function DefaultBandwidth(v: Node): real {
    match v.nodeType
    case Accelerator | CpuThread => 32000000000.0
    case PciBridge | PciRoot => 16000000000.0
    case StorageDevice => 3000000000.0
    case NetworkInterface => 10000000000.0
    case _ => 8000000000.0
  }

  predicate CollocationEdge(t: EdgeType) {
    t == SharesParent || t == SharesNuma
  }

  predicate Uncertain(c: Confidence) {
    c == Low || c == UnknownConfidence
  }

  function LatencyOf(v: Node, e: Edge): real {
    e.latency.GetOr(DefaultLatency(v))
  }

  // Non-positive bandwidths are replaced by the reference.
  function BandwidthOf(v: Node, e: Edge, w: CostWeights): real {
    var bw := e.bandwidth.GetOr(DefaultBandwidth(v));
    if bw <= 0.0 then w.bandwidthRef else bw
  }

  // A quotient that is not a number (reference and bandwidth both zero) costs 1e15.
  function EdgeTraversalCost(u: Node, v: Node, e: Edge, w: CostWeights): real {
    var bw := BandwidthOf(v, e, w);
    if bw == 0.0 then 1000000000000000.0
    else
      w.hopPenalty
      + w.latencyWeight * LatencyOf(v, e)
      + w.bandwidthScale * (w.bandwidthRef / bw)
      + (if v.nodeType == PciBridge then w.pciBridgePenalty else 0.0)
      + (if v.nodeType == PciRoot then w.rootCrossingPenalty else 0.0)
      + (if ClassOf(u.nodeType) != ClassOf(v.nodeType) then w.nodeTransitionPenalty else 0.0)
      + (if Uncertain(e.confidence) then w.uncertaintyPenalty else 0.0)
      + w.policyPenalty
  }

  // Charged once per path, on its two ends.
  function EndpointPenalty(src: Node, dst: Node, w: CostWeights): real {
    if src.native.numaNode.Some? && dst.native.numaNode.Some? && src.native.numaNode != dst.native.numaNode
    then w.numaPenalty else 0.0
  }

  // ---- Networks --------------------------------------------------------------

  predicate Traversable(edges: seq<Edge>, i: nat, collocation: bool) {
    i < |edges| && (CollocationEdge(edges[i].edgeType) ==> collocation)
  }

  function StepSet(edges: seq<Edge>, collocation: bool): set<Step> {
    (set i: nat | i < |edges| && Traversable(edges, i, collocation) :: Step(edges[i].source, edges[i].target, i)) +
    (set i: nat | i < |edges| && Traversable(edges, i, collocation) :: Step(edges[i].target, edges[i].source, i))
  }

  lemma StepSetMembers(edges: seq<Edge>, collocation: bool, st: Step)
    ensures st in StepSet(edges, collocation) <==>
            Joins(edges, st.from, st.edge, st.to) && Traversable(edges, st.edge, collocation)
  {
    if Joins(edges, st.from, st.edge, st.to) && Traversable(edges, st.edge, collocation) {
      var i := st.edge;
      assert st == Step(edges[i].source, edges[i].target, i) || st == Step(edges[i].target, edges[i].source, i);
    }
  }

  // Every hop weighs one.
  function HopNetwork(edges: seq<Edge>, collocation: bool): Network {
    map st | st in StepSet(edges, collocation) :: 1.0
  }

  // Non-collocation steps between known nodes, each at the cost of traversing its edge.
  function CostNetwork(snap: Snapshot, w: CostWeights): Network {
    map st | st in StepSet(snap.edges, false) && st.edge < |snap.edges| && st.from in snap.nodes && st.to in snap.nodes
      :: EdgeTraversalCost(snap.nodes[st.from], snap.nodes[st.to], snap.edges[st.edge], w)
  }

  lemma CostNetworkMembers(snap: Snapshot, w: CostWeights, st: Step)
    ensures st in CostNetwork(snap, w) <==>
            Joins(snap.edges, st.from, st.edge, st.to) && Traversable(snap.edges, st.edge, false) &&
            st.from in snap.nodes && st.to in snap.nodes
    ensures st in CostNetwork(snap, w) ==>
              CostNetwork(snap, w)[st] ==
              EdgeTraversalCost(snap.nodes[st.from], snap.nodes[st.to], snap.edges[st.edge], w)
  {
    StepSetMembers(snap.edges, false, st);
  }

  // Policies and measurements without negative entries never make a step profitable.
  ghost predicate SaneWeights(w: CostWeights) {
    && w.hopPenalty >= 0.0 && w.numaPenalty >= 0.0 && w.pciBridgePenalty >= 0.0
    && w.rootCrossingPenalty >= 0.0 && w.latencyWeight >= 0.0 && w.bandwidthScale >= 0.0
    && w.bandwidthRef > 0.0 && w.uncertaintyPenalty >= 0.0 && w.policyPenalty >= 0.0
    && w.nodeTransitionPenalty >= 0.0
  }

  lemma ProductNonNegative(x: real, y: real)
    requires x >= 0.0 && y >= 0.0
    ensures x * y >= 0.0
  {
  }

  lemma QuotientIsProduct(x: real, y: real)
    requires y != 0.0
    ensures x / y == x * (1.0 / y)
  {
    var q := 1.0 / y;
    assert q * y == 1.0;
    assert x * q * y == x;
  }

  lemma EdgeCostNonNegative(u: Node, v: Node, e: Edge, w: CostWeights)
    requires SaneWeights(w)
    requires e.latency.Some? ==> e.latency.value >= 0.0
    ensures EdgeTraversalCost(u, v, e, w) >= 0.0
  {
    var bw := BandwidthOf(v, e, w);
    ProductNonNegative(w.latencyWeight, LatencyOf(v, e));
    assert w.bandwidthRef / bw >= 0.0;
    ProductNonNegative(w.bandwidthScale, w.bandwidthRef / bw);
  }

  lemma SanePoliciesGiveNonNegativeNetworks(snap: Snapshot, w: CostWeights)
    requires SaneWeights(w)
    requires forall e :: e in snap.edges && e.latency.Some? ==> e.latency.value >= 0.0
    ensures NonNegative(CostNetwork(snap, w))
  {
    var g := CostNetwork(snap, w);
    forall st | st in g
      ensures g[st] >= 0.0
    {
      var e := snap.edges[st.edge];
      assert e in snap.edges;
      EdgeCostNonNegative(snap.nodes[st.from], snap.nodes[st.to], e, w);
    }
  }

  lemma HopNetworkFacts(edges: seq<Edge>, collocation: bool)
    ensures NonNegative(HopNetwork(edges, collocation)) && Bidirectional(HopNetwork(edges, collocation))
  {
    var g := HopNetwork(edges, collocation);
    forall st | st in g
      ensures Turn(st) in g
    {
      StepSetMembers(edges, collocation, st);
      StepSetMembers(edges, collocation, Turn(st));
    }
  }

  lemma {:induction false} HopsAreCost(edges: seq<Edge>, collocation: bool, a: NodeId, b: NodeId, w: seq<Step>)
    requires IsWalk(HopNetwork(edges, collocation), a, b, w)
    ensures WalkCost(HopNetwork(edges, collocation), w) == |w| as real
    decreases |w|
  {
    if w != [] {
      HopsAreCost(edges, collocation, a, w[|w| - 1].from, w[..|w| - 1]);
    }
  }

  // A walk priced by the policy is in particular a walk counted in hops.
  lemma {:induction false} CostWalksAreHopWalks(snap: Snapshot, w: CostWeights, a: NodeId, b: NodeId, v: seq<Step>)
    requires IsWalk(CostNetwork(snap, w), a, b, v)
    ensures IsWalk(HopNetwork(snap.edges, false), a, b, v)
    decreases |v|
  {
    if v != [] {
      CostWalksAreHopWalks(snap, w, a, v[|v| - 1].from, v[..|v| - 1]);
    }
  }

  // Without dangling edges the two networks have the same walks between known nodes.
  lemma {:induction false} HopWalksAreCostWalks(snap: Snapshot, w: CostWeights, a: NodeId, b: NodeId, v: seq<Step>)
    requires snap.NoDangling()
    requires IsWalk(HopNetwork(snap.edges, false), a, b, v)
    ensures IsWalk(CostNetwork(snap, w), a, b, v)
    decreases |v|
  {
    if v != [] {
      var last := v[|v| - 1];
      StepSetMembers(snap.edges, false, last);
      CostNetworkMembers(snap, w, last);
      assert snap.edges[last.edge] in snap.edges;
      HopWalksAreCostWalks(snap, w, a, last.from, v[..|v| - 1]);
    }
  }
}
