// What links cost.

module LinkCosts {
  import opened Types
  import opened Snapshots
  import opened Walks
  import opened Costs
  import opened Paths
  import opened Hops

  // ---- What a fact changes --------------------------------------------------------------

  // Two speeds of one link differ in cost by the scale times the reference times the difference
  // of their inverses.
  lemma SpeedDecidesCost(u: Node, v: Node, e: Edge, w: CostWeights, b: real, c: real)
    requires 0.0 < b && 0.0 < c
    ensures EdgeTraversalCost(u, v, e.(bandwidth := Some(b)), w) - EdgeTraversalCost(u, v, e.(bandwidth := Some(c)), w) ==
            w.bandwidthScale * (w.bandwidthRef * (1.0 / b - 1.0 / c))
  {
    QuotientIsProduct(w.bandwidthRef, b);
    QuotientIsProduct(w.bandwidthRef, c);
    DistributeBoth(w.bandwidthScale, w.bandwidthRef, 1.0 / b, 1.0 / c);
  }

  lemma DistributeBoth(k: real, r: real, x: real, y: real)
    ensures k * (r * x) - k * (r * y) == k * (r * (x - y))
  {
  }

  // A bandwidth that is not positive counts as the reference.
  lemma NoSpeedIsTheReference(u: Node, v: Node, e: Edge, w: CostWeights, b: real)
    requires b <= 0.0
    ensures EdgeTraversalCost(u, v, e.(bandwidth := Some(b)), w) ==
            EdgeTraversalCost(u, v, e.(bandwidth := Some(w.bandwidthRef)), w)
  {
  }

  // Without a reference either, the cost is a fixed large one.
  lemma NothingToDivideBy(u: Node, v: Node, e: Edge, w: CostWeights)
    requires e.bandwidth.Some? && e.bandwidth.value <= 0.0 && w.bandwidthRef == 0.0
    ensures EdgeTraversalCost(u, v, e, w) == 1_000_000_000_000_000.0
  {
  }

  lemma LatencyDecidesCost(u: Node, v: Node, e: Edge, w: CostWeights, x: real, y: real)
    requires w.bandwidthRef != 0.0
    ensures EdgeTraversalCost(u, v, e.(latency := Some(x)), w) - EdgeTraversalCost(u, v, e.(latency := Some(y)), w) ==
            w.latencyWeight * (x - y)
  {
    hide BandwidthOf;
    BandwidthIsNotZero(v, e, w);
    BandwidthIgnoresLatency(v, e, w, x);
    BandwidthIgnoresLatency(v, e, w, y);
  }

  lemma BandwidthIsNotZero(v: Node, e: Edge, w: CostWeights)
    requires w.bandwidthRef != 0.0
    ensures BandwidthOf(v, e, w) != 0.0
  {
  }

  lemma BandwidthIgnoresLatency(v: Node, e: Edge, w: CostWeights, x: real)
    ensures BandwidthOf(v, e.(latency := Some(x)), w) == BandwidthOf(v, e, w)
  {
  }

  // Low and unknown confidence cost the uncertainty penalty, the other three grades nothing.
  lemma DoubtDecidesCost(u: Node, v: Node, e: Edge, w: CostWeights, doubtful: Confidence, sure: Confidence)
    requires w.bandwidthRef != 0.0 && doubtful in {Low, UnknownConfidence} && sure in {Medium, High, Authoritative}
    ensures EdgeTraversalCost(u, v, e.(confidence := doubtful), w) ==
            EdgeTraversalCost(u, v, e.(confidence := sure), w) + w.uncertaintyPenalty
  {
    hide DefaultBandwidth, DefaultLatency;
  }

  // Every link costs the hop and the policy penalty.
  lemma EveryLinkPays(u: Node, v: Node, e: Edge, w: CostWeights)
    requires w.bandwidthRef != 0.0
    ensures EdgeTraversalCost(u, v, e, w) ==
            EdgeTraversalCost(u, v, e, w.(hopPenalty := 0.0, policyPenalty := 0.0)) + w.hopPenalty + w.policyPenalty
  {
    hide DefaultBandwidth, DefaultLatency;
  }

  // Entering a bridge or a root instead of another PCI device costs the penalty of its type.
  lemma BridgesAndRootsPay(u: Node, v: Node, e: Edge, w: CostWeights)
    requires w.bandwidthRef != 0.0 && e.bandwidth.Some? && e.latency.Some?
    ensures var device := EdgeTraversalCost(u, v.(nodeType := PciDevice), e, w);
            && EdgeTraversalCost(u, v.(nodeType := PciBridge), e, w) == device + w.pciBridgePenalty
            && EdgeTraversalCost(u, v.(nodeType := PciRoot), e, w) == device + w.rootCrossingPenalty
  {
  }

  // The families of hardware, each with its types.
  const FAMILIES: seq<set<NodeType>> := [
    {CpuPackage, CpuCore, CpuThread}, {Accelerator, AcceleratorMemoryDomain}, {PciRoot, PciBridge, PciDevice},
    {NumaNode, HostMemoryDomain, SharedMemoryDomain}, {StorageDevice}, {NetworkInterface}, {Machine}, {UnknownType, Extension}]

  predicate SameFamily(s: NodeType, t: NodeType) {
    exists i :: 0 <= i < |FAMILIES| && s in FAMILIES[i] && t in FAMILIES[i]
  }

  lemma ClassesAreFamilies(s: NodeType, t: NodeType)
    ensures SameFamily(s, t) <==> ClassOf(s) == ClassOf(t)
  {
    FamilyOf(s);
    FamilyOf(t);
    var i := ClassIndex(ClassOf(s));
    assert s in FAMILIES[i];
  }

  function ClassIndex(c: HardwareClass): nat {
    match c
    case CpuClass => 0
    case AcceleratorClass => 1
    case PciClass => 2
    case MemoryClass => 3
    case StorageClass => 4
    case NetworkClass => 5
    case MachineClass => 6
    case OtherClass => 7
  }

  lemma FamilyOf(t: NodeType)
    ensures forall i :: 0 <= i < |FAMILIES| ==> (t in FAMILIES[i] <==> i == ClassIndex(ClassOf(t)))
  {
  }

  // Leaving the family costs the transition penalty, wherever it leads.
  lemma LeavingTheFamilyPays(u: Node, v: Node, e: Edge, w: CostWeights)
    requires w.bandwidthRef != 0.0
    ensures EdgeTraversalCost(u, v, e, w) ==
            EdgeTraversalCost(u.(nodeType := v.nodeType), v, e, w) +
            if SameFamily(u.nodeType, v.nodeType) then 0.0 else w.nodeTransitionPenalty
  {
    hide DefaultBandwidth, DefaultLatency, ClassOf;
    ClassesAreFamilies(u.nodeType, v.nodeType);
  }

  // ---- Unmeasured links ---------------------------------------------------------------------

  // The default price of an unmeasured, well-attested link from a node of the same type.
  function DefaultPrice(t: NodeType): real {
    match t
    case Accelerator => 1.65
    case CpuThread => 1.53
    case PciBridge => 7.06
    case PciRoot => 42.125
    case StorageDevice => 1.04 + 16.0 / 3.0
    case NetworkInterface => 2.85
    case _ => 3.05
  }

  lemma UnmeasuredLinks(u: Node, v: Node, e: Edge)
    requires u.nodeType == v.nodeType && e.bandwidth.None? && e.latency.None? && e.confidence == High
    ensures EdgeTraversalCost(u, v, e, DEFAULT_WEIGHTS) == DefaultPrice(v.nodeType)
  {
    match v.nodeType {
      case StorageDevice => assert DEFAULT_WEIGHTS.bandwidthRef / 3000000000.0 == 64.0 / 3.0;
      case _ =>
    }
  }

  // The default policy in one link: a doubtful accelerator link from a package to another NUMA
  // node's accelerator.
  lemma DefaultPolicy(u: Node, v: Node, e: Edge)
    requires u.nodeType == CpuPackage && v.nodeType == Accelerator && e.bandwidth.None? && e.latency.None? && e.confidence == Low
    requires u.native.numaNode == Some(0) && v.native.numaNode == Some(1)
    ensures EdgeTraversalCost(u, v, e, DEFAULT_WEIGHTS) == 13.65
    ensures EndpointPenalty(u, v, DEFAULT_WEIGHTS) == 20.0
    ensures EdgeTraversalCost(u, v, e.(bandwidth := Some(64000000000.0)), DEFAULT_WEIGHTS) == 13.4
    ensures EdgeTraversalCost(u, v, e.(bandwidth := Some(0.0)), DEFAULT_WEIGHTS) == 13.4
  {
  }

  // ---- Paths ----------------------------------------------------------------------------------

  lemma {:induction false} ReplaceStep(g: Network, a: NodeId, b: NodeId, w: seq<Step>, k: nat, st: Step)
    requires IsWalk(g, a, b, w) && k < |w| && w[k] in g && st in g && st.from == w[k].from && st.to == w[k].to
    ensures IsWalk(g, a, b, w[k := st]) && WalkCost(g, w[k := st]) == WalkCost(g, w) - g[w[k]] + g[st]
    decreases |w|
  {
    var n := |w| - 1;
    if k < n {
      ReplaceStep(g, a, w[n].from, w[..n], k, st);
      assert w[k := st][..n] == w[..n][k := st];
    } else {
      assert w[k := st][..n] == w[..n];
    }
  }

  // A link that joins the ends of the segment, whichever way it was reported.
  ghost predicate Parallel(snap: Snapshot, seg: PathSegment, j: nat) {
    Joins(snap.edges, seg.from, j, seg.to) && snap.edges[j].edgeType !in {SharesParent, SharesNuma}
  }

  // No link parallel to one on a cheapest path is cheaper.
  lemma NoCheaperParallelLink(snap: Snapshot, w: CostWeights, from: NodeId, to: NodeId, p: Path, seg: PathSegment, j: nat)
    requires CheapestPath(snap, w, from, to, p) && seg in p.segments && Parallel(snap, seg, j)
    ensures seg.edgeIndex < |snap.edges| && seg.from in snap.nodes && seg.to in snap.nodes
    ensures EdgeTraversalCost(snap.nodes[seg.from], snap.nodes[seg.to], snap.edges[seg.edgeIndex], w) <=
            EdgeTraversalCost(snap.nodes[seg.from], snap.nodes[seg.to], snap.edges[j], w)
  {
    hide EdgeTraversalCost, CostNetwork;
    var g := CostNetwork(snap, w);
    var k :| 0 <= k < |p.segments| && p.segments[k] == seg;
    var steps := StepsOf(p.segments);
    WalkStepByStep(g, from, to, steps);
    assert steps[k] == StepOf(seg);
    CostNetworkMembers(snap, w, StepOf(seg));
    CostNetworkMembers(snap, w, Step(seg.from, seg.to, j));
    ReplaceStep(g, from, to, steps, k, Step(seg.from, seg.to, j));
  }

  // A cheapest path never uses the slower of two links that are otherwise alike.
  lemma SlowerLinkIsNotTaken(snap: Snapshot, w: CostWeights, from: NodeId, to: NodeId, p: Path, seg: PathSegment, j: nat)
    requires CheapestPath(snap, w, from, to, p) && seg in p.segments && Parallel(snap, seg, j)
    requires w.bandwidthScale > 0.0 && w.bandwidthRef > 0.0 && seg.edgeIndex < |snap.edges|
    requires var e, f := snap.edges[seg.edgeIndex], snap.edges[j];
             e.bandwidth.Some? && e.bandwidth.value > 0.0 && f.bandwidth.Some? && f == e.(bandwidth := f.bandwidth)
    ensures snap.edges[j].bandwidth.value <= snap.edges[seg.edgeIndex].bandwidth.value
  {
    hide EdgeTraversalCost, CheapestPath;
    NoCheaperParallelLink(snap, w, from, to, p, seg, j);
    var e, f := snap.edges[seg.edgeIndex], snap.edges[j];
    var b, c := e.bandwidth.value, f.bandwidth.value;
    assert e.(bandwidth := Some(b)) == e && e.(bandwidth := Some(c)) == f;
    if b < c {
      FasterIsCheaper(snap.nodes[seg.from], snap.nodes[seg.to], e, w, b, c);
    }
  }

  lemma FasterIsCheaper(u: Node, v: Node, e: Edge, w: CostWeights, b: real, c: real)
    requires 0.0 < b < c && w.bandwidthScale > 0.0 && w.bandwidthRef > 0.0
    ensures EdgeTraversalCost(u, v, e.(bandwidth := Some(c)), w) < EdgeTraversalCost(u, v, e.(bandwidth := Some(b)), w)
  {
    hide EdgeTraversalCost;
    SpeedDecidesCost(u, v, e, w, b, c);
    InversesDiffer(b, c);
    PositiveProducts(w.bandwidthScale, w.bandwidthRef, 1.0 / b - 1.0 / c);
  }

  lemma InversesDiffer(b: real, c: real)
    requires 0.0 < b < c
    ensures 1.0 / b - 1.0 / c > 0.0
  {
    var x, y := 1.0 / b, 1.0 / c;
    assert x * b == 1.0 && y * c == 1.0 && x > 0.0;
    assert (x - y) * c == x * c - x * b == x * (c - b);
    assert x * (c - b) > 0.0;
  }

  lemma PositiveProducts(x: real, y: real, z: real)
    requires x > 0.0 && y > 0.0 && z > 0.0
    ensures x * (y * z) > 0.0
  {
    assert y * z > 0.0;
  }

  lemma NotPositive(k: real, x: real)
    requires k > 0.0 && k * x <= 0.0
    ensures x <= 0.0
  {
  }

  // Nor the slower-answering one.
  lemma LongerLatencyIsNotTaken(snap: Snapshot, w: CostWeights, from: NodeId, to: NodeId, p: Path, seg: PathSegment, j: nat)
    requires CheapestPath(snap, w, from, to, p) && seg in p.segments && Parallel(snap, seg, j)
    requires w.latencyWeight > 0.0 && w.bandwidthRef != 0.0 && seg.edgeIndex < |snap.edges|
    requires var e, f := snap.edges[seg.edgeIndex], snap.edges[j];
             e.latency.Some? && f.latency.Some? && f == e.(latency := f.latency)
    ensures snap.edges[seg.edgeIndex].latency.value <= snap.edges[j].latency.value
  {
    hide EdgeTraversalCost, CheapestPath;
    NoCheaperParallelLink(snap, w, from, to, p, seg, j);
    var e, f := snap.edges[seg.edgeIndex], snap.edges[j];
    var x, y := e.latency.value, f.latency.value;
    assert e.(latency := Some(x)) == e && e.(latency := Some(y)) == f;
    LatencyDecidesCost(snap.nodes[seg.from], snap.nodes[seg.to], e, w, x, y);
    NotPositive(w.latencyWeight, x - y);
  }

  ghost function SegmentCosts(segs: seq<PathSegment>): real {
    if segs == [] then 0.0 else SegmentCosts(segs[..|segs| - 1]) + segs[|segs| - 1].edgeCost
  }

  lemma {:induction false} SegmentCostsAreWalkCost(snap: Snapshot, w: CostWeights, a: NodeId, b: NodeId, segs: seq<PathSegment>)
    requires IsWalk(CostNetwork(snap, w), a, b, StepsOf(segs)) && forall seg :: seg in segs ==> PricedSegment(snap, w, seg)
    ensures SegmentCosts(segs) == WalkCost(CostNetwork(snap, w), StepsOf(segs))
    decreases |segs|
  {
    hide EdgeTraversalCost, CostNetwork;
    if segs != [] {
      var n := |segs| - 1;
      assert StepsOf(segs)[..n] == StepsOf(segs[..n]);
      assert segs[n] in segs && forall s :: s in segs[..n] ==> s in segs;
      SegmentCostsAreWalkCost(snap, w, a, segs[n].from, segs[..n]);
      CostNetworkMembers(snap, w, StepOf(segs[n]));
    }
  }

  // The total is what the segments cost, and the NUMA penalty if both ends report their NUMA
  // node and the two differ.
  lemma TotalOfAPath(snap: Snapshot, w: CostWeights, from: NodeId, to: NodeId, p: Path)
    requires CheapestPath(snap, w, from, to, p)
    ensures p.totalCost == SegmentCosts(p.segments) +
              match (snap.nodes[from].native.numaNode, snap.nodes[to].native.numaNode)
              case (Some(x), Some(y)) => if x == y then 0.0 else w.numaPenalty
              case _ => 0.0
  {
    hide CostNetwork, EdgeTraversalCost, IsCheapestWalk;
    CheapestIsWalk(snap, w, from, to, p);
    SegmentCostsAreWalkCost(snap, w, from, to, p.segments);
  }

  lemma CheapestIsWalk(snap: Snapshot, w: CostWeights, from: NodeId, to: NodeId, p: Path)
    requires CheapestPath(snap, w, from, to, p)
    ensures IsWalk(CostNetwork(snap, w), from, to, StepsOf(p.segments))
  {
  }

  // ---- Collocation -------------------------------------------------------------------------------

  // One link is enough to connect its ends, unless collocation is not asked for and the link says
  // no more than that its ends share a parent or a NUMA node.
  lemma LinksThatConnect(edges: seq<Edge>, collocation: bool, i: nat)
    requires i < |edges| && (collocation || edges[i].edgeType !in {SharesParent, SharesNuma})
    ensures Connected(HopNetwork(edges, collocation), edges[i].source, edges[i].target)
  {
    hide HopNetwork;
    var st := Step(edges[i].source, edges[i].target, i);
    HopNetworkMembers(edges, collocation, st);
    assert [st][..0] == [];
    assert IsWalk(HopNetwork(edges, collocation), st.from, st.to, [st]);
  }

  // Unasked, no walk crosses such a link.
  lemma LinksThatDoNot(edges: seq<Edge>, a: NodeId, b: NodeId, w: seq<Step>, k: nat)
    requires IsWalk(HopNetwork(edges, false), a, b, w) && k < |w|
    ensures w[k].edge < |edges| && edges[w[k].edge].edgeType !in {SharesParent, SharesNuma}
  {
    hide HopNetwork;
    WalkStepByStep(HopNetwork(edges, false), a, b, w);
    HopNetworkMembers(edges, false, w[k]);
  }
}
