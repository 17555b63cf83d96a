// Cost breakdowns and distances.

module Distances {
  import opened Types
  import opened Snapshots
  import opened Walks
  import opened Costs
  import opened Hierarchy
  import opened Paths
  import opened Hops

  datatype CostBreakdown = CostBreakdown(
    hopPenalty: real,
    numaPenalty: real,
    pciBridgePenalty: real,
    rootCrossingPenalty: real,
    latencyTerm: real,
    inverseBandwidthTerm: real,
    uncertaintyPenalty: real,
    policyPenalty: real,
    nodeTransitionPenalty: real,
    total: real,
    policyVersion: uint32)

  function PartSum(cb: CostBreakdown): real {
    cb.hopPenalty + cb.numaPenalty + cb.pciBridgePenalty + cb.rootCrossingPenalty + cb.latencyTerm +
    cb.inverseBandwidthTerm + cb.uncertaintyPenalty + cb.policyPenalty + cb.nodeTransitionPenalty
  }

  function Accumulate(u: Node, v: Node, e: Edge, w: CostWeights, cb: CostBreakdown): CostBreakdown
    requires w.bandwidthRef != 0.0
  {
    cb.(hopPenalty := cb.hopPenalty + w.hopPenalty,
        latencyTerm := cb.latencyTerm + w.latencyWeight * LatencyOf(v, e),
        inverseBandwidthTerm := cb.inverseBandwidthTerm + w.bandwidthScale * (w.bandwidthRef / BandwidthOf(v, e, w)),
        pciBridgePenalty := cb.pciBridgePenalty + (if v.nodeType == PciBridge then w.pciBridgePenalty else 0.0),
        rootCrossingPenalty := cb.rootCrossingPenalty + (if v.nodeType == PciRoot then w.rootCrossingPenalty else 0.0),
        nodeTransitionPenalty :=
          cb.nodeTransitionPenalty + (if ClassOf(u.nodeType) != ClassOf(v.nodeType) then w.nodeTransitionPenalty else 0.0),
        uncertaintyPenalty := cb.uncertaintyPenalty + (if Uncertain(e.confidence) then w.uncertaintyPenalty else 0.0),
        policyPenalty := cb.policyPenalty + w.policyPenalty)
  }

  // One segment adds exactly the cost of traversing its edge, spread over the parts.
  lemma AccumulateAddsEdgeCost(u: Node, v: Node, e: Edge, w: CostWeights, cb: CostBreakdown)
    requires w.bandwidthRef != 0.0
    ensures PartSum(Accumulate(u, v, e, w, cb)) == PartSum(cb) + EdgeTraversalCost(u, v, e, w)
  {
  }

  // ---- Counting along a path -----------------------------------------------------

  datatype SegmentTrait = IntoBridge | IntoRoot | ClassChange | UncertainLink

  predicate HasTrait(snap: Snapshot, seg: PathSegment, t: SegmentTrait)
    requires seg.edgeIndex < |snap.edges| && seg.from in snap.nodes && seg.to in snap.nodes
  {
    match t
    case IntoBridge => snap.nodes[seg.to].nodeType == PciBridge
    case IntoRoot => snap.nodes[seg.to].nodeType == PciRoot
    case ClassChange => ClassOf(snap.nodes[seg.from].nodeType) != ClassOf(snap.nodes[seg.to].nodeType)
    case UncertainLink => Uncertain(snap.edges[seg.edgeIndex].confidence)
  }

  ghost function Count(snap: Snapshot, segs: seq<PathSegment>, t: SegmentTrait): nat {
    if segs == [] then 0
    else
      var seg := segs[|segs| - 1];
      Count(snap, segs[..|segs| - 1], t) + if KnownSegment(snap, seg) && HasTrait(snap, seg, t) then 1 else 0
  }

  ghost function EdgeCostSum(snap: Snapshot, segs: seq<PathSegment>, w: CostWeights): real {
    if segs == [] then 0.0
    else
      var seg := segs[|segs| - 1];
      EdgeCostSum(snap, segs[..|segs| - 1], w) +
      if KnownSegment(snap, seg)
      then EdgeTraversalCost(snap.nodes[seg.from], snap.nodes[seg.to], snap.edges[seg.edgeIndex], w) else 0.0
  }

  ghost predicate AllKnown(snap: Snapshot, segs: seq<PathSegment>) {
    forall seg :: seg in segs ==> KnownSegment(snap, seg)
  }

  // Summed over known segments of a walk, edge costs are the walk's cost in the network.
  lemma {:induction false} EdgeCostsAreWalkCost(snap: Snapshot, segs: seq<PathSegment>, w: CostWeights, a: NodeId, b: NodeId)
    requires AllKnown(snap, segs) && IsWalk(HopNetwork(snap.edges, false), a, b, StepsOf(segs))
    ensures IsWalk(CostNetwork(snap, w), a, b, StepsOf(segs))
    ensures WalkCost(CostNetwork(snap, w), StepsOf(segs)) == EdgeCostSum(snap, segs, w)
    decreases |segs|
  {
    hide EdgeTraversalCost, StepSet, CostNetwork, HopNetwork;
    if segs != [] {
      var n := |segs| - 1;
      var seg := segs[n];
      assert StepsOf(segs)[..n] == StepsOf(segs[..n]);
      assert seg in segs;
      assert forall s :: s in segs[..n] ==> s in segs;
      EdgeCostsAreWalkCost(snap, segs[..n], w, a, seg.from);
      HopNetworkMembers(snap.edges, false, StepOf(seg));
      CostNetworkMembers(snap, w, StepOf(seg));
    }
  }

  // ---- cost_breakdown ---------------------------------------------------------------

  // Each part is its weight times what it counts.
  ghost predicate PartsExplained(snap: Snapshot, segs: seq<PathSegment>, w: CostWeights, cb: CostBreakdown)
    requires w.bandwidthRef != 0.0
  {
    && cb.hopPenalty == |segs| as real * w.hopPenalty
    && cb.policyPenalty == |segs| as real * w.policyPenalty
    && cb.pciBridgePenalty == Count(snap, segs, IntoBridge) as real * w.pciBridgePenalty
    && cb.rootCrossingPenalty == Count(snap, segs, IntoRoot) as real * w.rootCrossingPenalty
    && cb.nodeTransitionPenalty == Count(snap, segs, ClassChange) as real * w.nodeTransitionPenalty
    && cb.uncertaintyPenalty == Count(snap, segs, UncertainLink) as real * w.uncertaintyPenalty
    && cb.latencyTerm == w.latencyWeight * LatencySum(snap, segs)
    && cb.inverseBandwidthTerm == w.bandwidthScale * SlownessSum(snap, segs, w)
  }

  // How many times each link is slower than the reference, added up.
  ghost function SlownessSum(snap: Snapshot, segs: seq<PathSegment>, w: CostWeights): real
    requires w.bandwidthRef != 0.0
  {
    if segs == [] then 0.0
    else
      var seg := segs[|segs| - 1];
      SlownessSum(snap, segs[..|segs| - 1], w) +
      if KnownSegment(snap, seg) then w.bandwidthRef / SegmentBandwidth(snap, w, seg) else 0.0
  }

  ghost function MeasuredSlowness(snap: Snapshot, segs: seq<PathSegment>): real {
    if segs == [] then 0.0
    else
      var seg := segs[|segs| - 1];
      MeasuredSlowness(snap, segs[..|segs| - 1]) + if Metered(snap, seg) then 1.0 / snap.edges[seg.edgeIndex].bandwidth.value else 0.0
  }

  // On measured links the bandwidth part is the scale times the reference times the sum of the
  // inverse bandwidths, and the latency part the weight times the sum of the latencies.
  lemma PartsOfMeasuredLinks(snap: Snapshot, segs: seq<PathSegment>, w: CostWeights, cb: CostBreakdown)
    requires w.bandwidthRef != 0.0 && AllKnown(snap, segs) && PartsExplained(snap, segs, w, cb)
    ensures (forall seg :: seg in segs ==> Metered(snap, seg)) ==>
              cb.inverseBandwidthTerm == w.bandwidthScale * (w.bandwidthRef * MeasuredSlowness(snap, segs))
    ensures (forall seg :: seg in segs ==> Timed(snap, seg)) ==> cb.latencyTerm == w.latencyWeight * MeasuredLatency(snap, segs)
  {
    hide Count, LatencySum, MeasuredLatency, SlownessSum, MeasuredSlowness, Metered, Timed;
    if forall seg :: seg in segs ==> Metered(snap, seg) {
      SlownessOfMeasured(snap, segs, w);
    }
    if forall seg :: seg in segs ==> Timed(snap, seg) {
      TimedLatency(snap, segs);
    }
  }

  ghost predicate IsProduct(x: real, y: real, z: real) {
    x == y * z
  }

  lemma SlownessStep(ref: real, b: real, s: real, m: real, s2: real, m2: real)
    requires b != 0.0 && IsProduct(s, ref, m) && s2 == s + ref / b && m2 == m + 1.0 / b
    ensures IsProduct(s2, ref, m2)
  {
    QuotientIsProduct(ref, b);
    Distribute(ref, m, 1.0 / b);
  }

  lemma NothingIsSlow(snap: Snapshot, w: CostWeights)
    requires w.bandwidthRef != 0.0
    ensures SlownessSum(snap, [], w) == 0.0 == MeasuredSlowness(snap, [])
  {
  }

  lemma MeteredNext(snap: Snapshot, segs: seq<PathSegment>, seg: PathSegment, w: CostWeights)
    requires w.bandwidthRef != 0.0 && KnownSegment(snap, seg) && Metered(snap, seg)
    ensures var b := snap.edges[seg.edgeIndex].bandwidth.value;
            && SegmentBandwidth(snap, w, seg) == b && MeasuredSlowness(snap, segs + [seg]) == MeasuredSlowness(snap, segs) + 1.0 / b
  {
    assert (segs + [seg])[..|segs|] == segs;
  }

  lemma {:induction false} SlownessOfMeasured(snap: Snapshot, segs: seq<PathSegment>, w: CostWeights)
    requires w.bandwidthRef != 0.0 && AllKnown(snap, segs) && forall seg :: seg in segs ==> Metered(snap, seg)
    ensures IsProduct(SlownessSum(snap, segs, w), w.bandwidthRef, MeasuredSlowness(snap, segs))
  {
    if segs == [] {
      NothingIsSlow(snap, w);
    } else {
      var n := |segs| - 1;
      var p, seg := segs[..n], segs[n];
      assert segs == p + [seg] && seg in segs;
      assert KnownSegment(snap, seg) && Metered(snap, seg);
      assert forall s :: s in p ==> s in segs;
      hide SlownessSum, MeasuredSlowness, SegmentBandwidth, Metered, IsProduct;
      SlownessOfMeasured(snap, p, w);
      SlownessNext(snap, p, seg, w);
      MeteredNext(snap, p, seg, w);
      SlownessStep(w.bandwidthRef, SegmentBandwidth(snap, w, seg), SlownessSum(snap, p, w), MeasuredSlowness(snap, p),
                   SlownessSum(snap, segs, w), MeasuredSlowness(snap, segs));
    }
  }

  lemma OneMore(n: nat, x: real)
    ensures (n + 1) as real * x == n as real * x + x
  {
  }

  lemma Distribute(k: real, x: real, y: real)
    ensures k * (x + y) == k * x + k * y
  {
  }

  lemma CountNext(snap: Snapshot, segs: seq<PathSegment>, seg: PathSegment, t: SegmentTrait, x: real)
    requires KnownSegment(snap, seg)
    ensures Count(snap, segs + [seg], t) as real * x ==
            Count(snap, segs, t) as real * x + if HasTrait(snap, seg, t) then x else 0.0
  {
    assert (segs + [seg])[..|segs|] == segs;
    OneMore(Count(snap, segs, t), x);
  }

  lemma LatencyNext(snap: Snapshot, segs: seq<PathSegment>, seg: PathSegment)
    requires KnownSegment(snap, seg)
    ensures LatencySum(snap, segs + [seg]) == LatencySum(snap, segs) + LatencyOf(snap.nodes[seg.to], snap.edges[seg.edgeIndex])
  {
    assert (segs + [seg])[..|segs|] == segs;
  }

  lemma ExplainNext(snap: Snapshot, segs: seq<PathSegment>, w: CostWeights, cb: CostBreakdown, seg: PathSegment)
    requires w.bandwidthRef != 0.0 && KnownSegment(snap, seg) && PartsExplained(snap, segs, w, cb)
    ensures PartsExplained(snap, segs + [seg], w,
                           Accumulate(snap.nodes[seg.from], snap.nodes[seg.to], snap.edges[seg.edgeIndex], w, cb))
  {
    hide Count, LatencySum, LatencyOf, BandwidthOf, ClassOf, SlownessSum, SegmentBandwidth;
    OneMore(|segs|, w.hopPenalty);
    OneMore(|segs|, w.policyPenalty);
    CountNext(snap, segs, seg, IntoBridge, w.pciBridgePenalty);
    CountNext(snap, segs, seg, IntoRoot, w.rootCrossingPenalty);
    CountNext(snap, segs, seg, ClassChange, w.nodeTransitionPenalty);
    CountNext(snap, segs, seg, UncertainLink, w.uncertaintyPenalty);
    LatencyNext(snap, segs, seg);
    Distribute(w.latencyWeight, LatencySum(snap, segs), LatencyOf(snap.nodes[seg.to], snap.edges[seg.edgeIndex]));
    SlownessNext(snap, segs, seg, w);
    Distribute(w.bandwidthScale, SlownessSum(snap, segs, w), w.bandwidthRef / SegmentBandwidth(snap, w, seg));
  }

  lemma SlownessNext(snap: Snapshot, segs: seq<PathSegment>, seg: PathSegment, w: CostWeights)
    requires w.bandwidthRef != 0.0 && KnownSegment(snap, seg)
    ensures BandwidthOf(snap.nodes[seg.to], snap.edges[seg.edgeIndex], w) == SegmentBandwidth(snap, w, seg) != 0.0
    ensures SlownessSum(snap, segs + [seg], w) == SlownessSum(snap, segs, w) + w.bandwidthRef / SegmentBandwidth(snap, w, seg)
  {
    assert (segs + [seg])[..|segs|] == segs;
  }

  // A reference bandwidth of zero would make the terms undefined.
  method BreakDown(snap: Snapshot, path: Path, w: CostWeights) returns (r: Outcome<CostBreakdown>)
    requires w.bandwidthRef != 0.0
    requires forall seg :: seg in path.segments ==> seg.edgeIndex < |snap.edges|
    ensures r.Ok? <==> AllKnown(snap, path.segments) && path.source in snap.nodes && path.destination in snap.nodes
    ensures r.NotFound? ==> r.id !in snap.nodes
    ensures r.Ok? ==>
              && PartsExplained(snap, path.segments, w, r.value)
              && r.value.numaPenalty == EndpointPenalty(snap.nodes[path.source], snap.nodes[path.destination], w)
              && r.value.total == PartSum(r.value) && r.value.policyVersion == w.version
              && r.value.total == EdgeCostSum(snap, path.segments, w) + r.value.numaPenalty
  {
    hide EdgeTraversalCost, Accumulate, PartsExplained;
    var cb := CostBreakdown(0.0, 0.0, 0.0, 0.0, 0.0, 0.0, 0.0, 0.0, 0.0, 0.0, w.version);
    NothingToExplain(snap, w, cb);
    for i := 0 to |path.segments|
      invariant AllKnown(snap, path.segments[..i])
      invariant PartsExplained(snap, path.segments[..i], w, cb) && cb.numaPenalty == 0.0 && cb.policyVersion == w.version
      invariant PartSum(cb) == EdgeCostSum(snap, path.segments[..i], w)
    {
      var seg := path.segments[i];
      assert path.segments[..i + 1] == path.segments[..i] + [seg];
      assert seg in path.segments;
      if seg.from !in snap.nodes {
        return NotFound(seg.from);
      }
      if seg.to !in snap.nodes {
        return NotFound(seg.to);
      }
      var u, v, e := snap.nodes[seg.from], snap.nodes[seg.to], snap.edges[seg.edgeIndex];
      ExplainNext(snap, path.segments[..i], w, cb, seg);
      AccumulateAddsEdgeCost(u, v, e, w, cb);
      AccumulateKeeps(u, v, e, w, cb);
      cb := Accumulate(u, v, e, w, cb);
    }
    assert path.segments[..|path.segments|] == path.segments;
    if path.source !in snap.nodes {
      return NotFound(path.source);
    }
    if path.destination !in snap.nodes {
      return NotFound(path.destination);
    }
    ghost var before := cb;
    cb := cb.(numaPenalty := cb.numaPenalty + EndpointPenalty(snap.nodes[path.source], snap.nodes[path.destination], w));
    cb := cb.(total := PartSum(cb));
    StillExplained(snap, path.segments, w, before, cb);
    r := Ok(cb);
  }

  lemma NothingToExplain(snap: Snapshot, w: CostWeights, cb: CostBreakdown)
    requires w.bandwidthRef != 0.0 && cb == CostBreakdown(0.0, 0.0, 0.0, 0.0, 0.0, 0.0, 0.0, 0.0, 0.0, 0.0, w.version)
    ensures PartsExplained(snap, [], w, cb)
  {
  }

  lemma StillExplained(snap: Snapshot, segs: seq<PathSegment>, w: CostWeights, before: CostBreakdown, cb: CostBreakdown)
    requires w.bandwidthRef != 0.0 && PartsExplained(snap, segs, w, before)
    requires cb == before.(numaPenalty := cb.numaPenalty, total := cb.total)
    ensures PartsExplained(snap, segs, w, cb)
  {
    hide Count, LatencySum;
  }

  lemma AccumulateKeeps(u: Node, v: Node, e: Edge, w: CostWeights, cb: CostBreakdown)
    requires w.bandwidthRef != 0.0
    ensures Accumulate(u, v, e, w, cb).numaPenalty == cb.numaPenalty
    ensures Accumulate(u, v, e, w, cb).policyVersion == cb.policyVersion
  {
  }

  // The breakdown of a cheapest path adds up to the cost the search reported.
  lemma BreakdownAgreesWithSearch(snap: Snapshot, w: CostWeights, from: NodeId, to: NodeId, p: Path, cb: CostBreakdown)
    requires w.bandwidthRef != 0.0 && CheapestPath(snap, w, from, to, p)
    requires cb.total == EdgeCostSum(snap, p.segments, w) + EndpointPenalty(snap.nodes[from], snap.nodes[to], w)
    ensures cb.total == p.totalCost
  {
    CostWalksAreHopWalks(snap, w, from, to, StepsOf(p.segments));
    assert forall seg :: seg in p.segments ==> PricedSegment(snap, w, seg);
    EdgeCostsAreWalkCost(snap, p.segments, w, from, to);
  }

  // ---- root_ancestor ------------------------------------------------------------------

  // The k-th node of the climb that follows first CONTAINS parents.
  ghost function Climb(snap: Snapshot, id: NodeId, k: nat): Option<NodeId> {
    if k == 0 then Some(id)
    else
      match Climb(snap, id, k - 1)
      case None => None
      case Some(c) =>
        if c == NULL_NODE_ID || c !in snap.nodes || ParentsOf(snap.edges, c, Contains) == [] then None
        else Some(ParentsOf(snap.edges, c, Contains)[0])
  }

  ghost predicate MeetsType(snap: Snapshot, id: NodeId, t: NodeType, k: nat) {
    var c := Climb(snap, id, k);
    c.Some? && c.value != NULL_NODE_ID && c.value in snap.nodes && snap.nodes[c.value].nodeType == t
  }

  // r is where the climb first meets the type.
  ghost predicate Nearest(snap: Snapshot, id: NodeId, t: NodeType, r: NodeId) {
    exists k: nat :: MeetsType(snap, id, t, k) && Climb(snap, id, k) == Some(r) &&
                     forall j :: 0 <= j < k ==> !MeetsType(snap, id, t, j)
  }

  lemma NearestIsUnique(snap: Snapshot, id: NodeId, t: NodeType, r: NodeId, s: NodeId)
    requires Nearest(snap, id, t, r) && Nearest(snap, id, t, s)
    ensures r == s && exists k :: MeetsType(snap, id, t, k)
  {
    var k: nat :| MeetsType(snap, id, t, k) && Climb(snap, id, k) == Some(r) && forall j :: 0 <= j < k ==> !MeetsType(snap, id, t, j);
    var l: nat :| MeetsType(snap, id, t, l) && Climb(snap, id, l) == Some(s) && forall j :: 0 <= j < l ==> !MeetsType(snap, id, t, j);
    assert k == l;
  }

  // Nodes without the wanted type whose first parents lie among themselves or in T.
  ghost predicate LeadsInto(snap: Snapshot, t: NodeType, S: set<NodeId>, T: set<NodeId>) {
    forall x :: x in S ==>
                  && x != NULL_NODE_ID && x in snap.nodes && snap.nodes[x].nodeType != t
                  && ParentsOf(snap.edges, x, Contains) != [] && ParentsOf(snap.edges, x, Contains)[0] in S + T
  }

  lemma {:induction false} ClimbStaysInTrap(snap: Snapshot, id: NodeId, t: NodeType, S: set<NodeId>, k: nat, j: nat)
    requires LeadsInto(snap, t, S, {}) && Climb(snap, id, k).Some? && Climb(snap, id, k).value in S && k <= j
    ensures Climb(snap, id, j).Some? && Climb(snap, id, j).value in S && !MeetsType(snap, id, t, j)
    decreases j
  {
    if k < j {
      ClimbStaysInTrap(snap, id, t, S, k, j - 1);
    }
  }

  lemma {:induction false} ClimbStaysEnded(snap: Snapshot, id: NodeId, t: NodeType, k: nat, j: nat)
    requires Climb(snap, id, k).None? && k <= j
    ensures Climb(snap, id, j).None?
    decreases j
  {
    if k < j {
      ClimbStaysEnded(snap, id, t, k, j - 1);
    }
  }

  // The nearest node of the type on the climb, the null id when the climb never meets one: the
  // guard against cycles cuts off nothing.
  method RootAncestor(snap: Snapshot, id: NodeId, t: NodeType) returns (r: NodeId)
    ensures r != NULL_NODE_ID ==>
              && r in snap.nodes && snap.nodes[r].nodeType == t
              && (r == id || Above(snap.edges, Contains, r, id))
              && Nearest(snap, id, t, r)
    ensures r == NULL_NODE_ID ==> forall k :: !MeetsType(snap, id, t, k)
  {
    hide Above, Linked, ParentsOf, LeadsInto, IsWalk;
    var cur := id;
    var seen: set<NodeId> := {};
    ghost var k: nat := 0;
    NothingSeen(snap, t, cur);
    while cur != NULL_NODE_ID && cur in snap.nodes
      invariant Climb(snap, id, k) == Some(cur)
      invariant forall j :: 0 <= j < k ==> !MeetsType(snap, id, t, j)
      invariant cur == id || Above(snap.edges, Contains, cur, id)
      invariant seen <= snap.nodes.Keys && LeadsInto(snap, t, seen, {cur})
      decreases snap.nodes.Keys - seen
    {
      if snap.nodes[cur].nodeType == t {
        assert MeetsType(snap, id, t, k);
        return cur;
      }
      if cur in seen {
        TrappedClimb(snap, id, t, seen, cur, k);
        return NULL_NODE_ID;
      }
      var ps := Parents(snap.edges, cur, Contains);
      if ps == [] {
        EndedClimb(snap, id, t, k);
        return NULL_NODE_ID;
      }
      ClimbHigher(snap, id, t, seen, cur);
      seen := seen + {cur};
      cur := ps[0];
      k := k + 1;
    }
    EndedClimb(snap, id, t, k);
    r := NULL_NODE_ID;
  }

  lemma NothingSeen(snap: Snapshot, t: NodeType, cur: NodeId)
    ensures LeadsInto(snap, t, {}, {cur})
  {
  }

  lemma ClimbHigher(snap: Snapshot, id: NodeId, t: NodeType, seen: set<NodeId>, cur: NodeId)
    requires cur == id || Above(snap.edges, Contains, cur, id)
    requires LeadsInto(snap, t, seen, {cur})
    requires cur != NULL_NODE_ID && cur in snap.nodes && snap.nodes[cur].nodeType != t
    requires ParentsOf(snap.edges, cur, Contains) != []
    ensures var up := ParentsOf(snap.edges, cur, Contains)[0];
            Above(snap.edges, Contains, up, id) && LeadsInto(snap, t, seen + {cur}, {up})
  {
    var up := ParentsOf(snap.edges, cur, Contains)[0];
    ParentsAndChildren(snap.edges, Contains, up, cur);
    LinkIsAbove(snap.edges, Contains, up, cur);
    if cur != id {
      AboveIsTransitive(snap.edges, Contains, up, cur, id);
    }
  }

  lemma TrappedClimb(snap: Snapshot, id: NodeId, t: NodeType, seen: set<NodeId>, cur: NodeId, k: nat)
    requires LeadsInto(snap, t, seen, {cur}) && cur in seen && Climb(snap, id, k) == Some(cur)
    requires forall j :: 0 <= j < k ==> !MeetsType(snap, id, t, j)
    ensures forall j: nat :: !MeetsType(snap, id, t, j)
  {
    assert seen + {cur} == seen + {};
    forall j: nat
      ensures !MeetsType(snap, id, t, j)
    {
      if j >= k {
        ClimbStaysInTrap(snap, id, t, seen, k, j);
      }
    }
  }

  lemma EndedClimb(snap: Snapshot, id: NodeId, t: NodeType, k: nat)
    requires Climb(snap, id, k + 1).None? && !MeetsType(snap, id, t, k)
    requires forall j :: 0 <= j < k ==> !MeetsType(snap, id, t, j)
    ensures forall j :: !MeetsType(snap, id, t, j)
  {
    forall j: nat
      ensures !MeetsType(snap, id, t, j)
    {
      if j > k {
        ClimbStaysEnded(snap, id, t, k + 1, j);
      }
    }
  }

  // ---- distance_between --------------------------------------------------------------------

  datatype DistanceBreakdown = DistanceBreakdown(
    graphHops: int,
    pciDepth: nat,
    rootCrossings: nat,
    classTransitions: nat,
    numaDistance: Option<real>,
    latency: Option<real>,
    bandwidth: Option<real>,
    configuredPenalty: real,
    uncertainty: real,
    normalizedScore: real)

  const SAME_PLACE: DistanceBreakdown := DistanceBreakdown(0, 0, 0, 0, None, None, None, 0.0, 0.0, 0.0)
  const UNREACHABLE: DistanceBreakdown := DistanceBreakdown(-1, 0, 0, 0, None, None, None, 0.0, 1.0, 1.0)

  // The monotone map of costs into [0, 1).
  function Score(total: real): real
    requires total >= 0.0
  {
    total / (total + 1.0)
  }

  lemma ScoreIsMonotone(a: real, b: real)
    requires 0.0 <= a <= b
    ensures 0.0 <= Score(a) <= Score(b) < 1.0
  {
    assert Score(a) == 1.0 - 1.0 / (a + 1.0);
    assert Score(b) == 1.0 - 1.0 / (b + 1.0);
    ReciprocalIsAntitone(a + 1.0, b + 1.0);
  }

  // The cost can be read off the score.
  lemma ScoreIsInvertible(total: real)
    requires total >= 0.0
    ensures Score(total) < 1.0 && Score(total) / (1.0 - Score(total)) == total
  {
    var s := Score(total);
    assert s * (total + 1.0) == total;
    assert (1.0 - s) * (total + 1.0) == 1.0;
    assert s < 1.0;
    assert total * (1.0 - s) == s;
  }

  lemma ReciprocalIsAntitone(x: real, y: real)
    requires 1.0 <= x <= y
    ensures 0.0 < 1.0 / y <= 1.0 / x <= 1.0
  {
    var a, b := 1.0 / x, 1.0 / y;
    assert a * x == 1.0 && b * y == 1.0 && a > 0.0 && b > 0.0;
    ScaleUp(x, y, a);
    assert (a - b) * y >= 0.0;
    assert (1.0 - a) * x >= 0.0;
  }

  lemma ScaleUp(x: real, y: real, k: real)
    requires x <= y && k >= 0.0
    ensures x * k <= y * k
  {
    assert (y - x) * k >= 0.0;
  }

  method CountAlong(snap: Snapshot, segs: seq<PathSegment>, t: SegmentTrait) returns (n: nat)
    requires AllKnown(snap, segs)
    ensures n == Count(snap, segs, t)
  {
    n := 0;
    for i := 0 to |segs|
      invariant n == Count(snap, segs[..i], t)
    {
      assert segs[..i + 1][..i] == segs[..i] && segs[i] in segs;
      if HasTrait(snap, segs[i], t) {
        n := n + 1;
      }
    }
    assert segs[..|segs|] == segs;
  }

  // Both nodes lie under PCI roots, and under different ones.
  ghost predicate CrossesRoots(snap: Snapshot, a: NodeId, b: NodeId) {
    exists ra, rb :: Nearest(snap, a, PciRoot, ra) && Nearest(snap, b, PciRoot, rb) && ra != rb
  }

  lemma RootsDecideCrossing(snap: Snapshot, a: NodeId, b: NodeId, ra: NodeId, rb: NodeId)
    requires ra != NULL_NODE_ID ==> Nearest(snap, a, PciRoot, ra)
    requires rb != NULL_NODE_ID ==> Nearest(snap, b, PciRoot, rb)
    requires ra == NULL_NODE_ID ==> forall k :: !MeetsType(snap, a, PciRoot, k)
    requires rb == NULL_NODE_ID ==> forall k :: !MeetsType(snap, b, PciRoot, k)
    ensures CrossesRoots(snap, a, b) <==> ra != NULL_NODE_ID && rb != NULL_NODE_ID && ra != rb
  {
    forall x, y | Nearest(snap, a, PciRoot, x) && Nearest(snap, b, PciRoot, y) && x != y
      ensures ra != NULL_NODE_ID && rb != NULL_NODE_ID && ra != rb
    {
      NearestIsUnique(snap, a, PciRoot, x, x);
      NearestIsUnique(snap, b, PciRoot, y, y);
      NearestIsUnique(snap, a, PciRoot, ra, x);
      NearestIsUnique(snap, b, PciRoot, rb, y);
    }
  }

  // What distance_between reports about a shortest walk between connected nodes.
  ghost predicate MeasuredDistance(snap: Snapshot, w: CostWeights, from: NodeId, to: NodeId, segs: seq<PathSegment>, d: DistanceBreakdown) {
    && from in snap.nodes && to in snap.nodes && AllKnown(snap, segs)
    && IsShortestWalk(HopNetwork(snap.edges, false), from, to, StepsOf(segs))
    && d.graphHops == |segs|
    && d.pciDepth == Count(snap, segs, IntoBridge) + Count(snap, segs, IntoRoot)
    && d.classTransitions == Count(snap, segs, ClassChange)
    && d.uncertainty == Count(snap, segs, UncertainLink) as real
    && d.configuredPenalty == |segs| as real * w.policyPenalty
    && d.latency == Some(LatencySum(snap, segs))
    && d.bandwidth.Some? && IsBottleneck(snap, DEFAULT_WEIGHTS, segs, d.bandwidth.value)
    && ReportsLinks(snap, segs, d.bandwidth.value, LatencySum(snap, segs))
    && (d.numaDistance.None? <==> snap.nodes[from].native.numaNode.None? || snap.nodes[to].native.numaNode.None?)
    && (d.numaDistance.Some? ==>
          d.numaDistance.value == if snap.nodes[from].native.numaNode == snap.nodes[to].native.numaNode then 0.0 else 1.0)
    && d.rootCrossings == (if CrossesRoots(snap, from, to) then 1 else 0)
    && var total := EdgeCostSum(snap, segs, w) + EndpointPenalty(snap.nodes[from], snap.nodes[to], w);
       total >= 0.0 && d.normalizedScore == Score(total)
  }

  method DistanceBetween(snap: Snapshot, from: NodeId, to: NodeId, w: CostWeights)
    returns (r: Outcome<DistanceBreakdown>, ghost segs: seq<PathSegment>)
    requires snap.Indexed() && NonNegative(CostNetwork(snap, w)) && w.numaPenalty >= 0.0 && w.bandwidthRef != 0.0
    ensures snap.NoDangling() ==> r.Ok?
    ensures r.NotFound? ==> Dangles(snap, r.id)
    ensures r.Ok? && from == to ==> r.value == DistanceBreakdown(0, 0, 0, 0, None, None, None, 0.0, 0.0, 0.0)
    ensures r.Ok? && from != to ==>
              (r.value == DistanceBreakdown(-1, 0, 0, 0, None, None, None, 0.0, 1.0, 1.0) <==>
               !(from in snap.nodes && to in snap.nodes && Connected(HopNetwork(snap.edges, false), from, to)))
    ensures r.Ok? && from != to && r.value != UNREACHABLE ==> MeasuredDistance(snap, w, from, to, segs, r.value)
  {
    hide HopNetwork, CostNetwork, EdgeTraversalCost, BandwidthOf, LatencySum, Count, IsShortestWalk, Score;
    hide PartsExplained, IsBottleneck, ReportsLinks, EdgeCostSum, Climb, MeetsType, NonNegative, Nearest, CrossesRoots;
    hide Connected, PartSum;
    segs := [];
    if from == to {
      return Ok(SAME_PLACE), segs;
    }
    var found := ShortestPath(snap, from, to, false);
    if found.NotFound? {
      return NotFound(found.id), segs;
    }
    var sp := found.value;
    if !sp.found {
      return Ok(UNREACHABLE), segs;
    }
    segs := sp.segments;
    assert AllKnown(snap, sp.segments);
    var bridges := CountAlong(snap, sp.segments, IntoBridge);
    var roots := CountAlong(snap, sp.segments, IntoRoot);
    var ra := RootAncestor(snap, from, PciRoot);
    var rb := RootAncestor(snap, to, PciRoot);
    RootsDecideCrossing(snap, from, to, ra, rb);
    var transitions := CountAlong(snap, sp.segments, ClassChange);
    var na, nb := snap.nodes[from].native, snap.nodes[to].native;
    var numa := if na.numaNode.Some? && nb.numaNode.Some?
                then Some(if na.numaNode == nb.numaNode then 0.0 else 1.0) else None;
    var cb := BreakDown(snap, sp, w);
    var uncertain := CountAlong(snap, sp.segments, UncertainLink);
    ShortestTotalIsNonNegative(snap, w, from, to, sp.segments);
    var total := cb.value.total;
    PartsMatter(snap, sp.segments, w, cb.value);
    r := Ok(DistanceBreakdown(sp.hopCount, bridges + roots,
                              if ra != NULL_NODE_ID && rb != NULL_NODE_ID && ra != rb then 1 else 0,
                              transitions, numa, Some(sp.latency), Some(sp.bandwidth),
                              cb.value.policyPenalty, uncertain as real, Score(total)));
    assert r.value.graphHops >= 0;
    assert total == EdgeCostSum(snap, segs, w) + EndpointPenalty(snap.nodes[from], snap.nodes[to], w);
    assert MeasuredDistance(snap, w, from, to, segs, r.value);
  }

  lemma PartsMatter(snap: Snapshot, segs: seq<PathSegment>, w: CostWeights, cb: CostBreakdown)
    requires w.bandwidthRef != 0.0 && PartsExplained(snap, segs, w, cb)
    ensures cb.policyPenalty == |segs| as real * w.policyPenalty
  {
  }

  lemma ShortestTotalIsNonNegative(snap: Snapshot, w: CostWeights, from: NodeId, to: NodeId, segs: seq<PathSegment>)
    requires NonNegative(CostNetwork(snap, w)) && AllKnown(snap, segs)
    requires IsShortestWalk(HopNetwork(snap.edges, false), from, to, StepsOf(segs))
    ensures EdgeCostSum(snap, segs, w) >= 0.0
  {
    EdgeCostsAreWalkCost(snap, segs, w, from, to);
    WalkCostNonNegative(CostNetwork(snap, w), StepsOf(segs));
  }

  // Against the cheapest path: no more hops, and a score no better than its cost deserves.
  lemma DistanceAgainstCheapestPath(snap: Snapshot, w: CostWeights, from: NodeId, to: NodeId, p: Path,
                                    segs: seq<PathSegment>, d: DistanceBreakdown)
    requires NonNegative(CostNetwork(snap, w)) && w.numaPenalty >= 0.0
    requires CheapestPath(snap, w, from, to, p) && MeasuredDistance(snap, w, from, to, segs, d)
    ensures d.graphHops <= p.hopCount
    ensures p.totalCost >= 0.0 && Score(p.totalCost) <= d.normalizedScore < 1.0
  {
    hide HopNetwork, CostNetwork, EdgeTraversalCost, LatencySum, Count, Score, IsBottleneck, ReportsLinks, VisitsNoNodeTwice;
    CostWalksAreHopWalks(snap, w, from, to, StepsOf(p.segments));
    EdgeCostsAreWalkCost(snap, segs, w, from, to);
    WalkCostNonNegative(CostNetwork(snap, w), StepsOf(p.segments));
    var total := EdgeCostSum(snap, segs, w) + EndpointPenalty(snap.nodes[from], snap.nodes[to], w);
    ScoreIsMonotone(p.totalCost, total);
  }
}
