// The fewest hops.

module Hops {
  import opened Types
  import opened Snapshots
  import opened Walks
  import opened Costs
  import opened Hierarchy
  import opened Paths

  datatype HopFrontier = HopFrontier(
    visited: set<NodeId>,
    parent: map<NodeId, NodeId>,
    came: map<NodeId, nat>,
    queue: seq<NodeId>)

  // The queue holds the labelled nodes that were not expanded yet, level by level, all labels
  // lying between lo and lo + 1.
  ghost predicate LevelsOk(L: Labels, queue: seq<NodeId>, lo: real) {
    && NoRepeats(queue)
    && (forall x :: x in queue <==> x in L.dist && x !in L.done)
    && (forall x :: x in queue && x in L.dist ==> lo <= L.dist[x])
    && (forall i, j :: 0 <= i < j < |queue| && queue[i] in L.dist && queue[j] in L.dist ==> L.dist[queue[i]] <= L.dist[queue[j]])
    && (forall x :: x in L.dist ==> L.dist[x] <= lo + 1.0)
  }

  ghost predicate HopSearchOk(g: Network, from: NodeId, L: Labels, f: HopFrontier, lo: real) {
    && f.visited == L.dist.Keys
    && TreeOk(g, from, L)
    && DoneOptimal(g, from, L)
    && ParentsOk(f.parent, f.came, from, L)
    && LevelsOk(L, f.queue, lo)
  }

  function Universe(edges: seq<Edge>, from: NodeId): set<NodeId> {
    Sources(edges) + Targets(edges) + {from}
  }

  // Meeting a node for the first time labels it one hop further and queues it last.
  lemma EnqueueKeepsLevels(L: Labels, queue: seq<NodeId>, lo: real, st: Step)
    requires LevelsOk(L, queue, lo) && st.from in L.tree && st.from in L.dist && L.dist[st.from] == lo
    requires st.to !in L.dist && st.to !in L.done
    ensures LevelsOk(Improve(L, st, lo + 1.0), queue + [st.to], lo)
  {
    assert st.to !in queue;
  }

  lemma HopStep(g: Network, from: NodeId, L: Labels, f: HopFrontier, st: Step)
    requires NonNegative(g) && st in g && g[st] == 1.0
    requires st.from in L.done && st.from in L.dist && HopSearchOk(g, from, L, f, L.dist[st.from])
    requires st.to !in L.dist
    ensures HopSearchOk(g, from, Improve(L, st, L.dist[st.from] + 1.0),
                        HopFrontier(f.visited + {st.to}, f.parent[st.to := st.from], f.came[st.to := st.edge], f.queue + [st.to]),
                        L.dist[st.from])
    ensures st.to != from && st.to !in L.done
  {
    hide LabelledWalk, ChainsToDone, Optimal, ParentOf, LevelsOk;
    var d := L.dist[st.from] + 1.0;
    ImprovableIsWaiting(g, from, L, st);
    ImproveKeepsTree(g, from, L, st);
    RelaxKeepsParents(from, L, f.parent, f.came, st, d);
    RelaxKeepsOptimal(g, from, L, st, d);
    EnqueueKeepsLevels(L, f.queue, L.dist[st.from], st);
  }

  // One pass of the inner loop over the adjacency list of cur.
  method VisitEdge(snap: Snapshot, collocation: bool, from: NodeId, cur: NodeId, i: nat, f: HopFrontier, ghost L: Labels)
    returns (r: HopFrontier, ghost M: Labels)
    requires snap.Indexed() && i < |snap.Adjacency(cur)|
    requires cur in L.done && cur in L.dist && cur in L.tree
    requires HopSearchOk(HopNetwork(snap.edges, collocation), from, L, f, L.dist[cur])
    requires ExpandedBut(HopNetwork(snap.edges, collocation), L, cur)
    requires RelaxedUpTo(HopNetwork(snap.edges, collocation), L, cur, snap.Adjacency(cur), i)
    requires f.visited <= Universe(snap.edges, from)
    ensures cur in M.dist && cur in M.tree && M.dist[cur] == L.dist[cur] && M.done == L.done
    ensures HopSearchOk(HopNetwork(snap.edges, collocation), from, M, r, M.dist[cur])
    ensures ExpandedBut(HopNetwork(snap.edges, collocation), M, cur)
    ensures RelaxedUpTo(HopNetwork(snap.edges, collocation), M, cur, snap.Adjacency(cur), i + 1)
    ensures f.visited <= r.visited <= Universe(snap.edges, from)
    ensures r.visited == f.visited ==> r.queue == f.queue
  {
    hide HopNetwork, TreeOk, ParentsOk, DoneOptimal, LevelsOk, ExpandedBut, RefsOf;
    ghost var g := HopNetwork(snap.edges, collocation);
    var ref := snap.Adjacency(cur)[i];
    ghost var st := Step(cur, ref.neighbor, ref.edgeIndex);
    r, M := f, L;
    RefsAreTheEdgesOfANode(snap.edges, cur, ref);
    HopNetworkMembers(snap.edges, collocation, st);
    HopNetworkFacts(snap.edges, collocation);
    LevelBound(L, f.queue, L.dist[cur]);
    if Traversable(snap.edges, ref.edgeIndex, collocation) {
      var nxt := ref.neighbor;
      assert snap.edges[ref.edgeIndex] in snap.edges;
      if nxt !in f.visited {
        HopStep(g, from, L, f, st);
        RelaxKeepsRelaxed(g, L, st, L.dist[cur] + 1.0, cur, snap.Adjacency(cur), i);
        RelaxKeepsExpanded(g, L, st, L.dist[cur] + 1.0, cur);
        M := Improve(L, st, L.dist[cur] + 1.0);
        r := HopFrontier(f.visited + {nxt}, f.parent[nxt := cur], f.came[nxt := ref.edgeIndex], f.queue + [nxt]);
        assert nxt in r.visited;
      }
    }
  }

  lemma LevelBound(L: Labels, queue: seq<NodeId>, lo: real)
    requires LevelsOk(L, queue, lo)
    ensures forall x :: x in L.dist ==> L.dist[x] <= lo + 1.0
  {
  }

  lemma HopNetworkMembers(edges: seq<Edge>, collocation: bool, st: Step)
    ensures st in HopNetwork(edges, collocation) <==>
            Joins(edges, st.from, st.edge, st.to) && Traversable(edges, st.edge, collocation)
    ensures st in HopNetwork(edges, collocation) ==> HopNetwork(edges, collocation)[st] == 1.0
  {
    StepSetMembers(edges, collocation, st);
  }

  lemma VisitedAll(snap: Snapshot, collocation: bool, L: Labels, u: NodeId)
    requires snap.Indexed() && u in L.dist
    requires RelaxedUpTo(HopNetwork(snap.edges, collocation), L, u, snap.Adjacency(u), |snap.Adjacency(u)|)
    ensures Expanded(HopNetwork(snap.edges, collocation), L, u)
  {
    var g := HopNetwork(snap.edges, collocation);
    var refs := snap.Adjacency(u);
    forall st | st in g && st.from == u
      ensures st.to in L.dist && L.dist[st.to] <= L.dist[u] + g[st]
    {
      StepSetMembers(snap.edges, collocation, st);
      RefsAreTheEdgesOfANode(snap.edges, u, EdgeRef(st.to, st.edge));
      var j :| 0 <= j < |refs| && refs[j] == EdgeRef(st.to, st.edge);
    }
  }

  // The inner loop: queues every neighbour met for the first time.
  method VisitEdges(snap: Snapshot, collocation: bool, from: NodeId, cur: NodeId, f: HopFrontier, ghost L: Labels)
    returns (r: HopFrontier, ghost M: Labels)
    requires snap.Indexed()
    requires cur in L.done && cur in L.dist && cur in L.tree
    requires HopSearchOk(HopNetwork(snap.edges, collocation), from, L, f, L.dist[cur])
    requires ExpandedBut(HopNetwork(snap.edges, collocation), L, cur)
    requires f.visited <= Universe(snap.edges, from)
    ensures cur in M.dist && M.dist[cur] == L.dist[cur] && M.done == L.done
    ensures HopSearchOk(HopNetwork(snap.edges, collocation), from, M, r, M.dist[cur])
    ensures Settled(HopNetwork(snap.edges, collocation), from, M)
    ensures f.visited <= r.visited <= Universe(snap.edges, from)
    ensures r.visited == f.visited ==> r.queue == f.queue
  {
    hide HopNetwork, TreeOk, ParentsOk, LevelsOk, RefsOf;
    r, M := f, L;
    for i := 0 to |snap.Adjacency(cur)|
      invariant cur in M.dist && cur in M.tree && M.dist[cur] == L.dist[cur] && M.done == L.done
      invariant HopSearchOk(HopNetwork(snap.edges, collocation), from, M, r, M.dist[cur])
      invariant ExpandedBut(HopNetwork(snap.edges, collocation), M, cur)
      invariant RelaxedUpTo(HopNetwork(snap.edges, collocation), M, cur, snap.Adjacency(cur), i)
      invariant f.visited <= r.visited <= Universe(snap.edges, from)
      invariant r.visited == f.visited ==> r.queue == f.queue
    {
      r, M := VisitEdge(snap, collocation, from, cur, i, r, M);
    }
    VisitedAll(snap, collocation, M, cur);
  }

  lemma DequeueKeepsLevels(L: Labels, queue: seq<NodeId>, lo: real)
    requires LevelsOk(L, queue, lo) && queue != [] && queue[0] in L.dist && queue[0] !in L.done
    requires forall x :: x in L.dist ==> L.dist[x] <= L.dist[queue[0]] + 1.0
    requires FrontierAbove(L, L.dist[queue[0]])
    ensures LevelsOk(L.(done := L.done + {queue[0]}), queue[1..], L.dist[queue[0]])
  {
    assert queue == [queue[0]] + queue[1..];
  }

  lemma CloseNearest(g: Network, from: NodeId, L: Labels, f: HopFrontier, lo: real)
    requires NonNegative(g) && HopSearchOk(g, from, L, f, lo) && Settled(g, from, L) && f.queue != []
    ensures var u := f.queue[0];
            var M := L.(done := L.done + {u});
            u in L.dist && u !in L.done && IsCheapestWalk(g, from, u, L.tree[u]) &&
            HopSearchOk(g, from, M, f.(queue := f.queue[1..]), L.dist[u]) && ExpandedBut(g, M, u)
  {
    var u := f.queue[0];
    var M := L.(done := L.done + {u});
    FrontierMinimumIsOptimal(g, from, L, u);
    DequeueKeepsLevels(L, f.queue, lo);
    CloseKeepsTree(g, from, L, u);
    CloseKeepsParents(from, L, f.parent, f.came, u);
    CloseKeepsExpanded(g, L, u);
  }

  // Hop counts label the walks that the parent maps retrace.
  method TraceHops(edges: seq<Edge>, collocation: bool, from: NodeId, to: NodeId,
                   parent: map<NodeId, NodeId>, came: map<NodeId, nat>, ghost L: Labels)
    returns (segs: seq<PathSegment>)
    requires TreeOk(HopNetwork(edges, collocation), from, L) && ParentsOk(parent, came, from, L) && to in L.tree
    ensures StepsOf(segs) == L.tree[to]
    ensures forall seg :: seg in segs ==> seg.edgeIndex < |edges| && seg.edgeType == edges[seg.edgeIndex].edgeType && seg.edgeCost == 0.0
  {
    hide HopNetwork, TreeOk, ParentsOk;
    ghost var g := HopNetwork(edges, collocation);
    segs := [];
    var cur := to;
    while cur != from
      invariant cur in L.tree && L.tree[to] == L.tree[cur] + StepsOf(segs)
      invariant forall seg :: seg in segs ==>
                                seg.edgeIndex < |edges| && seg.edgeType == edges[seg.edgeIndex].edgeType && seg.edgeCost == 0.0
      decreases |L.tree[cur]|
    {
      ParentIsLastStep(g, from, L, parent, came, cur);
      var prev := parent[cur];
      var ei := came[cur];
      HopNetworkMembers(edges, collocation, Step(prev, cur, ei));
      ghost var after := segs;
      segs := [PathSegment(prev, cur, ei, edges[ei].edgeType, 0.0)] + segs;
      assert StepsOf(segs) == [Step(prev, cur, ei)] + StepsOf(after);
      cur := prev;
    }
    StartIsEmpty(g, from, L);
  }

  ghost predicate IsShortestWalk(g: Network, a: NodeId, b: NodeId, w: seq<Step>) {
    IsWalk(g, a, b, w) && forall v :: IsWalk(g, a, b, v) ==> |w| <= |v|
  }

  lemma CheapestIsShortest(edges: seq<Edge>, collocation: bool, a: NodeId, b: NodeId, w: seq<Step>)
    requires IsCheapestWalk(HopNetwork(edges, collocation), a, b, w)
    ensures IsShortestWalk(HopNetwork(edges, collocation), a, b, w)
  {
    HopsAreCost(edges, collocation, a, b, w);
    forall v | IsWalk(HopNetwork(edges, collocation), a, b, v)
      ensures |w| <= |v|
    {
      HopsAreCost(edges, collocation, a, b, v);
    }
  }

  lemma StartHops(g: Network, from: NodeId)
    ensures HopSearchOk(g, from, StartLabels(from), HopFrontier({from}, map[], map[], [from]), 0.0)
    ensures Settled(g, from, StartLabels(from))
  {
    StartLabelsSettled(g, from);
  }

  lemma NothingWaits(L: Labels, lo: real)
    requires LevelsOk(L, [], lo)
    ensures L.dist.Keys <= L.done
  {
    forall x | x in L.dist
      ensures x in L.done
    {
      assert x !in [];
    }
  }

  // The main loop: stops when the target leaves the queue.
  method HopSearch(snap: Snapshot, from: NodeId, to: NodeId, collocation: bool)
    returns (found: bool, f: HopFrontier, ghost L: Labels)
    requires snap.Indexed()
    ensures TreeOk(HopNetwork(snap.edges, collocation), from, L) && ParentsOk(f.parent, f.came, from, L)
    ensures found ==> to in L.tree && IsShortestWalk(HopNetwork(snap.edges, collocation), from, to, L.tree[to])
    ensures !found ==> !Connected(HopNetwork(snap.edges, collocation), from, to)
  {
    hide HopNetwork, TreeOk, LevelsOk, RefsOf, DoneOptimal, ParentsOk, Expanded, ExpandedBut;
    ghost var g := HopNetwork(snap.edges, collocation);
    HopNetworkFacts(snap.edges, collocation);
    f := HopFrontier({from}, map[], map[], [from]);
    L := StartLabels(from);
    ghost var lo := 0.0;
    found := false;
    StartHops(g, from);
    while f.queue != []
      invariant HopSearchOk(g, from, L, f, lo) && Settled(g, from, L)
      invariant f.visited <= Universe(snap.edges, from) && !found && to !in L.done
      decreases Universe(snap.edges, from) - f.visited, |f.queue|
    {
      var cur := f.queue[0];
      CloseNearest(g, from, L, f, lo);
      if cur == to {
        found := true;
        ClosedTarget(g, from, L);
        CheapestIsShortest(snap.edges, collocation, from, to, L.tree[to]);
        break;
      }
      lo := L.dist[cur];
      ghost var before := f.visited;
      f := f.(queue := f.queue[1..]);
      ghost var closed := L.done + {cur};
      TreeHasDone(g, from, L.(done := closed), cur);
      f, L := VisitEdges(snap, collocation, from, cur, f, L.(done := closed));
      assert f.visited != before ==> Universe(snap.edges, from) - f.visited < Universe(snap.edges, from) - before by {
        if f.visited != before {
          var x :| x in f.visited && x !in before;
        }
      }
    }
    if !found {
      NothingWaits(L, lo);
      EmptyFrontier(g, from, L, to);
    }
  }

  lemma ClosedTarget(g: Network, from: NodeId, L: Labels)
    requires TreeOk(g, from, L)
    ensures L.tree.Keys == L.dist.Keys
  {
  }

  lemma TreeHasDone(g: Network, from: NodeId, L: Labels, u: NodeId)
    requires TreeOk(g, from, L) && u in L.done
    ensures u in L.dist && u in L.tree
  {
  }

  // Some edge names an id of the path that no node has.
  ghost predicate ThroughUnknown(snap: Snapshot, segs: seq<PathSegment>, id: NodeId) {
    id !in snap.nodes && exists seg :: seg in segs && (seg.from == id || seg.to == id)
  }

  // The search itself never looks at nodes, so it also walks through dangling ids; estimating
  // the links of such a path fails.
  method ShortestPath(snap: Snapshot, from: NodeId, to: NodeId, collocation: bool) returns (r: Outcome<Path>)
    requires snap.Indexed()
    ensures snap.NoDangling() ==> r.Ok?
    ensures r.NotFound? ==> Dangles(snap, r.id)
    ensures r.Ok? ==> r.value.source == from && r.value.destination == to && r.value.hopCount == |r.value.segments|
    ensures r.Ok? ==>
              (r.value.found <==>
               from in snap.nodes && to in snap.nodes && Connected(HopNetwork(snap.edges, collocation), from, to))
    ensures r.Ok? && r.value.found ==>
              && IsShortestWalk(HopNetwork(snap.edges, collocation), from, to, StepsOf(r.value.segments))
              && (forall seg :: seg in r.value.segments ==>
                                  KnownSegment(snap, seg) && seg.edgeType == snap.edges[seg.edgeIndex].edgeType)
    ensures r.Ok? && r.value.found ==> r.value.totalCost == 0.0
    ensures r.Ok? && r.value.found && from == to ==> r.value == Path(true, from, to, [], 0, 0.0, 0.0, 0.0, 0)
    ensures r.Ok? && r.value.found && from != to ==> r.value.policyVersion == DEFAULT_WEIGHTS.version
    ensures r.Ok? && r.value.found && from != to ==>
              IsBottleneck(snap, DEFAULT_WEIGHTS, r.value.segments, r.value.bandwidth) &&
              r.value.latency == LatencySum(snap, r.value.segments) &&
              ReportsLinks(snap, r.value.segments, r.value.bandwidth, r.value.latency)
    ensures r.Ok? && !r.value.found ==> r.value == Path(false, from, to, [], 0, 0.0, 0.0, 0.0, 0)
  {
    hide HopNetwork, TreeOk, ParentsOk, IsBottleneck, ReportsLinks;
    ghost var g := HopNetwork(snap.edges, collocation);
    if from !in snap.nodes || to !in snap.nodes {
      return Ok(NotFoundPath(from, to));
    }
    if from == to {
      HopNetworkFacts(snap.edges, collocation);
      EmptyWalkIsCheapest(g, from);
      CheapestIsShortest(snap.edges, collocation, from, from, []);
      r := Ok(Path(true, from, to, [], 0, 0.0, 0.0, 0.0, 0));
      return;
    }
    var found, f;
    ghost var L;
    found, f, L := HopSearch(snap, from, to, collocation);
    if !found {
      return Ok(NotFoundPath(from, to));
    }
    var segs := TraceHops(snap.edges, collocation, from, to, f.parent, f.came, L);
    var estimate := EstimateLinks(snap, segs, DEFAULT_WEIGHTS);
    if estimate.NotFound? {
      UnknownOnWalk(snap, collocation, from, to, segs, estimate.id);
      return NotFound(estimate.id);
    }
    EstimatesAreMeasured(snap, segs, DEFAULT_WEIGHTS, estimate.value.0);
    r := Ok(Path(true, from, to, segs, |segs|, 0.0, estimate.value.0, estimate.value.1, DEFAULT_WEIGHTS.version));
  }

  lemma UnknownOnWalk(snap: Snapshot, collocation: bool, from: NodeId, to: NodeId, segs: seq<PathSegment>, id: NodeId)
    requires IsWalk(HopNetwork(snap.edges, collocation), from, to, StepsOf(segs))
    requires ThroughUnknown(snap, segs, id)
    ensures Dangles(snap, id)
  {
    var seg :| seg in segs && (seg.from == id || seg.to == id);
    var i :| 0 <= i < |segs| && segs[i] == seg;
    WalkStepByStep(HopNetwork(snap.edges, collocation), from, to, StepsOf(segs));
    assert StepsOf(segs)[i] == StepOf(seg);
    StepSetMembers(snap.edges, collocation, StepOf(seg));
    assert snap.edges[seg.edgeIndex] in snap.edges;
  }

  // Whatever the direction of the edges, both orders of the endpoints are the same number of
  // hops apart.
  lemma HopsAreSymmetric(edges: seq<Edge>, collocation: bool, a: NodeId, b: NodeId, v: seq<Step>, w: seq<Step>)
    requires IsShortestWalk(HopNetwork(edges, collocation), a, b, v)
    requires IsShortestWalk(HopNetwork(edges, collocation), b, a, w)
    ensures |v| == |w|
  {
    HopNetworkFacts(edges, collocation);
    ReverseWalk(HopNetwork(edges, collocation), a, b, v);
    ReverseWalk(HopNetwork(edges, collocation), b, a, w);
  }

  lemma ConnectionIsSymmetric(edges: seq<Edge>, collocation: bool, a: NodeId, b: NodeId)
    requires Connected(HopNetwork(edges, collocation), a, b)
    ensures Connected(HopNetwork(edges, collocation), b, a)
  {
    HopNetworkFacts(edges, collocation);
    var w :| IsWalk(HopNetwork(edges, collocation), a, b, w);
    ReverseWalk(HopNetwork(edges, collocation), a, b, w);
  }
}
