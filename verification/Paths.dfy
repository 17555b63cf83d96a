// lowest_cost_path: Dijkstra's algorithm.

module Paths {
  import opened Types
  import opened Snapshots
  import opened Walks
  import opened Costs
  import opened Queues

  datatype PathSegment = PathSegment(from: NodeId, to: NodeId, edgeIndex: nat, edgeType: EdgeType, edgeCost: real)

  datatype Path = Path(
    found: bool,
    source: NodeId,
    destination: NodeId,
    segments: seq<PathSegment>,
    hopCount: int,
    totalCost: real,
    bandwidth: real,
    latency: real,
    policyVersion: uint32)

  function StepOf(seg: PathSegment): Step {
    Step(seg.from, seg.to, seg.edgeIndex)
  }

  function StepsOf(segs: seq<PathSegment>): (w: seq<Step>)
    ensures |w| == |segs|
    ensures forall i :: 0 <= i < |segs| ==> w[i] == StepOf(segs[i])
  {
    seq(|segs|, i requires 0 <= i < |segs| => StepOf(segs[i]))
  }

  function NotFoundPath(from: NodeId, to: NodeId): Path {
    Path(false, from, to, [], 0, 0.0, 0.0, 0.0, 0)
  }

  // Some edge of the snapshot names an id that no node has.
  ghost predicate Dangles(snap: Snapshot, id: NodeId) {
    id !in snap.nodes && exists e :: e in snap.edges && (e.source == id || e.target == id)
  }

  // ---- Parent maps -----------------------------------------------------------

  ghost predicate ParentOf(parent: map<NodeId, NodeId>, came: map<NodeId, nat>, L: Labels, v: NodeId)
    requires v in L.tree
  {
    v in parent && v in came && L.tree[v] != [] && L.tree[v][|L.tree[v]| - 1] == Step(parent[v], v, came[v])
  }

  // The parent maps store the last step of each labelled walk.
  ghost predicate ParentsOk(parent: map<NodeId, NodeId>, came: map<NodeId, nat>, from: NodeId, L: Labels) {
    forall v :: v in L.tree && v != from ==> ParentOf(parent, came, L, v)
  }

  // ---- Dijkstra ---------------------------------------------------------------

  // Waiting nodes are queued at their label; every other entry is out of date.
  ghost predicate QueueOk(pq: multiset<QueueEntry>, L: Labels) {
    && (forall e :: e in pq ==> pq[e] == 1 && e.id in L.dist && L.dist[e.id] <= e.cost)
    && (forall v :: v in L.dist ==> (v in L.done <==> QueueEntry(L.dist[v], v) !in pq))
  }

  // The nodes expanded, how often a node was expanded, and the queue entries pushed.
  datatype SearchWork = SearchWork(expanded: set<NodeId>, expansions: nat, pushes: nat)

  // No node is expanded twice, and every reference pushes at most one entry.
  ghost predicate IsFrugal(snap: Snapshot, work: SearchWork) {
    && work.expanded <= snap.nodes.Keys && work.expansions == |work.expanded|
    && work.pushes <= 1 + 2 * |snap.edges|
  }

  // What the search keeps: the labels, the parent maps and the queue.
  datatype Frontier = Frontier(
    dist: map<NodeId, real>,
    parent: map<NodeId, NodeId>,
    came: map<NodeId, nat>,
    queue: multiset<QueueEntry>)

  ghost predicate DoneOptimal(g: Network, from: NodeId, L: Labels) {
    forall x :: x in L.done ==> x in L.dist && Optimal(g, from, x, L.dist[x])
  }

  ghost predicate SearchOk(snap: Snapshot, g: Network, from: NodeId, L: Labels, f: Frontier) {
    && f.dist == L.dist && f.dist.Keys <= snap.nodes.Keys
    && TreeOk(g, from, L)
    && DoneOptimal(g, from, L)
    && QueueOk(f.queue, L)
    && ParentsOk(f.parent, f.came, from, L)
  }

  // Every expanded node except u has been dealt with.
  ghost predicate ExpandedBut(g: Network, L: Labels, u: NodeId) {
    forall x :: x in L.done && x != u ==> x in L.dist && Expanded(g, L, x)
  }

  // Steps through the first n references of u have been relaxed.
  ghost predicate RelaxedUpTo(g: Network, L: Labels, u: NodeId, refs: seq<EdgeRef>, n: nat)
    requires u in L.dist && n <= |refs|
  {
    forall j {:trigger refs[j]} :: 0 <= j < n ==>
      var st := Step(u, refs[j].neighbor, refs[j].edgeIndex);
      st in g ==> st.to in L.dist && L.dist[st.to] <= L.dist[u] + g[st]
  }

  lemma RelaxedAll(snap: Snapshot, w: CostWeights, L: Labels, u: NodeId)
    requires snap.Indexed() && u in L.dist
    requires RelaxedUpTo(CostNetwork(snap, w), L, u, snap.Adjacency(u), |snap.Adjacency(u)|)
    ensures Expanded(CostNetwork(snap, w), L, u)
  {
    var g := CostNetwork(snap, w);
    var refs := snap.Adjacency(u);
    forall st | st in g && st.from == u
      ensures st.to in L.dist && L.dist[st.to] <= L.dist[u] + g[st]
    {
      CostNetworkMembers(snap, w, st);
      RefsAreTheEdgesOfANode(snap.edges, u, EdgeRef(st.to, st.edge));
      var j :| 0 <= j < |refs| && refs[j] == EdgeRef(st.to, st.edge);
    }
  }

  lemma PushKeepsQueue(pq: multiset<QueueEntry>, L: Labels, st: Step, d: real)
    requires QueueOk(pq, L) && st.from in L.tree
    requires st.to !in L.done
    requires st.to in L.dist ==> d < L.dist[st.to]
    ensures QueueOk(pq + multiset{QueueEntry(d, st.to)}, Improve(L, st, d))
  {
  }

  lemma RelaxKeepsParents(from: NodeId, L: Labels, parent: map<NodeId, NodeId>, came: map<NodeId, nat>, st: Step, d: real)
    requires ParentsOk(parent, came, from, L) && st.from in L.tree
    ensures ParentsOk(parent[st.to := st.from], came[st.to := st.edge], from, Improve(L, st, d))
  {
    forall v | v in L.tree && v != from && v != st.to
      ensures ParentOf(parent[st.to := st.from], came[st.to := st.edge], Improve(L, st, d), v)
    {
      assert ParentOf(parent, came, L, v);
    }
  }

  lemma RelaxKeepsOptimal(g: Network, from: NodeId, L: Labels, st: Step, d: real)
    requires DoneOptimal(g, from, L)
    requires st.from in L.tree && st.to !in L.done
    ensures DoneOptimal(g, from, Improve(L, st, d))
  {
  }

  lemma RelaxKeepsRelaxed(g: Network, L: Labels, st: Step, d: real, u: NodeId, refs: seq<EdgeRef>, n: nat)
    requires st.from in L.tree && u in L.dist && u != st.to && n <= |refs|
    requires RelaxedUpTo(g, L, u, refs, n)
    requires st.to in L.dist ==> d < L.dist[st.to]
    ensures RelaxedUpTo(g, Improve(L, st, d), u, refs, n)
  {
  }

  lemma RelaxKeepsExpanded(g: Network, L: Labels, st: Step, d: real, u: NodeId)
    requires st.from in L.tree && st.to !in L.done && ExpandedBut(g, L, u)
    requires st.to in L.dist ==> d <= L.dist[st.to]
    ensures ExpandedBut(g, Improve(L, st, d), u)
  {
    forall x | x in L.done && x != u
      ensures Expanded(g, Improve(L, st, d), x)
    {
      ImproveKeepsExpanded(g, L, st, d, x);
    }
  }

  function Push(f: Frontier, st: Step, d: real): Frontier {
    Frontier(f.dist[st.to := d], f.parent[st.to := st.from], f.came[st.to := st.edge],
             f.queue + multiset{QueueEntry(d, st.to)})
  }

  // Relaxing one step towards v, as the inner loop does when the new cost is lower.
  lemma RelaxStep(snap: Snapshot, g: Network, from: NodeId, L: Labels, f: Frontier, st: Step)
    requires NonNegative(g) && SearchOk(snap, g, from, L, f)
    requires st in g && st.from in L.done && st.to in snap.nodes
    requires st.to in L.dist ==> L.dist[st.from] + g[st] < L.dist[st.to]
    ensures var d := L.dist[st.from] + g[st];
            SearchOk(snap, g, from, Improve(L, st, d), Push(f, st, d))
    ensures st.to !in L.done && st.to != from
  {
    hide LabelledWalk, ChainsToDone, Optimal, QueueOk, ParentsOk;
    var d := L.dist[st.from] + g[st];
    ImprovableIsWaiting(g, from, L, st);
    ImproveKeepsTree(g, from, L, st);
    PushKeepsQueue(f.queue, L, st, d);
    RelaxKeepsParents(from, L, f.parent, f.came, st, d);
    RelaxKeepsOptimal(g, from, L, st, d);
  }

  // One pass of the inner loop: relaxes the i-th edge of u, whose label d is final. Fails on an
  // unknown neighbour.
  method RelaxEdge(snap: Snapshot, weights: CostWeights, from: NodeId, u: NodeId, d: real, i: nat,
                   f: Frontier, ghost L: Labels)
    returns (r: Outcome<Frontier>, ghost M: Labels, ghost pushes: nat)
    requires snap.Indexed() && NonNegative(CostNetwork(snap, weights)) && i < |snap.Adjacency(u)|
    requires SearchOk(snap, CostNetwork(snap, weights), from, L, f)
    requires u in L.done && u in L.tree && u in f.dist && d == f.dist[u]
    requires ExpandedBut(CostNetwork(snap, weights), L, u)
    requires RelaxedUpTo(CostNetwork(snap, weights), L, u, snap.Adjacency(u), i)
    ensures r.NotFound? ==> Dangles(snap, r.id)
    ensures r.Ok? ==> SearchOk(snap, CostNetwork(snap, weights), from, M, r.value)
    ensures r.Ok? ==> M.done == L.done && u in M.dist && M.dist[u] == d && pushes <= 1
    ensures r.Ok? ==> ExpandedBut(CostNetwork(snap, weights), M, u)
    ensures r.Ok? ==> RelaxedUpTo(CostNetwork(snap, weights), M, u, snap.Adjacency(u), i + 1)
  {
    hide CostNetwork, EdgeTraversalCost, RefsOf, TreeOk, QueueOk, ParentsOk, DoneOptimal, ExpandedBut;
    ghost var g := CostNetwork(snap, weights);
    var ref := snap.Adjacency(u)[i];
    ghost var st := Step(u, ref.neighbor, ref.edgeIndex);
    M, pushes := L, 0;
    r := Ok(f);
    RefsAreTheEdgesOfANode(snap.edges, u, ref);
    CostNetworkMembers(snap, weights, st);
    if Traversable(snap.edges, ref.edgeIndex, false) {
      var v := ref.neighbor;
      var e := snap.edges[ref.edgeIndex];
      assert e in snap.edges;
      if v !in snap.nodes {
        return NotFound(v), M, pushes;
      }
      var nd := d + EdgeTraversalCost(snap.nodes[u], snap.nodes[v], e, weights);
      if v !in f.dist || nd < f.dist[v] {
        RelaxStep(snap, g, from, L, f, st);
        RelaxKeepsRelaxed(g, L, st, nd, u, snap.Adjacency(u), i);
        RelaxKeepsExpanded(g, L, st, nd, u);
        M, pushes := Improve(L, st, nd), 1;
        r := Ok(Frontier(f.dist[v := nd], f.parent[v := u], f.came[v := ref.edgeIndex],
                         f.queue + multiset{QueueEntry(nd, v)}));
      }
    }
  }

  // The inner loop over the adjacency list of u.
  method RelaxEdges(snap: Snapshot, weights: CostWeights, from: NodeId, u: NodeId, d: real,
                    before: Frontier, ghost L: Labels)
    returns (r: Outcome<Frontier>, ghost M: Labels, ghost pushes: nat)
    requires snap.Indexed() && NonNegative(CostNetwork(snap, weights))
    requires SearchOk(snap, CostNetwork(snap, weights), from, L, before)
    requires u in L.done && d == L.dist[u]
    requires ExpandedBut(CostNetwork(snap, weights), L, u)
    ensures r.NotFound? ==> Dangles(snap, r.id)
    ensures r.Ok? ==> SearchOk(snap, CostNetwork(snap, weights), from, M, r.value)
    ensures r.Ok? ==> M.done == L.done && pushes <= |RefsOf(snap.edges, u)|
    ensures r.Ok? ==> Settled(CostNetwork(snap, weights), from, M)
  {
    hide CostNetwork, NonNegative, SearchOk, ExpandedBut, Expanded, Settled, RefsOf;
    r, M, pushes := Ok(before), L, 0;
    DoneIsLabelled(snap, CostNetwork(snap, weights), from, L, before, u);
    for i := 0 to |snap.Adjacency(u)|
      invariant r.Ok? && SearchOk(snap, CostNetwork(snap, weights), from, M, r.value)
      invariant M.done == L.done && u in M.dist && M.dist[u] == d && pushes <= i
      invariant ExpandedBut(CostNetwork(snap, weights), M, u)
      invariant RelaxedUpTo(CostNetwork(snap, weights), M, u, snap.Adjacency(u), i)
    {
      ghost var pushed;
      DoneIsLabelled(snap, CostNetwork(snap, weights), from, M, r.value, u);
      r, M, pushed := RelaxEdge(snap, weights, from, u, d, i, r.value, M);
      if r.NotFound? {
        return;
      }
      pushes := pushes + pushed;
    }
    RelaxedAll(snap, weights, M, u);
    AllExpanded(snap, CostNetwork(snap, weights), from, M, r.value, u);
    AdjacencySize(snap, u);
  }

  lemma DoneIsLabelled(snap: Snapshot, g: Network, from: NodeId, L: Labels, f: Frontier, u: NodeId)
    requires SearchOk(snap, g, from, L, f) && u in L.done
    ensures u in L.tree && u in L.dist && f.dist == L.dist
  {
  }

  lemma AllExpanded(snap: Snapshot, g: Network, from: NodeId, L: Labels, f: Frontier, u: NodeId)
    requires SearchOk(snap, g, from, L, f) && u in L.dist && ExpandedBut(g, L, u) && Expanded(g, L, u)
    ensures Settled(g, from, L)
  {
    hide TreeOk, Optimal, Expanded;
  }

  lemma AdjacencySize(snap: Snapshot, u: NodeId)
    requires snap.Indexed()
    ensures |snap.Adjacency(u)| == |RefsOf(snap.edges, u)|
  {
  }

  lemma StartSearch(snap: Snapshot, g: Network, from: NodeId)
    requires from in snap.nodes
    ensures SearchOk(snap, g, from, StartLabels(from),
                     Frontier(map[from := 0.0], map[], map[], multiset{QueueEntry(0.0, from)}))
    ensures Settled(g, from, StartLabels(from))
  {
    StartLabelsSettled(g, from);
  }

  lemma DropStale(L: Labels, pq: multiset<QueueEntry>, top: QueueEntry)
    requires QueueOk(pq, L) && top in pq && top.id in L.dist && top.cost > L.dist[top.id]
    ensures QueueOk(pq - multiset{top}, L)
  {
  }

  // The entry at the front carries the label of a waiting node, hence the least waiting label.
  lemma FrontIsMinimal(L: Labels, pq: multiset<QueueEntry>, top: QueueEntry, u: NodeId)
    requires QueueOk(pq, L) && top in pq
    requires forall e :: e in pq ==> !EntryLess(e, top)
    ensures top.id in L.dist && L.dist[top.id] <= top.cost
    ensures FrontierAbove(L, top.cost)
    ensures top.cost == L.dist[top.id] ==> top.id !in L.done
    ensures top.id !in L.done ==> top.cost == L.dist[top.id]
  {
    forall x | x in L.dist && x !in L.done
      ensures top.cost <= L.dist[x]
    {
      assert QueueEntry(L.dist[x], x) in pq;
    }
  }

  lemma CloseKeepsTree(g: Network, from: NodeId, L: Labels, u: NodeId)
    requires TreeOk(g, from, L) && u in L.dist
    ensures TreeOk(g, from, L.(done := L.done + {u}))
  {
    var M := L.(done := L.done + {u});
    forall v | v in M.dist
      ensures LabelledWalk(g, from, M, v)
    {
      assert LabelledWalk(g, from, L, v);
    }
    forall v | v in M.dist && v != from
      ensures ChainsToDone(M, v)
    {
      assert ChainsToDone(L, v);
    }
  }

  lemma CloseKeepsParents(from: NodeId, L: Labels, parent: map<NodeId, NodeId>, came: map<NodeId, nat>, u: NodeId)
    requires ParentsOk(parent, came, from, L)
    ensures ParentsOk(parent, came, from, L.(done := L.done + {u}))
  {
    forall v | v in L.tree && v != from
      ensures ParentOf(parent, came, L.(done := L.done + {u}), v)
    {
      assert ParentOf(parent, came, L, v);
    }
  }

  lemma CloseKeepsExpanded(g: Network, L: Labels, u: NodeId)
    requires forall x :: x in L.done ==> x in L.dist && Expanded(g, L, x)
    ensures ExpandedBut(g, L.(done := L.done + {u}), u)
  {
    forall x | x in L.done
      ensures x in L.dist && Expanded(g, L.(done := L.done + {u}), x)
    {
      assert Expanded(g, L, x);
    }
  }

  // Taking the front node out of the queue and closing it.
  lemma CloseFront(snap: Snapshot, g: Network, from: NodeId, L: Labels, f: Frontier, u: NodeId)
    requires NonNegative(g) && SearchOk(snap, g, from, L, f) && Settled(g, from, L)
    requires u in L.dist && u !in L.done && FrontierAbove(L, L.dist[u])
    ensures var M := L.(done := L.done + {u});
            SearchOk(snap, g, from, M, f.(queue := f.queue - multiset{QueueEntry(L.dist[u], u)})) &&
            ExpandedBut(g, M, u)
  {
    hide LabelledWalk, ChainsToDone, Optimal, ParentOf, Expanded, QueueOk, IsWalk, IsCheapestWalk, TreeOk, ParentsOk;
    FrontierMinimumIsOptimal(g, from, L, u);
    CloseKeepsTree(g, from, L, u);
    CloseKeepsParents(from, L, f.parent, f.came, u);
    CloseKeepsExpanded(g, L, u);
    CloseKeepsQueue(L, f.queue, u);
  }

  lemma CloseKeepsQueue(L: Labels, pq: multiset<QueueEntry>, u: NodeId)
    requires QueueOk(pq, L) && u in L.dist && u !in L.done
    ensures QueueOk(pq - multiset{QueueEntry(L.dist[u], u)}, L.(done := L.done + {u}))
  {
  }

  // The main loop: pops the cheapest entry, stops at the target, skips entries that are out of
  // date and relaxes the edges of the rest.
  method CostSearch(snap: Snapshot, from: NodeId, to: NodeId, weights: CostWeights)
    returns (r: Outcome<Frontier>, found: bool, ghost L: Labels, ghost work: SearchWork)
    requires snap.Indexed() && NonNegative(CostNetwork(snap, weights))
    requires from in snap.nodes && to in snap.nodes && from != to
    ensures r.NotFound? ==> Dangles(snap, r.id)
    ensures r.Ok? ==> SearchOk(snap, CostNetwork(snap, weights), from, L, r.value)
    ensures r.Ok? && found ==>
              to in L.tree && IsCheapestWalk(CostNetwork(snap, weights), from, to, L.tree[to])
    ensures r.Ok? && !found ==> !Connected(CostNetwork(snap, weights), from, to)
    ensures r.Ok? ==> IsFrugal(snap, work)
  {
    hide CostNetwork, EdgeTraversalCost, TreeOk, QueueOk, DoneOptimal, ParentsOk, RefsOf, Expanded, Optimal;
    hide ExpandedBut, IsCheapestWalk, EndsIn;
    ghost var g := CostNetwork(snap, weights);
    var f := Frontier(map[from := 0.0], map[], map[], multiset{QueueEntry(0.0, from)});
    L, work := StartLabels(from), SearchWork({}, 0, 1);
    found := false;
    StartSearch(snap, g, from);
    while f.queue != multiset{}
      invariant SearchOk(snap, g, from, L, f) && Settled(g, from, L)
      invariant !found && to !in L.done && L.done <= snap.nodes.Keys
      invariant work.expanded == L.done && work.expansions == |L.done| && work.pushes <= 1 + EndsIn(snap.edges, L.done)
      decreases |snap.nodes.Keys - L.done|, |f.queue|
    {
      var top, rest := PopMin(f.queue);
      var u, d := top.id, top.cost;
      FrontIsMinimal(L, f.queue, top, u);
      LabelKeys(g, from, L);
      if u == to {
        found := true;
        FrontierMinimumIsOptimal(g, from, L, u);
        break;
      }
      if d > f.dist[u] {
        DropStale(L, f.queue, top);
        f := f.(queue := rest);
        continue;
      }
      CloseFront(snap, g, from, L, f, u);
      EndsInGrows(snap.edges, L.done, u);
      assert snap.nodes.Keys - (L.done + {u}) < snap.nodes.Keys - L.done;
      ghost var pushes;
      r, L, pushes := RelaxEdges(snap, weights, from, u, d, f.(queue := rest), L.(done := L.done + {u}));
      if r.NotFound? {
        return;
      }
      f := r.value;
      work := SearchWork(work.expanded + {u}, work.expansions + 1, work.pushes + pushes);
    }
    if !found {
      NothingQueued(L);
      EmptyFrontier(g, from, L, to);
    }
    EndsInBound(snap.edges, L.done);
    r := Ok(f);
  }

  lemma NothingQueued(L: Labels)
    requires QueueOk(multiset{}, L)
    ensures L.dist.Keys <= L.done
  {
    forall v | v in L.dist
      ensures v in L.done
    {
      assert QueueEntry(L.dist[v], v) !in multiset{};
    }
  }

  lemma LabelKeys(g: Network, from: NodeId, L: Labels)
    requires TreeOk(g, from, L)
    ensures L.tree.Keys == L.dist.Keys && L.done <= L.dist.Keys
  {
  }

  lemma {:induction false} SubsetSize<T>(a: set<T>, b: set<T>)
    requires a <= b
    ensures |a| <= |b|
  {
    if a != {} {
      var x :| x in a;
      SubsetSize(a - {x}, b - {x});
    }
  }

  // ---- Reading the path back ---------------------------------------------------------

  // A segment repeats the type of its edge and carries the cost of traversing it.
  ghost predicate PricedSegment(snap: Snapshot, w: CostWeights, seg: PathSegment) {
    && seg.edgeIndex < |snap.edges| && seg.from in snap.nodes && seg.to in snap.nodes
    && seg.edgeType == snap.edges[seg.edgeIndex].edgeType
    && seg.edgeCost == EdgeTraversalCost(snap.nodes[seg.from], snap.nodes[seg.to], snap.edges[seg.edgeIndex], w)
  }

  // The parents of a labelled node retrace its walk, one step at a time.
  lemma ParentIsLastStep(g: Network, from: NodeId, L: Labels, parent: map<NodeId, NodeId>, came: map<NodeId, nat>, v: NodeId)
    requires TreeOk(g, from, L) && ParentsOk(parent, came, from, L) && v in L.tree && v != from
    ensures v in parent && v in came && parent[v] in L.tree
    ensures L.tree[v] == L.tree[parent[v]] + [Step(parent[v], v, came[v])]
    ensures Step(parent[v], v, came[v]) in g
    ensures WalkCost(g, L.tree[v]) == WalkCost(g, L.tree[parent[v]]) + g[Step(parent[v], v, came[v])]
  {
    assert ParentOf(parent, came, L, v) && ChainsToDone(L, v) && LabelledWalk(g, from, L, v);
    var w := L.tree[v];
    assert w == w[..|w| - 1] + [w[|w| - 1]];
  }

  // The reconstruction loop: follows parents from the target, collecting segments back to front.
  method TraceCosts(snap: Snapshot, weights: CostWeights, from: NodeId, to: NodeId,
                    parent: map<NodeId, NodeId>, came: map<NodeId, nat>, ghost L: Labels)
    returns (segs: seq<PathSegment>, total: real)
    requires TreeOk(CostNetwork(snap, weights), from, L) && ParentsOk(parent, came, from, L) && to in L.tree
    ensures StepsOf(segs) == L.tree[to] && total == WalkCost(CostNetwork(snap, weights), L.tree[to])
    ensures forall seg :: seg in segs ==> PricedSegment(snap, weights, seg)
  {
    hide CostNetwork, EdgeTraversalCost, TreeOk, ParentsOk;
    ghost var g := CostNetwork(snap, weights);
    segs, total := [], 0.0;
    var cur := to;
    while cur != from
      invariant cur in L.tree && L.tree[to] == L.tree[cur] + StepsOf(segs)
      invariant total == WalkCost(g, L.tree[to]) - WalkCost(g, L.tree[cur])
      invariant forall seg :: seg in segs ==> PricedSegment(snap, weights, seg)
      decreases |L.tree[cur]|
    {
      ParentIsLastStep(g, from, L, parent, came, cur);
      var prev := parent[cur];
      var ei := came[cur];
      ghost var st := Step(prev, cur, ei);
      CostNetworkMembers(snap, weights, st);
      var e := snap.edges[ei];
      var ec := EdgeTraversalCost(snap.nodes[prev], snap.nodes[cur], e, weights);
      total := total + ec;
      ghost var after := segs;
      segs := [PathSegment(prev, cur, ei, e.edgeType, ec)] + segs;
      assert StepsOf(segs) == [st] + StepsOf(after);
      cur := prev;
    }
    StartIsEmpty(g, from, L);
  }

  lemma StartIsEmpty(g: Network, from: NodeId, L: Labels)
    requires TreeOk(g, from, L)
    ensures from in L.tree && L.tree[from] == [] && WalkCost(g, []) == 0.0
  {
  }

  // ---- Link estimates ------------------------------------------------------------------

  ghost predicate KnownSegment(snap: Snapshot, seg: PathSegment) {
    seg.edgeIndex < |snap.edges| && seg.from in snap.nodes && seg.to in snap.nodes
  }

  function SegmentBandwidth(snap: Snapshot, w: CostWeights, seg: PathSegment): real
    requires KnownSegment(snap, seg)
  {
    BandwidthOf(snap.nodes[seg.to], snap.edges[seg.edgeIndex], w)
  }

  ghost function LatencySum(snap: Snapshot, segs: seq<PathSegment>): real {
    if segs == [] then 0.0
    else
      var seg := segs[|segs| - 1];
      LatencySum(snap, segs[..|segs| - 1]) +
      if KnownSegment(snap, seg) then LatencyOf(snap.nodes[seg.to], snap.edges[seg.edgeIndex]) else 0.0
  }

  // bw is the narrowest link of the path, the reference when there is no link.
  ghost predicate IsBottleneck(snap: Snapshot, w: CostWeights, segs: seq<PathSegment>, bw: real)
    requires forall seg :: seg in segs ==> KnownSegment(snap, seg)
  {
    if segs == [] then bw == w.bandwidthRef
    else
      && (exists seg :: seg in segs && SegmentBandwidth(snap, w, seg) == bw)
      && (forall seg :: seg in segs ==> bw <= SegmentBandwidth(snap, w, seg))
  }

  method EstimateLinks(snap: Snapshot, segs: seq<PathSegment>, w: CostWeights) returns (r: Outcome<(real, real)>)
    requires forall seg :: seg in segs ==> seg.edgeIndex < |snap.edges|
    ensures r.Ok? <==> forall seg :: seg in segs ==> KnownSegment(snap, seg)
    ensures r.Ok? ==> IsBottleneck(snap, w, segs, r.value.0) && r.value.1 == LatencySum(snap, segs)
    ensures r.NotFound? ==> r.id !in snap.nodes && exists seg :: seg in segs && (seg.from == r.id || seg.to == r.id)
  {
    hide BandwidthOf, LatencyOf;
    var bw, lat: real := w.bandwidthRef, 0.0;
    for i := 0 to |segs|
      invariant forall seg :: seg in segs[..i] ==> KnownSegment(snap, seg)
      invariant IsBottleneck(snap, w, segs[..i], bw) && lat == LatencySum(snap, segs[..i])
    {
      var seg := segs[i];
      assert segs[..i + 1] == segs[..i] + [seg];
      assert seg in segs;
      if seg.from !in snap.nodes {
        return NotFound(seg.from);
      }
      if seg.to !in snap.nodes {
        return NotFound(seg.to);
      }
      var vn, e := snap.nodes[seg.to], snap.edges[seg.edgeIndex];
      var eb := BandwidthOf(vn, e, w);
      ghost var narrow := bw;
      bw := if i == 0 || eb < bw then eb else bw;
      lat := lat + LatencyOf(vn, e);
      assert SegmentBandwidth(snap, w, seg) == eb && seg in segs[..i + 1];
      assert i > 0 ==> exists s :: s in segs[..i + 1] && SegmentBandwidth(snap, w, s) == narrow;
    }
    assert segs[..|segs|] == segs;
    r := Ok((bw, lat));
  }

  // ---- Measured links -----------------------------------------------------------------------

  // The link of the segment has a measured, positive bandwidth.
  predicate Metered(snap: Snapshot, seg: PathSegment) {
    seg.edgeIndex < |snap.edges| && snap.edges[seg.edgeIndex].bandwidth.Some? && snap.edges[seg.edgeIndex].bandwidth.value > 0.0
  }

  predicate Timed(snap: Snapshot, seg: PathSegment) {
    seg.edgeIndex < |snap.edges| && snap.edges[seg.edgeIndex].latency.Some?
  }

  // bw is at most every measured bandwidth, and one of them when all links are measured.
  ghost predicate NarrowestMeasured(snap: Snapshot, segs: seq<PathSegment>, bw: real) {
    && (forall seg :: seg in segs && Metered(snap, seg) ==> bw <= snap.edges[seg.edgeIndex].bandwidth.value)
    && (segs != [] && (forall seg :: seg in segs ==> Metered(snap, seg)) ==>
          exists seg :: seg in segs && Metered(snap, seg) && bw == snap.edges[seg.edgeIndex].bandwidth.value)
  }

  ghost function MeasuredLatency(snap: Snapshot, segs: seq<PathSegment>): real {
    if segs == [] then 0.0
    else
      var seg := segs[|segs| - 1];
      MeasuredLatency(snap, segs[..|segs| - 1]) + if Timed(snap, seg) then snap.edges[seg.edgeIndex].latency.value else 0.0
  }

  // What the path reports about its links, read off the edges themselves.
  ghost predicate ReportsLinks(snap: Snapshot, segs: seq<PathSegment>, bw: real, lat: real) {
    && NarrowestMeasured(snap, segs, bw)
    && ((forall seg :: seg in segs ==> Timed(snap, seg)) ==> lat == MeasuredLatency(snap, segs))
  }

  lemma {:induction false} TimedLatency(snap: Snapshot, segs: seq<PathSegment>)
    requires forall seg :: seg in segs ==> KnownSegment(snap, seg) && Timed(snap, seg)
    ensures LatencySum(snap, segs) == MeasuredLatency(snap, segs)
  {
    if segs != [] {
      var n := |segs| - 1;
      assert segs[n] in segs;
      assert forall seg :: seg in segs[..n] ==> seg in segs;
      TimedLatency(snap, segs[..n]);
    }
  }

  lemma EstimatesAreMeasured(snap: Snapshot, segs: seq<PathSegment>, w: CostWeights, bw: real)
    requires segs != [] && (forall seg :: seg in segs ==> KnownSegment(snap, seg)) && IsBottleneck(snap, w, segs, bw)
    ensures ReportsLinks(snap, segs, bw, LatencySum(snap, segs))
  {
    forall seg | seg in segs && Metered(snap, seg)
      ensures SegmentBandwidth(snap, w, seg) == snap.edges[seg.edgeIndex].bandwidth.value
    {
    }
    if forall seg :: seg in segs ==> Timed(snap, seg) {
      TimedLatency(snap, segs);
    }
  }

  // ---- lowest_cost_path -------------------------------------------------------------------

  // What a cheapest path is: priced segments that form a cheapest walk, and its cost plus the
  // penalty charged on the endpoints.
  ghost predicate CheapestPath(snap: Snapshot, w: CostWeights, from: NodeId, to: NodeId, p: Path) {
    && from in snap.nodes && to in snap.nodes
    && IsCheapestWalk(CostNetwork(snap, w), from, to, StepsOf(p.segments))
    && VisitsNoNodeTwice(StepsOf(p.segments))
    && (forall seg :: seg in p.segments ==> PricedSegment(snap, w, seg))
    && p.hopCount == |p.segments|
    && p.totalCost == WalkCost(CostNetwork(snap, w), StepsOf(p.segments)) +
                      EndpointPenalty(snap.nodes[from], snap.nodes[to], w)
  }

  method LowestCostPath(snap: Snapshot, from: NodeId, to: NodeId, weights: CostWeights)
    returns (r: Outcome<Path>, ghost work: SearchWork)
    requires snap.Indexed() && NonNegative(CostNetwork(snap, weights))
    ensures snap.NoDangling() ==> r.Ok?
    ensures r.NotFound? ==> Dangles(snap, r.id)
    ensures r.Ok? ==> r.value.source == from && r.value.destination == to
    ensures r.Ok? ==>
              (r.value.found <==>
               from in snap.nodes && to in snap.nodes && Connected(CostNetwork(snap, weights), from, to))
    ensures r.Ok? && r.value.found ==> CheapestPath(snap, weights, from, to, r.value)
    ensures r.Ok? && r.value.found ==> r.value.policyVersion == weights.version
    ensures r.Ok? && r.value.found && from == to ==> r.value == Path(true, from, to, [], 0, 0.0, 0.0, 0.0, weights.version)
    ensures r.Ok? && r.value.found && from != to ==>
              IsBottleneck(snap, weights, r.value.segments, r.value.bandwidth) &&
              r.value.latency == LatencySum(snap, r.value.segments) &&
              ReportsLinks(snap, r.value.segments, r.value.bandwidth, r.value.latency)
    ensures r.Ok? && !r.value.found ==> r.value == Path(false, from, to, [], 0, 0.0, 0.0, 0.0, 0)
    ensures r.Ok? ==> IsFrugal(snap, work)
  {
    hide CostNetwork, EdgeTraversalCost, TreeOk, ParentsOk, QueueOk, DoneOptimal, RefsOf, IsBottleneck, ReportsLinks;
    ghost var g := CostNetwork(snap, weights);
    work := SearchWork({}, 0, 0);
    if from !in snap.nodes || to !in snap.nodes {
      return Ok(NotFoundPath(from, to)), work;
    }
    if from == to {
      EmptyWalkIsCheapest(g, from);
      r := Ok(Path(true, from, to, [], 0, 0.0, 0.0, 0.0, weights.version));
      return;
    }
    var s, found;
    ghost var L;
    s, found, L, work := CostSearch(snap, from, to, weights);
    if s.NotFound? {
      return NotFound(s.id), work;
    }
    if !found {
      return Ok(NotFoundPath(from, to)), work;
    }
    var segs, total := TraceCosts(snap, weights, from, to, s.value.parent, s.value.came, L);
    LabelledWalksAreSimple(g, from, L, to);
    var estimate := EstimateLinks(snap, segs, weights);
    assert segs != [] && forall seg :: seg in segs ==> KnownSegment(snap, seg);
    EstimatesAreMeasured(snap, segs, weights, estimate.value.0);
    r := Ok(Path(true, from, to, segs, |segs|, total + EndpointPenalty(snap.nodes[from], snap.nodes[to], weights),
                 estimate.value.0, estimate.value.1, weights.version));
  }

  lemma EmptyWalkIsCheapest(g: Network, a: NodeId)
    requires NonNegative(g)
    ensures IsCheapestWalk(g, a, a, []) && StepsOf([]) == [] && Connected(g, a, a)
    ensures WalkCost(g, []) == 0.0 && VisitsNoNodeTwice([])
  {
    forall v | IsWalk(g, a, a, v)
      ensures WalkCost(g, v) >= 0.0
    {
      WalkCostNonNegative(g, v);
    }
    assert IsWalk(g, a, a, []);
  }
}
