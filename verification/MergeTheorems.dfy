// What a merge guarantees.

module MergeTheorems {
  import opened Types
  import opened Sorting
  import opened Ordering
  import opened Identity
  import opened Containment
  import opened Builder
  import opened Merge
  import opened MergeGraph

  ghost predicate FewGroups(cs: seq<Contribution>, bounds: Bounds) {
    |KeysOf(FlatMembers(cs))| <= bounds.maxNodes
  }

  ghost predicate InjectiveOn(derive: string -> NodeId, keys: set<string>) {
    forall a, b :: a in keys && b in keys && derive(a) == derive(b) ==> a == b
  }

  // In no group do members complete a PCI address that none of them has.
  ghost predicate AddressesStandAlone(cs: seq<Contribution>, bounds: Bounds) {
    forall k :: !CompletesAddress(Best(Ingested(cs, bounds.maxNodes), k))
  }

  // Members that report their addresses whole leave nothing to complete.
  lemma WholeAddressesStandAlone(cs: seq<Contribution>, bounds: Bounds)
    requires forall m :: m in FlatMembers(cs) ==> WholePci(m.node.native)
    ensures AddressesStandAlone(cs, bounds)
  {
    hide GroupKey, Best, Ingested, FlatMembers, WholePci, CompletesAddress;
    var ms := Ingested(cs, bounds.maxNodes);
    IngestedAreContributed(cs, bounds.maxNodes);
    forall k
      ensures !CompletesAddress(Best(ms, k))
    {
      BestMembers(ms, k);
      WholeAddressesKeepTheKey(Best(ms, k));
    }
  }

  lemma OrderIsDistinct(keys: set<string>, order: seq<string>)
    requires IsKeyOrder(keys, order)
    ensures AllDistinct(order) && |order| == |keys|
  {
    KeyOrderSize(keys, order);
    OrderedIsDistinct(order);
  }

  lemma {:induction false} IngestedAreContributed(cs: seq<Contribution>, maxNodes: nat)
    ensures forall m :: m in Ingested(cs, maxNodes) ==> m in FlatMembers(cs)
  {
    if cs != [] {
      var n := |cs| - 1;
      IngestedAreContributed(cs[..n], maxNodes);
      TakenAreGiven(Ingested(cs[..n], maxNodes), MembersOf(cs[n], n), maxNodes);
    }
  }

  lemma {:induction false} TakenAreGiven(ms: seq<Member>, more: seq<Member>, maxNodes: nat)
    ensures forall m :: m in TakeMembers(ms, more, maxNodes) ==> m in ms || m in more
    decreases |more|
  {
    hide GroupKey;
    if more != [] {
      TakenAreGiven(ms + [more[0]], more[1..], maxNodes);
      assert more == [more[0]] + more[1..];
    }
  }

  // ---- No dangling edges -----------------------------------------------------------

  // x is a group's node, or stands for a dropped group.
  ghost predicate Resolution(nodes: map<NodeId, Node>, x: NodeId) {
    x in nodes || x == NULL_NODE_ID
  }

  lemma RefsResolve(derive: string -> NodeId, ms: seq<Member>, order: seq<string>, maxNodes: nat, refs: map<string, NodeId>, r: string)
    requires AllDistinct(order)
    requires ByVisitOrder(ms, TableOf(derive, ms, order, maxNodes).ids, refs) && r in refs
    ensures Resolution(TableOf(derive, ms, order, maxNodes).nodes, refs[r])
    ensures KeysOf(ms) <= TableOf(derive, ms, order, maxNodes).ids.Keys ==> refs[r] in TableOf(derive, ms, order, maxNodes).nodes
  {
    hide GroupKey, TableOf, ByVisitOrder;
    TableFacts(derive, ms, order, maxNodes);
    var t := TableOf(derive, ms, order, maxNodes);
    VisitedRefs(ms, t.ids, refs);
    if r !in t.ids {
      assert Declares(ms, t.ids, r, refs[r]);
    }
  }

  lemma {:induction false} EdgesResolve(refs: map<string, NodeId>, es: seq<ContributedEdge>, e: Edge)
    requires e in Resolved(refs, es)
    ensures exists a, b :: a in refs && b in refs && refs[a] == e.source && refs[b] == e.target
  {
    if es != [] {
      var n := |es| - 1;
      if e in Resolved(refs, es[..n]) {
        EdgesResolve(refs, es[..n], e);
      } else {
        assert es[n].fromRef in refs && es[n].toRef in refs;
      }
    }
  }

  lemma MergedEdgesResolve(refs: map<string, NodeId>, es: seq<ContributedEdge>, n: nat, e: Edge)
    requires e in Dedup(Take(Resolved(refs, es), n))
    ensures exists a, b :: a in refs && b in refs && refs[a] == e.source && refs[b] == e.target
  {
    DedupFacts(Take(Resolved(refs, es), n));
    EdgesResolve(refs, es, e);
  }

  // When no group is dropped, every edge joins nodes of the merged graph.
  lemma MergeLeavesNoDanglingEdge(derive: string -> NodeId, cs: seq<Contribution>, bounds: Bounds, g: MergedGraph)
    requires IsMerge(derive, cs, bounds, g) && FewGroups(cs, bounds)
    ensures AllEndpointsKnown(g.nodes, g.edges)
  {
    hide GroupKey, TableOf, Resolved, Dedup, Take, ByVisitOrder;
    var order, refs :| MergedAs(derive, cs, bounds, order, refs, g);
    IngestsEverything(cs, bounds.maxNodes);
    var ms := Ingested(cs, bounds.maxNodes);
    OrderIsDistinct(KeysOf(ms), order);
    forall k | k in order
      ensures Best(ms, k) != []
    {
      BestMembers(ms, k);
    }
    TableComplete(derive, ms, order, bounds.maxNodes);
    forall e | e in g.edges
      ensures e.source in g.nodes && e.target in g.nodes
    {
      MergedEdgesResolve(refs, FlatEdges(cs), bounds.maxEdges, e);
      var a, b :| a in refs && b in refs && refs[a] == e.source && refs[b] == e.target;
      RefsResolve(derive, ms, order, bounds.maxNodes, refs, a);
      RefsResolve(derive, ms, order, bounds.maxNodes, refs, b);
    }
  }

  // ---- Distinct identities ------------------------------------------------------------

  // The merged node of a group reports the group's key, or nothing.
  lemma MergedNodeKey(ms: seq<Member>, k: string, id: NodeId)
    requires Best(ms, k) != [] && !CompletesAddress(Best(ms, k))
    ensures k != ""
    ensures CanonicalKey(MergedNode(id, Best(ms, k)).native) == "" || CanonicalKey(MergedNode(id, Best(ms, k)).native) == k
  {
    hide CanonicalKey, GroupKey, MergedNative, Best, CompletesAddress;
    BestMembers(ms, k);
    MergedKeyIsGroupKey(Best(ms, k), k);
  }

  // When no group completes an address, no two merged nodes report the same identity.
  lemma MergedIdentitiesAreDistinct(derive: string -> NodeId, cs: seq<Contribution>, bounds: Bounds, g: MergedGraph)
    requires IsMerge(derive, cs, bounds, g) && AddressesStandAlone(cs, bounds)
    ensures IdentitiesDistinct(g.nodes)
  {
    hide CanonicalKey, GroupKey, TableOf, MergedNode, Best, Resolved, Dedup, ByVisitOrder, FlatMembers, Ingested, CompletesAddress;
    var order, refs :| MergedAs(derive, cs, bounds, order, refs, g);
    var ms := Ingested(cs, bounds.maxNodes);
    OrderIsDistinct(KeysOf(ms), order);
    TableFacts(derive, ms, order, bounds.maxNodes);
    var t := TableOf(derive, ms, order, bounds.maxNodes);
    forall a, b | SameIdentity(g.nodes, a, b)
      ensures false
    {
      assert HasGroup(ms, t, a) && HasGroup(ms, t, b);
      var k :| k in t.ids && t.ids[k] == a && Best(ms, k) != [] && t.nodes[a] == MergedNode(a, Best(ms, k));
      var l :| l in t.ids && t.ids[l] == b && Best(ms, l) != [] && t.nodes[b] == MergedNode(b, Best(ms, l));
      MergedNodeKey(ms, k, a);
      MergedNodeKey(ms, l, b);
    }
  }

  // Hence validation of a merge within bounds can only complain about containment cycles.
  lemma MergeThenValidate(derive: string -> NodeId, cs: seq<Contribution>, bounds: Bounds, g: MergedGraph)
    requires IsMerge(derive, cs, bounds, g) && FewGroups(cs, bounds) && AddressesStandAlone(cs, bounds)
    ensures WellFormedGraph(g.nodes, g.edges) <==> !HasCycle(g.edges)
  {
    hide IsMerge, HasCycle, AddressesStandAlone, FewGroups;
    MergeLeavesNoDanglingEdge(derive, cs, bounds, g);
    MergedIdentitiesAreDistinct(derive, cs, bounds, g);
  }

  // Injective ids: the merged graph has one node for every group.
  lemma OneNodePerGroup(derive: string -> NodeId, cs: seq<Contribution>, bounds: Bounds, g: MergedGraph, k: string)
    requires IsMerge(derive, cs, bounds, g) && FewGroups(cs, bounds)
    requires InjectiveOn(derive, KeysOf(FlatMembers(cs))) && k in KeysOf(FlatMembers(cs))
    ensures Best(FlatMembers(cs), k) != []
    ensures derive(k) in g.nodes && g.nodes[derive(k)] == MergedNode(derive(k), Best(FlatMembers(cs), k))
  {
    hide GroupKey, TableOf, MergedNode, Best, Resolved, Dedup, ByVisitOrder;
    var order, refs :| MergedAs(derive, cs, bounds, order, refs, g);
    IngestsEverything(cs, bounds.maxNodes);
    var ms := FlatMembers(cs);
    OrderIsDistinct(KeysOf(ms), order);
    forall x | x in order
      ensures Best(ms, x) != []
    {
      BestMembers(ms, x);
    }
    TableFacts(derive, ms, order, bounds.maxNodes);
    TableComplete(derive, ms, order, bounds.maxNodes);
    var t := TableOf(derive, ms, order, bounds.maxNodes);
    assert k in order && k in t.ids;
    assert HasGroup(ms, t, derive(k));
  }
}
