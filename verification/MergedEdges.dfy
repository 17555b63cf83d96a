// Where the edges of a merge come from.

module MergedEdges {
  import opened Types
  import opened Ordering
  import opened Merge
  import opened MergeGraph
  import opened MergeTheorems
  import opened MergeOrder
  import opened MergeEdges

  // ---- What a reference means -------------------------------------------------------------

  // The node of a kept group, or of the group of some member that declares the reference; a
  // dropped group has the null id.
  ghost predicate Means(derive: string -> NodeId, cs: seq<Contribution>, bounds: Bounds, r: string, id: NodeId) {
    var kept := KeptIds(derive, cs, bounds).Keys;
    if r in kept then id == derive(r)
    else exists m :: m in Ingested(cs, bounds.maxNodes) && m.node.ref == r &&
                     id == if GroupKey(m.node) in kept then derive(GroupKey(m.node)) else NULL_NODE_ID
  }

  lemma KeptIdsAreDerived(derive: string -> NodeId, cs: seq<Contribution>, bounds: Bounds)
    ensures forall k :: k in KeptIds(derive, cs, bounds) ==> KeptIds(derive, cs, bounds)[k] == derive(k)
  {
    hide TableOf, Best, GroupKey, MergedNode;
    var ms := Ingested(cs, bounds.maxNodes);
    var order := KeyOrder(KeysOf(ms));
    OrderIsDistinct(KeysOf(ms), order);
    TableFacts(derive, ms, order, bounds.maxNodes);
  }

  lemma ResolvedMeans(derive: string -> NodeId, cs: seq<Contribution>, bounds: Bounds, refs: map<string, NodeId>, r: string)
    requires Admissible(derive, cs, bounds, refs) && r in refs
    ensures Means(derive, cs, bounds, r, refs[r])
  {
    hide GroupKey, KeptIds, Ingested, ByVisitOrder;
    var ms, ids := Ingested(cs, bounds.maxNodes), KeptIds(derive, cs, bounds);
    KeptIdsAreDerived(derive, cs, bounds);
    VisitedRefs(ms, ids, refs);
    if r !in ids {
      assert Declares(ms, ids, r, refs[r]);
      var m :| m in ms && m.node.ref == r && IdOf(ids, GroupKey(m.node)) == refs[r];
    }
  }

  // ---- Origins -----------------------------------------------------------------------------

  // Everything the edge says was contributed, but for what no contribution can say.
  predicate CarriesOver(e: Edge, ce: ContributedEdge) {
    && e.edgeType == ce.edgeType && e.direction == ce.direction && e.provenance == ce.provenance && e.confidence == ce.confidence
    && e.width == ce.width && e.pcieGeneration == ce.pcieGeneration && e.bandwidth == ce.bandwidth && e.latency == ce.latency
    && e.hopCount == ce.hopCount && e.peerCapability == ce.peerCapability && e.properties == ce.properties
    && e.localityScore == None && e.accessible && e.policyVersion == 0
  }

  ghost predicate Joined(derive: string -> NodeId, cs: seq<Contribution>, bounds: Bounds, ce: ContributedEdge, s: NodeId, t: NodeId) {
    Means(derive, cs, bounds, ce.fromRef, s) && Means(derive, cs, bounds, ce.toRef, t)
  }

  lemma UsedAreContributed(derive: string -> NodeId, cs: seq<Contribution>, bounds: Bounds, ce: ContributedEdge)
    requires ce in UsedEdges(derive, cs, bounds)
    ensures ce in FlatEdges(cs)
  {
    hide KnownRefs, KeptIds, Ingested;
    UsableAreGiven(KnownRefs(Ingested(cs, bounds.maxNodes), KeptIds(derive, cs, bounds)), FlatEdges(cs), ce);
  }

  lemma {:induction false} UsableAreGiven(known: set<string>, es: seq<ContributedEdge>, ce: ContributedEdge)
    requires ce in Usable(known, es)
    ensures ce in es
  {
    var n := |es| - 1;
    if ce in Usable(known, es[..n]) {
      UsableAreGiven(known, es[..n], ce);
    }
  }

  // Every merged edge comes from a contributed one: it runs from what that edge's first reference
  // means to what its second means, and says the same.
  lemma MergedEdgeHasOrigin(derive: string -> NodeId, cs: seq<Contribution>, bounds: Bounds, g: MergedGraph, e: Edge)
    requires IsMerge(derive, cs, bounds, g) && e in g.edges
    ensures exists ce :: ce in FlatEdges(cs) && CarriesOver(e, ce) && Joined(derive, cs, bounds, ce, e.source, e.target)
  {
    hide IsMerge, UsedEdges, Ingested, KeptIds, Admissible, TableOf, TableConflicts, Resolved, Take, Dedup, Means;
    MergesAreChoices(derive, cs, bounds, g);
    var refs :| Admissible(derive, cs, bounds, refs) && g == MergeUnder(derive, cs, bounds, refs);
    var us := UsedEdges(derive, cs, bounds);
    var es := Take(Resolved(refs, FlatEdges(cs)), bounds.maxEdges);
    ChosenEdges(derive, cs, bounds, refs);
    DedupFacts(es);
    assert e in es;
    var i :| 0 <= i < |es| && es[i] == e;
    var ce := us[i];
    assert ce in us;
    UsedAreContributed(derive, cs, bounds, ce);
    ResolvedMeans(derive, cs, bounds, refs, ce.fromRef);
    ResolvedMeans(derive, cs, bounds, refs, ce.toRef);
  }

  // The edge joins the two ids, in either order if one side is undirected.
  predicate Connects(e: Edge, direction: EdgeDirection, s: NodeId, t: NodeId) {
    || (e.source == s && e.target == t)
    || (e.source == t && e.target == s && (e.direction == Undirected || direction == Undirected))
  }

  lemma SameKeySameLink(a: Edge, b: Edge)
    requires KeyOf(a) == KeyOf(b)
    ensures a.edgeType == b.edgeType && Connects(a, b.direction, b.source, b.target)
  {
  }

  // Every used edge leaves one: of its type, between what its references mean.
  lemma UsedEdgeSurvives(derive: string -> NodeId, cs: seq<Contribution>, bounds: Bounds, g: MergedGraph, ce: ContributedEdge)
    requires IsMerge(derive, cs, bounds, g) && ce in UsedEdges(derive, cs, bounds)
    ensures exists e, s, t :: e in g.edges && e.edgeType == ce.edgeType && Joined(derive, cs, bounds, ce, s, t) && Connects(e, ce.direction, s, t)
  {
    hide IsMerge, UsedEdges, Ingested, KeptIds, Admissible, TableOf, TableConflicts, Resolved, Take, Dedup, Means;
    MergesAreChoices(derive, cs, bounds, g);
    var refs :| Admissible(derive, cs, bounds, refs) && g == MergeUnder(derive, cs, bounds, refs);
    var us := UsedEdges(derive, cs, bounds);
    var es := Take(Resolved(refs, FlatEdges(cs)), bounds.maxEdges);
    ChosenEdges(derive, cs, bounds, refs);
    var i :| 0 <= i < |us| && us[i] == ce;
    assert es[i] in es;
    DedupFacts(es);
    assert KeyOf(es[i]) in EdgeKeys(es);
    var e :| e in g.edges && KeyOf(e) == KeyOf(es[i]);
    SameKeySameLink(e, es[i]);
    ResolvedMeans(derive, cs, bounds, refs, ce.fromRef);
    ResolvedMeans(derive, cs, bounds, refs, ce.toRef);
    assert Connects(e, ce.direction, refs[ce.fromRef], refs[ce.toRef]);
  }

  // No link is left twice: two edges of one type never run the same way between the same nodes,
  // and two undirected ones never join the same nodes.
  lemma NoLinkTwice(derive: string -> NodeId, cs: seq<Contribution>, bounds: Bounds, g: MergedGraph, i: nat, j: nat)
    requires IsMerge(derive, cs, bounds, g) && i < j < |g.edges| && g.edges[i].edgeType == g.edges[j].edgeType
    requires g.edges[i].direction == g.edges[j].direction
    ensures !(g.edges[i].source == g.edges[j].source && g.edges[i].target == g.edges[j].target)
    ensures g.edges[i].direction == Undirected ==> !(g.edges[i].source == g.edges[j].target && g.edges[i].target == g.edges[j].source)
  {
    hide TableOf, Resolved, Dedup, Take, ByVisitOrder, TableConflicts, Ingested;
    var order, refs :| MergedAs(derive, cs, bounds, order, refs, g);
    DedupFacts(Take(Resolved(refs, FlatEdges(cs)), bounds.maxEdges));
    assert KeyOf(g.edges[i]) != KeyOf(g.edges[j]);
  }
}
