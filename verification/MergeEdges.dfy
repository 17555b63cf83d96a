// Which edges a merge can produce.

module MergeEdges {
  import opened Types
  import opened Ordering
  import opened Builder
  import opened Merge
  import opened MergeGraph
  import opened MergeTheorems
  import opened MergeOrder

  // ---- The outcomes of a merge ---------------------------------------------------------

  // The outcome under one choice of what the references mean.
  ghost function MergeUnder(derive: string -> NodeId, cs: seq<Contribution>, bounds: Bounds, refs: map<string, NodeId>): MergedGraph {
    var ms := Ingested(cs, bounds.maxNodes);
    var order := KeyOrder(KeysOf(ms));
    MergedGraph(TableOf(derive, ms, order, bounds.maxNodes).nodes,
                Dedup(Take(Resolved(refs, FlatEdges(cs)), bounds.maxEdges)),
                TableConflicts(derive, ms, order, bounds.maxNodes), |FlatMembers(cs)|)
  }

  // What an order of the hash map makes the references mean.
  ghost predicate Admissible(derive: string -> NodeId, cs: seq<Contribution>, bounds: Bounds, refs: map<string, NodeId>) {
    ByVisitOrder(Ingested(cs, bounds.maxNodes), KeptIds(derive, cs, bounds), refs)
  }

  // The merges are exactly the outcomes of the orders in which the hash map may give the groups.
  lemma MergesAreChoices(derive: string -> NodeId, cs: seq<Contribution>, bounds: Bounds, g: MergedGraph)
    ensures IsMerge(derive, cs, bounds, g) <==>
            exists refs :: Admissible(derive, cs, bounds, refs) && g == MergeUnder(derive, cs, bounds, refs)
  {
    hide TableOf, Resolved, Dedup, Take, ByVisitOrder, TableConflicts;
    var ms := Ingested(cs, bounds.maxNodes);
    if IsMerge(derive, cs, bounds, g) {
      var order, refs :| MergedAs(derive, cs, bounds, order, refs, g);
      KeyOrderIsUnique(KeysOf(ms), order, KeyOrder(KeysOf(ms)));
      assert Admissible(derive, cs, bounds, refs);
    }
    if refs :| Admissible(derive, cs, bounds, refs) && g == MergeUnder(derive, cs, bounds, refs) {
      assert MergedAs(derive, cs, bounds, KeyOrder(KeysOf(ms)), refs, g);
    }
  }

  // ---- The edges in use ---------------------------------------------------------------------

  // The edges whose references are both known.
  function Usable(known: set<string>, es: seq<ContributedEdge>): seq<ContributedEdge> {
    if es == [] then []
    else
      var e := es[|es| - 1];
      Usable(known, es[..|es| - 1]) + if e.fromRef in known && e.toRef in known then [e] else []
  }

  // The first usable edges, up to the bound.
  ghost function UsedEdges(derive: string -> NodeId, cs: seq<Contribution>, bounds: Bounds): seq<ContributedEdge> {
    Take(Usable(KnownRefs(Ingested(cs, bounds.maxNodes), KeptIds(derive, cs, bounds)), FlatEdges(cs)), bounds.maxEdges)
  }

  lemma {:induction false} UsableAreResolved(refs: map<string, NodeId>, es: seq<ContributedEdge>)
    ensures var us := Usable(refs.Keys, es);
            && |us| == |Resolved(refs, es)|
            && forall i :: 0 <= i < |us| ==>
                 && us[i].fromRef in refs && us[i].toRef in refs
                 && Resolved(refs, es)[i] == EdgeBetween(refs[us[i].fromRef], refs[us[i].toRef], us[i])
  {
    hide EdgeBetween;
    if es != [] {
      UsableAreResolved(refs, es[..|es| - 1]);
    }
  }

  // Before deduplication, edge by edge: the used edges, joined as the references say.
  lemma ChosenEdges(derive: string -> NodeId, cs: seq<Contribution>, bounds: Bounds, refs: map<string, NodeId>)
    requires Admissible(derive, cs, bounds, refs)
    ensures var us := UsedEdges(derive, cs, bounds);
            var es := Take(Resolved(refs, FlatEdges(cs)), bounds.maxEdges);
            && |es| == |us|
            && forall i :: 0 <= i < |us| ==>
                 && us[i].fromRef in refs && us[i].toRef in refs
                 && es[i] == EdgeBetween(refs[us[i].fromRef], refs[us[i].toRef], us[i])
  {
    hide ByVisitOrder, KnownRefs, Usable, Resolved, EdgeBetween, KeptIds, Ingested;
    VisitedRefs(Ingested(cs, bounds.maxNodes), KeptIds(derive, cs, bounds), refs);
    UsableAreResolved(refs, FlatEdges(cs));
  }

  // ---- Dangling edges -------------------------------------------------------------------------

  // A key of a kept group, or a reference that only members of kept groups declare.
  ghost predicate Lasting(ms: seq<Member>, ids: map<string, NodeId>, r: string) {
    r in ids || forall m :: m in ms && m.node.ref == r ==> GroupKey(m.node) in ids
  }

  ghost predicate AllLasting(derive: string -> NodeId, cs: seq<Contribution>, bounds: Bounds) {
    forall e :: e in UsedEdges(derive, cs, bounds) ==>
                  && Lasting(Ingested(cs, bounds.maxNodes), KeptIds(derive, cs, bounds), e.fromRef)
                  && Lasting(Ingested(cs, bounds.maxNodes), KeptIds(derive, cs, bounds), e.toRef)
  }

  lemma KeptIdsFacts(derive: string -> NodeId, cs: seq<Contribution>, bounds: Bounds, refs: map<string, NodeId>)
    ensures var nodes := MergeUnder(derive, cs, bounds, refs).nodes;
            && (forall k :: k in KeptIds(derive, cs, bounds) ==> KeptIds(derive, cs, bounds)[k] in nodes)
            && (forall id :: id in nodes ==> exists k :: derive(k) == id)
  {
    hide TableOf, Resolved, Dedup, Take, MergedNode, Best, GroupKey, TableConflicts;
    var ms := Ingested(cs, bounds.maxNodes);
    var order := KeyOrder(KeysOf(ms));
    OrderIsDistinct(KeysOf(ms), order);
    TableFacts(derive, ms, order, bounds.maxNodes);
    var t := TableOf(derive, ms, order, bounds.maxNodes);
    forall id | id in t.nodes
      ensures exists k :: derive(k) == id
    {
      assert HasGroup(ms, t, id);
    }
  }

  // A lasting reference means a node of the merge, however it is resolved.
  lemma LastingResolves(derive: string -> NodeId, cs: seq<Contribution>, bounds: Bounds, refs: map<string, NodeId>, r: string)
    requires Admissible(derive, cs, bounds, refs) && r in refs
    requires Lasting(Ingested(cs, bounds.maxNodes), KeptIds(derive, cs, bounds), r)
    ensures refs[r] in MergeUnder(derive, cs, bounds, refs).nodes
  {
    hide GroupKey, KeptIds, MergeUnder, Ingested, ByVisitOrder;
    KeptIdsFacts(derive, cs, bounds, refs);
    VisitedRefs(Ingested(cs, bounds.maxNodes), KeptIds(derive, cs, bounds), refs);
    if r !in KeptIds(derive, cs, bounds) {
      assert Declares(Ingested(cs, bounds.maxNodes), KeptIds(derive, cs, bounds), r, refs[r]);
    }
  }

  lemma LastingEdgesAreKnown(derive: string -> NodeId, cs: seq<Contribution>, bounds: Bounds, refs: map<string, NodeId>)
    requires Admissible(derive, cs, bounds, refs) && AllLasting(derive, cs, bounds)
    ensures var g := MergeUnder(derive, cs, bounds, refs); AllEndpointsKnown(g.nodes, g.edges)
  {
    hide Admissible, UsedEdges, Lasting, Resolved, Take, Ingested, KeptIds;
    var g := MergeUnder(derive, cs, bounds, refs);
    var us := UsedEdges(derive, cs, bounds);
    var es := Take(Resolved(refs, FlatEdges(cs)), bounds.maxEdges);
    ChosenEdges(derive, cs, bounds, refs);
    DedupFacts(es);
    forall e | e in g.edges
      ensures e.source in g.nodes && e.target in g.nodes
    {
      assert e in es;
      var i :| 0 <= i < |es| && es[i] == e;
      assert us[i] in us;
      LastingResolves(derive, cs, bounds, refs, us[i].fromRef);
      LastingResolves(derive, cs, bounds, refs, us[i].toRef);
    }
  }

  // In some order, a reference that is not lasting means the null id.
  lemma FadingResolvesToNull(ms: seq<Member>, ids: map<string, NodeId>, r: string)
    requires !Lasting(ms, ids, r)
    ensures exists refs :: ByVisitOrder(ms, ids, refs) && r in refs && refs[r] == NULL_NODE_ID
  {
    hide GroupKey, ByVisitOrder;
    var m :| m in ms && m.node.ref == r && GroupKey(m.node) !in ids;
    AnyDeclarerDecides(ms, ids, m);
  }

  // Deduplication keeps an edge at the null id: equal keys share it.
  lemma NullSurvives(es: seq<Edge>, i: nat)
    requires i < |es| && (es[i].source == NULL_NODE_ID || es[i].target == NULL_NODE_ID)
    ensures exists e :: e in Dedup(es) && (e.source == NULL_NODE_ID || e.target == NULL_NODE_ID)
  {
    hide Dedup;
    DedupFacts(es);
    assert es[i] in es && KeyOf(es[i]) in EdgeKeys(es);
    assert KeyOf(es[i]) in EdgeKeys(Dedup(es));
    var e :| e in Dedup(es) && KeyOf(e) == KeyOf(es[i]);
  }

  lemma FadingEdgeDangles(derive: string -> NodeId, cs: seq<Contribution>, bounds: Bounds, e: ContributedEdge, r: string)
    requires forall k :: derive(k) != NULL_NODE_ID
    requires e in UsedEdges(derive, cs, bounds) && (r == e.fromRef || r == e.toRef)
    requires !Lasting(Ingested(cs, bounds.maxNodes), KeptIds(derive, cs, bounds), r)
    ensures exists g :: IsMerge(derive, cs, bounds, g) && !AllEndpointsKnown(g.nodes, g.edges)
  {
    hide UsedEdges, Lasting, Resolved, Take, Ingested, KeptIds, ByVisitOrder, IsMerge, Dedup;
    FadingResolvesToNull(Ingested(cs, bounds.maxNodes), KeptIds(derive, cs, bounds), r);
    var refs :| Admissible(derive, cs, bounds, refs) && r in refs && refs[r] == NULL_NODE_ID;
    var g := MergeUnder(derive, cs, bounds, refs);
    var es := Take(Resolved(refs, FlatEdges(cs)), bounds.maxEdges);
    ChosenEdges(derive, cs, bounds, refs);
    var i :| 0 <= i < |UsedEdges(derive, cs, bounds)| && UsedEdges(derive, cs, bounds)[i] == e;
    NullSurvives(es, i);
    KeptIdsFacts(derive, cs, bounds, refs);
    MergesAreChoices(derive, cs, bounds, g);
  }

  // No run leaves a dangling edge exactly when every reference of a used edge is a key of a kept
  // group or is declared by members of kept groups only.
  lemma NoDanglingExactly(derive: string -> NodeId, cs: seq<Contribution>, bounds: Bounds)
    requires forall k :: derive(k) != NULL_NODE_ID
    ensures (forall g :: IsMerge(derive, cs, bounds, g) ==> AllEndpointsKnown(g.nodes, g.edges)) <==> AllLasting(derive, cs, bounds)
  {
    hide IsMerge, UsedEdges, Lasting, MergeUnder, Ingested, KeptIds, AllEndpointsKnown, Admissible;
    if AllLasting(derive, cs, bounds) {
      forall g | IsMerge(derive, cs, bounds, g)
        ensures AllEndpointsKnown(g.nodes, g.edges)
      {
        MergesAreChoices(derive, cs, bounds, g);
        var refs :| Admissible(derive, cs, bounds, refs) && g == MergeUnder(derive, cs, bounds, refs);
        LastingEdgesAreKnown(derive, cs, bounds, refs);
      }
    } else {
      var ms, ids := Ingested(cs, bounds.maxNodes), KeptIds(derive, cs, bounds);
      var e :| e in UsedEdges(derive, cs, bounds) && !(Lasting(ms, ids, e.fromRef) && Lasting(ms, ids, e.toRef));
      FadingEdgeDangles(derive, cs, bounds, e, if Lasting(ms, ids, e.fromRef) then e.toRef else e.fromRef);
    }
  }

  // ---- Determinism ------------------------------------------------------------------------------

  // A key of a kept group, or a reference whose declaring members all belong to one node.
  ghost predicate Settled(ms: seq<Member>, ids: map<string, NodeId>, r: string) {
    r in ids || forall x, y :: Declares(ms, ids, r, x) && Declares(ms, ids, r, y) ==> x == y
  }

  ghost predicate AllSettled(derive: string -> NodeId, cs: seq<Contribution>, bounds: Bounds) {
    forall e :: e in UsedEdges(derive, cs, bounds) ==>
                  && Settled(Ingested(cs, bounds.maxNodes), KeptIds(derive, cs, bounds), e.fromRef)
                  && Settled(Ingested(cs, bounds.maxNodes), KeptIds(derive, cs, bounds), e.toRef)
  }

  // The resolved edges before deduplication.
  ghost function EdgesUnder(cs: seq<Contribution>, bounds: Bounds, refs: map<string, NodeId>): seq<Edge> {
    Take(Resolved(refs, FlatEdges(cs)), bounds.maxEdges)
  }

  lemma SettledAgree(ms: seq<Member>, ids: map<string, NodeId>, a: map<string, NodeId>, b: map<string, NodeId>, r: string)
    requires RefsOk(ms, ids, a) && RefsOk(ms, ids, b) && Settled(ms, ids, r) && r in a && r in b
    ensures a[r] == b[r]
  {
    hide Declares, GroupKey;
  }

  lemma SettledEdgesAgree(derive: string -> NodeId, cs: seq<Contribution>, bounds: Bounds, a: map<string, NodeId>, b: map<string, NodeId>)
    requires AllSettled(derive, cs, bounds) && Admissible(derive, cs, bounds, a) && Admissible(derive, cs, bounds, b)
    ensures EdgesUnder(cs, bounds, a) == EdgesUnder(cs, bounds, b)
  {
    hide UsedEdges, Settled, Ingested, KeptIds, ByVisitOrder, RefsOk, Resolved, Take;
    var us := UsedEdges(derive, cs, bounds);
    VisitedRefs(Ingested(cs, bounds.maxNodes), KeptIds(derive, cs, bounds), a);
    VisitedRefs(Ingested(cs, bounds.maxNodes), KeptIds(derive, cs, bounds), b);
    ChosenEdges(derive, cs, bounds, a);
    ChosenEdges(derive, cs, bounds, b);
    forall i | 0 <= i < |us|
      ensures EdgesUnder(cs, bounds, a)[i] == EdgesUnder(cs, bounds, b)[i]
    {
      assert us[i] in us;
      SettledAgree(Ingested(cs, bounds.maxNodes), KeptIds(derive, cs, bounds), a, b, us[i].fromRef);
      SettledAgree(Ingested(cs, bounds.maxNodes), KeptIds(derive, cs, bounds), a, b, us[i].toRef);
    }
  }

  // A used reference that is not settled gives two runs whose lists differ at its edge.
  lemma UnsettledEdgesDiffer(derive: string -> NodeId, cs: seq<Contribution>, bounds: Bounds, i: nat, r: string)
    requires i < |UsedEdges(derive, cs, bounds)|
    requires r == UsedEdges(derive, cs, bounds)[i].fromRef || r == UsedEdges(derive, cs, bounds)[i].toRef
    requires !Settled(Ingested(cs, bounds.maxNodes), KeptIds(derive, cs, bounds), r)
    ensures exists a, b :: DifferAt(derive, cs, bounds, a, b, i)
  {
    hide UsedEdges, Ingested, KeptIds, ByVisitOrder, Resolved, Take, Declares;
    var ms, ids := Ingested(cs, bounds.maxNodes), KeptIds(derive, cs, bounds);
    var x, y :| Declares(ms, ids, r, x) && Declares(ms, ids, r, y) && x != y;
    AnyMeaning(ms, ids, r, x);
    AnyMeaning(ms, ids, r, y);
    var a :| Admissible(derive, cs, bounds, a) && r in a && a[r] == x;
    var b :| Admissible(derive, cs, bounds, b) && r in b && b[r] == y;
    ChosenEdges(derive, cs, bounds, a);
    ChosenEdges(derive, cs, bounds, b);
    assert DifferAt(derive, cs, bounds, a, b, i);
  }

  ghost predicate DifferAt(derive: string -> NodeId, cs: seq<Contribution>, bounds: Bounds, a: map<string, NodeId>, b: map<string, NodeId>,
                           i: nat)
  {
    && Admissible(derive, cs, bounds, a) && Admissible(derive, cs, bounds, b)
    && i < |EdgesUnder(cs, bounds, a)| && i < |EdgesUnder(cs, bounds, b)|
    && EdgesUnder(cs, bounds, a)[i] != EdgesUnder(cs, bounds, b)[i]
  }

  // All runs resolve the same edges exactly when every reference of a used edge is settled.
  lemma EdgesDecidedExactly(derive: string -> NodeId, cs: seq<Contribution>, bounds: Bounds)
    ensures AllSettled(derive, cs, bounds) <==>
            forall a, b :: Admissible(derive, cs, bounds, a) && Admissible(derive, cs, bounds, b) ==>
                             EdgesUnder(cs, bounds, a) == EdgesUnder(cs, bounds, b)
  {
    hide UsedEdges, Settled, Ingested, KeptIds, EdgesUnder, Admissible;
    if AllSettled(derive, cs, bounds) {
      forall a, b | Admissible(derive, cs, bounds, a) && Admissible(derive, cs, bounds, b)
        ensures EdgesUnder(cs, bounds, a) == EdgesUnder(cs, bounds, b)
      {
        SettledEdgesAgree(derive, cs, bounds, a, b);
      }
    } else {
      var us := UsedEdges(derive, cs, bounds);
      var ms, ids := Ingested(cs, bounds.maxNodes), KeptIds(derive, cs, bounds);
      var e :| e in us && !(Settled(ms, ids, e.fromRef) && Settled(ms, ids, e.toRef));
      var i :| 0 <= i < |us| && us[i] == e;
      UnsettledEdgesDiffer(derive, cs, bounds, i, if Settled(ms, ids, e.fromRef) then e.toRef else e.fromRef);
      var a, b :| DifferAt(derive, cs, bounds, a, b, i);
    }
  }

  // Then two runs give the same graph, conflicts included.
  lemma MergeIsDeterministic(derive: string -> NodeId, cs: seq<Contribution>, bounds: Bounds, g: MergedGraph, h: MergedGraph)
    requires IsMerge(derive, cs, bounds, g) && IsMerge(derive, cs, bounds, h) && AllSettled(derive, cs, bounds)
    ensures g == h
  {
    hide IsMerge, UsedEdges, Settled, Ingested, KeptIds, Admissible, AllSettled, Resolved, Take, Dedup, TableOf, TableConflicts;
    MergesAreChoices(derive, cs, bounds, g);
    MergesAreChoices(derive, cs, bounds, h);
    var a :| Admissible(derive, cs, bounds, a) && g == MergeUnder(derive, cs, bounds, a);
    var b :| Admissible(derive, cs, bounds, b) && h == MergeUnder(derive, cs, bounds, b);
    SettledEdgesAgree(derive, cs, bounds, a, b);
  }

  lemma {:induction false} FirstEdgeIsKept(es: seq<Edge>)
    requires es != []
    ensures Dedup(es) != [] && Dedup(es)[0] == es[0]
  {
    hide KeyOf;
    var n := |es| - 1;
    if n > 0 {
      FirstEdgeIsKept(es[..n]);
    } else {
      assert es[..0] == [];
    }
  }

  // If even the first used edge has an unsettled reference, two runs give different edges.
  lemma UnsettledFirstEdgeSplits(derive: string -> NodeId, cs: seq<Contribution>, bounds: Bounds, r: string)
    requires UsedEdges(derive, cs, bounds) != []
    requires r == UsedEdges(derive, cs, bounds)[0].fromRef || r == UsedEdges(derive, cs, bounds)[0].toRef
    requires !Settled(Ingested(cs, bounds.maxNodes), KeptIds(derive, cs, bounds), r)
    ensures exists g, h :: IsMerge(derive, cs, bounds, g) && IsMerge(derive, cs, bounds, h) && g.edges != h.edges
  {
    hide IsMerge, UsedEdges, Settled, Ingested, KeptIds, Admissible, Resolved, Take, Dedup, TableOf, TableConflicts;
    UnsettledEdgesDiffer(derive, cs, bounds, 0, r);
    var a, b :| DifferAt(derive, cs, bounds, a, b, 0);
    var g, h := MergeUnder(derive, cs, bounds, a), MergeUnder(derive, cs, bounds, b);
    FirstEdgeIsKept(EdgesUnder(cs, bounds, a));
    FirstEdgeIsKept(EdgesUnder(cs, bounds, b));
    MergesAreChoices(derive, cs, bounds, g);
    MergesAreChoices(derive, cs, bounds, h);
    assert g.edges[0] != h.edges[0];
  }
}
