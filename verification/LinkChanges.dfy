// Changes of links and nodes, fact by fact.

module LinkChanges {
  import opened Types
  import opened Snapshots
  import opened Merge
  import opened MergeGraph
  import opened Diff
  import opened Runtime

  // ---- Links --------------------------------------------------------------------------------

  // Two edges of one direction are the same link when they have one type and the same ends, in
  // either order if they are undirected.
  lemma SameLinkExactly(x: Edge, y: Edge)
    requires x.direction == y.direction
    ensures KeyOf(x) == KeyOf(y) <==>
            && x.edgeType == y.edgeType
            && ((x.source == y.source && x.target == y.target) ||
                (x.direction == Undirected && x.source == y.target && x.target == y.source))
  {
  }

  // A directed edge is the same link as an undirected one when it runs between its ends from the
  // smaller id to the larger.
  lemma MixedLinkExactly(x: Edge, y: Edge)
    requires x.direction == Undirected && y.direction == Directed
    ensures KeyOf(x) == KeyOf(y) <==>
            && x.edgeType == y.edgeType && !IdLess(y.target, y.source)
            && ((x.source == y.source && x.target == y.target) || (x.source == y.target && x.target == y.source))
  {
  }

  // Edge i is the first report of its link.
  ghost predicate FirstReportOf(es: seq<Edge>, i: int) {
    0 <= i < |es| && forall j :: 0 <= j < i ==> KeyOf(es[j]) != KeyOf(es[i])
  }

  // Some fact of the link is reported differently.
  predicate Differ(x: Edge, y: Edge) {
    || x.bandwidth != y.bandwidth || x.latency != y.latency || x.width != y.width
    || x.pcieGeneration != y.pcieGeneration || x.accessible != y.accessible
  }

  // Edge j of the newer list differs from the first report of its link in the older one.
  ghost predicate ChangedReport(before: seq<Edge>, after: seq<Edge>, i: int, j: int) {
    FirstReportOf(before, i) && 0 <= j < |after| && KeyOf(before[i]) == KeyOf(after[j]) && Differ(before[i], after[j])
  }

  lemma {:induction false} FirstReportDecides(es: seq<Edge>, i: int)
    requires FirstReportOf(es, i)
    ensures KeyOf(es[i]) in EdgeKeys(es) && LinksOf(es)[KeyOf(es[i])] == FactsOf(es[i])
    decreases |es|
  {
    hide KeyOf, FactsOf;
    var n := |es| - 1;
    assert es == es[..n] + [es[n]];
    assert es[i] in es;
    if i < n {
      assert es[..n][i] == es[i];
      FirstReportDecides(es[..n], i);
    } else {
      forall k | k in EdgeKeys(es[..n])
        ensures k != KeyOf(es[n])
      {
        var e :| e in es[..n] && KeyOf(e) == k;
      }
    }
  }

  lemma {:induction false} SomeFirstReport(es: seq<Edge>, j: nat) returns (i: nat)
    requires j < |es|
    ensures FirstReportOf(es, i) && KeyOf(es[i]) == KeyOf(es[j])
    decreases j
  {
    hide KeyOf;
    i := j;
    if k: nat :| k < j && KeyOf(es[k]) == KeyOf(es[j]) {
      i := SomeFirstReport(es, k);
    }
  }

  lemma ReportChanges(before: seq<Edge>, after: seq<Edge>, j: nat)
    requires j < |after|
    ensures LinkChanged(before, after[j]) <==> exists i :: ChangedReport(before, after, i, j)
  {
    hide KeyOf, LinksOf;
    if LinkChanged(before, after[j]) {
      var e :| e in before && KeyOf(e) == KeyOf(after[j]);
      var k :| 0 <= k < |before| && before[k] == e;
      var i := SomeFirstReport(before, k);
      FirstReportDecides(before, i);
      assert ChangedReport(before, after, i, j);
    }
    forall i | ChangedReport(before, after, i, j)
      ensures LinkChanged(before, after[j])
    {
      FirstReportDecides(before, i);
    }
  }

  predicate SameEnds(es: seq<Edge>, j: int, y: Edge) {
    0 <= j < |es| && es[j].source == y.source && es[j].target == y.target
  }

  function LinkReport(y: Edge): DiffEvent {
    DiffEvent(PropertyChanged, y.source, y.target, "edge.link", true)
  }

  // An "edge.link" event about the ends of y is listed exactly when some report between them
  // differs from the first report of its link, in bandwidth, latency, width, generation or
  // accessibility; and then the change is material.
  lemma LinkEventsExactly(a: Snapshot, b: Snapshot, events: seq<DiffEvent>, y: Edge)
    requires ListsExactly(a, b, events)
    ensures LinkReport(y) in events <==>
            exists i, j :: ChangedReport(a.edges, b.edges, i, j) && SameEnds(b.edges, j, y)
    ensures LinkReport(y) in events ==> !Unchanged(a, b)
  {
    hide KeyOf, LinkChanged, Occurrences, ChangedReport;
    var e := LinkReport(y);
    OccursWhenHappened(a, b, e);
    assert e in events <==> multiset(events)[e] > 0;
    if Happened(a, b, e) {
      var x :| x in b.edges && LinkChanged(a.edges, x) && e == LinkEvent(x);
      var j :| 0 <= j < |b.edges| && b.edges[j] == x;
      ReportChanges(a.edges, b.edges, j);
      MaterialIffChanged(a, b);
    }
    forall i, j | ChangedReport(a.edges, b.edges, i, j) && SameEnds(b.edges, j, y)
      ensures Happened(a, b, e)
    {
      ReportChanges(a.edges, b.edges, j);
      assert b.edges[j] in b.edges;
    }
  }

  // No report differs: no event about the facts of a link.
  lemma NoLinkEvents(a: Snapshot, b: Snapshot, events: seq<DiffEvent>, e: DiffEvent)
    requires ListsExactly(a, b, events) && forall i, j :: !ChangedReport(a.edges, b.edges, i, j)
    ensures !(e in events && e.kind == PropertyChanged && e.onEdge)
  {
    hide KeyOf, LinkChanged, Occurrences, ChangedReport;
    OccursWhenHappened(a, b, e);
    assert e in events <==> multiset(events)[e] > 0;
    if e in events && e.kind == PropertyChanged && e.onEdge {
      var x :| x in b.edges && LinkChanged(a.edges, x) && e == LinkEvent(x);
      var j :| 0 <= j < |b.edges| && b.edges[j] == x;
      ReportChanges(a.edges, b.edges, j);
    }
  }

  // Appearing and disappearing links are listed with their ends in order.
  lemma EdgeEventsExactly(a: Snapshot, b: Snapshot, events: seq<DiffEvent>, s: NodeId, t: NodeId)
    requires ListsExactly(a, b, events)
    ensures (exists k :: DiffEvent(EdgeAdded, s, t, k, true) in events) <==>
            exists y :: y in b.edges && y.source == s && y.target == t && forall x :: x in a.edges ==> KeyOf(x) != KeyOf(y)
    ensures (exists k :: DiffEvent(EdgeRemoved, s, t, k, true) in events) <==>
            exists x :: x in a.edges && x.source == s && x.target == t && forall y :: y in b.edges ==> KeyOf(x) != KeyOf(y)
  {
    hide KeyOf, LinkChanged, Occurrences;
    forall e
      ensures e in events <==> Happened(a, b, e)
    {
      OccursWhenHappened(a, b, e);
      assert e in events <==> multiset(events)[e] > 0;
    }
    forall y | y in b.edges && y.source == s && y.target == t && forall x :: x in a.edges ==> KeyOf(x) != KeyOf(y)
      ensures exists k :: DiffEvent(EdgeAdded, s, t, k, true) in events
    {
      assert Happened(a, b, EdgeEvent(EdgeAdded, y));
    }
    forall x | x in a.edges && x.source == s && x.target == t && forall y :: y in b.edges ==> KeyOf(x) != KeyOf(y)
      ensures exists k :: DiffEvent(EdgeRemoved, s, t, k, true) in events
    {
      assert Happened(a, b, EdgeEvent(EdgeRemoved, x));
    }
  }

  // ---- Generations -----------------------------------------------------------------------------

  // One generation, one set of facts: for every link the first reports agree, and so do the
  // structural facts of every node.
  lemma SameGenerationSameFacts(published: seq<Snapshot>, i: nat, j: nat)
    requires History(published) && i <= j < |published|
    requires published[i].metadata.generation == published[j].metadata.generation
    ensures forall p, q :: FirstReportOf(published[i].edges, p) && FirstReportOf(published[j].edges, q) &&
                           KeyOf(published[i].edges[p]) == KeyOf(published[j].edges[q]) ==>
                             !Differ(published[i].edges[p], published[j].edges[q])
    ensures published[i].nodes.Keys == published[j].nodes.Keys
    ensures forall id :: id in published[i].nodes && id in published[j].nodes ==>
                           var m, n := published[i].nodes[id], published[j].nodes[id];
                           && m.capabilities == n.capabilities && m.native.numaNode == n.native.numaNode
                           && m.native.cpuPackage == n.native.cpuPackage && m.native.coreId == n.native.coreId
                           && m.provenance.provider == n.provenance.provider
  {
    hide History, KeyOf, LinksOf, NodePrints;
    EqualGenerationsEqualFingerprints(published, i, j);
    var a, b := published[i], published[j];
    forall p, q | FirstReportOf(a.edges, p) && FirstReportOf(b.edges, q) && KeyOf(a.edges[p]) == KeyOf(b.edges[q])
      ensures !Differ(a.edges[p], b.edges[q])
    {
      FirstReportDecides(a.edges, p);
      FirstReportDecides(b.edges, q);
    }
    UnchangedNodes(a.nodes, b.nodes);
  }
}
