// A snapshot saved as text and loaded again.

module SnapshotRoundTrip {
  import opened Types
  import opened Identity
  import opened Snapshots
  import opened Sorting
  import opened Walks
  import opened Hierarchy
  import opened Containment
  import opened Builder
  import opened JsonValues
  import opened JsonGrammar
  import opened JsonPrinter
  import opened JsonRoundTrip
  import opened JsonLimits
  import opened JsonTheorems
  import opened JsonTruncation
  import opened Documents
  import opened Loading
  import opened DocumentRoundTrip
  import opened DocumentSafety
  import opened DocumentSize

  // ---- Metadata ---------------------------------------------------------------------------------

  lemma MetadataMembers(m: Metadata)
    ensures var o := MetadataToJson(m);
            && FindField(o, "schema") == Some(String(SCHEMA_VERSION)) && FindField(o, "snapshot_id") == Some(String(m.snapshotId))
            && FindField(o, "generation") == Some(Uint(Unsigned(m.generation))) && FindField(o, "created_ms") == Some(Int(m.createdMs))
            && FindField(o, "machine_identity") == Some(String(m.machineIdentity))
            && FindField(o, "provider_versions") == Some(String(m.providerVersions)) && FindField(o, "format") == Some(String(FORMAT))
  {
    hide SetField, FindField, Unsigned;
    SettingsAreFound();
  }

  lemma RootMembers(m: Metadata, ns: seq<Value>, ls: seq<Value>, report: Value)
    ensures RootJson(m, ns, ls, report).Object?
    ensures var o := RootJson(m, ns, ls, report).fields;
            && FindField(o, "nodes") == Some(Array(ns)) && FindField(o, "edges") == Some(Array(ls))
            && FindField(o, "warnings") == Some(Array(WarningsJson(m.warnings)))
            && FindField(o, "partial_discovery") == Some(Bool(m.partialDiscovery)) && FindField(o, "synthetic") == Some(Bool(m.synthetic))
            && (forall q :: q in {"schema", "snapshot_id", "generation", "created_ms"} ==> FindField(o, q) == FindField(MetadataToJson(m), q))
            && (forall q :: q in {"machine_identity", "provider_versions", "format"} ==> FindField(o, q) == FindField(MetadataToJson(m), q))
  {
    hide SetField, FindField, MetadataToJson;
    SettingsAreFound();
  }

  lemma {:induction false} WarningsReadBack(ws: seq<string>)
    ensures ReadWarnings(NormItems(WarningsJson(ws))) == ws
  {
    var a := NormItems(WarningsJson(ws));
    NormItemsAt(WarningsJson(ws));
    if ws != [] {
      var n := |ws| - 1;
      WarningsReadBack(ws[..n]);
      NormItemsAt(WarningsJson(ws[..n]));
      assert a[..n] == NormItems(WarningsJson(ws[..n]));
      assert a[n] == String(ws[n]);
      assert ws == ws[..n] + [ws[n]];
    } else {
      assert a == [];
    }
  }

  lemma WarningsMemberReadsBack(o: seq<Field>, ws: seq<string>)
    requires FindField(o, "warnings") == Some(Array(WarningsJson(ws)))
    ensures WarningsAt(NormFields(o)) == ws
  {
    hide FindField, NormFields, WarningsJson, ReadWarnings;
    FindNorm(o, "warnings");
    WarningsReadBack(ws);
  }

  // The schema version comes back as the one this document format has.
  lemma MetadataReadsBack(m: Metadata, ns: seq<Value>, ls: seq<Value>, report: Value)
    requires m.generation <= MAX_INT64
    ensures MetadataFromJson(NormFields(RootJson(m, ns, ls, report).fields)) == m.(schemaVersion := SCHEMA_VERSION)
  {
    hide FindField, NormFields, RootJson, MetadataToJson, WarningsJson, WarningsAt, TextAt, FlagAt, IntegerAt, Unsigned;
    RootMembers(m, ns, ls, report);
    MetadataMembers(m);
    var o := RootJson(m, ns, ls, report).fields;
    SmallIsUnsigned(m.generation);
    TextReadsBack(o, "snapshot_id", m.snapshotId, "");
    IntegerReadsBack(o, "generation", Uint(m.generation));
    IntegerReadsBack(o, "created_ms", Int(m.createdMs));
    TextReadsBack(o, "machine_identity", m.machineIdentity, "");
    TextReadsBack(o, "schema", SCHEMA_VERSION, SCHEMA_VERSION);
    TextReadsBack(o, "provider_versions", m.providerVersions, "");
    FlagReadsBack(o, "partial_discovery", m.partialDiscovery, false);
    FlagReadsBack(o, "synthetic", m.synthetic, false);
    WarningsMemberReadsBack(o, m.warnings);
  }

  // ---- Nodes and edges ----------------------------------------------------------------------------

  function NormNodes(nodes: map<NodeId, Node>): map<NodeId, Node> {
    map id | id in nodes :: NormNode(nodes[id])
  }

  function NormEdges(es: seq<Edge>): seq<Edge> {
    seq(|es|, i requires 0 <= i < |es| => NormEdge(es[i]))
  }

  // Every node stands under its own id.
  ghost predicate Keyed(nodes: map<NodeId, Node>) {
    forall id :: id in nodes ==> nodes[id].id == id
  }

  ghost predicate NodesReadSoFar(nodes: map<NodeId, Node>, ids: seq<NodeId>, i: nat, acc: map<NodeId, Node>)
    requires i <= |ids|
  {
    && (forall id :: id in acc <==> id in ids[..i])
    && (forall id :: id in acc ==> id in nodes && acc[id] == NormNode(nodes[id]))
  }

  // The values are the nodes of the ids, in this order.
  ghost predicate NodesWritten(nodes: map<NodeId, Node>, ids: seq<NodeId>, ns: seq<Value>) {
    && |ns| == |ids| && (forall id :: id in ids <==> id in nodes)
    && (forall j :: 0 <= j < |ids| ==> ids[j] in nodes && IsNodeJson(nodes[ids[j]], ns[j]) && SafeNode(nodes[ids[j]]))
  }

  lemma NextNodeRead(nodes: map<NodeId, Node>, ids: seq<NodeId>, i: nat, acc: map<NodeId, Node>)
    requires i < |ids| && ids[i] in nodes && NodesReadSoFar(nodes, ids, i, acc)
    ensures var id := ids[i];
            NodesReadSoFar(nodes, ids, i + 1, if id in acc then acc else acc[id := NormNode(nodes[id])])
  {
    hide NormNode;
    assert ids[..i + 1] == ids[..i] + [ids[i]];
  }

  lemma {:induction false} NodesReadBack(nodes: map<NodeId, Node>, ids: seq<NodeId>, ns: seq<Value>, i: nat, acc: map<NodeId, Node>,
                                         limit: nat)
    requires NodesWritten(nodes, ids, ns) && Keyed(nodes) && i <= |ids| <= limit && NodesReadSoFar(nodes, ids, i, acc)
    ensures NodesFrom(NormItems(ns), i, acc, limit) == Read(NormNodes(nodes))
    decreases |ids| - i
  {
    hide NodeFromJson, IsNodeJson, Norm, NormNode, NormNodes, NodesReadSoFar, SafeNode;
    NormItemsAt(ns);
    if i == |ids| {
      AllNodesRead(nodes, ids, acc);
    } else {
      var id := ids[i];
      ReadNodeIsKeyed(nodes[id], ns[i]);
      NextNodeRead(nodes, ids, i, acc);
      NodesReadBack(nodes, ids, ns, i + 1, if id in acc then acc else acc[id := NormNode(nodes[id])], limit);
    }
  }

  lemma AllNodesRead(nodes: map<NodeId, Node>, ids: seq<NodeId>, acc: map<NodeId, Node>)
    requires NodesReadSoFar(nodes, ids, |ids|, acc) && forall id :: id in ids <==> id in nodes
    ensures acc == NormNodes(nodes)
  {
    hide NormNode;
    assert ids[..|ids|] == ids;
  }

  lemma ReadNodeIsKeyed(n: Node, v: Value)
    requires IsNodeJson(n, v) && SafeNode(n)
    ensures NodeFromJson(Norm(v)) == Read(NormNode(n)) && NormNode(n).id == n.id
  {
    hide NodeFromJson, IsNodeJson, Norm;
    NodeReadsBack(n, v);
  }

  lemma {:induction false} EdgesReadBack(es: seq<Edge>, ls: seq<Value>, i: nat, limit: nat)
    requires |ls| == |es| <= limit && i <= |es|
    requires forall j :: 0 <= j < |es| ==> IsEdgeJson(es[j], ls[j]) && SafeEdge(es[j])
    ensures EdgesFrom(NormItems(ls), i, NormEdges(es)[..i], limit) == Read(NormEdges(es))
    decreases |es| - i
  {
    hide EdgeFromJson, IsEdgeJson, Norm, NormEdge;
    NormItemsAt(ls);
    if i == |es| {
      assert NormEdges(es)[..i] == NormEdges(es);
    } else {
      ReadEdgeIsSame(es[i], ls[i]);
      assert NormEdges(es)[..i] + [NormEdge(es[i])] == NormEdges(es)[..i + 1];
      EdgesReadBack(es, ls, i + 1, limit);
    }
  }

  lemma ReadEdgeIsSame(e: Edge, v: Value)
    requires IsEdgeJson(e, v) && SafeEdge(e)
    ensures EdgeFromJson(Norm(v)) == Read(NormEdge(e))
  {
    hide EdgeFromJson, IsEdgeJson, Norm, SafeProperties, SafeFacts, SafeProvenance;
    EdgeReadsBack(e, v);
  }

  // ---- Content -------------------------------------------------------------------------------------

  // The same graph: nodes with normalised properties under their ids, the edges with rounded
  // measures rearranged in document order, the metadata under this format's schema version.
  ghost predicate SameContent(s: Snapshot, nodes: map<NodeId, Node>, edges: seq<Edge>, m: Metadata) {
    && nodes == NormNodes(s.nodes)
    && (exists es :: multiset(es) == multiset(s.edges) && SortedBy(EdgeLess, es) && edges == NormEdges(es))
    && m == s.metadata.(schemaVersion := SCHEMA_VERSION)
  }

  ghost predicate Fitting(s: Snapshot, bounds: Bounds) {
    SafeSnapshot(s) && Keyed(s.nodes) && |s.nodes| <= bounds.maxNodes && |s.edges| <= bounds.maxEdges
  }

  lemma ContentReadsBack(s: Snapshot, report: Value, v: Value, bounds: Bounds)
    requires Fitting(s, bounds) && IsSnapshotJson(s, report, v)
    ensures var r := ContentFromJson(Norm(v), bounds);
            r.Read? && SameContent(s, r.value.nodes, r.value.edges, r.value.metadata)
  {
    hide IsNodeJson, IsEdgeJson, RootJson, FindField, NormFields, NodesFrom, EdgesFrom, MetadataFromJson, EdgeLess, IdLess;
    hide SafeNode, SafeEdge, SafeMetadata, SafeSnapshot, NormNodes, NormEdges, NormItems, Norm, Keyed;
    hide MetadataToJson, WarningsJson;
    var ids, ns, es, ls :| IsLayout(s, ids, ns, es, ls) && v == RootJson(s.metadata, ns, ls, report);
    RootMembers(s.metadata, ns, ls, report);
    MetadataMembers(s.metadata);
    var o := v.fields;
    assert Norm(Object(o)) == Object(NormFields(o));
    ListsReadBack(o, ns, ls);
    FormatReadsBack(o);
    IdCount(ids, s.nodes.Keys);
    AllNodesReadBack(s, ids, ns, bounds);
    AllEdgesReadBack(s, es, ls, bounds);
    GenerationIsSmall(s);
    MetadataReadsBack(s.metadata, ns, ls, report);
  }

  lemma GenerationIsSmall(s: Snapshot)
    requires SafeSnapshot(s)
    ensures s.metadata.generation <= MAX_INT64
  {
  }

  lemma ListsReadBack(o: seq<Field>, ns: seq<Value>, ls: seq<Value>)
    requires FindField(o, "nodes") == Some(Array(ns)) && FindField(o, "edges") == Some(Array(ls))
    ensures ItemsAt(NormFields(o), "nodes") == Some(NormItems(ns)) && ItemsAt(NormFields(o), "edges") == Some(NormItems(ls))
  {
    hide FindField, NormFields, NormItems, Norm;
    FindNorm(o, "nodes");
    FindNorm(o, "edges");
  }

  lemma FormatReadsBack(o: seq<Field>)
    requires FindField(o, "format") == Some(String(FORMAT))
    ensures FindField(NormFields(o), "format") == Some(String(FORMAT))
  {
    hide FindField, NormFields;
    FindNorm(o, "format");
  }

  lemma IdCount(ids: seq<NodeId>, keys: set<NodeId>)
    requires StrictlySorted(IdLess, ids) && forall id :: id in ids <==> id in keys
    ensures |ids| == |keys|
  {
    hide IdLess;
    IdOrder();
    StrictlySortedSize(IdLess, ids);
    assert (set id | id in ids) == keys;
  }

  lemma AllNodesReadBack(s: Snapshot, ids: seq<NodeId>, ns: seq<Value>, bounds: Bounds)
    requires SafeSnapshot(s) && Keyed(s.nodes) && |ids| == |ns| <= bounds.maxNodes
    requires (forall id :: id in ids <==> id in s.nodes) && (forall i :: 0 <= i < |ids| ==> IsNodeJson(s.nodes[ids[i]], ns[i]))
    ensures NodesFrom(NormItems(ns), 0, map[], bounds.maxNodes) == Read(NormNodes(s.nodes))
  {
    hide SafeNode, SafeEdge, SafeMetadata, IsNodeJson, NormNodes, NodesFrom, NormItems;
    forall j | 0 <= j < |ids|
      ensures SafeNode(s.nodes[ids[j]])
    {
      assert ids[j] in ids;
    }
    assert NodesWritten(s.nodes, ids, ns);
    assert NodesReadSoFar(s.nodes, ids, 0, map[]);
    NodesReadBack(s.nodes, ids, ns, 0, map[], bounds.maxNodes);
  }

  lemma AllEdgesReadBack(s: Snapshot, es: seq<Edge>, ls: seq<Value>, bounds: Bounds)
    requires SafeSnapshot(s) && multiset(es) == multiset(s.edges) && |s.edges| <= bounds.maxEdges && |ls| == |es|
    requires forall i :: 0 <= i < |es| ==> IsEdgeJson(es[i], ls[i])
    ensures EdgesFrom(NormItems(ls), 0, [], bounds.maxEdges) == Read(NormEdges(es))
  {
    hide SafeNode, SafeEdge, SafeMetadata, IsEdgeJson, NormEdges, EdgesFrom, NormItems;
    SameElements(es, s.edges);
    assert |es| == |multiset(es)| == |s.edges|;
    forall j | 0 <= j < |es|
      ensures SafeEdge(es[j])
    {
      assert es[j] in es;
    }
    NormEdgesLength(es);
    assert NormEdges(es)[..0] == [];
    EdgesReadBack(es, ls, 0, bounds.maxEdges);
  }

  lemma NormEdgesLength(es: seq<Edge>)
    ensures |NormEdges(es)| == |es| && forall i :: 0 <= i < |es| ==> NormEdges(es)[i] == NormEdge(es[i])
  {
  }

  // ---- Validity ---------------------------------------------------------------------------------------

  lemma {:induction false} SameLinksSameAbove(a: seq<Edge>, b: seq<Edge>, t: EdgeType, x: NodeId, y: NodeId, w: seq<Step>)
    requires forall p, q :: Linked(a, t, p, q) ==> Linked(b, t, p, q)
    requires w != [] && IsWalk(TypedNetwork(a, t), x, y, w)
    ensures Above(b, t, x, y)
    decreases |w|
  {
    hide Linked, TypedNetwork, Above;
    var n := |w| - 1;
    var last := w[n];
    StepIsLink(a, t, last);
    LinkIsAbove(b, t, last.from, y);
    if n > 0 {
      SameLinksSameAbove(a, b, t, x, last.from, w[..n]);
      AboveIsTransitive(b, t, x, last.from, y);
    }
  }

  lemma StepIsLink(edges: seq<Edge>, t: EdgeType, st: Step)
    requires st in TypedNetwork(edges, t)
    ensures Linked(edges, t, st.from, st.to)
  {
    TypedNetworkMembers(edges, t, st);
    assert edges[st.edge] in edges;
  }

  lemma SameLinksSameCycle(a: seq<Edge>, b: seq<Edge>)
    requires forall p, q :: Linked(a, Contains, p, q) ==> Linked(b, Contains, p, q)
    requires HasCycle(a)
    ensures HasCycle(b)
  {
    hide Linked, TypedNetwork, IsWalk;
    var x :| Above(a, Contains, x, x);
    var w :| w != [] && IsWalk(TypedNetwork(a, Contains), x, x, w);
    SameLinksSameAbove(a, b, Contains, x, x, w);
  }

  // Normalising and rearranging edges keeps every link.
  lemma SavedLinks(edges: seq<Edge>, es: seq<Edge>, t: EdgeType, p: NodeId, q: NodeId)
    requires multiset(es) == multiset(edges)
    ensures Linked(NormEdges(es), t, p, q) <==> Linked(edges, t, p, q)
  {
    hide NormEdges;
    SameElements(es, edges);
    NormEdgesLength(es);
    if Linked(edges, t, p, q) {
      var e :| e in edges && e.edgeType == t && e.source == p && e.target == q;
      assert e in es;
      var i :| 0 <= i < |es| && es[i] == e;
      assert NormEdges(es)[i] in NormEdges(es);
    }
    if Linked(NormEdges(es), t, p, q) {
      var f :| f in NormEdges(es) && f.edgeType == t && f.source == p && f.target == q;
      var i :| 0 <= i < |es| && NormEdges(es)[i] == f;
      assert es[i] in es;
    }
  }

  // The loaded graph is well formed exactly when the saved one is.
  lemma SavedGraphStaysWellFormed(s: Snapshot, nodes: map<NodeId, Node>, edges: seq<Edge>, m: Metadata)
    requires SameContent(s, nodes, edges, m)
    ensures WellFormedGraph(nodes, edges) <==> WellFormedGraph(s.nodes, s.edges)
  {
    hide HasCycle, Linked, IdentitiesDistinct, AllEndpointsKnown, NormNodes, NormEdges, EdgeLess;
    var es :| multiset(es) == multiset(s.edges) && SortedBy(EdgeLess, es) && edges == NormEdges(es);
    forall p, q
      ensures Linked(edges, Contains, p, q) <==> Linked(s.edges, Contains, p, q)
    {
      SavedLinks(s.edges, es, Contains, p, q);
    }
    if HasCycle(edges) {
      SameLinksSameCycle(edges, s.edges);
    }
    if HasCycle(s.edges) {
      SameLinksSameCycle(s.edges, edges);
    }
    SameIdentities(s.nodes);
    SameEndpoints(s, es);
  }

  lemma SameIdentities(nodes: map<NodeId, Node>)
    ensures IdentitiesDistinct(NormNodes(nodes)) <==> IdentitiesDistinct(nodes)
  {
    hide CanonicalKey;
    forall a, b
      ensures SameIdentity(NormNodes(nodes), a, b) <==> SameIdentity(nodes, a, b)
    {
    }
  }

  lemma SameEndpoints(s: Snapshot, es: seq<Edge>)
    requires multiset(es) == multiset(s.edges)
    ensures AllEndpointsKnown(NormNodes(s.nodes), NormEdges(es)) <==> AllEndpointsKnown(s.nodes, s.edges)
  {
    hide NormEdges;
    SameElements(es, s.edges);
    NormEdgesLength(es);
    if AllEndpointsKnown(NormNodes(s.nodes), NormEdges(es)) {
      forall e | e in s.edges
        ensures e.source in s.nodes && e.target in s.nodes
      {
        assert e in es;
        var i :| 0 <= i < |es| && es[i] == e;
        assert NormEdges(es)[i] in NormEdges(es);
      }
    }
  }

  // ---- Save and load ------------------------------------------------------------------------------------

  // The text is that of a document of the snapshot.
  ghost predicate IsSaved(s: Snapshot, report: Value, mode: WriteMode, text: string, document: Value) {
    IsSnapshotJson(s, report, document) && text == Dump(document, mode, 0)
  }

  method Serialize(s: Snapshot, report: Value, mode: WriteMode) returns (text: string)
    ensures exists document :: IsSaved(s, report, mode, text, document)
  {
    hide IsSnapshotJson, Dump;
    var v := SnapshotToJson(s, report);
    text := DumpText(v, mode);
    assert IsSaved(s, report, mode, text, v);
  }

  // What the parser's default limits and the snapshot bound ask, counted from the snapshot.
  ghost predicate SmallEnough(s: Snapshot, report: Value, text: string, bounds: Bounds) {
    SnapshotSize(s) + Size(report) <= DEFAULT_OPTIONS.maxNodes && |text| <= bounds.maxSnapshotBytes
  }

  lemma DocumentParses(s: Snapshot, report: Value, document: Value, mode: WriteMode)
    requires SafeSnapshot(s) && Good(report, 4) && IsSnapshotJson(s, report, document)
    requires SnapshotSize(s) + Size(report) <= DEFAULT_OPTIONS.maxNodes
    ensures var r := Parse(Dump(document, mode, 0), DEFAULT_OPTIONS); r.Ok() && r.value == Norm(document)
  {
    hide Printable, NestsWithin, Size, Parse, Dump, Norm, Good, SafeSnapshot, IsSnapshotJson, StringsFit, SnapshotSize;
    DocumentHasSize(s, report, document);
    SafeDocumentIsPrintable(s, report, document);
    PrintableFits(document, DEFAULT_OPTIONS);
    PrintedReadsBack(document, mode, DEFAULT_OPTIONS);
  }

  lemma {:induction false} PrintableFits(v: Value, opt: ParseOptions)
    requires Printable(v, opt)
    ensures StringsFit(v, opt.maxStringBytes)
  {
    match v {
      case Array(a) =>
        forall i | 0 <= i < |a|
          ensures StringsFit(a[i], opt.maxStringBytes)
        {
          PrintableFits(a[i], opt);
        }
      case Object(fs) =>
        forall i | 0 <= i < |fs|
          ensures StringsFit(fs[i].value, opt.maxStringBytes)
        {
          PrintableFits(fs[i].value, opt);
        }
      case _ =>
    }
  }

  // Saving a snapshot and loading the text gives the same graph back: every node under its id
  // with its type, identity and all else, every edge as often as before, numbers normalised, and
  // the same verdict of the validation.
  method SaveAndLoad(s: Snapshot, report: Value, mode: WriteMode, bounds: Bounds)
    returns (text: string, r: Reading<Snapshot>)
    ensures exists document :: IsSaved(s, report, mode, text, document)
    ensures ComesBack(s, report, bounds, text, r)
  {
    hide IsSaved, IsSnapshotJson, Dump, ContentFromJson, SameContent, WellFormedGraph, Good, Parse, Norm;
    hide SafeSnapshot, Size, SnapshotSize, Snapshot.Indexed;
    text := Serialize(s, report, mode);
    ghost var document :| IsSaved(s, report, mode, text, document);
    r := Deserialize(text, bounds);
    if Fitting(s, bounds) && Good(report, 4) && SmallEnough(s, report, text, bounds) {
      SavedContent(s, report, mode, bounds, text, document);
      SavedGraphStaysWellFormed(s, r.value.nodes, r.value.edges, r.value.metadata);
    }
  }

  ghost predicate ComesBack(s: Snapshot, report: Value, bounds: Bounds, text: string, r: Reading<Snapshot>) {
    Fitting(s, bounds) && Good(report, 4) && SmallEnough(s, report, text, bounds) ==>
      && r.Read? && SameContent(s, r.value.nodes, r.value.edges, r.value.metadata) && r.value.Indexed()
      && (r.value.validation.ok <==> WellFormedGraph(s.nodes, s.edges))
  }

  lemma SavedContent(s: Snapshot, report: Value, mode: WriteMode, bounds: Bounds, text: string, document: Value)
    requires IsSaved(s, report, mode, text, document) && Fitting(s, bounds) && Good(report, 4)
    requires SmallEnough(s, report, text, bounds)
    ensures var c := ContentOf(text, bounds);
            c.Read? && SameContent(s, c.value.nodes, c.value.edges, c.value.metadata)
  {
    hide IsSnapshotJson, Dump, ContentFromJson, SameContent, Good, Parse, Norm, SafeSnapshot, Size, SnapshotSize;
    DocumentParses(s, report, document, mode);
    ContentReadsBack(s, report, document, bounds);
  }

  // ---- Truncated documents ------------------------------------------------------------------------------

  // A saved snapshot that lost its end is never loaded, although the parser accepts some of these
  // texts as null.
  lemma TruncatedSnapshotIsRefused(s: Snapshot, report: Value, mode: WriteMode, bounds: Bounds, text: string,
                                   document: Value, c: nat)
    requires IsSaved(s, report, mode, text, document) && SafeSnapshot(s) && Good(report, 4)
    requires SnapshotSize(s) + Size(report) <= DEFAULT_OPTIONS.maxNodes && c < |text|
    ensures ContentOf(text[..c], bounds).Failed?
  {
    hide IsSnapshotJson, Dump, Good, Parse, SafeSnapshot, Size, Printable, NestsWithin, CutPasses, StringsFit, SnapshotSize;
    DocumentHasSize(s, report, document);
    SafeDocumentIsPrintable(s, report, document);
    PrintableFits(document, DEFAULT_OPTIONS);
    DocumentIsObject(s, report, document);
    TruncationVerdict(document, mode, DEFAULT_OPTIONS, c);
  }

  lemma DocumentIsObject(s: Snapshot, report: Value, document: Value)
    requires IsSnapshotJson(s, report, document)
    ensures document.Object?
  {
    hide IsLayout, RootJson;
    var ids, ns, es, ls :| IsLayout(s, ids, ns, es, ls) && document == RootJson(s.metadata, ns, ls, report);
    RootMembers(s.metadata, ns, ls, report);
  }
}
