// Snapshots as JSON values: nodes, edges and metadata, in a fixed order.

module Documents {
  import opened Types
  import opened Names
  import opened Identity
  import opened Snapshots
  import opened Doubles
  import opened Sorting
  import opened JsonValues

  const SCHEMA_VERSION: string := "1.0.0"
  const FORMAT: string := "topology_fabric_snapshot"

  // ---- Scalars and properties --------------------------------------------------------------

  function ShortToJson(x: Option<uint16>): Value {
    if x.Some? then Uint(x.value) else Null
  }

  function WordToJson(x: Option<uint32>): Value {
    if x.Some? then Uint(x.value) else Null
  }

  function PropertyToJson(p: PropertyValue): Value {
    match p
    case NullProperty => Null
    case BoolProperty(b) => Bool(b)
    case IntProperty(i) => Int(i)
    case UintProperty(u) => Uint(u)
    case DoubleProperty(d) => Double(FromReal(d))
    case StringProperty(s) => String(s)
    case StringsProperty(ss) => Array(seq(|ss|, i requires 0 <= i < |ss| => String(ss[i])))
    case IntsProperty(ii) => Array(seq(|ii|, i requires 0 <= i < |ii| => Int(ii[i])))
  }

  // The fields of a property map, whatever the order it was walked in.
  ghost predicate IsPropertiesJson(m: PropertyMap, fs: seq<Field>) {
    && Ascending(fs)
    && forall k :: FindField(fs, k) == if k in m then Some(PropertyToJson(m[k])) else None
  }

  method PropertiesToJson(m: PropertyMap) returns (fs: seq<Field>)
    ensures IsPropertiesJson(m, fs)
  {
    fs := [];
    var left := m.Keys;
    while left != {}
      invariant left <= m.Keys && Ascending(fs)
      invariant forall k :: FindField(fs, k) == if k in m && k !in left then Some(PropertyToJson(m[k])) else None
      decreases left
    {
      hide Ascending, SetField;
      var k :| k in left;
      var v := PropertyToJson(m[k]);
      forall q
        ensures FindField(SetField(fs, k, v), q) == if q == k then Some(v) else FindField(fs, q)
      {
        FindAfterSet(fs, k, v, q);
      }
      SetFieldAscends(fs, k, v);
      fs := SetField(fs, k, v);
      left := left - {k};
    }
  }

  // ---- Parts of nodes and edges ----------------------------------------------------------------

  function PciToJson(n: NativeIdentity): seq<Field> {
    var o := SetField([], "pci_domain", ShortToJson(n.pciDomain));
    var o := SetField(o, "pci_bus", ShortToJson(n.pciBus));
    var o := SetField(o, "pci_device", ShortToJson(n.pciDevice));
    var o := SetField(o, "pci_function", ShortToJson(n.pciFunction));
    var o := SetField(o, "vendor_id", ShortToJson(n.vendorId));
    var o := SetField(o, "device_id", ShortToJson(n.deviceId));
    var o := SetField(o, "subsystem_id", ShortToJson(n.subsystemId));
    SetField(o, "subsystem_vendor_id", ShortToJson(n.subsystemVendorId))
  }

  function ProcessorToJson(o: seq<Field>, n: NativeIdentity): seq<Field> {
    var o := SetField(o, "numa_node", WordToJson(n.numaNode));
    var o := SetField(o, "cpu_package", WordToJson(n.cpuPackage));
    var o := SetField(o, "core_id", WordToJson(n.coreId));
    var o := SetField(o, "processor_group", WordToJson(n.processorGroup));
    var o := SetField(o, "logical_processor_index", WordToJson(n.logicalProcessorIndex));
    SetField(o, "cuda_ordinal", WordToJson(n.cudaOrdinal))
  }

  function DeviceNamesToJson(o: seq<Field>, n: NativeIdentity): seq<Field> {
    var o := SetField(o, "cuda_uuid", String(n.cudaUuid));
    var o := SetField(o, "name", String(n.name));
    var o := SetField(o, "network_interface_name", String(n.networkInterfaceName));
    var o := SetField(o, "network_hardware_id", String(n.networkHardwareId));
    var o := SetField(o, "storage_id", String(n.storageId));
    var o := SetField(o, "storage_device_path", String(n.storageDevicePath));
    var o := SetField(o, "machine_name", String(n.machineName));
    SetField(o, "os_version", String(n.osVersion))
  }

  function NativeToJson(n: NativeIdentity): Value {
    Object(DeviceNamesToJson(ProcessorToJson(PciToJson(n), n), n))
  }

  function ProvenanceToJson(p: Provenance): Value {
    var o := SetField([], "kind", String(KindName(p.kind)));
    var o := SetField(o, "confidence", String(ConfidenceName(p.confidence)));
    var o := SetField(o, "provider", String(p.provider));
    var o := SetField(o, "api", String(p.api));
    var o := SetField(o, "detail", String(p.detail));
    var o := SetField(o, "timestamp_ms", Int(p.timestampMs));
    var o := SetField(o, "schema_version", String(p.schemaVersion));
    Object(SetField(o, "provider_version", String(p.providerVersion)))
  }

  // ---- Nodes ------------------------------------------------------------------------------------

  function CapabilitiesToJson(bits: bv64): Value {
    Uint(bits as int)
  }

  function LabelsToJson(n: Node): seq<Field> {
    var o := SetField([], "id", String(ToHex(n.id)));
    var o := SetField(o, "type", String(TypeName(n.nodeType)));
    var o := SetField(o, "category", String(n.category));
    var o := SetField(o, "name", String(n.name));
    SetField(o, "display_name", String(n.displayName))
  }

  function NodeJson(n: Node, properties: seq<Field>): Value {
    var o := SetField(LabelsToJson(n), "native", NativeToJson(n.native));
    var o := SetField(o, "capabilities", CapabilitiesToJson(n.capabilities));
    var o := SetField(o, "confidence", String(ConfidenceName(n.confidence)));
    var o := SetField(o, "provenance", ProvenanceToJson(n.provenance));
    var o := SetField(o, "synthetic", Bool(n.synthetic));
    Object(SetField(o, "properties", Object(properties)))
  }

  ghost predicate IsNodeJson(n: Node, v: Value) {
    exists fs :: IsPropertiesJson(n.properties, fs) && v == NodeJson(n, fs)
  }

  method NodeToJson(n: Node) returns (v: Value)
    ensures IsNodeJson(n, v)
  {
    hide NodeJson;
    var fs := PropertiesToJson(n.properties);
    v := NodeJson(n, fs);
  }

  // ---- Edges ------------------------------------------------------------------------------------

  // The conversion of a 32-bit signed number to 64 unsigned bits.
  function Unsigned(i: int): uint64 {
    i % 0x1_0000_0000_0000_0000
  }

  function SetSome(o: seq<Field>, k: string, v: Option<Value>): seq<Field> {
    if v.Some? then SetField(o, k, v.value) else o
  }

  function LinkToJson(e: Edge): seq<Field> {
    var o := SetField([], "source", String(ToHex(e.source)));
    var o := SetField(o, "target", String(ToHex(e.target)));
    var o := SetField(o, "type", String(EdgeTypeName(e.edgeType)));
    var o := SetField(o, "direction", String(DirectionName(e.direction)));
    var o := SetField(o, "confidence", String(ConfidenceName(e.confidence)));
    SetField(o, "provenance", ProvenanceToJson(e.provenance))
  }

  function Map<S, T>(x: Option<S>, f: S -> T): Option<T> {
    if x.Some? then Some(f(x.value)) else None
  }

  function DoubleOf(x: Option<real>): Option<Value> {
    Map(x, (r: real) => Double(FromReal(r)))
  }

  function FactsToJson(o: seq<Field>, e: Edge): seq<Field> {
    var o := SetSome(o, "width", Map(e.width, (w: int) => Uint(Unsigned(w))));
    var o := SetSome(o, "pcie_generation", Map(e.pcieGeneration, (g: int) => Uint(Unsigned(g))));
    var o := SetSome(o, "bandwidth_bps", DoubleOf(e.bandwidth));
    var o := SetSome(o, "latency_ns", DoubleOf(e.latency));
    var o := SetField(o, "hop_count", Int(AsInt32(e.hopCount)));
    SetSome(o, "locality_score", DoubleOf(e.localityScore))
  }

  function EdgeJson(e: Edge, properties: seq<Field>): Value {
    var o := FactsToJson(LinkToJson(e), e);
    var o := SetField(o, "accessible", Bool(e.accessible));
    var o := SetSome(o, "peer_capability", Map(e.peerCapability, (c: uint64) => Uint(c)));
    var o := SetField(o, "policy_version", Uint(e.policyVersion));
    Object(SetField(o, "properties", Object(properties)))
  }

  // Conversions keep the number modulo their width.
  lemma ConversionsAreCongruent(i: int)
    ensures (Unsigned(i) - i) % 0x1_0000_0000_0000_0000 == 0
    ensures (AsInt32(i) - i) % 0x1_0000_0000 == 0 && -0x8000_0000 <= AsInt32(i) < 0x8000_0000
  {
  }

  // The low 32 bits as a signed number.
  function AsInt32(i: int): int64 {
    var low := i % 0x1_0000_0000;
    if low < 0x8000_0000 then low else low - 0x1_0000_0000
  }

  ghost predicate IsEdgeJson(e: Edge, v: Value) {
    exists fs :: IsPropertiesJson(e.properties, fs) && v == EdgeJson(e, fs)
  }

  method EdgeToJson(e: Edge) returns (v: Value)
    ensures IsEdgeJson(e, v)
  {
    hide EdgeJson;
    var fs := PropertiesToJson(e.properties);
    v := EdgeJson(e, fs);
  }

  // ---- Snapshots ----------------------------------------------------------------------------------

  function TypeIndex(t: EdgeType): nat {
    match t
    case Contains => 0
    case AttachedTo => 1
    case ConnectedTo => 2
    case LocalTo => 3
    case PeerTo => 4
    case SharesParent => 5
    case SharesNuma => 6
    case RoutesThrough => 7
    case AccessibleFrom => 8
    case AffineTo => 9
  }

  // By source, target and type; parallel edges of one type tie.
  predicate EdgeLess(a: Edge, b: Edge) {
    if a.source != b.source then IdLess(a.source, b.source)
    else if a.target != b.target then IdLess(a.target, b.target)
    else TypeIndex(a.edgeType) < TypeIndex(b.edgeType)
  }

  function MetadataToJson(m: Metadata): seq<Field> {
    var o := SetField([], "schema", String(SCHEMA_VERSION));
    var o := SetField(o, "snapshot_id", String(m.snapshotId));
    var o := SetField(o, "generation", Uint(Unsigned(m.generation)));
    var o := SetField(o, "created_ms", Int(m.createdMs));
    var o := SetField(o, "machine_identity", String(m.machineIdentity));
    var o := SetField(o, "provider_versions", String(m.providerVersions));
    SetField(o, "format", String(FORMAT))
  }

  function WarningsJson(ws: seq<string>): seq<Value> {
    seq(|ws|, i requires 0 <= i < |ws| => String(ws[i]))
  }

  // The document: what the builder knows, and a report of the validation.
  function RootJson(m: Metadata, nodes: seq<Value>, edges: seq<Value>, report: Value): Value {
    var o := SetField(MetadataToJson(m), "nodes", Array(nodes));
    var o := SetField(o, "edges", Array(edges));
    var o := SetField(o, "warnings", Array(WarningsJson(m.warnings)));
    var o := SetField(o, "partial_discovery", Bool(m.partialDiscovery));
    var o := SetField(o, "synthetic", Bool(m.synthetic));
    Object(SetField(o, "validation", report))
  }

  // Nodes in id order, edges in edge order.
  ghost predicate IsLayout(s: Snapshot, ids: seq<NodeId>, ns: seq<Value>, es: seq<Edge>, ls: seq<Value>) {
    && StrictlySorted(IdLess, ids) && (forall id :: id in ids <==> id in s.nodes)
    && |ns| == |ids| && (forall i :: 0 <= i < |ids| ==> IsNodeJson(s.nodes[ids[i]], ns[i]))
    && SortedBy(EdgeLess, es) && multiset(es) == multiset(s.edges)
    && |ls| == |es| && (forall i :: 0 <= i < |es| ==> IsEdgeJson(es[i], ls[i]))
  }

  ghost predicate IsSnapshotJson(s: Snapshot, report: Value, v: Value) {
    exists ids, ns, es, ls :: IsLayout(s, ids, ns, es, ls) && v == RootJson(s.metadata, ns, ls, report)
  }

  const EDGE_ORDER: seq<EdgeType> :=
    [Contains, AttachedTo, ConnectedTo, LocalTo, PeerTo, SharesParent, SharesNuma, RoutesThrough, AccessibleFrom, AffineTo]

  // Edges come by source, then by target and by the place of their type.
  lemma EdgesInOrder(es: seq<Edge>, i: nat, j: nat, p: nat, q: nat)
    requires SortedBy(EdgeLess, es) && i < j < |es| && p < |EDGE_ORDER| && q < |EDGE_ORDER|
    requires es[i].edgeType == EDGE_ORDER[p] && es[j].edgeType == EDGE_ORDER[q]
    ensures !IdLess(es[j].source, es[i].source)
    ensures es[i].source == es[j].source ==> !IdLess(es[j].target, es[i].target)
    ensures es[i].source == es[j].source && es[i].target == es[j].target ==> p <= q
  {
    assert !EdgeLess(es[j], es[i]);
    assert TypeIndex(EDGE_ORDER[p]) == p && TypeIndex(EDGE_ORDER[q]) == q;
  }

  lemma EdgeOrder()
    ensures StrictWeakOrder(EdgeLess)
  {
  }

  lemma IdOrder()
    ensures StrictWeakOrder(IdLess) && Total(IdLess)
  {
  }

  method SortIds(ids: set<NodeId>) returns (order: seq<NodeId>)
    ensures StrictlySorted(IdLess, order) && forall id :: id in order <==> id in ids
  {
    var collected: seq<NodeId> := [];
    var left := ids;
    while left != {}
      invariant left <= ids
      invariant forall id :: id in collected <==> id in ids && id !in left
      invariant AllDistinct(collected)
      decreases left
    {
      var id :| id in left;
      left := left - {id};
      collected := collected + [id];
    }
    order := Sort(IdLess, collected);
    IdOrder();
    SortDistinct(IdLess, collected);
  }

  method SnapshotToJson(s: Snapshot, report: Value) returns (v: Value)
    ensures IsSnapshotJson(s, report, v)
  {
    hide IsNodeJson, IsEdgeJson, RootJson, Sort, EdgeLess, IdLess;
    var ids := SortIds(s.nodes.Keys);
    var ns: seq<Value> := [];
    for i := 0 to |ids|
      invariant |ns| == i && forall j :: 0 <= j < i ==> IsNodeJson(s.nodes[ids[j]], ns[j])
    {
      var o := NodeToJson(s.nodes[ids[i]]);
      ns := ns + [o];
    }
    EdgeOrder();
    SortSorts(EdgeLess, s.edges);
    var es := Sort(EdgeLess, s.edges);
    var ls: seq<Value> := [];
    for i := 0 to |es|
      invariant |ls| == i && forall j :: 0 <= j < i ==> IsEdgeJson(es[j], ls[j])
    {
      var o := EdgeToJson(es[i]);
      ls := ls + [o];
    }
    assert IsLayout(s, ids, ns, es, ls);
    v := RootJson(s.metadata, ns, ls, report);
  }
}
