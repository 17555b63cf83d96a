// What a hand-written document means: names and absent members.

module DocumentReading {
  import opened Types
  import opened Names
  import opened Doubles
  import opened Identity
  import opened Snapshots
  import opened JsonValues
  import opened JsonGrammar
  import opened Loading
  import opened DocumentRoundTrip

  // ---- Names ------------------------------------------------------------------------------------

  const TYPE_TEXTS: seq<(string, NodeType)> := [
    ("machine", Machine), ("cpu_package", CpuPackage), ("cpu_core", CpuCore), ("cpu_thread", CpuThread), ("numa_node", NumaNode),
    ("host_memory_domain", HostMemoryDomain), ("accelerator", Accelerator), ("accelerator_memory_domain", AcceleratorMemoryDomain),
    ("pci_root", PciRoot), ("pci_bridge", PciBridge), ("pci_device", PciDevice), ("network_interface", NetworkInterface),
    ("storage_device", StorageDevice), ("shared_memory_domain", SharedMemoryDomain), ("unknown", UnknownType), ("extension", Extension)]

  const LINK_TEXTS: seq<(string, EdgeType)> := [
    ("contains", Contains), ("attached_to", AttachedTo), ("connected_to", ConnectedTo), ("local_to", LocalTo), ("peer_to", PeerTo),
    ("shares_parent", SharesParent), ("shares_numa", SharesNuma), ("routes_through", RoutesThrough),
    ("accessible_from", AccessibleFrom), ("affine_to", AffineTo)]

  const SOURCE_TEXTS: seq<(string, ProvenanceKind)> := [
    ("discovered", Discovered), ("inferred", Inferred), ("measured", Measured), ("user_supplied", UserSupplied), ("unknown", UnknownKind)]

  const TRUST_TEXTS: seq<(string, Confidence)> := [
    ("authoritative", Authoritative), ("high", High), ("medium", Medium), ("low", Low), ("unknown", UnknownConfidence)]

  lemma EveryTypeIsListed(t: NodeType)
    ensures exists i :: 0 <= i < |TYPE_TEXTS| && TYPE_TEXTS[i] == (TypeName(t), t)
  {
    match t {
      case Machine => assert TYPE_TEXTS[0] == (TypeName(t), t);
      case CpuPackage => assert TYPE_TEXTS[1] == (TypeName(t), t);
      case CpuCore => assert TYPE_TEXTS[2] == (TypeName(t), t);
      case CpuThread => assert TYPE_TEXTS[3] == (TypeName(t), t);
      case NumaNode => assert TYPE_TEXTS[4] == (TypeName(t), t);
      case HostMemoryDomain => assert TYPE_TEXTS[5] == (TypeName(t), t);
      case Accelerator => assert TYPE_TEXTS[6] == (TypeName(t), t);
      case AcceleratorMemoryDomain => assert TYPE_TEXTS[7] == (TypeName(t), t);
      case PciRoot => assert TYPE_TEXTS[8] == (TypeName(t), t);
      case PciBridge => assert TYPE_TEXTS[9] == (TypeName(t), t);
      case PciDevice => assert TYPE_TEXTS[10] == (TypeName(t), t);
      case NetworkInterface => assert TYPE_TEXTS[11] == (TypeName(t), t);
      case StorageDevice => assert TYPE_TEXTS[12] == (TypeName(t), t);
      case SharedMemoryDomain => assert TYPE_TEXTS[13] == (TypeName(t), t);
      case UnknownType => assert TYPE_TEXTS[14] == (TypeName(t), t);
      case Extension => assert TYPE_TEXTS[15] == (TypeName(t), t);
    }
  }

  // A listed text is read as its type and written for it, and any other text means an unknown type.
  lemma TypesOfDocuments(o: seq<Field>, s: string, t: NodeType)
    requires FindField(o, "type") == Some(String(s))
    ensures TypeAt(o) == t && t != UnknownType <==> t != UnknownType && exists i :: 0 <= i < |TYPE_TEXTS| && TYPE_TEXTS[i] == (s, t)
    ensures (forall i :: 0 <= i < |TYPE_TEXTS| ==> TYPE_TEXTS[i].0 != s) ==> TypeAt(o) == UnknownType
  {
    hide FindField, TypeName;
    EveryTypeIsListed(TypeNamed(s));
    NamedIsWritten(s);
    forall i | 0 <= i < |TYPE_TEXTS| && TYPE_TEXTS[i] == (s, t)
      ensures s == TypeName(t)
    {
      ListedIsWritten(i);
    }
    TypeNameReadsBack(t);
  }

  lemma ListedIsWritten(i: nat)
    requires i < |TYPE_TEXTS|
    ensures TYPE_TEXTS[i].0 == TypeName(TYPE_TEXTS[i].1)
  {
  }

  lemma NamedIsWritten(s: string)
    ensures TypeNamed(s) == UnknownType || TypeName(TypeNamed(s)) == s
  {
    if s in {"machine", "cpu_package", "cpu_core", "cpu_thread", "numa_node", "host_memory_domain", "accelerator", "accelerator_memory_domain"} {
    } else {
    }
  }

  // The same for edges, directions, sources and grades of trust; other texts mean a directed
  // connection, an unknown source or an unknown confidence.
  lemma LinksOfDocuments(o: seq<Field>, s: string, t: EdgeType)
    requires FindField(o, "type") == Some(String(s))
    ensures (exists i :: 0 <= i < |LINK_TEXTS| && LINK_TEXTS[i] == (s, t)) ==> EdgeTypeAt(o) == t && EdgeTypeName(t) == s
    ensures (forall i :: 0 <= i < |LINK_TEXTS| ==> LINK_TEXTS[i].0 != s) ==> EdgeTypeAt(o) == ConnectedTo
  {
    hide FindField;
    if i :| 0 <= i < |LINK_TEXTS| && LINK_TEXTS[i] == (s, t) {
      ListedLink(i);
    }
    assert LINK_TEXTS[0].0 == "contains" && LINK_TEXTS[1].0 == "attached_to" && LINK_TEXTS[3].0 == "local_to" && LINK_TEXTS[4].0 == "peer_to";
    assert LINK_TEXTS[5].0 == "shares_parent" && LINK_TEXTS[6].0 == "shares_numa" && LINK_TEXTS[7].0 == "routes_through";
    assert LINK_TEXTS[8].0 == "accessible_from" && LINK_TEXTS[9].0 == "affine_to";
  }

  lemma ListedLink(i: nat)
    requires i < |LINK_TEXTS|
    ensures EdgeTypeNamed(LINK_TEXTS[i].0) == LINK_TEXTS[i].1 && EdgeTypeName(LINK_TEXTS[i].1) == LINK_TEXTS[i].0
  {
    EdgeTypeNameReadsBack(LINK_TEXTS[i].1);
  }

  lemma DirectionsOfDocuments(o: seq<Field>, s: string)
    requires FindField(o, "direction") == Some(String(s))
    ensures DirectionAt(o) == (if s == "undirected" then Undirected else Directed)
    ensures DirectionName(Undirected) == "undirected" && DirectionName(Directed) == "directed"
  {
  }

  lemma SourcesOfDocuments(o: seq<Field>, s: string, i: nat)
    requires FindField(o, "kind") == Some(String(s)) && i < |SOURCE_TEXTS|
    ensures s == SOURCE_TEXTS[i].0 ==> KindAt(o) == SOURCE_TEXTS[i].1 && KindName(SOURCE_TEXTS[i].1) == s
    ensures s !in {"discovered", "inferred", "measured", "user_supplied"} ==> KindAt(o) == UnknownKind
  {
    hide FindField;
    KindNameReadsBack(SOURCE_TEXTS[i].1);
  }

  lemma TrustOfDocuments(o: seq<Field>, s: string, i: nat)
    requires FindField(o, "confidence") == Some(String(s)) && i < |TRUST_TEXTS|
    ensures s == TRUST_TEXTS[i].0 ==> ConfidenceAt(o) == TRUST_TEXTS[i].1 && ConfidenceName(TRUST_TEXTS[i].1) == s
    ensures s !in {"authoritative", "high", "medium", "low"} ==> ConfidenceAt(o) == UnknownConfidence
  {
    hide FindField;
    ConfidenceNameReadsBack(TRUST_TEXTS[i].1);
  }

  // ---- Absent members ------------------------------------------------------------------------------

  ghost predicate LackAll(o: seq<Field>, keys: seq<string>) {
    forall i :: 0 <= i < |keys| ==> FindField(o, keys[i]) == None
  }

  const NODE_KEYS: seq<string> :=
    ["type", "category", "name", "display_name", "native", "capabilities", "properties", "provenance", "confidence", "synthetic"]

  const EDGE_KEYS: seq<string> :=
    ["type", "direction", "provenance", "confidence", "width", "pcie_generation", "bandwidth_bps", "latency_ns", "hop_count",
     "locality_score", "accessible", "peer_capability", "policy_version", "properties"]

  const PROVENANCE_KEYS: seq<string> :=
    ["kind", "confidence", "provider", "api", "detail", "timestamp_ms", "schema_version", "provider_version"]

  const ADDRESS_KEYS: seq<string> :=
    ["pci_domain", "pci_bus", "pci_device", "pci_function", "vendor_id", "device_id", "subsystem_id", "subsystem_vendor_id",
     "numa_node", "cpu_package", "core_id", "processor_group", "logical_processor_index", "cuda_ordinal"]

  const NAME_KEYS: seq<string> :=
    ["cuda_uuid", "name", "network_interface_name", "network_hardware_id", "storage_id", "storage_device_path", "machine_name", "os_version"]

  const METADATA_KEYS: seq<string> :=
    ["snapshot_id", "generation", "created_ms", "machine_identity", "schema", "provider_versions", "partial_discovery", "synthetic", "warnings"]

  lemma NullParts()
    ensures NativeFromJson(Null) == NO_IDENTITY
    ensures ProvenanceFromJson(Null) == Provenance(UnknownKind, UnknownConfidence, "", "", "", 0, "1.0", "")
  {
  }

  lemma NoNodeFacts(o: seq<Field>)
    requires LackAll(o, NODE_KEYS)
    ensures TypeAt(o) == UnknownType && CapabilitiesAt(o) == 0 && PropertiesAt(o) == Read(map[]) && ConfidenceAt(o) == UnknownConfidence
    ensures !FlagAt(o, "synthetic", false) && FindField(o, "native") == FindField(o, "provenance") == None
    ensures TextAt(o, "category", "") == TextAt(o, "name", "") == TextAt(o, "display_name", "") == ""
  {
    hide FindField;
    assert NODE_KEYS[0] == "type" && NODE_KEYS[1] == "category" && NODE_KEYS[2] == "name" && NODE_KEYS[3] == "display_name";
    assert NODE_KEYS[4] == "native" && NODE_KEYS[5] == "capabilities" && NODE_KEYS[6] == "properties" && NODE_KEYS[7] == "provenance";
    assert NODE_KEYS[8] == "confidence" && NODE_KEYS[9] == "synthetic";
  }

  // A node that gives only its id.
  lemma BareNode(o: seq<Field>, id: NodeId)
    requires FindField(o, "id") == Some(String(ToHex(id))) && LackAll(o, NODE_KEYS)
    ensures NodeFromJson(Object(o)) ==
            Read(Node(id, UnknownType, "", "", "", NO_IDENTITY, 0, map[],
                      Provenance(UnknownKind, UnknownConfidence, "", "", "", 0, "1.0", ""), UnknownConfidence, false))
  {
    hide FindField, ToHex, HexId, NativeFromJson, ProvenanceFromJson, TypeAt, CapabilitiesAt, PropertiesAt, ConfidenceAt, FlagAt, TextAt, LackAll;
    HexReadsBack(id);
    NullParts();
    NoNodeFacts(o);
  }

  // An edge that gives only its ends.
  lemma BareEdge(o: seq<Field>, s: NodeId, t: NodeId)
    requires FindField(o, "source") == Some(String(ToHex(s))) && FindField(o, "target") == Some(String(ToHex(t)))
    requires LackAll(o, EDGE_KEYS)
    ensures EdgeFromJson(Object(o)) ==
            Read(Edge(s, t, ConnectedTo, Directed, Provenance(UnknownKind, UnknownConfidence, "", "", "", 0, "1.0", ""),
                      UnknownConfidence, None, None, None, None, 0, None, true, None, 0, map[]))
  {
    hide FindField, ToHex, HexId, ProvenanceFromJson;
    NullParts();
    HexReadsBack(s);
    HexReadsBack(t);
    assert EDGE_KEYS[0] == "type" && EDGE_KEYS[1] == "direction" && EDGE_KEYS[2] == "provenance" && EDGE_KEYS[3] == "confidence";
    assert EDGE_KEYS[4] == "width" && EDGE_KEYS[5] == "pcie_generation" && EDGE_KEYS[6] == "bandwidth_bps" && EDGE_KEYS[7] == "latency_ns";
    assert EDGE_KEYS[8] == "hop_count" && EDGE_KEYS[9] == "locality_score" && EDGE_KEYS[10] == "accessible";
    assert EDGE_KEYS[11] == "peer_capability" && EDGE_KEYS[12] == "policy_version" && EDGE_KEYS[13] == "properties";
  }

  // A provenance that says nothing.
  lemma BareProvenance(o: seq<Field>)
    requires LackAll(o, PROVENANCE_KEYS)
    ensures ProvenanceFromJson(Object(o)) == Provenance(UnknownKind, UnknownConfidence, "", "", "", 0, "1.0", "")
  {
    hide FindField;
    assert PROVENANCE_KEYS[0] == "kind" && PROVENANCE_KEYS[1] == "confidence" && PROVENANCE_KEYS[2] == "provider";
    assert PROVENANCE_KEYS[3] == "api" && PROVENANCE_KEYS[4] == "detail" && PROVENANCE_KEYS[5] == "timestamp_ms";
    assert PROVENANCE_KEYS[6] == "schema_version" && PROVENANCE_KEYS[7] == "provider_version";
  }

  // A native identity that reports nothing.
  lemma BareIdentity(o: seq<Field>)
    requires LackAll(o, ADDRESS_KEYS) && LackAll(o, NAME_KEYS)
    ensures NativeFromJson(Object(o)) ==
            NativeIdentity(None, None, None, None, None, None, None, None, None, None, None, None, None, None,
                           "", "", "", "", "", "", "", "")
  {
    hide FindField;
    assert ADDRESS_KEYS[0] == "pci_domain" && ADDRESS_KEYS[1] == "pci_bus" && ADDRESS_KEYS[2] == "pci_device";
    assert ADDRESS_KEYS[3] == "pci_function" && ADDRESS_KEYS[4] == "vendor_id" && ADDRESS_KEYS[5] == "device_id";
    assert ADDRESS_KEYS[6] == "subsystem_id" && ADDRESS_KEYS[7] == "subsystem_vendor_id" && ADDRESS_KEYS[8] == "numa_node";
    assert ADDRESS_KEYS[9] == "cpu_package" && ADDRESS_KEYS[10] == "core_id" && ADDRESS_KEYS[11] == "processor_group";
    assert ADDRESS_KEYS[12] == "logical_processor_index" && ADDRESS_KEYS[13] == "cuda_ordinal";
    assert NAME_KEYS[0] == "cuda_uuid" && NAME_KEYS[1] == "name" && NAME_KEYS[2] == "network_interface_name";
    assert NAME_KEYS[3] == "network_hardware_id" && NAME_KEYS[4] == "storage_id" && NAME_KEYS[5] == "storage_device_path";
    assert NAME_KEYS[6] == "machine_name" && NAME_KEYS[7] == "os_version";
  }

  lemma BareMetadata(o: seq<Field>)
    requires LackAll(o, METADATA_KEYS)
    ensures MetadataFromJson(o) == Metadata("", 0, 0, "", "1.0.0", "", false, false, [])
  {
    hide FindField;
    assert METADATA_KEYS[0] == "snapshot_id" && METADATA_KEYS[1] == "generation" && METADATA_KEYS[2] == "created_ms";
    assert METADATA_KEYS[3] == "machine_identity" && METADATA_KEYS[4] == "schema" && METADATA_KEYS[5] == "provider_versions";
    assert METADATA_KEYS[6] == "partial_discovery" && METADATA_KEYS[7] == "synthetic" && METADATA_KEYS[8] == "warnings";
  }

  // Without a readable id there is no node, and without readable ends no edge.
  lemma NamelessIsMalformed(o: seq<Field>)
    ensures (forall id :: FindField(o, "id") != Some(String(ToHex(id)))) && (forall s :: FindField(o, "id") == Some(String(s)) ==> |s| != 32) ==>
              NodeFromJson(Object(o)) == Failed(Malformed)
    ensures FindField(o, "source") == None || FindField(o, "target") == None ==> EdgeFromJson(Object(o)) == Failed(Malformed)
  {
    hide FindField, ToHex;
  }

  // ---- Numbers of the other kind -----------------------------------------------------------------------

  // A double where an integer is wanted is cut toward zero.
  lemma DoublesAreCut(x: real)
    requires -9223372036854775808.0 <= x < 9223372036854775808.0
    ensures x >= 0.0 ==> Truncated(x) as real <= x < Truncated(x) as real + 1.0
    ensures x <= 0.0 ==> Truncated(x) as real - 1.0 < x <= Truncated(x) as real
  {
  }

  lemma DoubleAsInteger(o: seq<Field>, k: string, negative: bool, size: Magnitude)
    requires FindField(o, k) == Some(Double(Finite(negative, size)))
    ensures var x: real := size; IntegerAt(o, k) == Some(Truncated(if negative then 0.0 - x else x))
  {
    hide FindField, Truncated;
  }

  // An integer where a measure is wanted is that number.
  lemma IntegersAreMeasures(o: seq<Field>, k: string)
    ensures forall i: int64 :: FindField(o, k) == Some(Int(i)) ==> RealAt(o, k) == Some(i as real) && IntegerAt(o, k) == Some(i)
    ensures forall u: uint64 :: FindField(o, k) == Some(Uint(u)) ==>
              RealAt(o, k) == Some(u as real) && IntegerAt(o, k).Some? && (IntegerAt(o, k).value - u) % 0x1_0000_0000_0000_0000 == 0
    ensures FindField(o, k) == None || FindField(o, k) == Some(Null) ==> RealAt(o, k) == None && IntegerAt(o, k) == None
  {
    hide FindField;
  }

  // ---- Values of the wrong kind ----------------------------------------------------------------------

  // An array that starts with a string must hold strings; any other array is one of integers, in
  // which what is no number counts as zero; and an object says nothing.
  lemma OddProperties(v: Value)
    ensures v.Object? ==> PropertyFromJson(v) == Read(NullProperty)
    ensures v.Array? && v.items != [] && v.items[0].String? && (exists i :: 0 <= i < |v.items| && !v.items[i].String?) ==>
              PropertyFromJson(v) == Failed(WrongKind)
    ensures v.Array? && (v.items == [] || !v.items[0].String?) ==>
              PropertyFromJson(v).Read? && PropertyFromJson(v).value.IntsProperty? && |PropertyFromJson(v).value.ii| == |v.items| &&
              forall i :: 0 <= i < |v.items| ==>
                             (v.items[i].Int? ==> PropertyFromJson(v).value.ii[i] == v.items[i].i) &&
                             (!IsNumber(v.items[i]) ==> PropertyFromJson(v).value.ii[i] == 0)
  {
  }

  // Of two properties of one name the first is kept.
  lemma FirstPropertyIsKept(fs: seq<Field>, m: PropertyMap, k: string)
    requires k in m && ReadProperties(fs, 0, m).Read?
    ensures k in ReadProperties(fs, 0, m).value && ReadProperties(fs, 0, m).value[k] == m[k]
  {
    FirstKept(fs, 0, m, k);
  }

  lemma {:induction false} FirstKept(fs: seq<Field>, i: nat, m: PropertyMap, k: string)
    requires i <= |fs| && k in m && ReadProperties(fs, i, m).Read?
    ensures k in ReadProperties(fs, i, m).value && ReadProperties(fs, i, m).value[k] == m[k]
    decreases |fs| - i
  {
    if i < |fs| {
      var p := PropertyFromJson(fs[i].value).value;
      FirstKept(fs, i + 1, if fs[i].key in m then m else m[fs[i].key := p], k);
    }
  }

  // Warnings that are no strings are passed over, the others keep their order.
  lemma {:induction false} WarningsAreFiltered(a: seq<Value>, ws: seq<string>)
    requires |a| == |ws| + 1 && a[0] == Null && forall i :: 0 <= i < |ws| ==> a[i + 1] == String(ws[i])
    ensures ReadWarnings(a) == ws
    decreases |a|
  {
    var n := |a| - 1;
    if ws != [] {
      WarningsAreFiltered(a[..n], ws[..n - 1]);
      assert ws == ws[..n - 1] + [ws[n - 1]];
    } else {
      assert a[..0] == [];
    }
  }

  // A native number that is no number is zero, and it is missing only if it is absent or null.
  lemma OddNativeNumbers(o: seq<Field>, k: string, s: string)
    ensures FindField(o, k) == Some(String(s)) ==> ShortAt(o, k) == Some(0) && Loading.WordAt(o, k) == Some(0)
    ensures ShortAt(o, k) == None <==> FindField(o, k) == None || FindField(o, k) == Some(Null)
    ensures Loading.WordAt(o, k) == None <==> FindField(o, k) == None || FindField(o, k) == Some(Null)
  {
    hide FindField;
  }

  // Only documents of this format are loaded.
  lemma OtherFormatsAreRefused(v: Value, bounds: Bounds)
    requires !v.Object? || FindField(v.fields, "format") != Some(String("topology_fabric_snapshot"))
    ensures ContentFromJson(v, bounds) == Failed(Malformed)
  {
    hide FindField;
  }

  // The limits of the parser that loads documents.
  lemma LoadingLimits()
    ensures DEFAULT_OPTIONS.maxDepth == 128 && DEFAULT_OPTIONS.maxNodes == 4_194_304 && DEFAULT_OPTIONS.maxStringBytes == 16_777_216
    ensures !DEFAULT_OPTIONS.allowNanInf
  {
  }
}
