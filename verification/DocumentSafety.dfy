// Which snapshots the document format can carry: texts are 7-bit, numbers stay in range, and so
// the document of such a snapshot is one that prints and parses.

module DocumentSafety {
  import opened Types
  import opened Names
  import opened Identity
  import opened Snapshots
  import opened Sorting
  import opened Doubles
  import opened JsonValues
  import opened JsonGrammar
  import opened JsonRoundTrip
  import opened Documents
  import opened DocumentRoundTrip

  // ---- Safe snapshots -----------------------------------------------------------------------------

  ghost predicate SafeNative(n: NativeIdentity) {
    && SafeText(n.cudaUuid) && SafeText(n.name) && SafeText(n.networkInterfaceName) && SafeText(n.networkHardwareId)
    && SafeText(n.storageId) && SafeText(n.storageDevicePath) && SafeText(n.machineName) && SafeText(n.osVersion)
  }

  ghost predicate SafeProvenance(p: Provenance) {
    && SafeText(p.provider) && SafeText(p.api) && SafeText(p.detail) && SafeText(p.schemaVersion) && SafeText(p.providerVersion)
  }

  ghost predicate SafeNode(n: Node) {
    && SafeText(n.category) && SafeText(n.name) && SafeText(n.displayName) && SafeNative(n.native)
    && SafeProvenance(n.provenance) && SafeProperties(n.properties) && SafeCapabilities(n.capabilities)
  }

  ghost predicate SafeEdge(e: Edge) {
    SafeProvenance(e.provenance) && SafeFacts(e) && SafeProperties(e.properties)
  }

  ghost predicate SafeMetadata(m: Metadata) {
    && SafeText(m.snapshotId) && m.generation <= MAX_INT64 && SafeText(m.machineIdentity) && SafeText(m.providerVersions)
    && (forall i :: 0 <= i < |m.warnings| ==> SafeText(m.warnings[i]))
  }

  ghost predicate SafeSnapshot(s: Snapshot) {
    && SafeMetadata(s.metadata)
    && (forall id :: id in s.nodes ==> SafeNode(s.nodes[id]))
    && (forall i :: 0 <= i < |s.edges| ==> SafeEdge(s.edges[i]))
  }

  // ---- Values that print and parse ------------------------------------------------------------------

  ghost predicate Good(v: Value, levels: nat) {
    Printable(v, DEFAULT_OPTIONS) && NestsWithin(v, levels)
  }

  ghost predicate GoodFields(fs: seq<Field>, levels: nat) {
    Ascending(fs) && forall i :: 0 <= i < |fs| ==> SafeText(fs[i].key) && Good(fs[i].value, levels)
  }

  lemma SettingKeepsGood(fs: seq<Field>, k: string, v: Value, levels: nat)
    requires GoodFields(fs, levels) && SafeText(k) && Good(v, levels)
    ensures GoodFields(SetField(fs, k, v), levels)
  {
    hide Good, SafeText, Ascending;
    SetFieldAscends(fs, k, v);
    SetFieldOrigin(fs, k, v);
    var z := SetField(fs, k, v);
    forall i | 0 <= i < |z|
      ensures SafeText(z[i].key) && Good(z[i].value, levels)
    {
      assert z[i] in z;
    }
  }

  lemma SettingsKeepGood()
    ensures forall fs: seq<Field>, k: string, v: Value, levels: nat {:trigger GoodFields(SetField(fs, k, v), levels)} ::
              GoodFields(fs, levels) && SafeText(k) && Good(v, levels) ==> GoodFields(SetField(fs, k, v), levels)
    ensures forall fs: seq<Field>, k: string, v: Option<Value>, levels: nat {:trigger GoodFields(SetSome(fs, k, v), levels)} ::
              GoodFields(fs, levels) && SafeText(k) && (v.Some? ==> Good(v.value, levels)) ==> GoodFields(SetSome(fs, k, v), levels)
  {
    hide GoodFields, Good, SafeText;
    forall fs: seq<Field>, k: string, v: Value, levels: nat | GoodFields(fs, levels) && SafeText(k) && Good(v, levels)
      ensures GoodFields(SetField(fs, k, v), levels)
    {
      SettingKeepsGood(fs, k, v, levels);
    }
    forall fs: seq<Field>, k: string, v: Option<Value>, levels: nat | GoodFields(fs, levels) && SafeText(k) && (v.Some? ==> Good(v.value, levels))
      ensures GoodFields(SetSome(fs, k, v), levels)
    {
      if v.Some? {
        SettingKeepsGood(fs, k, v.value, levels);
      }
    }
  }

  lemma NoFieldsAreGood()
    ensures forall levels: nat :: GoodFields([], levels)
  {
  }

  lemma ScalarsAreGood()
    ensures forall s: string, levels: nat :: SafeText(s) ==> Good(String(s), levels)
    ensures forall u: uint64, levels: nat :: Good(Uint(u), levels)
    ensures forall i: int64, levels: nat :: Good(Int(i), levels)
    ensures forall f: Float64, levels: nat :: Good(Double(f), levels)
    ensures forall b: bool, levels: nat :: Good(Bool(b), levels)
    ensures forall levels: nat :: Good(Null, levels)
  {
  }

  lemma ObjectIsGood(fs: seq<Field>, levels: nat)
    requires GoodFields(fs, levels)
    ensures Good(Object(fs), levels + 1)
  {
  }

  lemma ArrayIsGood(a: seq<Value>, levels: nat)
    requires forall i :: 0 <= i < |a| ==> Good(a[i], levels)
    ensures Good(Array(a), levels + 1)
  {
  }

  lemma {:induction false} DeeperIsGood(v: Value, levels: nat, more: nat)
    requires Good(v, levels) && levels <= more
    ensures Good(v, more)
  {
    hide Printable;
    NestingGrows(v, levels, more);
  }

  lemma {:induction false} NestingGrows(v: Value, levels: nat, more: nat)
    requires NestsWithin(v, levels) && levels <= more
    ensures NestsWithin(v, more)
  {
    match v {
      case Array(a) =>
        forall i | 0 <= i < |a|
          ensures more > 0 && NestsWithin(a[i], more - 1)
        {
          NestingGrows(a[i], levels - 1, more - 1);
        }
      case Object(fs) =>
        forall i | 0 <= i < |fs|
          ensures more > 0 && NestsWithin(fs[i].value, more - 1)
        {
          NestingGrows(fs[i].value, levels - 1, more - 1);
        }
      case _ =>
    }
  }

  // ---- Safe texts --------------------------------------------------------------------------------------

  lemma HexIsSafe(id: NodeId)
    ensures SafeText(ToHex(id))
  {
    IdTextIsReadable(id);
    var s := ToHex(id);
    forall i | 0 <= i < |s|
      ensures s[i] as int < 0x80
    {
      if i < 16 {
        assert s[i] == s[..16][i] && s[..16][i] in s[..16];
      } else {
        assert s[i] == s[16..][i - 16] && s[16..][i - 16] in s[16..];
      }
    }
  }

  lemma HostTypeNameIsSafe(t: NodeType)
    requires t.Machine? || t.CpuPackage? || t.CpuCore? || t.CpuThread? || t.NumaNode? || t.HostMemoryDomain?
    ensures SafeText(TypeName(t))
  {
  }

  lemma DeviceTypeNameIsSafe(t: NodeType)
    requires t.Accelerator? || t.AcceleratorMemoryDomain? || t.PciRoot? || t.PciBridge? || t.PciDevice?
    ensures SafeText(TypeName(t))
  {
  }

  lemma TypeNameIsSafe(t: NodeType)
    ensures SafeText(TypeName(t))
  {
    match t {
      case Machine => HostTypeNameIsSafe(t);
      case CpuPackage => HostTypeNameIsSafe(t);
      case CpuCore => HostTypeNameIsSafe(t);
      case CpuThread => HostTypeNameIsSafe(t);
      case NumaNode => HostTypeNameIsSafe(t);
      case HostMemoryDomain => HostTypeNameIsSafe(t);
      case Accelerator => DeviceTypeNameIsSafe(t);
      case AcceleratorMemoryDomain => DeviceTypeNameIsSafe(t);
      case PciRoot => DeviceTypeNameIsSafe(t);
      case PciBridge => DeviceTypeNameIsSafe(t);
      case PciDevice => DeviceTypeNameIsSafe(t);
      case _ =>
    }
  }

  lemma EdgeNamesAreSafe(t: EdgeType, d: EdgeDirection)
    ensures SafeText(EdgeTypeName(t)) && SafeText(DirectionName(d))
  {
  }

  lemma SourceNamesAreSafe(k: ProvenanceKind, c: Confidence)
    ensures SafeText(KindName(k)) && SafeText(ConfidenceName(c))
  {
  }

  // ---- Native identity and provenance --------------------------------------------------------------------

  lemma PciKeysAreSafe()
    ensures SafeText("pci_domain") && SafeText("pci_bus") && SafeText("pci_device") && SafeText("pci_function")
    ensures SafeText("vendor_id") && SafeText("device_id") && SafeText("subsystem_id") && SafeText("subsystem_vendor_id")
  {
  }

  lemma OptionalsAreGood()
    ensures forall x: Option<uint16>, levels: nat :: Good(ShortToJson(x), levels)
    ensures forall x: Option<uint32>, levels: nat :: Good(WordToJson(x), levels)
  {
  }

  lemma PciIsGood(n: NativeIdentity)
    ensures GoodFields(PciToJson(n), 0)
  {
    hide GoodFields, Good, SafeText, SetField, ShortToJson;
    PciKeysAreSafe();
    SettingsKeepGood();
    NoFieldsAreGood();
    OptionalsAreGood();
  }

  lemma ProcessorKeysAreSafe()
    ensures SafeText("numa_node") && SafeText("cpu_package") && SafeText("core_id") && SafeText("processor_group")
    ensures SafeText("logical_processor_index") && SafeText("cuda_ordinal")
  {
  }

  lemma ProcessorIsGood(o: seq<Field>, n: NativeIdentity)
    requires GoodFields(o, 0)
    ensures GoodFields(ProcessorToJson(o, n), 0)
  {
    hide GoodFields, Good, SafeText, SetField, WordToJson;
    ProcessorKeysAreSafe();
    SettingsKeepGood();
    OptionalsAreGood();
  }

  lemma DeviceKeysAreSafe()
    ensures SafeText("cuda_uuid") && SafeText("name") && SafeText("network_interface_name") && SafeText("network_hardware_id")
    ensures SafeText("storage_id") && SafeText("storage_device_path") && SafeText("machine_name") && SafeText("os_version")
  {
  }

  lemma DeviceNamesAreGood(o: seq<Field>, n: NativeIdentity)
    requires GoodFields(o, 0) && SafeNative(n)
    ensures GoodFields(DeviceNamesToJson(o, n), 0)
  {
    hide GoodFields, Good, SafeText, SetField;
    DeviceKeysAreSafe();
    SettingsKeepGood();
    ScalarsAreGood();
  }

  lemma NativeIsGood(n: NativeIdentity)
    requires SafeNative(n)
    ensures Good(NativeToJson(n), 1)
  {
    hide GoodFields, Good, SafeText, PciToJson, ProcessorToJson, DeviceNamesToJson, SafeNative;
    PciIsGood(n);
    ProcessorIsGood(PciToJson(n), n);
    DeviceNamesAreGood(ProcessorToJson(PciToJson(n), n), n);
    ObjectIsGood(DeviceNamesToJson(ProcessorToJson(PciToJson(n), n), n), 0);
  }

  lemma ProvenanceKeysAreSafe()
    ensures SafeText("kind") && SafeText("confidence") && SafeText("provider") && SafeText("api") && SafeText("detail")
    ensures SafeText("timestamp_ms") && SafeText("schema_version") && SafeText("provider_version")
  {
  }

  lemma ProvenanceIsGood(p: Provenance)
    requires SafeProvenance(p)
    ensures Good(ProvenanceToJson(p), 1)
  {
    hide GoodFields, Good, SafeText, SetField, KindName, ConfidenceName;
    ProvenanceKeysAreSafe();
    SettingsKeepGood();
    NoFieldsAreGood();
    ScalarsAreGood();
    SourceNamesAreSafe(p.kind, p.confidence);
    ProvenanceIsObject(p);
    ObjectIsGood(ProvenanceToJson(p).fields, 0);
  }

  // ---- Properties ------------------------------------------------------------------------------------------

  lemma PropertyIsGood(p: PropertyValue)
    requires SafeProperty(p)
    ensures Good(PropertyToJson(p), 1)
  {
    hide SafeText, Good;
    ScalarsAreGood();
    match p {
      case StringsProperty(ss) => ArrayIsGood(PropertyToJson(p).items, 0);
      case IntsProperty(ii) => ArrayIsGood(PropertyToJson(p).items, 0);
      case _ =>
    }
  }

  lemma PropertiesAreGood(m: PropertyMap, fs: seq<Field>)
    requires IsPropertiesJson(m, fs) && SafeProperties(m)
    ensures Good(Object(fs), 2)
  {
    hide Good, SafeText, SafeProperty, PropertyToJson, FindField, Ascending;
    forall i | 0 <= i < |fs|
      ensures SafeText(fs[i].key) && Good(fs[i].value, 1)
    {
      FieldIsFound(fs, i);
      PropertyIsGood(m[fs[i].key]);
    }
    ObjectIsGood(fs, 1);
  }

  // ---- Nodes and edges --------------------------------------------------------------------------------------

  lemma LabelKeysAreSafe()
    ensures SafeText("id") && SafeText("type") && SafeText("category") && SafeText("name") && SafeText("display_name")
  {
  }

  lemma LabelsAreGood(n: Node)
    requires SafeText(n.category) && SafeText(n.name) && SafeText(n.displayName)
    ensures GoodFields(LabelsToJson(n), 2)
  {
    hide GoodFields, Good, SafeText, SetField, TypeName, ToHex;
    LabelKeysAreSafe();
    SettingsKeepGood();
    NoFieldsAreGood();
    ScalarsAreGood();
    HexIsSafe(n.id);
    TypeNameIsSafe(n.nodeType);
  }

  lemma NodeKeysAreSafe()
    ensures SafeText("native") && SafeText("capabilities") && SafeText("confidence") && SafeText("provenance")
    ensures SafeText("synthetic") && SafeText("properties")
  {
  }

  lemma CapabilitiesAreGood(bits: bv64)
    ensures Good(CapabilitiesToJson(bits), 2)
  {
  }

  lemma NodeIsGood(n: Node, v: Value)
    requires SafeNode(n) && IsNodeJson(n, v)
    ensures Good(v, 3)
  {
    hide GoodFields, Good, SafeText, SetField, ConfidenceName, NativeToJson, ProvenanceToJson, LabelsToJson;
    hide CapabilitiesToJson;
    hide SafeProperties, SafeCapabilities, SafeNative, SafeProvenance, IsPropertiesJson;
    var fs :| IsPropertiesJson(n.properties, fs) && v == NodeJson(n, fs);
    NodeKeysAreSafe();
    SettingsKeepGood();
    ScalarsAreGood();
    LabelsAreGood(n);
    NativeIsGood(n.native);
    DeeperIsGood(NativeToJson(n.native), 1, 2);
    CapabilitiesAreGood(n.capabilities);
    SourceNamesAreSafe(UnknownKind, n.confidence);
    ProvenanceIsGood(n.provenance);
    DeeperIsGood(ProvenanceToJson(n.provenance), 1, 2);
    PropertiesAreGood(n.properties, fs);
    assert v.Object?;
    ObjectIsGood(v.fields, 2);
  }

  lemma LinkKeysAreSafe()
    ensures SafeText("source") && SafeText("target") && SafeText("type") && SafeText("direction") && SafeText("confidence")
    ensures SafeText("provenance")
  {
  }

  lemma LinkIsGood(e: Edge)
    requires SafeProvenance(e.provenance)
    ensures GoodFields(LinkToJson(e), 2)
  {
    hide GoodFields, Good, SafeText, SetField, EdgeTypeName, DirectionName, ConfidenceName, ToHex, ProvenanceToJson;
    LinkKeysAreSafe();
    SettingsKeepGood();
    NoFieldsAreGood();
    ScalarsAreGood();
    HexIsSafe(e.source);
    HexIsSafe(e.target);
    EdgeNamesAreSafe(e.edgeType, e.direction);
    SourceNamesAreSafe(UnknownKind, e.confidence);
    ProvenanceIsGood(e.provenance);
    DeeperIsGood(ProvenanceToJson(e.provenance), 1, 2);
  }

  lemma FactKeysAreSafe()
    ensures SafeText("width") && SafeText("pcie_generation") && SafeText("bandwidth_bps") && SafeText("latency_ns")
    ensures SafeText("hop_count") && SafeText("locality_score")
  {
  }

  lemma FactsAreGood(o: seq<Field>, e: Edge)
    requires GoodFields(o, 2)
    ensures GoodFields(FactsToJson(o, e), 2)
  {
    hide GoodFields, Good, SafeText, SetField, SetSome;
    FactKeysAreSafe();
    SettingsKeepGood();
    ScalarsAreGood();
  }

  lemma EdgeKeysAreSafe()
    ensures SafeText("accessible") && SafeText("peer_capability") && SafeText("policy_version") && SafeText("properties")
  {
  }

  lemma EdgeIsGood(e: Edge, v: Value)
    requires SafeEdge(e) && IsEdgeJson(e, v)
    ensures Good(v, 3)
  {
    hide GoodFields, Good, SafeText, SetField, SetSome, LinkToJson, FactsToJson;
    hide SafeProperties, SafeFacts, SafeProvenance, IsPropertiesJson;
    var fs :| IsPropertiesJson(e.properties, fs) && v == EdgeJson(e, fs);
    EdgeKeysAreSafe();
    SettingsKeepGood();
    ScalarsAreGood();
    LinkIsGood(e);
    FactsAreGood(LinkToJson(e), e);
    PropertiesAreGood(e.properties, fs);
    EdgeMembers(e, fs);
    ObjectIsGood(v.fields, 2);
  }

  // ---- Documents --------------------------------------------------------------------------------------------

  lemma MetadataKeysAreSafe()
    ensures SafeText("schema") && SafeText("snapshot_id") && SafeText("generation") && SafeText("created_ms")
    ensures SafeText("machine_identity") && SafeText("provider_versions") && SafeText("format")
  {
  }

  lemma ConstantsAreSafe()
    ensures SafeText(SCHEMA_VERSION) && SafeText(FORMAT)
  {
  }

  lemma MetadataIsGood(m: Metadata)
    requires SafeMetadata(m)
    ensures GoodFields(MetadataToJson(m), 4)
  {
    hide GoodFields, Good, SafeText, SetField;
    MetadataKeysAreSafe();
    ConstantsAreSafe();
    SettingsKeepGood();
    NoFieldsAreGood();
    ScalarsAreGood();
  }

  lemma RootKeysAreSafe()
    ensures SafeText("nodes") && SafeText("edges") && SafeText("warnings") && SafeText("partial_discovery")
    ensures SafeText("synthetic") && SafeText("validation")
  {
  }

  lemma RootIsGood(m: Metadata, ns: seq<Value>, ls: seq<Value>, report: Value)
    requires SafeMetadata(m) && Good(report, 4)
    requires (forall i :: 0 <= i < |ns| ==> Good(ns[i], 3)) && (forall i :: 0 <= i < |ls| ==> Good(ls[i], 3))
    ensures Good(RootJson(m, ns, ls, report), 5)
  {
    hide GoodFields, Good, SafeText, SetField, MetadataToJson;
    RootKeysAreSafe();
    SettingsKeepGood();
    ScalarsAreGood();
    MetadataIsGood(m);
    ArrayIsGood(ns, 3);
    ArrayIsGood(ls, 3);
    ArrayIsGood(WarningsJson(m.warnings), 3);
    var o := SetField(SetField(SetField(MetadataToJson(m), "nodes", Array(ns)), "edges", Array(ls)), "warnings", Array(WarningsJson(m.warnings)));
    var z := SetField(SetField(o, "partial_discovery", Bool(m.partialDiscovery)), "synthetic", Bool(m.synthetic));
    ObjectIsGood(SetField(z, "validation", report), 4);
  }

  // A safe snapshot, with a report that prints, has a document that prints and parses.
  lemma SafeDocumentIsPrintable(s: Snapshot, report: Value, v: Value)
    requires SafeSnapshot(s) && Good(report, 4) && IsSnapshotJson(s, report, v)
    ensures Printable(v, DEFAULT_OPTIONS) && NestsWithin(v, DEFAULT_OPTIONS.maxDepth)
  {
    hide Good, SafeNode, SafeEdge, SafeMetadata, IsNodeJson, IsEdgeJson, RootJson;
    var ids, ns, es, ls :| IsLayout(s, ids, ns, es, ls) && v == RootJson(s.metadata, ns, ls, report);
    forall i | 0 <= i < |ns|
      ensures Good(ns[i], 3)
    {
      assert ids[i] in ids;
      NodeIsGood(s.nodes[ids[i]], ns[i]);
    }
    SameElements(es, s.edges);
    forall i | 0 <= i < |ls|
      ensures Good(ls[i], 3)
    {
      assert es[i] in es;
      EdgeIsGood(es[i], ls[i]);
    }
    RootIsGood(s.metadata, ns, ls, report);
    GoodMeans(v, 5);
  }

  lemma GoodMeans(v: Value, levels: nat)
    requires Good(v, levels) && levels <= DEFAULT_OPTIONS.maxDepth
    ensures Printable(v, DEFAULT_OPTIONS) && NestsWithin(v, DEFAULT_OPTIONS.maxDepth)
  {
    hide Printable;
    NestingGrows(v, levels, DEFAULT_OPTIONS.maxDepth);
  }
}
