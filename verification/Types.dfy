// The typed property graph: node ids, enumerations, native identity, nodes and edges.

module Types {

  datatype Option<+T> = None | Some(value: T) {
    function GetOr(default: T): T {
      match this
      case Some(v) => v
      case None => default
    }
  }

  // The source reports an unknown node id by throwing; an Outcome is a result or that error.
  datatype Outcome<+T> = Ok(value: T) | NotFound(id: NodeId)

  type uint16 = x: int | 0 <= x < 0x1_0000
  type uint32 = x: int | 0 <= x < 0x1_0000_0000
  type uint64 = x: int | 0 <= x < 0x1_0000_0000_0000_0000
  type int64 = x: int | -0x8000_0000_0000_0000 <= x < 0x8000_0000_0000_0000

  // ---- Node ids -----------------------------------------------------------

  datatype NodeId = NodeId(high: uint64, low: uint64)

  const NULL_NODE_ID: NodeId := NodeId(0, 0)

  // Lexicographic order on (high, low).
  predicate IdLess(a: NodeId, b: NodeId) {
    a.high < b.high || (a.high == b.high && a.low < b.low)
  }

  // ---- Enumerations ---------------------------------------------------------

  datatype NodeType =
    | Machine | CpuPackage | CpuCore | CpuThread | NumaNode | HostMemoryDomain
    | Accelerator | AcceleratorMemoryDomain | PciRoot | PciBridge | PciDevice
    | NetworkInterface | StorageDevice | SharedMemoryDomain | UnknownType | Extension

  datatype EdgeType =
    | Contains | AttachedTo | ConnectedTo | LocalTo | PeerTo | SharesParent
    | SharesNuma | RoutesThrough | AccessibleFrom | AffineTo

  datatype EdgeDirection = Directed | Undirected

  datatype ProvenanceKind = Discovered | Inferred | Measured | UserSupplied | UnknownKind

  datatype Confidence = Authoritative | High | Medium | Low | UnknownConfidence

  function ConfidenceRank(c: Confidence): nat {
    match c
    case Authoritative => 5
    case High => 4
    case Medium => 3
    case Low => 2
    case UnknownConfidence => 1
  }

  // ---- Properties and provenance --------------------------------------------

  datatype PropertyValue =
    | NullProperty
    | BoolProperty(flag: bool)
    | IntProperty(i: int64)
    | UintProperty(u: uint64)
    | DoubleProperty(d: real)
    | StringProperty(s: string)
    | StringsProperty(ss: seq<string>)
    | IntsProperty(ii: seq<int64>)

  type PropertyMap = map<string, PropertyValue>

  datatype Provenance = Provenance(
    kind: ProvenanceKind,
    confidence: Confidence,
    provider: string,
    api: string,
    detail: string,
    timestampMs: int64,
    schemaVersion: string,
    providerVersion: string)

  // ---- Native identity --------------------------------------------------------

  // None means "not reported". Text fields use the empty string for "not reported".
  datatype NativeIdentity = NativeIdentity(
    pciDomain: Option<uint16>,
    pciBus: Option<uint16>,
    pciDevice: Option<uint16>,
    pciFunction: Option<uint16>,
    vendorId: Option<uint16>,
    deviceId: Option<uint16>,
    subsystemId: Option<uint16>,
    subsystemVendorId: Option<uint16>,
    numaNode: Option<uint32>,
    cpuPackage: Option<uint32>,
    coreId: Option<uint32>,
    processorGroup: Option<uint32>,
    logicalProcessorIndex: Option<uint32>,
    cudaOrdinal: Option<uint32>,
    cudaUuid: string,
    name: string,
    networkInterfaceName: string,
    networkHardwareId: string,
    storageId: string,
    storageDevicePath: string,
    machineName: string,
    osVersion: string)

  // Nothing reported.
  const NO_IDENTITY: NativeIdentity :=
    NativeIdentity(None, None, None, None, None, None, None, None, None, None, None, None, None, None,
                   "", "", "", "", "", "", "", "")

  // ---- Nodes and edges ----------------------------------------------------------

  datatype Node = Node(
    id: NodeId,
    nodeType: NodeType,
    category: string,
    name: string,
    displayName: string,
    native: NativeIdentity,
    capabilities: bv64,
    properties: PropertyMap,
    provenance: Provenance,
    confidence: Confidence,
    synthetic: bool)

  datatype Edge = Edge(
    source: NodeId,
    target: NodeId,
    edgeType: EdgeType,
    direction: EdgeDirection,
    provenance: Provenance,
    confidence: Confidence,
    width: Option<int>,
    pcieGeneration: Option<int>,
    bandwidth: Option<real>,
    latency: Option<real>,
    hopCount: int,
    localityScore: Option<real>,
    accessible: bool,
    peerCapability: Option<uint64>,
    policyVersion: uint32,
    properties: PropertyMap)

  // Identity of an edge for diffing and merging: undirected edges are put in id order.
  datatype EdgeKey = EdgeKey(source: NodeId, target: NodeId, edgeType: EdgeType)

  function KeyOf(e: Edge): EdgeKey {
    if e.direction == Undirected && IdLess(e.target, e.source)
    then EdgeKey(e.target, e.source, e.edgeType)
    else EdgeKey(e.source, e.target, e.edgeType)
  }

  datatype Bounds = Bounds(maxNodes: nat, maxEdges: nat, maxStringBytes: nat, maxSnapshotBytes: nat)
}
