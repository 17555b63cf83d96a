// The text of the enumerations, as written into keys and documents.

module Names {
  import opened Types

  function TypeName(t: NodeType): string {
    match t
    case Machine => "machine"
    case CpuPackage => "cpu_package"
    case CpuCore => "cpu_core"
    case CpuThread => "cpu_thread"
    case NumaNode => "numa_node"
    case HostMemoryDomain => "host_memory_domain"
    case Accelerator => "accelerator"
    case AcceleratorMemoryDomain => "accelerator_memory_domain"
    case PciRoot => "pci_root"
    case PciBridge => "pci_bridge"
    case PciDevice => "pci_device"
    case NetworkInterface => "network_interface"
    case StorageDevice => "storage_device"
    case SharedMemoryDomain => "shared_memory_domain"
    case UnknownType => "unknown"
    case Extension => "extension"
  }

  function TypeNamed(s: string): NodeType {
    if s == "machine" then Machine
    else if s == "cpu_package" then CpuPackage
    else if s == "cpu_core" then CpuCore
    else if s == "cpu_thread" then CpuThread
    else if s == "numa_node" then NumaNode
    else if s == "host_memory_domain" then HostMemoryDomain
    else if s == "accelerator" then Accelerator
    else if s == "accelerator_memory_domain" then AcceleratorMemoryDomain
    else if s == "pci_root" then PciRoot
    else if s == "pci_bridge" then PciBridge
    else if s == "pci_device" then PciDevice
    else if s == "network_interface" then NetworkInterface
    else if s == "storage_device" then StorageDevice
    else if s == "shared_memory_domain" then SharedMemoryDomain
    else if s == "extension" then Extension
    else UnknownType
  }

  function EdgeTypeName(t: EdgeType): string {
    match t
    case Contains => "contains"
    case AttachedTo => "attached_to"
    case ConnectedTo => "connected_to"
    case LocalTo => "local_to"
    case PeerTo => "peer_to"
    case SharesParent => "shares_parent"
    case SharesNuma => "shares_numa"
    case RoutesThrough => "routes_through"
    case AccessibleFrom => "accessible_from"
    case AffineTo => "affine_to"
  }

  function EdgeTypeNamed(s: string): EdgeType {
    if s == "contains" then Contains
    else if s == "attached_to" then AttachedTo
    else if s == "connected_to" then ConnectedTo
    else if s == "local_to" then LocalTo
    else if s == "peer_to" then PeerTo
    else if s == "shares_parent" then SharesParent
    else if s == "shares_numa" then SharesNuma
    else if s == "routes_through" then RoutesThrough
    else if s == "accessible_from" then AccessibleFrom
    else if s == "affine_to" then AffineTo
    else ConnectedTo
  }

  function DirectionName(d: EdgeDirection): string {
    match d
    case Directed => "directed"
    case Undirected => "undirected"
  }

  function DirectionNamed(s: string): EdgeDirection {
    if s == "undirected" then Undirected else Directed
  }

  function KindName(k: ProvenanceKind): string {
    match k
    case Discovered => "discovered"
    case Inferred => "inferred"
    case Measured => "measured"
    case UserSupplied => "user_supplied"
    case UnknownKind => "unknown"
  }

  function KindNamed(s: string): ProvenanceKind {
    if s == "discovered" then Discovered
    else if s == "inferred" then Inferred
    else if s == "measured" then Measured
    else if s == "user_supplied" then UserSupplied
    else UnknownKind
  }

  function ConfidenceName(c: Confidence): string {
    match c
    case Authoritative => "authoritative"
    case High => "high"
    case Medium => "medium"
    case Low => "low"
    case UnknownConfidence => "unknown"
  }

  function ConfidenceNamed(s: string): Confidence {
    if s == "authoritative" then Authoritative
    else if s == "high" then High
    else if s == "medium" then Medium
    else if s == "low" then Low
    else UnknownConfidence
  }

  // Every type name differs from the earlier ones in its length or in one of these characters.
  lemma TypeNameReadsBack(t: NodeType)
    ensures TypeNamed(TypeName(t)) == t
  {
    match t {
      case Machine =>
      case CpuPackage =>
      case CpuCore =>
      case CpuThread =>
      case NumaNode =>
      case HostMemoryDomain =>
      case Accelerator =>
      case AcceleratorMemoryDomain =>
      case PciRoot =>
      case PciBridge =>
      case PciDevice =>
      case NetworkInterface =>
      case StorageDevice =>
      case SharedMemoryDomain =>
      case UnknownType =>
      case Extension =>
    }
  }

  lemma EdgeTypeNameReadsBack(t: EdgeType)
    ensures EdgeTypeNamed(EdgeTypeName(t)) == t
  {
  }

  lemma DirectionNameReadsBack(d: EdgeDirection)
    ensures DirectionNamed(DirectionName(d)) == d
  {
  }

  lemma KindNameReadsBack(k: ProvenanceKind)
    ensures KindNamed(KindName(k)) == k
  {
  }

  lemma ConfidenceNameReadsBack(c: Confidence)
    ensures ConfidenceNamed(ConfidenceName(c)) == c
  {
  }
}
