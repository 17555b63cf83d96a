// Reading a snapshot document.

module Loading {
  import opened Types
  import opened Names
  import opened Identity
  import opened Snapshots
  import opened Doubles
  import opened Builder
  import opened JsonValues
  import opened JsonGrammar
  import opened JsonParser
  import opened Documents

  // A document that is not a snapshot, one that is too large, and a string array holding
  // something else.
  datatype Fault = Malformed | Oversized | WrongKind

  datatype Reading<+T> = Read(value: T) | Failed(fault: Fault)

  // ---- Members of an object ------------------------------------------------------------------

  function TextAt(o: seq<Field>, k: string, default: string): string {
    match FindField(o, k)
    case Some(String(s)) => s
    case _ => default
  }

  function FlagAt(o: seq<Field>, k: string, default: bool): bool {
    match FindField(o, k)
    case Some(Bool(b)) => b
    case _ => default
  }

  // Toward zero; a number out of range is undefined in the source and zero here.
  function Truncated(x: real): int64 {
    var n := if x < 0.0 then -((-x).Floor) else x.Floor;
    if -0x8000_0000_0000_0000 <= n < 0x8000_0000_0000_0000 then n else 0
  }

  // The signed value of a number; what is no number is zero.
  function Integer(v: Value): int64 {
    match v
    case Int(i) => i
    case Uint(u) => if u > MAX_INT64 then u - 0x1_0000_0000_0000_0000 else u
    case Double(x) => Truncated(ToReal(x))
    case _ => 0
  }

  function Number(v: Value): real {
    match v
    case Int(i) => i as real
    case Uint(u) => u as real
    case Double(x) => ToReal(x)
    case _ => 0.0
  }

  predicate IsNumber(v: Value) {
    v.Int? || v.Uint? || v.Double?
  }

  function IntegerAt(o: seq<Field>, k: string): Option<int64> {
    var v := FindField(o, k);
    if v.Some? && IsNumber(v.value) then Some(Integer(v.value)) else None
  }

  function RealAt(o: seq<Field>, k: string): Option<real> {
    var v := FindField(o, k);
    if v.Some? && IsNumber(v.value) then Some(Number(v.value)) else None
  }

  function ShortAt(o: seq<Field>, k: string): Option<uint16> {
    var v := FindField(o, k);
    if v.None? || v.value.Null? then None else Some(Integer(v.value) % 0x1_0000)
  }

  function WordAt(o: seq<Field>, k: string): Option<uint32> {
    var v := FindField(o, k);
    if v.None? || v.value.Null? then None else Some(Integer(v.value) % 0x1_0000_0000)
  }

  // ---- Properties -----------------------------------------------------------------------------

  // The first element decides whether an array holds strings; an empty one holds integers.
  function PropertyFromJson(v: Value): Reading<PropertyValue> {
    match v
    case Null => Read(NullProperty)
    case Bool(b) => Read(BoolProperty(b))
    case Int(i) => Read(IntProperty(i))
    case Uint(u) => Read(UintProperty(u))
    case Double(x) => Read(DoubleProperty(ToReal(x)))
    case String(s) => Read(StringProperty(s))
    case Array(a) =>
      if a != [] && a[0].String? then
        if forall i :: 0 <= i < |a| ==> a[i].String?
        then Read(StringsProperty(seq(|a|, i requires 0 <= i < |a| => a[i].s)))
        else Failed(WrongKind)
      else Read(IntsProperty(seq(|a|, i requires 0 <= i < |a| => Integer(a[i]))))
    case Object(_) => Read(NullProperty)
  }

  // Fields from the front; a key that is already there is kept.
  function ReadProperties(fs: seq<Field>, i: nat, m: PropertyMap): Reading<PropertyMap>
    requires i <= |fs|
    decreases |fs| - i
  {
    if i == |fs| then Read(m)
    else
      match PropertyFromJson(fs[i].value)
      case Failed(f) => Failed(f)
      case Read(p) => ReadProperties(fs, i + 1, if fs[i].key in m then m else m[fs[i].key := p])
  }

  function PropertiesAt(o: seq<Field>): Reading<PropertyMap> {
    match FindField(o, "properties")
    case Some(Object(fs)) => ReadProperties(fs, 0, map[])
    case _ => Read(map[])
  }

  // ---- Nodes and edges --------------------------------------------------------------------------

  const EMPTY_PROVENANCE: Provenance := Provenance(UnknownKind, UnknownConfidence, "", "", "", 0, "1.0", "")

  function NativeFromJson(v: Value): NativeIdentity {
    match v
    case Object(o) =>
      NativeIdentity(
        ShortAt(o, "pci_domain"), ShortAt(o, "pci_bus"), ShortAt(o, "pci_device"),
        ShortAt(o, "pci_function"), ShortAt(o, "vendor_id"), ShortAt(o, "device_id"),
        ShortAt(o, "subsystem_id"), ShortAt(o, "subsystem_vendor_id"),
        WordAt(o, "numa_node"), WordAt(o, "cpu_package"), WordAt(o, "core_id"),
        WordAt(o, "processor_group"), WordAt(o, "logical_processor_index"), WordAt(o, "cuda_ordinal"),
        TextAt(o, "cuda_uuid", ""), TextAt(o, "name", ""), TextAt(o, "network_interface_name", ""),
        TextAt(o, "network_hardware_id", ""), TextAt(o, "storage_id", ""), TextAt(o, "storage_device_path", ""),
        TextAt(o, "machine_name", ""), TextAt(o, "os_version", ""))
    case _ => NO_IDENTITY
  }

  function KindAt(o: seq<Field>): ProvenanceKind {
    match FindField(o, "kind")
    case Some(String(s)) => KindNamed(s)
    case _ => UnknownKind
  }

  function ConfidenceAt(o: seq<Field>): Confidence {
    match FindField(o, "confidence")
    case Some(String(s)) => ConfidenceNamed(s)
    case _ => UnknownConfidence
  }

  function ProvenanceFromJson(v: Value): Provenance {
    match v
    case Object(o) =>
      Provenance(
        KindAt(o), ConfidenceAt(o), TextAt(o, "provider", ""), TextAt(o, "api", ""), TextAt(o, "detail", ""),
        IntegerAt(o, "timestamp_ms").GetOr(0), TextAt(o, "schema_version", "1.0"), TextAt(o, "provider_version", ""))
    case _ => EMPTY_PROVENANCE
  }

  // An absent member reads as null, which is no object.
  function ProvenanceAt(o: seq<Field>): Provenance {
    ProvenanceFromJson(FindField(o, "provenance").GetOr(Null))
  }

  ghost function IdAt(o: seq<Field>, k: string): Option<NodeId> {
    match FindField(o, k)
    case Some(String(s)) => HexId(s)
    case _ => None
  }

  method ReadId(o: seq<Field>, k: string) returns (id: Option<NodeId>)
    ensures id == IdAt(o, k)
  {
    match FindField(o, k) {
      case Some(String(s)) => id := TryFromHex(s);
      case _ => id := None;
    }
  }

  function TypeAt(o: seq<Field>): NodeType {
    match FindField(o, "type")
    case Some(String(s)) => TypeNamed(s)
    case _ => UnknownType
  }

  function CapabilitiesAt(o: seq<Field>): bv64 {
    Unsigned(IntegerAt(o, "capabilities").GetOr(0)) as bv64
  }

  function NodeWith(id: NodeId, o: seq<Field>): Reading<Node> {
    match PropertiesAt(o)
    case Failed(f) => Failed(f)
    case Read(m) =>
      Read(Node(
        id, TypeAt(o), TextAt(o, "category", ""), TextAt(o, "name", ""), TextAt(o, "display_name", ""),
        NativeFromJson(FindField(o, "native").GetOr(Null)),
        CapabilitiesAt(o),
        m, ProvenanceAt(o), ConfidenceAt(o), FlagAt(o, "synthetic", false)))
  }

  // A node is an object with a readable id; whatever else it lacks has a default.
  ghost function NodeFromJson(v: Value): Reading<Node> {
    match v
    case Object(o) =>
      (match IdAt(o, "id")
       case None => Failed(Malformed)
       case Some(id) => NodeWith(id, o))
    case _ => Failed(Malformed)
  }

  method ReadNode(v: Value) returns (r: Reading<Node>)
    ensures r == NodeFromJson(v)
  {
    hide NodeWith;
    match v {
      case Object(o) =>
        var id := ReadId(o, "id");
        r := if id.Some? then NodeWith(id.value, o) else Failed(Malformed);
      case _ => r := Failed(Malformed);
    }
  }

  function EdgeTypeAt(o: seq<Field>): EdgeType {
    match FindField(o, "type")
    case Some(String(s)) => EdgeTypeNamed(s)
    case _ => ConnectedTo
  }

  function DirectionAt(o: seq<Field>): EdgeDirection {
    match FindField(o, "direction")
    case Some(String(s)) => DirectionNamed(s)
    case _ => Directed
  }

  function EdgeWith(source: NodeId, target: NodeId, o: seq<Field>): Reading<Edge> {
    match PropertiesAt(o)
    case Failed(f) => Failed(f)
    case Read(m) =>
      Read(Edge(
        source, target, EdgeTypeAt(o), DirectionAt(o), ProvenanceAt(o), ConfidenceAt(o),
        Map(IntegerAt(o, "width"), (i: int64) => AsInt32(i) as int),
        Map(IntegerAt(o, "pcie_generation"), (i: int64) => AsInt32(i) as int),
        RealAt(o, "bandwidth_bps"), RealAt(o, "latency_ns"),
        AsInt32(IntegerAt(o, "hop_count").GetOr(0)),
        RealAt(o, "locality_score"), FlagAt(o, "accessible", true),
        Map(IntegerAt(o, "peer_capability"), (i: int64) => Unsigned(i)),
        IntegerAt(o, "policy_version").GetOr(0) % 0x1_0000_0000, m))
  }

  ghost function EdgeFromJson(v: Value): Reading<Edge> {
    match v
    case Object(o) =>
      if IdAt(o, "source").Some? && IdAt(o, "target").Some?
      then EdgeWith(IdAt(o, "source").value, IdAt(o, "target").value, o)
      else Failed(Malformed)
    case _ => Failed(Malformed)
  }

  method ReadEdge(v: Value) returns (r: Reading<Edge>)
    ensures r == EdgeFromJson(v)
  {
    hide EdgeWith;
    match v {
      case Object(o) =>
        var source := ReadId(o, "source");
        var target := ReadId(o, "target");
        r := if source.Some? && target.Some? then EdgeWith(source.value, target.value, o) else Failed(Malformed);
      case _ => r := Failed(Malformed);
    }
  }

  // ---- Documents -----------------------------------------------------------------------------------

  // The strings among the warnings.
  function ReadWarnings(a: seq<Value>): seq<string> {
    if a == [] then []
    else
      var n := |a| - 1;
      ReadWarnings(a[..n]) + if a[n].String? then [a[n].s] else []
  }

  function WarningsAt(o: seq<Field>): seq<string> {
    match FindField(o, "warnings")
    case Some(Array(a)) => ReadWarnings(a)
    case _ => []
  }

  function MetadataFromJson(o: seq<Field>): Metadata {
    Metadata(
      TextAt(o, "snapshot_id", ""), Unsigned(IntegerAt(o, "generation").GetOr(0)),
      IntegerAt(o, "created_ms").GetOr(0), TextAt(o, "machine_identity", ""),
      TextAt(o, "schema", SCHEMA_VERSION), TextAt(o, "provider_versions", ""),
      FlagAt(o, "partial_discovery", false), FlagAt(o, "synthetic", false), WarningsAt(o))
  }

  // The nodes from position i on join those already read; the first node of an id is kept.
  ghost function NodesFrom(a: seq<Value>, i: nat, nodes: map<NodeId, Node>, limit: nat): Reading<map<NodeId, Node>>
    requires i <= |a|
    decreases |a| - i
  {
    if i == |a| then Read(nodes)
    else if i >= limit then Failed(Oversized)
    else
      match NodeFromJson(a[i])
      case Failed(f) => Failed(f)
      case Read(n) => NodesFrom(a, i + 1, if n.id in nodes then nodes else nodes[n.id := n], limit)
  }

  ghost function EdgesFrom(a: seq<Value>, i: nat, edges: seq<Edge>, limit: nat): Reading<seq<Edge>>
    requires i <= |a|
    decreases |a| - i
  {
    if i == |a| then Read(edges)
    else if i >= limit then Failed(Oversized)
    else
      match EdgeFromJson(a[i])
      case Failed(f) => Failed(f)
      case Read(e) => EdgesFrom(a, i + 1, edges + [e], limit)
  }

  datatype Content = Content(nodes: map<NodeId, Node>, edges: seq<Edge>, metadata: Metadata)

  ghost function ItemsAt(o: seq<Field>, k: string): Option<seq<Value>> {
    match FindField(o, k)
    case Some(Array(a)) => Some(a)
    case _ => None
  }

  ghost function ContentFromJson(v: Value, bounds: Bounds): Reading<Content> {
    if !v.Object? || FindField(v.fields, "format") != Some(String(FORMAT)) || ItemsAt(v.fields, "nodes").None?
    then Failed(Malformed)
    else
      match NodesFrom(ItemsAt(v.fields, "nodes").value, 0, map[], bounds.maxNodes)
      case Failed(f) => Failed(f)
      case Read(nodes) =>
        if ItemsAt(v.fields, "edges").None? then Failed(Malformed)
        else
          match EdgesFrom(ItemsAt(v.fields, "edges").value, 0, [], bounds.maxEdges)
          case Failed(f) => Failed(f)
          case Read(edges) => Read(Content(nodes, edges, MetadataFromJson(v.fields)))
  }

  // What a text holds, or the first thing wrong with it.
  ghost function ContentOf(text: string, bounds: Bounds): Reading<Content> {
    var r := Parse(text, DEFAULT_OPTIONS);
    if !r.Ok() then Failed(Malformed)
    else if |text| > bounds.maxSnapshotBytes then Failed(Oversized)
    else ContentFromJson(r.value, bounds)
  }

  method LoadNodes(b: SnapshotBuilder, a: seq<Value>) returns (fault: Option<Fault>)
    requires b.Valid() && !b.taken && b.nodes == map[]
    modifies b`nodes
    ensures b.Valid()
    ensures match NodesFrom(a, 0, map[], b.bounds.maxNodes)
            case Failed(f) => fault == Some(f)
            case Read(nodes) => fault == None && b.nodes == nodes
  {
    hide NodeFromJson;
    for i := 0 to |a|
      invariant b.Valid() && |b.nodes| <= i
      invariant NodesFrom(a, i, b.nodes, b.bounds.maxNodes) == NodesFrom(a, 0, map[], b.bounds.maxNodes)
    {
      if i >= b.bounds.maxNodes {
        return Some(Oversized);
      }
      var r := ReadNode(a[i]);
      if r.Failed? {
        return Some(r.fault);
      }
      var added := b.AddNode(r.value);
    }
    fault := None;
  }

  method LoadEdges(b: SnapshotBuilder, a: seq<Value>) returns (fault: Option<Fault>)
    requires b.Valid() && !b.taken && b.edges == []
    modifies b`edges
    ensures b.Valid()
    ensures match EdgesFrom(a, 0, [], b.bounds.maxEdges)
            case Failed(f) => fault == Some(f)
            case Read(edges) => fault == None && b.edges == edges
  {
    hide EdgeFromJson;
    for i := 0 to |a|
      invariant b.Valid() && |b.edges| == i
      invariant EdgesFrom(a, i, b.edges, b.bounds.maxEdges) == EdgesFrom(a, 0, [], b.bounds.maxEdges)
    {
      if i >= b.bounds.maxEdges {
        return Some(Oversized);
      }
      var r := ReadEdge(a[i]);
      if r.Failed? {
        return Some(r.fault);
      }
      var added := b.AddEdge(r.value);
    }
    fault := None;
  }

  // What a builder makes of the content of a document.
  ghost predicate IsRebuilt(content: Reading<Content>, r: Reading<Snapshot>) {
    match content
    case Failed(f) => r == Failed(f)
    case Read(c) =>
      && r.Read? && r.value.nodes == c.nodes && r.value.edges == c.edges && r.value.metadata == c.metadata
      && r.value.Indexed() && (r.value.validation.ok <==> WellFormedGraph(c.nodes, c.edges))
  }

  method Rebuild(v: Value, bounds: Bounds) returns (r: Reading<Snapshot>)
    ensures IsRebuilt(ContentFromJson(v, bounds), r)
  {
    hide WellFormedGraph, NodesFrom, EdgesFrom, MetadataFromJson, FindField, Snapshot.Indexed;
    if !v.Object? || FindField(v.fields, "format") != Some(String(FORMAT)) {
      return Failed(Malformed);
    }
    var o := v.fields;
    var b := new SnapshotBuilder(bounds);
    var nodes := FindField(o, "nodes");
    if nodes.None? || !nodes.value.Array? {
      return Failed(Malformed);
    }
    var fault := LoadNodes(b, nodes.value.items);
    if fault.Some? {
      return Failed(fault.value);
    }
    var edges := FindField(o, "edges");
    if edges.None? || !edges.value.Array? {
      return Failed(Malformed);
    }
    fault := LoadEdges(b, edges.value.items);
    if fault.Some? {
      return Failed(fault.value);
    }
    b.SetMetadata(MetadataFromJson(o));
    var taken := b.Take();
    r := Read(taken.value);
  }

  // Parses, checks and rebuilds; the rebuilt snapshot is indexed and validated afresh.
  method Deserialize(text: string, bounds: Bounds) returns (r: Reading<Snapshot>)
    ensures IsRebuilt(ContentOf(text, bounds), r)
  {
    hide Parse, ContentFromJson;
    var parser := new Parser(text, DEFAULT_OPTIONS);
    var parsed := parser.ParseText();
    if !parsed.Ok() {
      return Failed(Malformed);
    }
    if |text| > bounds.maxSnapshotBytes {
      return Failed(Oversized);
    }
    r := Rebuild(parsed.value, bounds);
  }
}
