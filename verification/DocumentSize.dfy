// How many JSON values the document of a snapshot has, counted from the snapshot.

module DocumentSize {
  import opened Types
  import opened Names
  import opened Identity
  import opened Sorting
  import opened Ordering
  import opened Snapshots
  import opened JsonValues
  import opened Documents
  import opened DocumentRoundTrip

  // ---- Totals ---------------------------------------------------------------------------------

  ghost function Total<T(!new)>(f: T -> nat, s: seq<T>): nat {
    if s == [] then 0 else Total(f, s[..|s| - 1]) + f(s[|s| - 1])
  }

  ghost function Copies(n: nat): multiset<int> {
    multiset{0}[0 := n]
  }

  lemma {:induction false} TotalInBag<T(!new)>(f: T -> nat, s: seq<T>)
    ensures BagSum((x: T) => Copies(f(x)), s)[0] == Total(f, s)
  {
    if s != [] {
      TotalInBag(f, s[..|s| - 1]);
    }
  }

  lemma TotalIsOrderFree<T(!new)>(f: T -> nat, a: seq<T>, b: seq<T>)
    requires multiset(a) == multiset(b)
    ensures Total(f, a) == Total(f, b)
  {
    TotalInBag(f, a);
    TotalInBag(f, b);
    BagSumIsOrderFree((x: T) => Copies(f(x)), a, b);
  }

  lemma {:induction false} SomeListing<T(!new)>(s: set<T>) returns (order: seq<T>)
    ensures IsListing(order, s)
  {
    if s == {} {
      order := [];
    } else {
      var x :| x in s;
      var rest := SomeListing(s - {x});
      order := rest + [x];
      assert s == s - {x} + {x};
    }
  }

  // The elements of a set, each once.
  ghost function Listing<T(!new)>(s: set<T>): (order: seq<T>)
    ensures IsListing(order, s)
  {
    assert exists o: seq<T> :: IsListing(o, s) by {
      var o := SomeListing(s);
    }
    var o: seq<T> :| IsListing(o, s);
    o
  }

  ghost predicate IsListing<T(!new)>(order: seq<T>, s: set<T>) {
    multiset(order) == multiset(s)
  }

  ghost function SetTotal<T(!new)>(f: T -> nat, s: set<T>): nat {
    Total(f, Listing(s))
  }

  // The total over a set is that over any list of its elements.
  lemma SetTotalIsTotal<T(!new)>(f: T -> nat, s: set<T>, order: seq<T>)
    requires AllDistinct(order) && forall x :: x in order <==> x in s
    ensures Total(f, order) == SetTotal(f, s)
  {
    forall x
      ensures multiset(order)[x] == multiset(s)[x]
    {
      DistinctCount(order, x);
      assert x in order <==> x in multiset(order);
    }
    assert multiset(order) == multiset(s);
    TotalIsOrderFree(f, order, Listing(s));
  }

  // ---- Sizes of lists and objects ----------------------------------------------------------------

  lemma {:induction false} SizeOfPrefix(a: seq<Value>, i: nat)
    requires i < |a|
    ensures ItemsSize(a, i) == ItemsSize(a[..|a| - 1], i) + Size(a[|a| - 1])
    decreases |a| - i
  {
    if i + 1 < |a| {
      SizeOfPrefix(a, i + 1);
    }
  }

  lemma {:induction false} ItemsTotal<T(!new)>(a: seq<Value>, f: T -> nat, xs: seq<T>)
    requires |a| == |xs| && forall i :: 0 <= i < |a| ==> Size(a[i]) == f(xs[i])
    ensures ItemsSize(a, 0) == Total(f, xs)
  {
    hide Size;
    if a != [] {
      var n := |a| - 1;
      SizeOfPrefix(a, 0);
      ItemsTotal(a[..n], f, xs[..n]);
    }
  }

  function Values(fs: seq<Field>): (r: seq<Value>)
    ensures |r| == |fs| && forall i :: 0 <= i < |fs| ==> r[i] == fs[i].value
  {
    seq(|fs|, i requires 0 <= i < |fs| => fs[i].value)
  }

  lemma {:induction false} FieldsAsItems(fs: seq<Field>, i: nat)
    requires i <= |fs|
    ensures FieldsSize(fs, i) == ItemsSize(Values(fs), i)
    decreases |fs| - i
  {
    if i < |fs| {
      FieldsAsItems(fs, i + 1);
    }
  }

  ghost function Members(fs: seq<Field>): nat {
    FieldsSize(fs, 0)
  }

  lemma {:induction false} ShiftedSize(fs: seq<Field>, i: nat, j: nat)
    requires i <= j <= |fs|
    ensures FieldsSize(fs, j) == FieldsSize(fs[i..], j - i)
    decreases |fs| - j
  {
    if j < |fs| {
      ShiftedSize(fs, i, j + 1);
    }
  }

  lemma FirstMember(fs: seq<Field>)
    requires fs != []
    ensures Members(fs) == Size(fs[0].value) + Members(fs[1..])
  {
    ShiftedSize(fs, 1, 1);
  }

  lemma {:induction false} SetFieldAddsUp(fs: seq<Field>, k: string, v: Value)
    requires FindField(fs, k) == None
    ensures Members(SetField(fs, k, v)) == Members(fs) + Size(v)
    decreases |fs|
  {
    hide Members, Size, StringLess;
    FirstMember(SetField(fs, k, v));
    if fs == [] {
      assert [Field(k, v)][1..] == [];
      NoMembers();
    } else {
      FirstMember(fs);
      if StringLess(k, fs[0].key) {
        assert ([Field(k, v)] + fs)[1..] == fs;
      } else {
        SetFieldAddsUp(fs[1..], k, v);
        assert ([fs[0]] + SetField(fs[1..], k, v))[1..] == SetField(fs[1..], k, v);
      }
    }
  }

  lemma NoMembers()
    ensures Members([]) == 0
  {
  }

  // As a fact for chains of settings.
  lemma SettingsAddUp()
    ensures forall fs: seq<Field>, k: string, v: Value ::
              FindField(fs, k) == None ==> Members(SetField(fs, k, v)) == Members(fs) + Size(v)
  {
    forall fs: seq<Field>, k: string, v: Value | FindField(fs, k) == None
      ensures Members(SetField(fs, k, v)) == Members(fs) + Size(v)
    {
      SetFieldAddsUp(fs, k, v);
    }
  }

  lemma ScalarSize()
    ensures forall x :: Size(ShortToJson(x)) == 1
    ensures forall x :: Size(WordToJson(x)) == 1
    ensures forall s: string :: Size(String(s)) == 1
    ensures forall b: bool :: Size(Bool(b)) == 1
    ensures forall i: int64 :: Size(Int(i)) == 1
    ensures forall u: uint64 :: Size(Uint(u)) == 1
    ensures forall f :: Size(Double(f)) == 1
  {
  }

  lemma ObjectSize(fs: seq<Field>)
    ensures Size(Object(fs)) == 1 + Members(fs)
  {
  }

  // ---- Native identities and provenance ------------------------------------------------------------

  function PciNames(): set<string> {
    {"pci_domain", "pci_bus", "pci_device", "pci_function", "vendor_id", "device_id", "subsystem_id", "subsystem_vendor_id"}
  }

  function DeviceNames(): set<string> {
    {"cuda_uuid", "name", "network_interface_name", "network_hardware_id", "storage_id", "storage_device_path", "machine_name", "os_version"}
  }

  lemma PciSize(n: NativeIdentity)
    ensures Members(PciToJson(n)) == 8
    ensures forall q :: q !in PciNames() ==> FindField(PciToJson(n), q) == None
  {
    hide SetField, FindField, Members, Size, ShortToJson;
    SettingsAreFound();
    SettingsAddUp();
    NothingIsFound();
    NoMembers();
    ScalarSize();
  }

  lemma ProcessorSize(o: seq<Field>, n: NativeIdentity)
    requires forall q :: q in ProcessorNames() ==> FindField(o, q) == None
    ensures Members(ProcessorToJson(o, n)) == Members(o) + 6
  {
    hide SetField, FindField, Members, Size, WordToJson;
    SettingsAreFound();
    SettingsAddUp();
    ScalarSize();
  }

  lemma DeviceNamesSize(o: seq<Field>, n: NativeIdentity)
    requires forall q :: q in DeviceNames() ==> FindField(o, q) == None
    ensures Members(DeviceNamesToJson(o, n)) == Members(o) + 8
  {
    hide SetField, FindField, Members, Size;
    SettingsAreFound();
    SettingsAddUp();
    ScalarSize();
  }

  function ProcessorNames(): set<string> {
    {"numa_node", "cpu_package", "core_id", "processor_group", "logical_processor_index", "cuda_ordinal"}
  }

  lemma NamesAreApart()
    ensures DeviceNames() !! PciNames() && DeviceNames() !! ProcessorNames() && ProcessorNames() !! PciNames()
  {
  }

  lemma ProcessorLeavesRoom(o: seq<Field>, n: NativeIdentity)
    ensures forall q :: q !in ProcessorNames() ==> FindField(ProcessorToJson(o, n), q) == FindField(o, q)
  {
    hide FindField, ProcessorToJson;
    ProcessorMembers(o, n);
  }

  lemma NativeSize(n: NativeIdentity)
    ensures Size(NativeToJson(n)) == 23
  {
    hide SetField, FindField, Members, Size, PciToJson, ProcessorToJson, DeviceNamesToJson, DeviceNames, PciNames, ProcessorNames;
    PciSize(n);
    NamesAreApart();
    ProcessorSize(PciToJson(n), n);
    ProcessorLeavesRoom(PciToJson(n), n);
    DeviceNamesSize(ProcessorToJson(PciToJson(n), n), n);
    ObjectSize(NativeToJson(n).fields);
  }

  lemma ProvenanceSize(p: Provenance)
    ensures Size(ProvenanceToJson(p)) == 9
  {
    hide SetField, FindField, Members, Size;
    SettingsAreFound();
    SettingsAddUp();
    NothingIsFound();
    NoMembers();
    ScalarSize();
    ProvenanceIsObject(p);
    ObjectSize(ProvenanceToJson(p).fields);
  }

  // ---- Properties -----------------------------------------------------------------------------------

  function PropertySize(p: PropertyValue): nat {
    match p
    case StringsProperty(ss) => 1 + |ss|
    case IntsProperty(ii) => 1 + |ii|
    case _ => 1
  }

  ghost function PropertySizes(m: PropertyMap): string -> nat {
    k => if k in m then PropertySize(m[k]) else 0
  }

  ghost function PropertiesSize(m: PropertyMap): nat {
    SetTotal(PropertySizes(m), m.Keys)
  }

  lemma {:induction false} ScalarsSize(a: seq<Value>, i: nat)
    requires i <= |a| && forall j :: 0 <= j < |a| ==> a[j].String? || a[j].Int?
    ensures ItemsSize(a, i) == |a| - i
    decreases |a| - i
  {
    if i < |a| {
      ScalarsSize(a, i + 1);
    }
  }

  lemma PropertyHasSize(p: PropertyValue)
    ensures Size(PropertyToJson(p)) == PropertySize(p)
  {
    match p {
      case StringsProperty(ss) => ScalarsSize(PropertyToJson(p).items, 0);
      case IntsProperty(ii) => ScalarsSize(PropertyToJson(p).items, 0);
      case _ =>
    }
  }

  function Keys(fs: seq<Field>): (r: seq<string>)
    ensures |r| == |fs| && forall i :: 0 <= i < |fs| ==> r[i] == fs[i].key
  {
    seq(|fs|, i requires 0 <= i < |fs| => fs[i].key)
  }

  lemma PropertiesHaveSize(m: PropertyMap, fs: seq<Field>)
    requires IsPropertiesJson(m, fs)
    ensures Size(Object(fs)) == 1 + PropertiesSize(m)
  {
    hide Size, PropertySize, PropertyToJson, FindField, SetTotal, ItemsSize;
    var ks := Keys(fs);
    forall i | 0 <= i < |fs|
      ensures ks[i] in m && Size(Values(fs)[i]) == PropertySizes(m)(ks[i])
    {
      FieldIsFound(fs, i);
      PropertyHasSize(m[ks[i]]);
    }
    ItemsTotal(Values(fs), PropertySizes(m), ks);
    FieldsAsItems(fs, 0);
    ObjectSize(fs);
    assert StrictlySorted(StringLess, ks);
    OrderedIsDistinct(ks);
    forall k
      ensures k in ks <==> k in m.Keys
    {
      if k in m {
        FoundIsField(fs, k);
        var i :| 0 <= i < |fs| && fs[i].key == k;
        assert ks[i] == k;
      }
    }
    SetTotalIsTotal(PropertySizes(m), m.Keys, ks);
  }

  // ---- Nodes and edges ---------------------------------------------------------------------------------

  ghost function NodeSize(n: Node): nat {
    42 + PropertiesSize(n.properties)
  }

  lemma LabelsSize(n: Node)
    ensures Members(LabelsToJson(n)) == 5
    ensures forall q :: q !in {"id", "type", "category", "name", "display_name"} ==> FindField(LabelsToJson(n), q) == None
  {
    hide SetField, FindField, Members, Size;
    SettingsAreFound();
    SettingsAddUp();
    NothingIsFound();
    NoMembers();
    ScalarSize();
  }

  lemma NodeMembersSize(n: Node, fs: seq<Field>)
    ensures NodeJson(n, fs).Object? && Members(NodeJson(n, fs).fields) == 40 + Size(Object(fs))
  {
    hide SetField, FindField, Members, Size, LabelsToJson, NativeToJson, ProvenanceToJson, ConfidenceName, CapabilitiesToJson;
    SettingsAreFound();
    SettingsAddUp();
    ScalarSize();
    LabelsSize(n);
    NativeSize(n.native);
    ProvenanceSize(n.provenance);
    CapabilitiesSize(n.capabilities);
  }

  lemma CapabilitiesSize(bits: bv64)
    ensures Size(CapabilitiesToJson(bits)) == 1
  {
  }

  lemma NodeHasSize(n: Node, v: Value)
    requires IsNodeJson(n, v)
    ensures Size(v) == NodeSize(n)
  {
    hide Members, Size, NodeJson, IsPropertiesJson, PropertiesSize;
    var fs :| IsPropertiesJson(n.properties, fs) && v == NodeJson(n, fs);
    NodeMembersSize(n, fs);
    PropertiesHaveSize(n.properties, fs);
    ObjectSize(v.fields);
  }

  function Present<T>(x: Option<T>): nat {
    if x.Some? then 1 else 0
  }

  ghost function EdgeSize(e: Edge): nat {
    19 + Present(e.width) + Present(e.pcieGeneration) + Present(e.bandwidth) + Present(e.latency) + Present(e.localityScore) +
    Present(e.peerCapability) + PropertiesSize(e.properties)
  }

  lemma OptionalSettingsAddUp()
    ensures forall fs: seq<Field>, k: string, v: Option<Value> ::
              FindField(fs, k) == None && (v.Some? ==> Size(v.value) == 1) ==>
                Members(SetSome(fs, k, v)) == Members(fs) + Present(v)
  {
    hide Members, Size, SetField, FindField;
    SettingsAddUp();
  }

  lemma LinkSize(e: Edge)
    ensures Members(LinkToJson(e)) == 14
  {
    hide SetField, FindField, Members, Size, ProvenanceToJson;
    SettingsAreFound();
    SettingsAddUp();
    NothingIsFound();
    NoMembers();
    ScalarSize();
    ProvenanceSize(e.provenance);
  }

  lemma FactsSize(o: seq<Field>, e: Edge)
    requires forall q :: q in {"width", "pcie_generation", "bandwidth_bps", "latency_ns", "hop_count", "locality_score"} ==>
               FindField(o, q) == None
    ensures Members(FactsToJson(o, e)) == Members(o) + 1 + Present(e.width) + Present(e.pcieGeneration) + Present(e.bandwidth) +
                                          Present(e.latency) + Present(e.localityScore)
  {
    hide SetField, FindField, SetSome, Members, Size, Unsigned, AsInt32;
    SettingsAreFound();
    SettingsAddUp();
    OptionalSettingsAreFound();
    OptionalSettingsAddUp();
    ScalarSize();
  }

  lemma LinkLeavesRoom(e: Edge)
    ensures var o := LinkToJson(e);
            && FindField(o, "accessible") == None && FindField(o, "peer_capability") == None
            && FindField(o, "policy_version") == None && FindField(o, "properties") == None
  {
    hide FindField, LinkToJson, EdgeTypeName, DirectionName, ConfidenceName, ToHex, ProvenanceToJson;
    LinkMembers(e);
  }

  lemma FactsLeaveRoom(e: Edge)
    ensures var o := FactsToJson(LinkToJson(e), e);
            && FindField(o, "accessible") == None && FindField(o, "peer_capability") == None
            && FindField(o, "policy_version") == None && FindField(o, "properties") == None
  {
    hide FindField, LinkToJson, FactsToJson, DoubleOf, UintOf;
    LinkLeavesRoom(e);
    LinkHasNoFacts(e);
    FactMembers(LinkToJson(e), e);
  }

  lemma EdgeMembersSize(e: Edge, fs: seq<Field>)
    ensures EdgeJson(e, fs).Object?
    ensures Members(EdgeJson(e, fs).fields) == Members(FactsToJson(LinkToJson(e), e)) + 2 + Present(e.peerCapability) + Size(Object(fs))
  {
    hide SetField, FindField, SetSome, Members, Size, LinkToJson, FactsToJson;
    SettingsAreFound();
    SettingsAddUp();
    OptionalSettingsAreFound();
    OptionalSettingsAddUp();
    ScalarSize();
    FactsLeaveRoom(e);
  }

  lemma EdgeHasSize(e: Edge, v: Value)
    requires IsEdgeJson(e, v)
    ensures Size(v) == EdgeSize(e)
  {
    hide FindField, Members, Size, LinkToJson, FactsToJson, EdgeJson, IsPropertiesJson, PropertiesSize;
    var fs :| IsPropertiesJson(e.properties, fs) && v == EdgeJson(e, fs);
    LinkSize(e);
    LinkMembers(e);
    FactsSize(LinkToJson(e), e);
    EdgeMembersSize(e, fs);
    PropertiesHaveSize(e.properties, fs);
    ObjectSize(v.fields);
  }

  // ---- Documents ---------------------------------------------------------------------------------------

  ghost function NodeSizes(nodes: map<NodeId, Node>): NodeId -> nat {
    id => if id in nodes then NodeSize(nodes[id]) else 0
  }

  ghost function EdgeSizes(): Edge -> nat {
    e => EdgeSize(e)
  }

  // Counted from the parts of the snapshot.
  ghost function SnapshotSize(s: Snapshot): nat {
    13 + SetTotal(NodeSizes(s.nodes), s.nodes.Keys) + Total(EdgeSizes(), s.edges) + |s.metadata.warnings|
  }

  lemma MetadataSize(m: Metadata)
    ensures Members(MetadataToJson(m)) == 7
    ensures forall q :: q in {"nodes", "edges", "warnings", "partial_discovery", "synthetic", "validation"} ==>
              FindField(MetadataToJson(m), q) == None
  {
    hide SetField, FindField, Members, Size, Unsigned;
    SettingsAreFound();
    SettingsAddUp();
    NothingIsFound();
    NoMembers();
    ScalarSize();
  }

  lemma ArraySize(a: seq<Value>)
    ensures Size(Array(a)) == 1 + ItemsSize(a, 0)
  {
  }

  lemma RootSize(m: Metadata, ns: seq<Value>, ls: seq<Value>, report: Value)
    ensures Size(RootJson(m, ns, ls, report)) == 13 + ItemsSize(ns, 0) + ItemsSize(ls, 0) + |m.warnings| + Size(report)
  {
    hide SetField, FindField, Members, Size, MetadataToJson, ItemsSize;
    SettingsAreFound();
    SettingsAddUp();
    ScalarSize();
    MetadataSize(m);
    ArraySize(ns);
    ArraySize(ls);
    ArraySize(WarningsJson(m.warnings));
    ScalarsSize(WarningsJson(m.warnings), 0);
    ObjectSize(RootJson(m, ns, ls, report).fields);
  }

  // Every document of the snapshot has this size.
  lemma DocumentHasSize(s: Snapshot, report: Value, v: Value)
    requires IsSnapshotJson(s, report, v)
    ensures Size(v) == SnapshotSize(s) + Size(report)
  {
    hide IsNodeJson, IsEdgeJson, RootJson, Size, NodeSize, EdgeSize, ItemsSize, EdgeLess, IdLess, SetTotal;
    var ids, ns, es, ls :| IsLayout(s, ids, ns, es, ls) && v == RootJson(s.metadata, ns, ls, report);
    RootSize(s.metadata, ns, ls, report);
    forall i | 0 <= i < |ids|
      ensures Size(ns[i]) == NodeSizes(s.nodes)(ids[i])
    {
      assert ids[i] in ids;
      NodeHasSize(s.nodes[ids[i]], ns[i]);
    }
    ItemsTotal(ns, NodeSizes(s.nodes), ids);
    IdsAreDistinct(ids);
    SetTotalIsTotal(NodeSizes(s.nodes), s.nodes.Keys, ids);
    forall i | 0 <= i < |es|
      ensures Size(ls[i]) == EdgeSizes()(es[i])
    {
      EdgeHasSize(es[i], ls[i]);
    }
    ItemsTotal(ls, EdgeSizes(), es);
    TotalIsOrderFree(EdgeSizes(), es, s.edges);
  }

  lemma IdsAreDistinct(ids: seq<NodeId>)
    requires StrictlySorted(IdLess, ids)
    ensures AllDistinct(ids)
  {
    IdOrder();
    forall i, j | 0 <= i < j < |ids|
      ensures ids[i] != ids[j]
    {
      assert IdLess(ids[i], ids[j]);
    }
  }
}
