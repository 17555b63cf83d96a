// Merging the members of one group.

module Merge {
  import opened Types
  import opened Names
  import opened Identity

  datatype ContributedNode = ContributedNode(
    ref: string,
    nodeType: NodeType,
    category: string,
    name: string,
    native: NativeIdentity,
    capabilities: bv64,
    properties: PropertyMap,
    provenance: Provenance,
    synthetic: bool)

  datatype ContributedEdge = ContributedEdge(
    fromRef: string,
    toRef: string,
    edgeType: EdgeType,
    direction: EdgeDirection,
    provenance: Provenance,
    confidence: Confidence,
    width: Option<int>,
    pcieGeneration: Option<int>,
    bandwidth: Option<real>,
    latency: Option<real>,
    hopCount: int,
    peerCapability: Option<uint64>,
    properties: PropertyMap)

  datatype Contribution = Contribution(
    provider: string,
    version: string,
    nodes: seq<ContributedNode>,
    edges: seq<ContributedEdge>,
    partial: bool,
    success: bool)

  // ---- Group keys ---------------------------------------------------------------

  // The canonical identity, or the type and name of a node that reports none.
  function GroupKey(n: ContributedNode): string {
    var k := CanonicalKey(n.native);
    if k == "" then "type:" + TypeName(n.nodeType) + ":" + n.name else k
  }

  lemma TypeKeysAreApart(n: ContributedNode)
    ensures GroupKey(n) != ""
    ensures CanonicalKey(n.native) == "" <==> |GroupKey(n)| > 0 && GroupKey(n)[0] == 't'
  {
    KeyIsTaggedPayload(n.native);
    TaggedStart(KindOf(n.native), PayloadOf(n.native));
  }

  // ---- merge_native ----------------------------------------------------------------

  function Or<T>(a: Option<T>, b: Option<T>): Option<T> {
    if a.Some? then a else b
  }

  function OrText(a: string, b: string): string {
    if a != "" then a else b
  }

  // Fills the fields that are still missing.
  function Fill(out: NativeIdentity, n: NativeIdentity): NativeIdentity {
    NativeIdentity(
      Or(out.pciDomain, n.pciDomain), Or(out.pciBus, n.pciBus), Or(out.pciDevice, n.pciDevice),
      Or(out.pciFunction, n.pciFunction), Or(out.vendorId, n.vendorId), Or(out.deviceId, n.deviceId),
      Or(out.subsystemId, n.subsystemId), Or(out.subsystemVendorId, n.subsystemVendorId),
      Or(out.numaNode, n.numaNode), Or(out.cpuPackage, n.cpuPackage), Or(out.coreId, n.coreId),
      Or(out.processorGroup, n.processorGroup), Or(out.logicalProcessorIndex, n.logicalProcessorIndex),
      Or(out.cudaOrdinal, n.cudaOrdinal), OrText(out.cudaUuid, n.cudaUuid), OrText(out.name, n.name),
      OrText(out.networkInterfaceName, n.networkInterfaceName), OrText(out.networkHardwareId, n.networkHardwareId),
      OrText(out.storageId, n.storageId), OrText(out.storageDevicePath, n.storageDevicePath),
      OrText(out.machineName, n.machineName), OrText(out.osVersion, n.osVersion))
  }

  // The identity filled from the members in order: the first that reports a field wins.
  function MergedNative(ms: seq<ContributedNode>): NativeIdentity {
    if ms == [] then NO_IDENTITY else Fill(MergedNative(ms[..|ms| - 1]), ms[|ms| - 1].native)
  }

  // The value is that of the first member reporting it; no value means that none does.
  ghost predicate FirstReport<T(!new)>(ms: seq<ContributedNode>, field: NativeIdentity -> Option<T>, value: Option<T>) {
    if value.None? then forall i :: 0 <= i < |ms| ==> field(ms[i].native) == None
    else exists i: nat :: FirstReporter(ms, field, i) && field(ms[i].native) == value
  }

  ghost predicate FirstReporter<T(!new)>(ms: seq<ContributedNode>, field: NativeIdentity -> Option<T>, i: nat) {
    i < |ms| && field(ms[i].native).Some? && forall j :: 0 <= j < i ==> field(ms[j].native) == None
  }

  // An empty text reports nothing.
  function Reported(s: string): Option<string> {
    if s == "" then None else Some(s)
  }

  // Every field of the merged identity is the first report of it.
  ghost predicate AreFirstReports(ms: seq<ContributedNode>, out: NativeIdentity) {
    && FirstReport(ms, (n: NativeIdentity) => n.pciDomain, out.pciDomain)
    && FirstReport(ms, (n: NativeIdentity) => n.pciBus, out.pciBus)
    && FirstReport(ms, (n: NativeIdentity) => n.pciDevice, out.pciDevice)
    && FirstReport(ms, (n: NativeIdentity) => n.pciFunction, out.pciFunction)
    && FirstReport(ms, (n: NativeIdentity) => n.vendorId, out.vendorId)
    && FirstReport(ms, (n: NativeIdentity) => n.deviceId, out.deviceId)
    && FirstReport(ms, (n: NativeIdentity) => n.subsystemId, out.subsystemId)
    && FirstReport(ms, (n: NativeIdentity) => n.subsystemVendorId, out.subsystemVendorId)
    && FirstReport(ms, (n: NativeIdentity) => n.numaNode, out.numaNode)
    && FirstReport(ms, (n: NativeIdentity) => n.cpuPackage, out.cpuPackage)
    && FirstReport(ms, (n: NativeIdentity) => n.coreId, out.coreId)
    && FirstReport(ms, (n: NativeIdentity) => n.processorGroup, out.processorGroup)
    && FirstReport(ms, (n: NativeIdentity) => n.logicalProcessorIndex, out.logicalProcessorIndex)
    && FirstReport(ms, (n: NativeIdentity) => n.cudaOrdinal, out.cudaOrdinal)
    && FirstReport(ms, (n: NativeIdentity) => Reported(n.cudaUuid), Reported(out.cudaUuid))
    && FirstReport(ms, (n: NativeIdentity) => Reported(n.name), Reported(out.name))
    && FirstReport(ms, (n: NativeIdentity) => Reported(n.networkInterfaceName), Reported(out.networkInterfaceName))
    && FirstReport(ms, (n: NativeIdentity) => Reported(n.networkHardwareId), Reported(out.networkHardwareId))
    && FirstReport(ms, (n: NativeIdentity) => Reported(n.storageId), Reported(out.storageId))
    && FirstReport(ms, (n: NativeIdentity) => Reported(n.storageDevicePath), Reported(out.storageDevicePath))
    && FirstReport(ms, (n: NativeIdentity) => Reported(n.machineName), Reported(out.machineName))
    && FirstReport(ms, (n: NativeIdentity) => Reported(n.osVersion), Reported(out.osVersion))
  }

  lemma NextReport<T(!new)>(ms: seq<ContributedNode>, field: NativeIdentity -> Option<T>, value: Option<T>, m: ContributedNode)
    requires FirstReport(ms, field, value)
    ensures FirstReport(ms + [m], field, Or(value, field(m.native)))
  {
    var next := ms + [m];
    if value.Some? {
      var i: nat :| FirstReporter(ms, field, i) && field(ms[i].native) == value;
      assert FirstReporter(next, field, i) && next[i] == ms[i];
    } else if field(m.native).Some? {
      assert FirstReporter(next, field, |ms|);
    }
  }

  lemma TextsFillLikeOptions()
    ensures forall a, b :: Reported(OrText(a, b)) == Or(Reported(a), Reported(b))
  {
  }

  lemma NextReports(ms: seq<ContributedNode>, out: NativeIdentity, m: ContributedNode)
    requires AreFirstReports(ms, out)
    ensures AreFirstReports(ms + [m], Fill(out, m.native))
  {
    hide FirstReport, Or, OrText, Reported;
    TextsFillLikeOptions();
    NextReport(ms, (n: NativeIdentity) => n.pciDomain, out.pciDomain, m);
    NextReport(ms, (n: NativeIdentity) => n.pciBus, out.pciBus, m);
    NextReport(ms, (n: NativeIdentity) => n.pciDevice, out.pciDevice, m);
    NextReport(ms, (n: NativeIdentity) => n.pciFunction, out.pciFunction, m);
    NextReport(ms, (n: NativeIdentity) => n.vendorId, out.vendorId, m);
    NextReport(ms, (n: NativeIdentity) => n.deviceId, out.deviceId, m);
    NextReport(ms, (n: NativeIdentity) => n.subsystemId, out.subsystemId, m);
    NextReport(ms, (n: NativeIdentity) => n.subsystemVendorId, out.subsystemVendorId, m);
    NextReport(ms, (n: NativeIdentity) => n.numaNode, out.numaNode, m);
    NextReport(ms, (n: NativeIdentity) => n.cpuPackage, out.cpuPackage, m);
    NextReport(ms, (n: NativeIdentity) => n.coreId, out.coreId, m);
    NextReport(ms, (n: NativeIdentity) => n.processorGroup, out.processorGroup, m);
    NextReport(ms, (n: NativeIdentity) => n.logicalProcessorIndex, out.logicalProcessorIndex, m);
    NextReport(ms, (n: NativeIdentity) => n.cudaOrdinal, out.cudaOrdinal, m);
    NextReport(ms, (n: NativeIdentity) => Reported(n.cudaUuid), Reported(out.cudaUuid), m);
    NextReport(ms, (n: NativeIdentity) => Reported(n.name), Reported(out.name), m);
    NextReport(ms, (n: NativeIdentity) => Reported(n.networkInterfaceName), Reported(out.networkInterfaceName), m);
    NextReport(ms, (n: NativeIdentity) => Reported(n.networkHardwareId), Reported(out.networkHardwareId), m);
    NextReport(ms, (n: NativeIdentity) => Reported(n.storageId), Reported(out.storageId), m);
    NextReport(ms, (n: NativeIdentity) => Reported(n.storageDevicePath), Reported(out.storageDevicePath), m);
    NextReport(ms, (n: NativeIdentity) => Reported(n.machineName), Reported(out.machineName), m);
    NextReport(ms, (n: NativeIdentity) => Reported(n.osVersion), Reported(out.osVersion), m);
  }

  lemma {:induction false} MergedFieldsAreFirstReports(ms: seq<ContributedNode>)
    ensures AreFirstReports(ms, MergedNative(ms))
  {
    hide Fill, AreFirstReports;
    if ms == [] {
      NothingReported();
    } else {
      var n := |ms| - 1;
      MergedFieldsAreFirstReports(ms[..n]);
      assert ms == ms[..n] + [ms[n]];
      NextReports(ms[..n], MergedNative(ms[..n]), ms[n]);
    }
  }

  lemma NothingReported()
    ensures AreFirstReports([], NO_IDENTITY)
  {
  }

  method MergeNative(ms: seq<ContributedNode>) returns (out: NativeIdentity)
    ensures out == MergedNative(ms) && AreFirstReports(ms, out)
  {
    hide AreFirstReports;
    out := NO_IDENTITY;
    for i := 0 to |ms|
      invariant out == MergedNative(ms[..i])
    {
      assert ms[..i + 1][..i] == ms[..i];
      out := Fill(out, ms[i].native);
    }
    assert ms[..|ms|] == ms;
    MergedFieldsAreFirstReports(ms);
  }

  // A PCI address is reported completely or not at all.
  predicate WholePci(n: NativeIdentity) {
    (n.pciBus.Some? <==> n.pciDevice.Some?) && (n.pciDevice.Some? <==> n.pciFunction.Some?)
  }

  // No member has a whole PCI address, but together they report all its parts.
  ghost predicate CompletesAddress(ms: seq<ContributedNode>) {
    && (forall m :: m in ms ==> !HasPci(m.native))
    && (exists m :: m in ms && m.native.pciBus.Some?)
    && (exists m :: m in ms && m.native.pciDevice.Some?)
    && (exists m :: m in ms && m.native.pciFunction.Some?)
  }

  // Merging two identities of one key keeps the key, unless that makes an address whole.
  lemma FillKeepsKey(out: NativeIdentity, n: NativeIdentity)
    requires CanonicalKey(out) == CanonicalKey(n) && (HasPci(out) || !HasPci(Fill(out, n)))
    ensures CanonicalKey(Fill(out, n)) == CanonicalKey(n)
  {
    hide CanonicalKey;
    KeysCollideOnEqualFacts(out, n);
    KeysCollideOnEqualFacts(Fill(out, n), n);
    if HasPci(out) {
      BdfInjective(out, n);
      BdfInjective(Fill(out, n), n);
    }
  }

  lemma {:induction false} AddressPartsReported(ms: seq<ContributedNode>)
    ensures MergedNative(ms).pciBus.Some? <==> exists m :: m in ms && m.native.pciBus.Some?
    ensures MergedNative(ms).pciDevice.Some? <==> exists m :: m in ms && m.native.pciDevice.Some?
    ensures MergedNative(ms).pciFunction.Some? <==> exists m :: m in ms && m.native.pciFunction.Some?
  {
    if ms != [] {
      var n := |ms| - 1;
      AddressPartsReported(ms[..n]);
      assert ms == ms[..n] + [ms[n]];
    }
  }

  // The merged identity has an address when some member has, or when they complete one.
  lemma MergedAddress(ms: seq<ContributedNode>)
    ensures HasPci(MergedNative(ms)) <==> CompletesAddress(ms) || exists m :: m in ms && HasPci(m.native)
  {
    hide MergedNative;
    AddressPartsReported(ms);
  }

  lemma {:induction false} MergedNativeKeepsKey(ms: seq<ContributedNode>, key: string)
    requires ms != [] && (HasPci(ms[0].native) || !HasPci(MergedNative(ms)))
    requires forall m :: m in ms ==> CanonicalKey(m.native) == key
    ensures CanonicalKey(MergedNative(ms)) == key
    ensures HasPci(ms[0].native) ==> HasPci(MergedNative(ms))
  {
    hide CanonicalKey;
    var n := |ms| - 1;
    assert ms[n] in ms;
    if n == 0 {
      assert ms[..0] == [];
      assert Fill(NO_IDENTITY, ms[0].native) == ms[0].native;
    } else {
      assert forall m :: m in ms[..n] ==> m in ms;
      MergedNativeKeepsKey(ms[..n], key);
      FillKeepsKey(MergedNative(ms[..n]), ms[n].native);
    }
  }

  // The merged identity of a group carries the key of the group, and none when the group was
  // formed by type and name, exactly when its members do not complete an address none of them has.
  lemma MergedKeyIsGroupKey(ms: seq<ContributedNode>, key: string)
    requires ms != [] && forall m :: m in ms ==> GroupKey(m) == key
    ensures key != ""
    ensures (CanonicalKey(MergedNative(ms)) == if key[0] == 't' then "" else key) <==> !CompletesAddress(ms)
  {
    hide CanonicalKey, GroupKey, MergedNative;
    var expected := if key != "" && key[0] == 't' then "" else key;
    forall m | m in ms
      ensures key != "" && CanonicalKey(m.native) == expected && (HasPci(m.native) <==> HasPci(ms[0].native))
    {
      MemberKey(m);
      MemberKey(ms[0]);
      KeysCollideOnEqualFacts(m.native, ms[0].native);
    }
    assert ms[0] in ms;
    MergedAddress(ms);
    if CompletesAddress(ms) {
      AddressShowsInKey(MergedNative(ms), ms[0].native);
    } else {
      MergedNativeKeepsKey(ms, expected);
    }
  }

  lemma MemberKey(m: ContributedNode)
    ensures GroupKey(m) != "" && CanonicalKey(m.native) == if GroupKey(m)[0] == 't' then "" else GroupKey(m)
  {
    TypeKeysAreApart(m);
  }

  // An identity with an address and one without have different keys.
  lemma AddressShowsInKey(a: NativeIdentity, b: NativeIdentity)
    requires HasPci(a) && !HasPci(b)
    ensures CanonicalKey(a) != CanonicalKey(b)
  {
    hide CanonicalKey;
    KeysCollideOnEqualFacts(a, b);
  }

  // In particular whole addresses keep the key.
  lemma WholeAddressesKeepTheKey(ms: seq<ContributedNode>)
    requires forall m :: m in ms ==> WholePci(m.native)
    ensures !CompletesAddress(ms)
  {
  }

  // Reporting a PCI address in pieces breaks this: two members of one storage group can
  // complete each other's address, and the merged node changes its identity.
  lemma PartialAddressesChangeTheKey(a: ContributedNode, b: ContributedNode)
    requires a.native == NO_IDENTITY.(storageId := "disk", pciBus := Some(1))
    requires b.native == NO_IDENTITY.(storageId := "disk", pciDevice := Some(0), pciFunction := Some(0))
    ensures GroupKey(a) == GroupKey(b) == "storage:disk"
    ensures CanonicalKey(MergedNative([a, b])) != "storage:disk"
  {
    hide MergedNative;
    var ms := [a, b];
    assert a in ms && b in ms && forall m :: m in ms ==> m == a || m == b;
    assert CompletesAddress(ms);
    assert "storage:disk"[0] == 's';
    MergedKeyIsGroupKey(ms, "storage:disk");
  }

  // ---- One node per group ------------------------------------------------------------

  function TypeRank(t: NodeType): nat {
    match t
    case AcceleratorMemoryDomain => 9
    case Accelerator => 8
    case NetworkInterface => 7
    case StorageDevice | SharedMemoryDomain => 6
    case PciDevice => 5
    case PciBridge => 4
    case PciRoot => 3
    case CpuPackage | CpuCore | CpuThread => 2
    case NumaNode | HostMemoryDomain | Machine => 1
    case UnknownType | Extension => 0
  }

  function Rank(n: ContributedNode): nat {
    ConfidenceRank(n.provenance.confidence)
  }

  // The most specific type; the earliest of equally specific ones.
  function BestType(ms: seq<ContributedNode>): NodeType
    requires ms != []
  {
    if |ms| == 1 then ms[0].nodeType
    else
      var n := |ms| - 1;
      var best := BestType(ms[..n]);
      if TypeRank(ms[n].nodeType) > TypeRank(best) then ms[n].nodeType else best
  }

  function LongestName(ms: seq<ContributedNode>): string {
    if ms == [] then ""
    else
      var n := |ms| - 1;
      var longest := LongestName(ms[..n]);
      if |ms[n].name| > |longest| then ms[n].name else longest
  }

  function FirstNameOf(ms: seq<ContributedNode>, t: NodeType): string {
    if ms == [] then "" else if ms[0].nodeType == t then ms[0].name else FirstNameOf(ms[1..], t)
  }

  // The name of the first member of the best type, or else the longest name.
  function BestName(ms: seq<ContributedNode>): string
    requires ms != []
  {
    var name := FirstNameOf(ms, BestType(ms));
    if name == "" then LongestName(ms) else name
  }

  function AllCapabilities(ms: seq<ContributedNode>): bv64 {
    if ms == [] then 0 else AllCapabilities(ms[..|ms| - 1]) | ms[|ms| - 1].capabilities
  }

  function MaxConfidence(a: Confidence, b: Confidence): Confidence {
    if ConfidenceRank(a) >= ConfidenceRank(b) then a else b
  }

  function BestConfidence(ms: seq<ContributedNode>): Confidence {
    if ms == [] then UnknownConfidence
    else MaxConfidence(BestConfidence(ms[..|ms| - 1]), ms[|ms| - 1].provenance.confidence)
  }

  function AnySynthetic(ms: seq<ContributedNode>): bool {
    exists m :: m in ms && m.synthetic
  }

  // The value of the first member that has the key.
  function MergedProperties(ms: seq<ContributedNode>): PropertyMap {
    if ms == [] then map[] else ms[|ms| - 1].properties + MergedProperties(ms[..|ms| - 1])
  }

  function ProviderTags(ms: seq<ContributedNode>): seq<string> {
    if ms == [] then []
    else ProviderTags(ms[..|ms| - 1]) + [ms[|ms| - 1].provenance.provider + ":" + ms[|ms| - 1].ref]
  }

  // A size read as a signed 64-bit number.
  function Signed(n: nat): int64 {
    (n + 0x8000_0000_0000_0000) % 0x1_0000_0000_0000_0000 - 0x8000_0000_0000_0000
  }

  // Bookkeeping entries never replace contributed ones.
  function WithBookkeeping(ms: seq<ContributedNode>): PropertyMap {
    map["tf.merged_providers" := StringsProperty(ProviderTags(ms)), "tf.merged_members" := IntProperty(Signed(|ms|))]
    + MergedProperties(ms)
  }

  // The merged node of a group whose members are given best first.
  function MergedNode(id: NodeId, ms: seq<ContributedNode>): Node
    requires ms != []
  {
    var name := BestName(ms);
    Node(id, BestType(ms), "merged", name, if name == "" then ToHex(id) else name, MergedNative(ms),
         AllCapabilities(ms), WithBookkeeping(ms), ms[0].provenance, BestConfidence(ms), AnySynthetic(ms))
  }

  // No member is more specific than the merged node, and some member has its type.
  lemma {:induction false} BestTypeIsBest(ms: seq<ContributedNode>)
    requires ms != []
    ensures forall m :: m in ms ==> TypeRank(m.nodeType) <= TypeRank(BestType(ms))
    ensures exists m :: m in ms && m.nodeType == BestType(ms)
  {
    hide TypeRank;
    var n := |ms| - 1;
    assert ms[n] in ms;
    if n > 0 {
      BestTypeIsBest(ms[..n]);
      assert ms == ms[..n] + [ms[n]];
    }
  }

  ghost predicate BestFirst(ms: seq<ContributedNode>) {
    forall i, j :: 0 <= i < j < |ms| ==> Rank(ms[i]) >= Rank(ms[j])
  }

  // m holds the merged value of k and no holder of k is more confident.
  ghost predicate BestHolder(ms: seq<ContributedNode>, k: string, m: ContributedNode)
    requires k in MergedProperties(ms)
  {
    && m in ms && k in m.properties && m.properties[k] == MergedProperties(ms)[k]
    && forall o :: o in ms && k in o.properties ==> Rank(o) <= Rank(m)
  }

  // The first member that has the key decides its value.
  lemma {:induction false} FirstHolderDecides(ms: seq<ContributedNode>, k: string) returns (i: nat)
    ensures k in MergedProperties(ms) ==>
              i < |ms| && k in ms[i].properties && ms[i].properties[k] == MergedProperties(ms)[k] &&
              forall j :: 0 <= j < i ==> k !in ms[j].properties
    ensures k !in MergedProperties(ms) ==> forall j :: 0 <= j < |ms| ==> k !in ms[j].properties
  {
    i := 0;
    if ms != [] {
      var n := |ms| - 1;
      i := FirstHolderDecides(ms[..n], k);
      if k !in MergedProperties(ms[..n]) {
        assert forall j :: 0 <= j < n ==> k !in ms[..n][j].properties;
        i := n;
      }
    }
  }

  // A merged property comes from a member as confident as any that has the property.
  lemma KeptValueIsMostConfident(ms: seq<ContributedNode>, k: string)
    requires BestFirst(ms)
    ensures k in MergedProperties(ms) <==> exists m :: m in ms && k in m.properties
    ensures k in MergedProperties(ms) ==> exists m :: BestHolder(ms, k, m)
  {
    hide Rank, MergedProperties;
    var i := FirstHolderDecides(ms, k);
    if k in MergedProperties(ms) {
      assert ms[i] in ms;
      assert BestHolder(ms, k, ms[i]);
    }
  }

  // The merged confidence is that of the first member: never lowered, never invented.
  lemma {:induction false} ConfidenceOfFirst(ms: seq<ContributedNode>)
    requires ms != [] && BestFirst(ms)
    ensures BestConfidence(ms) == ms[0].provenance.confidence
  {
    var n := |ms| - 1;
    if n > 0 {
      ConfidenceOfFirst(ms[..n]);
      assert Rank(ms[0]) >= Rank(ms[n]);
    } else {
      assert ms[..0] == [];
    }
  }

  // ---- Conservation of properties --------------------------------------------------------

  ghost function EntryCount(ms: seq<ContributedNode>): nat {
    if ms == [] then 0 else EntryCount(ms[..|ms| - 1]) + |ms[|ms| - 1].properties|
  }

  ghost function Holders(ms: seq<ContributedNode>, k: string): nat {
    if ms == [] then 0 else Holders(ms[..|ms| - 1], k) + if k in ms[|ms| - 1].properties then 1 else 0
  }

  // The keys for which a conflict is recorded: what a member repeats, member by member.
  ghost function Conflicts(ms: seq<ContributedNode>): multiset<string> {
    if ms == [] then multiset{}
    else
      var n := |ms| - 1;
      Conflicts(ms[..n]) + multiset(MergedProperties(ms[..n]).Keys * ms[n].properties.Keys)
  }

  // The property loop of one member: adds what is new, records a conflict for every key that is
  // already there, whatever its value.
  method AddProperties(props: PropertyMap, more: PropertyMap) returns (r: PropertyMap, conflicts: set<string>)
    ensures r == more + props
    ensures conflicts == props.Keys * more.Keys
  {
    r, conflicts := props, {};
    var left := more.Keys;
    while left != {}
      invariant left <= more.Keys
      invariant r.Keys == props.Keys + (more.Keys - left)
      invariant forall k :: k in r ==> r[k] == if k in props then props[k] else more[k]
      invariant conflicts == props.Keys * (more.Keys - left)
      decreases left
    {
      var k :| k in left;
      left := left - {k};
      if k !in r {
        r := r[k := more[k]];
      } else {
        conflicts := conflicts + {k};
      }
    }
    assert r == more + props;
  }

  lemma UnionAndIntersection<T>(a: set<T>, b: set<T>)
    ensures |a + b| + |a * b| == |a| + |b|
  {
    assert a + b == a + (b - a);
    assert b == (b - a) + (a * b);
  }

  lemma NothingHeld()
    ensures MergedProperties([]) == map[] && EntryCount([]) == 0 && Conflicts([]) == multiset{}
    ensures forall k :: Holders([], k) == 0
  {
  }

  lemma NextMember(ms: seq<ContributedNode>, m: ContributedNode)
    ensures MergedProperties(ms + [m]) == m.properties + MergedProperties(ms)
    ensures EntryCount(ms + [m]) == EntryCount(ms) + |m.properties|
    ensures Conflicts(ms + [m]) == Conflicts(ms) + multiset(MergedProperties(ms).Keys * m.properties.Keys)
    ensures forall k :: Holders(ms + [m], k) == Holders(ms, k) + if k in m.properties then 1 else 0
  {
    assert (ms + [m])[..|ms|] == ms;
  }

  // One conflict is recorded for every holder of a key after the first, so conflicts and merged
  // entries together account for all contributed entries.
  method MergeProperties(ms: seq<ContributedNode>) returns (props: PropertyMap, conflicts: multiset<string>)
    ensures props == MergedProperties(ms) && conflicts == Conflicts(ms)
    ensures |conflicts| + |props| == EntryCount(ms)
    ensures forall k :: conflicts[k] == if Holders(ms, k) == 0 then 0 else Holders(ms, k) - 1
  {
    hide Holders, EntryCount, MergedProperties, Conflicts;
    props, conflicts := map[], multiset{};
    NothingHeld();
    for i := 0 to |ms|
      invariant props == MergedProperties(ms[..i]) && conflicts == Conflicts(ms[..i])
      invariant |conflicts| + |props| == EntryCount(ms[..i])
      invariant forall k :: k in props <==> Holders(ms[..i], k) > 0
      invariant forall k :: conflicts[k] == if Holders(ms[..i], k) == 0 then 0 else Holders(ms[..i], k) - 1
    {
      assert ms[..i + 1] == ms[..i] + [ms[i]];
      NextMember(ms[..i], ms[i]);
      var before := props;
      var more;
      props, more := AddProperties(props, ms[i].properties);
      UnionAndIntersection(before.Keys, ms[i].properties.Keys);
      assert props.Keys == before.Keys + ms[i].properties.Keys;
      conflicts := conflicts + multiset(more);
    }
    assert ms[..|ms|] == ms;
  }

  method FindType(ms: seq<ContributedNode>) returns (best: NodeType)
    requires ms != []
    ensures best == BestType(ms)
  {
    best := ms[0].nodeType;
    for i := 1 to |ms|
      invariant best == BestType(ms[..i])
    {
      assert ms[..i + 1][..i] == ms[..i];
      if TypeRank(ms[i].nodeType) > TypeRank(best) {
        best := ms[i].nodeType;
      }
    }
    assert ms[..|ms|] == ms;
  }

  method SummarizeMembers(ms: seq<ContributedNode>) returns (caps: bv64, conf: Confidence, synthetic: bool, tags: seq<string>)
    ensures caps == AllCapabilities(ms) && conf == BestConfidence(ms)
    ensures synthetic == AnySynthetic(ms) && tags == ProviderTags(ms)
  {
    hide ConfidenceRank;
    caps, conf, synthetic, tags := 0, UnknownConfidence, false, [];
    for i := 0 to |ms|
      invariant caps == AllCapabilities(ms[..i]) && conf == BestConfidence(ms[..i])
      invariant synthetic == AnySynthetic(ms[..i]) && tags == ProviderTags(ms[..i])
    {
      assert ms[..i + 1][..i] == ms[..i] && ms[..i + 1] == ms[..i] + [ms[i]];
      caps := caps | ms[i].capabilities;
      conf := MaxConfidence(conf, ms[i].provenance.confidence);
      synthetic := synthetic || ms[i].synthetic;
      tags := tags + [ms[i].provenance.provider + ":" + ms[i].ref];
    }
    assert ms[..|ms|] == ms;
  }

  // Assembles the node of one group from its members, best first.
  method AssembleNode(id: NodeId, ms: seq<ContributedNode>) returns (node: Node, conflicts: multiset<string>)
    requires ms != []
    ensures node == MergedNode(id, ms) && conflicts == Conflicts(ms)
    ensures |conflicts| + |MergedProperties(ms)| == EntryCount(ms)
    ensures forall k :: conflicts[k] == if Holders(ms, k) == 0 then 0 else Holders(ms, k) - 1
  {
    hide BestType, BestName, MergedNative, AllCapabilities, BestConfidence, AnySynthetic, MergedProperties;
    hide ProviderTags, EntryCount, Holders, Conflicts, ToHex;
    var best := FindType(ms);
    var name := FindName(ms, best);
    var native := MergeNative(ms);
    var caps, conf, synthetic, tags := SummarizeMembers(ms);
    var props;
    props, conflicts := MergeProperties(ms);
    props := map["tf.merged_providers" := StringsProperty(tags), "tf.merged_members" := IntProperty(Signed(|ms|))] + props;
    node := Node(id, best, "merged", name, if name == "" then ToHex(id) else name, native, caps, props,
                 ms[0].provenance, conf, synthetic);
  }

  method FindName(ms: seq<ContributedNode>, best: NodeType) returns (name: string)
    requires ms != [] && best == BestType(ms)
    ensures name == BestName(ms)
  {
    name := "";
    var i := 0;
    while i < |ms| && ms[i].nodeType != best
      invariant i <= |ms| && FirstNameOf(ms, best) == FirstNameOf(ms[i..], best)
    {
      assert ms[i..][1..] == ms[i + 1..];
      i := i + 1;
    }
    if i < |ms| {
      name := ms[i].name;
    }
    if name == "" {
      for j := 0 to |ms|
        invariant name == LongestName(ms[..j])
      {
        assert ms[..j + 1][..j] == ms[..j];
        if |ms[j].name| > |name| {
          name := ms[j].name;
        }
      }
      assert ms[..|ms|] == ms;
    }
  }
}
