// Writing the parts of a snapshot and reading them back: native identities, provenance,
// properties, nodes and edges, each after the normalisation that printing brings.

module DocumentRoundTrip {
  import opened Types
  import opened Names
  import opened Identity
  import opened Ordering
  import opened Doubles
  import opened JsonValues
  import opened JsonGrammar
  import opened JsonNumbers
  import opened JsonRoundTrip
  import opened Documents
  import opened Loading

  // ---- Members after normalisation ----------------------------------------------------------

  lemma {:induction false} FindNorm(fs: seq<Field>, k: string)
    ensures FindField(NormFields(fs), k) == match FindField(fs, k) { case None => None case Some(v) => Some(Norm(v)) }
  {
    hide Norm;
    NormFieldsAt(fs);
    if fs != [] && fs[0].key != k {
      FindNorm(fs[1..], k);
      NormFieldsAt(fs[1..]);
      assert NormFields(fs)[1..] == NormFields(fs[1..]);
    }
  }

  // The last setting of a key is found, as a fact for chains of settings.
  lemma SettingsAreFound()
    ensures forall fs: seq<Field>, k: string, v: Value, q: string ::
              FindField(SetField(fs, k, v), q) == if q == k then Some(v) else FindField(fs, q)
  {
    forall fs: seq<Field>, k: string, v: Value, q: string
      ensures FindField(SetField(fs, k, v), q) == if q == k then Some(v) else FindField(fs, q)
    {
      FindAfterSet(fs, k, v, q);
    }
  }

  lemma SmallUintIsKept(x: nat)
    requires x < 0x1_0000_0000
    ensures Norm(Uint(x)) == Uint(x) && Integer(Uint(x)) == x
  {
  }

  lemma ShortReadsBack(o: seq<Field>, k: string, x: Option<uint16>)
    requires FindField(o, k) == Some(ShortToJson(x))
    ensures ShortAt(NormFields(o), k) == x
  {
    hide FindField, NormFields, Integer;
    FindNorm(o, k);
    if x.Some? {
      SmallUintIsKept(x.value);
    }
  }

  lemma WordReadsBack(o: seq<Field>, k: string, x: Option<uint32>)
    requires FindField(o, k) == Some(WordToJson(x))
    ensures Loading.WordAt(NormFields(o), k) == x
  {
    hide FindField, NormFields, Integer;
    FindNorm(o, k);
    if x.Some? {
      SmallUintIsKept(x.value);
    }
  }

  lemma TextReadsBack(o: seq<Field>, k: string, s: string, default: string)
    requires FindField(o, k) == Some(String(s))
    ensures TextAt(NormFields(o), k, default) == s
  {
    hide FindField, NormFields;
    FindNorm(o, k);
  }

  lemma FlagReadsBack(o: seq<Field>, k: string, b: bool, default: bool)
    requires FindField(o, k) == Some(Bool(b))
    ensures FlagAt(NormFields(o), k, default) == b
  {
    hide FindField, NormFields;
    FindNorm(o, k);
  }

  // A signed number comes back whole, and an unsigned one within the signed range.
  lemma IntegerReadsBack(o: seq<Field>, k: string, v: Value)
    requires FindField(o, k) == Some(v) && (v.Int? || (v.Uint? && v.u <= MAX_INT64))
    ensures IntegerAt(NormFields(o), k) == Some(if v.Int? then v.i else v.u)
  {
    hide FindField, NormFields;
    FindNorm(o, k);
  }

  // ---- Native identity -----------------------------------------------------------------------

  lemma PciMembers(n: NativeIdentity)
    ensures var o := PciToJson(n);
            && FindField(o, "pci_domain") == Some(ShortToJson(n.pciDomain)) && FindField(o, "pci_bus") == Some(ShortToJson(n.pciBus))
            && FindField(o, "pci_device") == Some(ShortToJson(n.pciDevice)) && FindField(o, "pci_function") == Some(ShortToJson(n.pciFunction))
            && FindField(o, "vendor_id") == Some(ShortToJson(n.vendorId)) && FindField(o, "device_id") == Some(ShortToJson(n.deviceId))
            && FindField(o, "subsystem_id") == Some(ShortToJson(n.subsystemId))
            && FindField(o, "subsystem_vendor_id") == Some(ShortToJson(n.subsystemVendorId))
  {
    hide SetField, FindField, ShortToJson;
    SettingsAreFound();
  }

  lemma ProcessorMembers(o: seq<Field>, n: NativeIdentity)
    ensures var z := ProcessorToJson(o, n);
            && FindField(z, "numa_node") == Some(WordToJson(n.numaNode)) && FindField(z, "cpu_package") == Some(WordToJson(n.cpuPackage))
            && FindField(z, "core_id") == Some(WordToJson(n.coreId)) && FindField(z, "processor_group") == Some(WordToJson(n.processorGroup))
            && FindField(z, "logical_processor_index") == Some(WordToJson(n.logicalProcessorIndex))
            && FindField(z, "cuda_ordinal") == Some(WordToJson(n.cudaOrdinal))
    ensures forall q :: q !in {"numa_node", "cpu_package", "core_id", "processor_group", "logical_processor_index", "cuda_ordinal"} ==>
              FindField(ProcessorToJson(o, n), q) == FindField(o, q)
  {
    hide SetField, FindField, WordToJson;
    SettingsAreFound();
  }

  lemma DeviceNameMembers(o: seq<Field>, n: NativeIdentity)
    ensures var z := DeviceNamesToJson(o, n);
            && FindField(z, "cuda_uuid") == Some(String(n.cudaUuid)) && FindField(z, "name") == Some(String(n.name))
            && FindField(z, "network_interface_name") == Some(String(n.networkInterfaceName))
            && FindField(z, "network_hardware_id") == Some(String(n.networkHardwareId))
            && FindField(z, "storage_id") == Some(String(n.storageId))
            && FindField(z, "storage_device_path") == Some(String(n.storageDevicePath))
            && FindField(z, "machine_name") == Some(String(n.machineName)) && FindField(z, "os_version") == Some(String(n.osVersion))
    ensures forall q :: q !in {"cuda_uuid", "name", "network_interface_name", "network_hardware_id", "storage_id",
                               "storage_device_path", "machine_name", "os_version"} ==>
              FindField(DeviceNamesToJson(o, n), q) == FindField(o, q)
  {
    hide SetField, FindField;
    SettingsAreFound();
  }

  lemma PciMembersStay(n: NativeIdentity)
    ensures var p := PciToJson(n);
            var o := DeviceNamesToJson(ProcessorToJson(p, n), n);
            && (forall q :: q in {"pci_domain", "pci_bus", "pci_device", "pci_function"} ==> FindField(o, q) == FindField(p, q))
            && (forall q :: q in {"vendor_id", "device_id", "subsystem_id", "subsystem_vendor_id"} ==>
                  FindField(o, q) == FindField(p, q))
  {
    hide FindField, PciToJson, ProcessorToJson, DeviceNamesToJson, WordToJson;
    ProcessorMembers(PciToJson(n), n);
    DeviceNameMembers(ProcessorToJson(PciToJson(n), n), n);
  }

  lemma ProcessorMembersStay(o: seq<Field>, n: NativeIdentity)
    ensures forall q :: q in {"numa_node", "cpu_package", "core_id", "processor_group", "logical_processor_index", "cuda_ordinal"} ==>
              FindField(DeviceNamesToJson(o, n), q) == FindField(o, q)
  {
    hide FindField, DeviceNamesToJson;
    DeviceNameMembers(o, n);
  }

  lemma NativeReadsBack(n: NativeIdentity)
    ensures NativeFromJson(Norm(NativeToJson(n))) == n
  {
    hide SetField, FindField, ShortToJson, WordToJson, NormFields, PciToJson, ProcessorToJson, DeviceNamesToJson;
    hide ShortAt, Loading.WordAt, TextAt, Norm;
    var o := NativeToJson(n).fields;
    PciReadsBack(n);
    ProcessorReadsBack(n);
    DeviceNamesReadBack(n);
    assert Norm(Object(o)) == Object(NormFields(o));
  }

  lemma PciReadsBack(n: NativeIdentity)
    ensures var z := NormFields(NativeToJson(n).fields);
            && ShortAt(z, "pci_domain") == n.pciDomain && ShortAt(z, "pci_bus") == n.pciBus
            && ShortAt(z, "pci_device") == n.pciDevice && ShortAt(z, "pci_function") == n.pciFunction
            && ShortAt(z, "vendor_id") == n.vendorId && ShortAt(z, "device_id") == n.deviceId
            && ShortAt(z, "subsystem_id") == n.subsystemId && ShortAt(z, "subsystem_vendor_id") == n.subsystemVendorId
  {
    hide SetField, FindField, ShortToJson, NormFields, PciToJson, ProcessorToJson, DeviceNamesToJson, ShortAt;
    var o := NativeToJson(n).fields;
    PciMembers(n);
    PciMembersStay(n);
    ShortReadsBack(o, "pci_domain", n.pciDomain);
    ShortReadsBack(o, "pci_bus", n.pciBus);
    ShortReadsBack(o, "pci_device", n.pciDevice);
    ShortReadsBack(o, "pci_function", n.pciFunction);
    ShortReadsBack(o, "vendor_id", n.vendorId);
    ShortReadsBack(o, "device_id", n.deviceId);
    ShortReadsBack(o, "subsystem_id", n.subsystemId);
    ShortReadsBack(o, "subsystem_vendor_id", n.subsystemVendorId);
  }

  lemma ProcessorReadsBack(n: NativeIdentity)
    ensures var z := NormFields(NativeToJson(n).fields);
            && Loading.WordAt(z, "numa_node") == n.numaNode && Loading.WordAt(z, "cpu_package") == n.cpuPackage
            && Loading.WordAt(z, "core_id") == n.coreId && Loading.WordAt(z, "processor_group") == n.processorGroup
            && Loading.WordAt(z, "logical_processor_index") == n.logicalProcessorIndex
            && Loading.WordAt(z, "cuda_ordinal") == n.cudaOrdinal
  {
    hide SetField, FindField, WordToJson, NormFields, PciToJson, ProcessorToJson, DeviceNamesToJson, Loading.WordAt;
    var o := NativeToJson(n).fields;
    ProcessorMembers(PciToJson(n), n);
    ProcessorMembersStay(ProcessorToJson(PciToJson(n), n), n);
    WordReadsBack(o, "numa_node", n.numaNode);
    WordReadsBack(o, "cpu_package", n.cpuPackage);
    WordReadsBack(o, "core_id", n.coreId);
    WordReadsBack(o, "processor_group", n.processorGroup);
    WordReadsBack(o, "logical_processor_index", n.logicalProcessorIndex);
    WordReadsBack(o, "cuda_ordinal", n.cudaOrdinal);
  }

  lemma DeviceNamesReadBack(n: NativeIdentity)
    ensures var z := NormFields(NativeToJson(n).fields);
            && TextAt(z, "cuda_uuid", "") == n.cudaUuid && TextAt(z, "name", "") == n.name
            && TextAt(z, "network_interface_name", "") == n.networkInterfaceName
            && TextAt(z, "network_hardware_id", "") == n.networkHardwareId && TextAt(z, "storage_id", "") == n.storageId
            && TextAt(z, "storage_device_path", "") == n.storageDevicePath && TextAt(z, "machine_name", "") == n.machineName
            && TextAt(z, "os_version", "") == n.osVersion
  {
    hide SetField, FindField, NormFields, PciToJson, ProcessorToJson, DeviceNamesToJson, TextAt;
    var o := NativeToJson(n).fields;
    DeviceNameMembers(ProcessorToJson(PciToJson(n), n), n);
    TextReadsBack(o, "cuda_uuid", n.cudaUuid, "");
    TextReadsBack(o, "name", n.name, "");
    TextReadsBack(o, "network_interface_name", n.networkInterfaceName, "");
    TextReadsBack(o, "network_hardware_id", n.networkHardwareId, "");
    TextReadsBack(o, "storage_id", n.storageId, "");
    TextReadsBack(o, "storage_device_path", n.storageDevicePath, "");
    TextReadsBack(o, "machine_name", n.machineName, "");
    TextReadsBack(o, "os_version", n.osVersion, "");
  }

  // ---- Provenance ------------------------------------------------------------------------------

  lemma ProvenanceMembers(p: Provenance)
    ensures var o := ProvenanceToJson(p).fields;
            && FindField(o, "kind") == Some(String(KindName(p.kind)))
            && FindField(o, "confidence") == Some(String(ConfidenceName(p.confidence)))
            && FindField(o, "provider") == Some(String(p.provider)) && FindField(o, "api") == Some(String(p.api))
            && FindField(o, "detail") == Some(String(p.detail)) && FindField(o, "timestamp_ms") == Some(Int(p.timestampMs))
            && FindField(o, "schema_version") == Some(String(p.schemaVersion))
            && FindField(o, "provider_version") == Some(String(p.providerVersion))
  {
    hide SetField, FindField, KindName, ConfidenceName;
    SettingsAreFound();
  }

  lemma ConfidenceReadsBack(o: seq<Field>, c: Confidence)
    requires FindField(o, "confidence") == Some(String(ConfidenceName(c)))
    ensures ConfidenceAt(NormFields(o)) == c
  {
    hide FindField, NormFields, ConfidenceName, ConfidenceNamed;
    FindNorm(o, "confidence");
    ConfidenceNameReadsBack(c);
  }

  lemma KindReadsBack(o: seq<Field>, k: ProvenanceKind)
    requires FindField(o, "kind") == Some(String(KindName(k)))
    ensures KindAt(NormFields(o)) == k
  {
    hide FindField, NormFields, KindName, KindNamed;
    FindNorm(o, "kind");
    KindNameReadsBack(k);
  }

  lemma ProvenanceReadsBack(p: Provenance)
    ensures ProvenanceFromJson(Norm(ProvenanceToJson(p))) == p
  {
    hide SetField, FindField, NormFields, KindAt, ConfidenceAt, TextAt, IntegerAt, ProvenanceToJson, Norm;
    ProvenanceIsObject(p);
    ProvenanceMembers(p);
    var o := ProvenanceToJson(p).fields;
    KindReadsBack(o, p.kind);
    ConfidenceReadsBack(o, p.confidence);
    TextReadsBack(o, "provider", p.provider, "");
    TextReadsBack(o, "api", p.api, "");
    TextReadsBack(o, "detail", p.detail, "");
    IntegerReadsBack(o, "timestamp_ms", Int(p.timestampMs));
    TextReadsBack(o, "schema_version", p.schemaVersion, "1.0");
    TextReadsBack(o, "provider_version", p.providerVersion, "");
    assert Norm(Object(o)) == Object(NormFields(o));
  }

  lemma ProvenanceIsObject(p: Provenance)
    ensures ProvenanceToJson(p).Object?
  {
    hide SetField;
  }

  // ---- Properties --------------------------------------------------------------------------------

  // What the document can carry: no unsigned number beyond the signed range, and no empty string
  // array, which would come back as an empty integer array.
  ghost predicate SafeProperty(p: PropertyValue) {
    match p
    case UintProperty(u) => u <= MAX_INT64
    case StringProperty(s) => SafeText(s)
    case StringsProperty(ss) => ss != [] && forall i :: 0 <= i < |ss| ==> SafeText(ss[i])
    case _ => true
  }

  // What a real number reads back as.
  function SavedReal(x: real): real {
    Number(NormFloat(FromReal(x)))
  }

  lemma RealComesBackAsNumber(x: real)
    ensures IsNumber(NormFloat(FromReal(x)))
  {
    hide Micros;
  }

  predicate SixPlaced(x: real) {
    (x * 1_000_000.0).Floor as real == x * 1_000_000.0
  }

  lemma SavedRealInMicros(x: real, size: Magnitude)
    requires size == (if x < 0.0 then -x else x) && size <= MAX_INT64 as real
    ensures var y := Micros(size) as real / 1_000_000.0; SavedReal(x) == if x < 0.0 then -y else y
  {
    hide Micros;
    MicrosAreNear(size, MAX_INT64);
    var n := Micros(size);
    if n % MILLION == 0 {
      WholeMicros(n);
    }
  }

  lemma WholeMicros(n: nat)
    requires n % MILLION == 0
    ensures n as real / 1_000_000.0 == (n / MILLION) as real
  {
    var k := n / MILLION;
    assert n == k * MILLION;
    assert n as real == k as real * 1_000_000.0;
  }

  lemma MicrosHaveSixPlaces(n: int)
    ensures SixPlaced(n as real / 1_000_000.0)
  {
    assert n as real / 1_000_000.0 * 1_000_000.0 == n as real;
  }

  // It is the nearest number with six decimals, as long as it fits 64 bits, and then it stays.
  lemma SavedRealIsNearest(x: real)
    requires -(MAX_INT64 as real) <= x <= MAX_INT64 as real
    ensures -0.000_000_5 <= SavedReal(x) - x <= 0.000_000_5 && SixPlaced(SavedReal(x))
    ensures SavedReal(SavedReal(x)) == SavedReal(x)
    ensures SavedReal(x) == x <==> SixPlaced(x)
  {
    hide SavedReal, Micros, SixPlaced;
    var size: Magnitude := if x < 0.0 then -x else x;
    var n: int := Micros(size);
    MicrosAreNear(size, MAX_INT64);
    SavedRealInMicros(x, size);
    assert SavedReal(x) == (if x < 0.0 then -n else n) as real / 1_000_000.0;
    MicrosHaveSixPlaces(if x < 0.0 then -n else n);
    SavedAgain(x, size);
    if SixPlaced(x) {
      SixPlacedInMicros(x, size);
    }
  }

  lemma SixPlacedInMicros(x: real, size: Magnitude)
    requires size == (if x < 0.0 then -x else x) && SixPlaced(x)
    ensures Micros(size) as real == size * 1_000_000.0
  {
    var f := (x * 1_000_000.0).Floor;
    var n: int := if x < 0.0 then -f else f;
    assert n as real == size * 1_000_000.0;
    RoundsToNearest(0.0, n);
  }

  lemma SavedAgain(x: real, size: Magnitude)
    requires size == (if x < 0.0 then -x else x) && size <= MAX_INT64 as real
    ensures SavedReal(SavedReal(x)) == SavedReal(x)
  {
    hide SavedReal, Micros;
    var y: real := Micros(size) as real / 1_000_000.0;
    MicrosAreNear(size, MAX_INT64);
    MicrosAreKept(Micros(size));
    SavedRealInMicros(x, size);
    SavedRealInMicros(if x < 0.0 then -y else y, y);
  }

  ghost predicate SafeText(s: string) {
    Plain(s, DEFAULT_OPTIONS)
  }

  // A signed number that is not negative comes back unsigned, and a double without decimals as
  // an integer.
  function NormProperty(p: PropertyValue): PropertyValue {
    match p
    case IntProperty(i) => if i < 0 then p else UintProperty(i)
    case DoubleProperty(d) =>
      (match NormFloat(FromReal(d))
       case Int(i) => IntProperty(i)
       case Uint(u) => UintProperty(u)
       case _ => DoubleProperty(SavedReal(d)))
    case _ => p
  }

  lemma PropertyReadsBack(p: PropertyValue)
    requires SafeProperty(p)
    ensures PropertyFromJson(Norm(PropertyToJson(p))) == Read(NormProperty(p))
  {
    hide SafeText, NormFloat;
    var v := Norm(PropertyToJson(p));
    match p {
      case StringsProperty(ss) =>
        NormItemsAt(PropertyToJson(p).items);
        assert v.items[0] == String(ss[0]);
        assert forall i :: 0 <= i < |ss| ==> v.items[i] == String(ss[i]);
        assert seq(|ss|, i requires 0 <= i < |ss| => v.items[i].s) == ss;
      case IntsProperty(ii) =>
        NormItemsAt(PropertyToJson(p).items);
        assert forall i :: 0 <= i < |ii| ==> v.items[i] == Norm(Int(ii[i]));
        assert forall i :: 0 <= i < |ii| ==> Integer(v.items[i]) == ii[i];
        assert seq(|ii|, i requires 0 <= i < |ii| => Integer(v.items[i])) == ii;
      case DoubleProperty(d) => RealComesBackAsNumber(d);
      case _ =>
    }
  }

  ghost predicate SafeProperties(m: PropertyMap) {
    forall k :: k in m ==> SafeText(k) && SafeProperty(m[k])
  }

  function NormProperties(m: PropertyMap): PropertyMap {
    map k | k in m :: NormProperty(m[k])
  }

  lemma {:induction false} FieldIsFound(fs: seq<Field>, i: nat)
    requires Ascending(fs) && i < |fs|
    ensures FindField(fs, fs[i].key) == Some(fs[i].value)
  {
    if i > 0 {
      LessIsAsymmetric(fs[0].key, fs[i].key);
      FieldIsFound(fs[1..], i - 1);
    }
  }

  lemma {:induction false} FoundIsField(fs: seq<Field>, k: string)
    requires FindField(fs, k).Some?
    ensures exists i :: 0 <= i < |fs| && fs[i].key == k
  {
    if fs[0].key != k {
      FoundIsField(fs[1..], k);
      var i :| 0 <= i < |fs[1..]| && fs[1..][i].key == k;
      assert fs[i + 1].key == k;
    }
  }

  // The fields before position i have been read.
  ghost predicate ReadSoFar(m: PropertyMap, fs: seq<Field>, i: nat, acc: PropertyMap)
    requires i <= |fs|
  {
    && (forall k :: k in acc <==> exists j :: 0 <= j < i && fs[j].key == k)
    && (forall k :: k in acc ==> k in m && acc[k] == NormProperty(m[k]))
  }

  lemma {:induction false} PropertiesReadBack(m: PropertyMap, fs: seq<Field>, i: nat, acc: PropertyMap)
    requires IsPropertiesJson(m, fs) && SafeProperties(m) && i <= |fs| && ReadSoFar(m, fs, i, acc)
    ensures ReadProperties(NormFields(fs), i, acc) == Read(NormProperties(m))
    decreases |fs| - i
  {
    hide PropertyFromJson, PropertyToJson, NormProperty, Norm, SafeProperty, SafeText, FindField, Ascending;
    NormFieldsAt(fs);
    if i == |fs| {
      AllPropertiesRead(m, fs, acc);
    } else {
      var k := fs[i].key;
      FieldIsFound(fs, i);
      assert k in m && fs[i].value == PropertyToJson(m[k]);
      PropertyReadsBack(m[k]);
      var next := if k in acc then acc else acc[k := NormProperty(m[k])];
      assert ReadSoFar(m, fs, i + 1, next);
      PropertiesReadBack(m, fs, i + 1, next);
    }
  }

  lemma AllPropertiesRead(m: PropertyMap, fs: seq<Field>, acc: PropertyMap)
    requires IsPropertiesJson(m, fs) && ReadSoFar(m, fs, |fs|, acc)
    ensures acc == NormProperties(m)
  {
    hide NormProperty, PropertyToJson, FindField, Ascending;
    forall k | k in m
      ensures k in acc
    {
      FoundIsField(fs, k);
    }
  }

  lemma PropertiesMemberReadsBack(o: seq<Field>, m: PropertyMap, fs: seq<Field>)
    requires FindField(o, "properties") == Some(Object(fs)) && IsPropertiesJson(m, fs) && SafeProperties(m)
    ensures PropertiesAt(NormFields(o)) == Read(NormProperties(m))
  {
    hide FindField, NormFields, IsPropertiesJson, SafeProperties, ReadProperties, NormProperties;
    FindNorm(o, "properties");
    assert Norm(Object(fs)) == Object(NormFields(fs));
    assert ReadSoFar(m, fs, 0, map[]);
    PropertiesReadBack(m, fs, 0, map[]);
  }

  // ---- Nodes ---------------------------------------------------------------------------------------

  lemma LabelMembers(n: Node)
    ensures var o := LabelsToJson(n);
            && FindField(o, "id") == Some(String(ToHex(n.id))) && FindField(o, "type") == Some(String(TypeName(n.nodeType)))
            && FindField(o, "category") == Some(String(n.category)) && FindField(o, "name") == Some(String(n.name))
            && FindField(o, "display_name") == Some(String(n.displayName))
  {
    hide SetField, FindField, TypeName, ToHex;
    SettingsAreFound();
  }

  lemma NodeMembers(n: Node, fs: seq<Field>)
    ensures NodeJson(n, fs).Object?
    ensures var o := NodeJson(n, fs).fields;
            && FindField(o, "id") == Some(String(ToHex(n.id))) && FindField(o, "type") == Some(String(TypeName(n.nodeType)))
            && FindField(o, "category") == Some(String(n.category)) && FindField(o, "name") == Some(String(n.name))
            && FindField(o, "display_name") == Some(String(n.displayName)) && FindField(o, "native") == Some(NativeToJson(n.native))
            && FindField(o, "capabilities") == Some(CapabilitiesToJson(n.capabilities))
            && FindField(o, "confidence") == Some(String(ConfidenceName(n.confidence)))
            && FindField(o, "provenance") == Some(ProvenanceToJson(n.provenance))
            && FindField(o, "synthetic") == Some(Bool(n.synthetic)) && FindField(o, "properties") == Some(Object(fs))
  {
    hide SetField, FindField, TypeName, ConfidenceName, NativeToJson, ProvenanceToJson, ToHex, CapabilitiesToJson;
    hide LabelsToJson;
    SettingsAreFound();
    LabelMembers(n);
  }

  lemma HexReadsBack(id: NodeId)
    ensures HexId(ToHex(id)) == Some(id)
  {
    hide ToHex, ReadableHalf;
    IdTextIsReadable(id);
  }

  lemma IdReadsBack(o: seq<Field>, k: string, id: NodeId)
    requires FindField(o, k) == Some(String(ToHex(id)))
    ensures IdAt(NormFields(o), k) == Some(id)
  {
    hide FindField, NormFields, ToHex, HexId;
    FindNorm(o, k);
    HexReadsBack(id);
  }

  lemma TypeReadsBack(o: seq<Field>, t: NodeType)
    requires FindField(o, "type") == Some(String(TypeName(t)))
    ensures TypeAt(NormFields(o)) == t
  {
    hide FindField, NormFields, TypeName, TypeNamed;
    FindNorm(o, "type");
    TypeNameReadsBack(t);
  }

  lemma ProvenanceMemberReadsBack(o: seq<Field>, p: Provenance)
    requires FindField(o, "provenance") == Some(ProvenanceToJson(p))
    ensures ProvenanceAt(NormFields(o)) == p
  {
    hide FindField, NormFields, ProvenanceToJson, ProvenanceFromJson, Norm;
    FindNorm(o, "provenance");
    ProvenanceReadsBack(p);
  }

  lemma NativeMemberReadsBack(o: seq<Field>, n: NativeIdentity)
    requires FindField(o, "native") == Some(NativeToJson(n))
    ensures NativeFromJson(FindField(NormFields(o), "native").GetOr(Null)) == n
  {
    hide FindField, NormFields, NativeToJson, NativeFromJson, Norm;
    FindNorm(o, "native");
    NativeReadsBack(n);
  }

  lemma SmallIsUnsigned(i: int)
    requires 0 <= i <= MAX_INT64
    ensures Unsigned(i) == i
  {
  }

  ghost predicate SafeCapabilities(bits: bv64) {
    bits as int <= MAX_INT64
  }

  lemma CapabilitiesReadBack(o: seq<Field>, bits: bv64)
    requires FindField(o, "capabilities") == Some(CapabilitiesToJson(bits)) && SafeCapabilities(bits)
    ensures CapabilitiesAt(NormFields(o)) == bits
  {
    hide FindField, NormFields, Unsigned;
    IntegerReadsBack(o, "capabilities", Uint(bits as int));
    SmallIsUnsigned(bits as int);
  }

  // What comes back: the same node with normalised properties.
  function NormNode(n: Node): Node {
    n.(properties := NormProperties(n.properties))
  }

  lemma NodeReadsBack(n: Node, v: Value)
    requires IsNodeJson(n, v) && SafeProperties(n.properties) && SafeCapabilities(n.capabilities)
    ensures NodeFromJson(Norm(v)) == Read(NormNode(n))
  {
    hide IsPropertiesJson, NodeJson, FindField, NormFields, ToHex, TypeName, ConfidenceName, NativeToJson, ProvenanceToJson;
    hide SafeProperties, IdAt, PropertiesAt, TypeAt, TextAt, NativeFromJson, CapabilitiesAt, ProvenanceAt;
    hide ConfidenceAt, FlagAt, Norm, SafeCapabilities, CapabilitiesToJson;
    hide NormProperties;
    var fs :| IsPropertiesJson(n.properties, fs) && v == NodeJson(n, fs);
    NodeMembers(n, fs);
    var o := v.fields;
    assert Norm(Object(o)) == Object(NormFields(o));
    IdReadsBack(o, "id", n.id);
    PropertiesMemberReadsBack(o, n.properties, fs);
    TypeReadsBack(o, n.nodeType);
    TextReadsBack(o, "category", n.category, "");
    TextReadsBack(o, "name", n.name, "");
    TextReadsBack(o, "display_name", n.displayName, "");
    NativeMemberReadsBack(o, n.native);
    CapabilitiesReadBack(o, n.capabilities);
    ProvenanceMemberReadsBack(o, n.provenance);
    ConfidenceReadsBack(o, n.confidence);
    FlagReadsBack(o, "synthetic", n.synthetic, false);
  }

  // ---- Edges ----------------------------------------------------------------------------------------

  lemma LinkMembers(e: Edge)
    ensures var o := LinkToJson(e);
            && FindField(o, "source") == Some(String(ToHex(e.source))) && FindField(o, "target") == Some(String(ToHex(e.target)))
            && FindField(o, "type") == Some(String(EdgeTypeName(e.edgeType)))
            && FindField(o, "direction") == Some(String(DirectionName(e.direction)))
            && FindField(o, "confidence") == Some(String(ConfidenceName(e.confidence)))
            && FindField(o, "provenance") == Some(ProvenanceToJson(e.provenance))
            && (forall q :: q !in {"source", "target", "type", "direction", "confidence", "provenance"} ==> FindField(o, q) == None)
  {
    hide SetField, FindField, EdgeTypeName, DirectionName, ConfidenceName, ProvenanceToJson, ToHex;
    SettingsAreFound();
    NothingIsFound();
  }

  lemma NothingIsFound()
    ensures forall q: string :: FindField([], q) == None
  {
  }

  lemma OptionalSettingsAreFound()
    ensures forall fs: seq<Field>, k: string, v: Option<Value>, q: string ::
              FindField(SetSome(fs, k, v), q) == if q == k && v.Some? then v else FindField(fs, q)
  {
    forall fs: seq<Field>, k: string, v: Option<Value>, q: string
      ensures FindField(SetSome(fs, k, v), q) == if q == k && v.Some? then v else FindField(fs, q)
    {
      if v.Some? {
        FindAfterSet(fs, k, v.value, q);
      }
    }
  }

  // An edge with its link facts within their native range.
  ghost predicate SafeFacts(e: Edge) {
    && (e.width.Some? ==> 0 <= e.width.value < 0x8000_0000)
    && (e.pcieGeneration.Some? ==> 0 <= e.pcieGeneration.value < 0x8000_0000)
    && -0x8000_0000 <= e.hopCount < 0x8000_0000
    && (e.peerCapability.Some? ==> e.peerCapability.value <= MAX_INT64)
  }

  function UintOf(x: Option<int>): Option<Value> {
    Map(x, (w: int) => Uint(Unsigned(w)))
  }

  lemma FactMembers(o: seq<Field>, e: Edge)
    requires FindField(o, "width") == None && FindField(o, "pcie_generation") == None
    requires FindField(o, "bandwidth_bps") == None && FindField(o, "latency_ns") == None && FindField(o, "locality_score") == None
    ensures var z := FactsToJson(o, e);
            && FindField(z, "width") == UintOf(e.width) && FindField(z, "pcie_generation") == UintOf(e.pcieGeneration)
            && FindField(z, "bandwidth_bps") == DoubleOf(e.bandwidth) && FindField(z, "latency_ns") == DoubleOf(e.latency)
            && FindField(z, "locality_score") == DoubleOf(e.localityScore)
            && FindField(z, "hop_count") == Some(Int(AsInt32(e.hopCount)))
            && (forall q :: q !in {"width", "pcie_generation", "bandwidth_bps", "latency_ns", "hop_count", "locality_score"} ==>
                  FindField(z, q) == FindField(o, q))
  {
    hide SetField, FindField, SetSome, Unsigned, AsInt32;
    SettingsAreFound();
    OptionalSettingsAreFound();
  }

  lemma EdgeMembers(e: Edge, fs: seq<Field>)
    ensures EdgeJson(e, fs).Object?
    ensures var o := EdgeJson(e, fs).fields;
            && FindField(o, "accessible") == Some(Bool(e.accessible))
            && FindField(o, "peer_capability") == Map(e.peerCapability, (c: uint64) => Uint(c))
            && FindField(o, "policy_version") == Some(Uint(e.policyVersion)) && FindField(o, "properties") == Some(Object(fs))
            && (forall q :: q !in {"accessible", "peer_capability", "policy_version", "properties"} ==>
                  FindField(o, q) == FindField(FactsToJson(LinkToJson(e), e), q))
  {
    hide SetField, FindField, SetSome, LinkToJson, FactsToJson;
    SettingsAreFound();
    OptionalSettingsAreFound();
    LinkHasNoFacts(e);
    FactMembers(LinkToJson(e), e);
  }

  lemma LinkHasNoFacts(e: Edge)
    ensures FindField(LinkToJson(e), "peer_capability") == None
    ensures FindField(LinkToJson(e), "width") == None && FindField(LinkToJson(e), "pcie_generation") == None
    ensures FindField(LinkToJson(e), "bandwidth_bps") == None && FindField(LinkToJson(e), "latency_ns") == None
    ensures FindField(LinkToJson(e), "locality_score") == None
  {
    hide SetField, FindField, EdgeTypeName, DirectionName, ConfidenceName, ProvenanceToJson, ToHex;
    SettingsAreFound();
    NothingIsFound();
  }

  lemma FactsStay(e: Edge, fs: seq<Field>)
    ensures forall q :: q in {"width", "pcie_generation", "bandwidth_bps", "latency_ns", "hop_count", "locality_score"} ==>
              FindField(EdgeJson(e, fs).fields, q) == FindField(FactsToJson(LinkToJson(e), e), q)
  {
    hide FindField, LinkToJson, FactsToJson, EdgeJson;
    EdgeMembers(e, fs);
  }

  // The members naming the link, and those holding its facts, in the finished object.
  lemma EdgeLinkMembers(e: Edge, fs: seq<Field>)
    ensures var o := EdgeJson(e, fs).fields;
            && FindField(o, "source") == Some(String(ToHex(e.source))) && FindField(o, "target") == Some(String(ToHex(e.target)))
            && FindField(o, "type") == Some(String(EdgeTypeName(e.edgeType)))
            && FindField(o, "direction") == Some(String(DirectionName(e.direction)))
            && FindField(o, "confidence") == Some(String(ConfidenceName(e.confidence)))
            && FindField(o, "provenance") == Some(ProvenanceToJson(e.provenance))
  {
    hide FindField, LinkToJson, FactsToJson, EdgeJson, EdgeTypeName, DirectionName, ConfidenceName, ProvenanceToJson, ToHex;
    hide UintOf, AsInt32, DoubleOf, Map;
    LinkHasNoFacts(e);
    LinkMembers(e);
    FactMembers(LinkToJson(e), e);
    EdgeMembers(e, fs);
  }

  lemma EdgeFactMembers(e: Edge, fs: seq<Field>)
    ensures var o := EdgeJson(e, fs).fields;
            && FindField(o, "width") == UintOf(e.width) && FindField(o, "pcie_generation") == UintOf(e.pcieGeneration)
            && FindField(o, "bandwidth_bps") == DoubleOf(e.bandwidth) && FindField(o, "latency_ns") == DoubleOf(e.latency)
            && FindField(o, "locality_score") == DoubleOf(e.localityScore)
            && FindField(o, "hop_count") == Some(Int(AsInt32(e.hopCount)))
  {
    hide FindField, LinkToJson, FactsToJson, EdgeJson, UintOf, AsInt32, DoubleOf;
    LinkHasNoFacts(e);
    FactMembers(LinkToJson(e), e);
    FactsStay(e, fs);
  }

  lemma EdgeTypeReadsBack(o: seq<Field>, t: EdgeType)
    requires FindField(o, "type") == Some(String(EdgeTypeName(t)))
    ensures EdgeTypeAt(NormFields(o)) == t
  {
    hide FindField, NormFields, EdgeTypeName, EdgeTypeNamed;
    FindNorm(o, "type");
    EdgeTypeNameReadsBack(t);
  }

  lemma DirectionReadsBack(o: seq<Field>, d: EdgeDirection)
    requires FindField(o, "direction") == Some(String(DirectionName(d)))
    ensures DirectionAt(NormFields(o)) == d
  {
    hide FindField, NormFields, DirectionName, DirectionNamed;
    FindNorm(o, "direction");
    DirectionNameReadsBack(d);
  }

  lemma AbsentReadsBack(o: seq<Field>, k: string)
    requires FindField(o, k) == None
    ensures RealAt(NormFields(o), k) == None && IntegerAt(NormFields(o), k) == None
  {
    hide FindField, NormFields;
    FindNorm(o, k);
  }

  lemma LaneCountReadsBack(o: seq<Field>, k: string, x: Option<int>)
    requires FindField(o, k) == UintOf(x) && (x.Some? ==> 0 <= x.value < 0x8000_0000)
    ensures Map(IntegerAt(NormFields(o), k), (i: int64) => AsInt32(i) as int) == x
  {
    hide FindField, NormFields, IntegerAt, Unsigned;
    if x.Some? {
      SmallIsUnsigned(x.value);
      IntegerReadsBack(o, k, Uint(Unsigned(x.value)));
    } else {
      AbsentReadsBack(o, k);
    }
  }

  lemma SmallIsInt32(i: int)
    requires -0x8000_0000 <= i < 0x8000_0000
    ensures AsInt32(i) == i && AsInt32(AsInt32(i)) == i
  {
  }

  lemma HopCountReadsBack(o: seq<Field>, hops: int)
    requires FindField(o, "hop_count") == Some(Int(AsInt32(hops))) && -0x8000_0000 <= hops < 0x8000_0000
    ensures AsInt32(IntegerAt(NormFields(o), "hop_count").GetOr(0)) == hops
  {
    hide FindField, NormFields, IntegerAt, AsInt32;
    SmallIsInt32(hops);
    IntegerReadsBack(o, "hop_count", Int(AsInt32(hops)));
  }

  lemma PeerReadsBack(o: seq<Field>, x: Option<uint64>)
    requires FindField(o, "peer_capability") == Map(x, (c: uint64) => Uint(c)) && (x.Some? ==> x.value <= MAX_INT64)
    ensures Map(IntegerAt(NormFields(o), "peer_capability"), (i: int64) => Unsigned(i)) == x
  {
    hide FindField, NormFields, IntegerAt, Unsigned;
    if x.Some? {
      SmallIsUnsigned(x.value);
      IntegerReadsBack(o, "peer_capability", Uint(x.value));
    } else {
      AbsentReadsBack(o, "peer_capability");
    }
  }

  lemma PolicyReadsBack(o: seq<Field>, x: uint32)
    requires FindField(o, "policy_version") == Some(Uint(x))
    ensures IntegerAt(NormFields(o), "policy_version").GetOr(0) % 0x1_0000_0000 == x
  {
    hide FindField, NormFields, IntegerAt;
    IntegerReadsBack(o, "policy_version", Uint(x));
  }

  lemma MeasureReadsBack(o: seq<Field>, k: string, x: Option<real>)
    requires FindField(o, k) == DoubleOf(x)
    ensures RealAt(NormFields(o), k) == SavedMeasure(x)
  {
    hide FindField, NormFields;
    FindNorm(o, k);
    if x.Some? {
      RealComesBackAsNumber(x.value);
    }
  }

  function SavedMeasure(x: Option<real>): Option<real> {
    Map(x, (r: real) => SavedReal(r))
  }

  // What comes back: the same edge with normalised properties and rounded measures.
  function NormEdge(e: Edge): Edge {
    e.(properties := NormProperties(e.properties), bandwidth := SavedMeasure(e.bandwidth), latency := SavedMeasure(e.latency),
       localityScore := SavedMeasure(e.localityScore))
  }

  lemma EdgeReadsBack(e: Edge, v: Value)
    requires IsEdgeJson(e, v) && SafeProperties(e.properties) && SafeFacts(e)
    ensures EdgeFromJson(Norm(v)) == Read(NormEdge(e))
  {
    hide IsPropertiesJson, EdgeJson, FindField, NormFields, ToHex, EdgeTypeName, DirectionName, ConfidenceName;
    hide ProvenanceToJson;
    hide SafeProperties, IdAt, PropertiesAt, EdgeTypeAt, DirectionAt, IntegerAt, RealAt, ProvenanceAt;
    hide ConfidenceAt, FlagAt, Norm;
    hide NormProperties, Unsigned, AsInt32, UintOf, DoubleOf, SavedMeasure;
    var fs :| IsPropertiesJson(e.properties, fs) && v == EdgeJson(e, fs);
    EdgeMembers(e, fs);
    EdgeLinkMembers(e, fs);
    EdgeFactMembers(e, fs);
    var o := v.fields;
    assert Norm(Object(o)) == Object(NormFields(o));
    IdReadsBack(o, "source", e.source);
    IdReadsBack(o, "target", e.target);
    PropertiesMemberReadsBack(o, e.properties, fs);
    EdgeTypeReadsBack(o, e.edgeType);
    DirectionReadsBack(o, e.direction);
    ProvenanceMemberReadsBack(o, e.provenance);
    ConfidenceReadsBack(o, e.confidence);
    LaneCountReadsBack(o, "width", e.width);
    LaneCountReadsBack(o, "pcie_generation", e.pcieGeneration);
    MeasureReadsBack(o, "bandwidth_bps", e.bandwidth);
    MeasureReadsBack(o, "latency_ns", e.latency);
    MeasureReadsBack(o, "locality_score", e.localityScore);
    HopCountReadsBack(o, e.hopCount);
    FlagReadsBack(o, "accessible", e.accessible, true);
    PeerReadsBack(o, e.peerCapability);
    PolicyReadsBack(o, e.policyVersion);
  }
}
