// Node ids, PCI addresses and identity keys.

module Identity {
  import opened Types
  import opened Text

  // ---- 128-bit ids as text -----------------------------------------------------

  function ToHex(id: NodeId): string {
    Hex(id.high, 16) + Hex(id.low, 16)
  }

  const MAX64: nat := 0xffff_ffff_ffff_ffff

  // Reads one half. Any other character yields the largest value, as the source does.
  method ParseHalf(part: string) returns (v: nat)
    requires |part| == 16
    ensures v <= MAX64
    ensures IsNumeral(16, part) ==> v == ValueOf(16, part)
    ensures !IsNumeral(16, part) ==> v == MAX64
  {
    v := 0;
    for i := 0 to 16
      invariant IsNumeral(16, part[..i]) && v == ValueOf(16, part[..i]) && v < Power(16, i)
    {
      var d := DigitValue(part[i]);
      assert part[..i + 1] == part[..i] + [part[i]];
      if d.None? {
        assert part[i] in part;
        return MAX64;
      }
      assert part[..i + 1][..i] == part[..i];
      v := v * 16 + d.value;
      ValueBound(16, part[..i + 1]);
    }
    assert part[..16] == part;
    Power64();
  }

  const LARGEST_HALF: string := "ffffffffffffffff"

  // A half reads back unless it is the largest value written with a capital letter.
  ghost predicate ReadableHalf(part: string) {
    IsNumeral(16, part) && (ValueOf(16, part) == MAX64 ==> part == LARGEST_HALF)
  }

  // The id a text denotes.
  ghost function HexId(s: string): Option<NodeId> {
    if |s| == 32 && ReadableHalf(s[..16]) && ReadableHalf(s[16..])
    then
      HalfBound(s[..16]);
      HalfBound(s[16..]);
      Some(NodeId(ValueOf(16, s[..16]), ValueOf(16, s[16..])))
    else None
  }

  lemma HalfBound(part: string)
    requires |part| == 16 && IsNumeral(16, part)
    ensures ValueOf(16, part) <= MAX64
  {
    ValueBound(16, part);
    Power64();
  }

  method TryFromHex(s: string) returns (id: Option<NodeId>)
    ensures id == HexId(s)
    ensures id.Some? <==> |s| == 32 && ReadableHalf(s[..16]) && ReadableHalf(s[16..])
    ensures id.Some? ==> id.value.high == ValueOf(16, s[..16]) && id.value.low == ValueOf(16, s[16..])
  {
    if |s| != 32 {
      return None;
    }
    var h := ParseHalf(s[..16]);
    var l := ParseHalf(s[16..]);
    assert LARGEST_HALF == Hex(MAX64, 16) by {
      LargestHalf();
    }
    HexRoundTrip(MAX64, 16);
    if h == MAX64 && s[..16] != LARGEST_HALF {
      return None;
    }
    if l == MAX64 && s[16..] != LARGEST_HALF {
      return None;
    }
    id := Some(NodeId(h, l));
  }

  lemma LargestHalf()
    ensures Hex(MAX64, 16) == LARGEST_HALF
  {
    assert Numeral(16, 0xf) == "f";
    assert Numeral(16, 0xff) == "ff";
    assert Numeral(16, 0xfff) == "fff";
    assert Numeral(16, 0xffff) == "ffff";
    assert Numeral(16, 0xf_ffff) == "fffff";
    assert Numeral(16, 0xff_ffff) == "ffffff";
    assert Numeral(16, 0xfff_ffff) == "fffffff";
    assert Numeral(16, 0xffff_ffff) == "ffffffff";
    assert Numeral(16, 0xf_ffff_ffff) == "fffffffff";
    assert Numeral(16, 0xff_ffff_ffff) == "ffffffffff";
    assert Numeral(16, 0xfff_ffff_ffff) == "fffffffffff";
    assert Numeral(16, 0xffff_ffff_ffff) == "ffffffffffff";
    assert Numeral(16, 0xf_ffff_ffff_ffff) == "fffffffffffff";
    assert Numeral(16, 0xff_ffff_ffff_ffff) == "ffffffffffffff";
    assert Numeral(16, 0xfff_ffff_ffff_ffff) == "fffffffffffffff";
  }

  lemma HalfLength(n: uint64)
    ensures |Hex(n, 16)| == 16
  {
    Power64();
    NumeralLength(16, n, 16);
    NumeralRoundTrip(16, n);
    PaddedRoundTrip(16, Numeral(16, n), 16);
  }

  // Every 128-bit id is written so that TryFromHex reads it back.
  lemma IdTextIsReadable(id: NodeId)
    ensures var s := ToHex(id);
            |s| == 32 && ReadableHalf(s[..16]) && ReadableHalf(s[16..]) &&
            ValueOf(16, s[..16]) == id.high && ValueOf(16, s[16..]) == id.low
  {
    HalfLength(id.high);
    HalfLength(id.low);
    HexRoundTrip(id.high, 16);
    HexRoundTrip(id.low, 16);
    LargestHalf();
    assert ToHex(id)[..16] == Hex(id.high, 16);
    assert ToHex(id)[16..] == Hex(id.low, 16);
  }

  method ReadIdBack(id: NodeId) returns (back: Option<NodeId>)
    ensures back == Some(id)
  {
    IdTextIsReadable(id);
    back := TryFromHex(ToHex(id));
  }

  // Ids are ordered as 128-bit numbers, and none precedes the null id.
  lemma IdsByValue(a: NodeId, b: NodeId)
    ensures IdLess(a, b) <==> a.high * 0x1_0000_0000_0000_0000 + a.low < b.high * 0x1_0000_0000_0000_0000 + b.low
    ensures !IdLess(a, NULL_NODE_ID)
  {
  }

  // ---- PCI addresses ---------------------------------------------------------------

  predicate HasPci(n: NativeIdentity) {
    n.pciBus.Some? && n.pciDevice.Some? && n.pciFunction.Some?
  }

  // domain:bus:device.function, an unreported domain reading as zero.
  function Bdf(n: NativeIdentity): string
    requires HasPci(n)
  {
    Hex(n.pciDomain.GetOr(0), 4) + ":" + Hex(n.pciBus.value, 2) + ":" +
    Hex(n.pciDevice.value, 2) + "." + Hex(n.pciFunction.value, 1)
  }

  // The address in its usual form: 0000:65:00.0.
  lemma BdfLayout(n: NativeIdentity)
    requires HasPci(n) && n.pciBus.value < 0x100 && n.pciDevice.value < 0x100 && n.pciFunction.value < 0x10
    ensures var s := Bdf(n);
            && |s| == 12 && s[4] == ':' && s[7] == ':' && s[10] == '.'
            && IsNumeral(16, s[..4]) && ValueOf(16, s[..4]) == n.pciDomain.GetOr(0)
            && IsNumeral(16, s[5..7]) && ValueOf(16, s[5..7]) == n.pciBus.value
            && IsNumeral(16, s[8..10]) && ValueOf(16, s[8..10]) == n.pciDevice.value
            && IsNumeral(16, s[11..]) && ValueOf(16, s[11..]) == n.pciFunction.value
  {
    hide IsNumeral, ValueOf, Hex;
    var dom, bus := Hex(n.pciDomain.GetOr(0), 4), Hex(n.pciBus.value, 2);
    var dev, fun := Hex(n.pciDevice.value, 2), Hex(n.pciFunction.value, 1);
    SmallPowers();
    HexWidth(n.pciDomain.GetOr(0), 4);
    HexWidth(n.pciBus.value, 2);
    HexWidth(n.pciDevice.value, 2);
    HexWidth(n.pciFunction.value, 1);
    var s := dom + ":" + bus + ":" + dev + "." + fun;
    assert s[..4] == dom && s[5..7] == bus && s[8..10] == dev && s[11..] == fun;
  }

  lemma SmallPowers()
    ensures Power(16, 1) == 0x10 && Power(16, 2) == 0x100 && Power(16, 4) == 0x1_0000
  {
  }

  lemma HexWidth(n: nat, width: nat)
    requires width > 0 && n < Power(16, width)
    ensures |Hex(n, width)| == width && IsNumeral(16, Hex(n, width)) && ValueOf(16, Hex(n, width)) == n
  {
    NumeralLength(16, n, width);
    HexRoundTrip(n, width);
    NumeralRoundTrip(16, n);
    PaddedRoundTrip(16, Numeral(16, n), width);
  }

  lemma HexInjective(a: nat, b: nat, width: nat)
    requires Hex(a, width) == Hex(b, width)
    ensures a == b
  {
    HexRoundTrip(a, width);
    HexRoundTrip(b, width);
  }

  lemma HexHasNoSeparator(n: nat, width: nat)
    ensures ':' !in Hex(n, width) && '.' !in Hex(n, width)
  {
    HexRoundTrip(n, width);
  }

  // The text names the address: different addresses have different texts, even where a part
  // is wider than its minimum width.
  lemma BdfInjective(a: NativeIdentity, b: NativeIdentity)
    requires HasPci(a) && HasPci(b)
    ensures Bdf(a) == Bdf(b) <==>
            a.pciDomain.GetOr(0) == b.pciDomain.GetOr(0) && a.pciBus == b.pciBus &&
            a.pciDevice == b.pciDevice && a.pciFunction == b.pciFunction
  {
    if Bdf(a) == Bdf(b) {
      var dom1, dom2 := Hex(a.pciDomain.GetOr(0), 4), Hex(b.pciDomain.GetOr(0), 4);
      var bus1, bus2 := Hex(a.pciBus.value, 2), Hex(b.pciBus.value, 2);
      var dev1, dev2 := Hex(a.pciDevice.value, 2), Hex(b.pciDevice.value, 2);
      var fun1, fun2 := Hex(a.pciFunction.value, 1), Hex(b.pciFunction.value, 1);
      HexHasNoSeparator(a.pciDomain.GetOr(0), 4);
      HexHasNoSeparator(b.pciDomain.GetOr(0), 4);
      HexHasNoSeparator(a.pciBus.value, 2);
      HexHasNoSeparator(b.pciBus.value, 2);
      HexHasNoSeparator(a.pciDevice.value, 2);
      HexHasNoSeparator(b.pciDevice.value, 2);
      BdfParts(dom1, bus1, dev1, fun1);
      BdfParts(dom2, bus2, dev2, fun2);
      SplitUnique(dom1, bus1 + [':'] + (dev1 + ['.'] + fun1), dom2, bus2 + [':'] + (dev2 + ['.'] + fun2), ':');
      SplitUnique(bus1, dev1 + ['.'] + fun1, bus2, dev2 + ['.'] + fun2, ':');
      SplitUnique(dev1, fun1, dev2, fun2, '.');
      HexInjective(a.pciDomain.GetOr(0), b.pciDomain.GetOr(0), 4);
      HexInjective(a.pciBus.value, b.pciBus.value, 2);
      HexInjective(a.pciDevice.value, b.pciDevice.value, 2);
      HexInjective(a.pciFunction.value, b.pciFunction.value, 1);
    }
  }

  lemma BdfParts(dom: string, bus: string, dev: string, fun: string)
    ensures dom + ":" + bus + ":" + dev + "." + fun == dom + [':'] + (bus + [':'] + (dev + ['.'] + fun))
  {
  }

  // ---- The canonical key --------------------------------------------------------------

  datatype KeyKind = PciKey | StorageKey | NetKey | CudaKey | CudaOrdinalKey | MachineKey | NoKey

  function KindOf(n: NativeIdentity): KeyKind {
    if HasPci(n) then PciKey
    else if n.storageId != "" || n.storageDevicePath != "" then StorageKey
    else if n.networkHardwareId != "" || n.networkInterfaceName != "" then NetKey
    else if n.cudaUuid != "" then CudaKey
    else if n.cudaOrdinal.Some? then CudaOrdinalKey
    else if n.machineName != "" then MachineKey
    else NoKey
  }

  // The fact the key is made of.
  function PayloadOf(n: NativeIdentity): string {
    match KindOf(n)
    case PciKey => Bdf(n)
    case StorageKey => if n.storageId != "" then n.storageId else n.storageDevicePath
    case NetKey => if n.networkHardwareId != "" then n.networkHardwareId else n.networkInterfaceName
    case CudaKey => n.cudaUuid
    case CudaOrdinalKey => Numeral(10, n.cudaOrdinal.value)
    case MachineKey => n.machineName
    case NoKey => ""
  }

  // The most stable native fact, tagged by its kind; empty when nothing is reported.
  function CanonicalKey(n: NativeIdentity): string {
    if HasPci(n) then "pci:" + Bdf(n)
    else if n.storageId != "" then "storage:" + n.storageId
    else if n.storageDevicePath != "" then "storage:" + n.storageDevicePath
    else if n.networkHardwareId != "" then "net:" + n.networkHardwareId
    else if n.networkInterfaceName != "" then "net:" + n.networkInterfaceName
    else if n.cudaUuid != "" then "cuda:" + n.cudaUuid
    else if n.cudaOrdinal.Some? then "cuda-ord:" + Numeral(10, n.cudaOrdinal.value)
    else if n.machineName != "" then "machine:" + n.machineName
    else ""
  }

  function Tag(k: KeyKind): string {
    match k
    case PciKey => "pci:"
    case StorageKey => "storage:"
    case NetKey => "net:"
    case CudaKey => "cuda:"
    case CudaOrdinalKey => "cuda-ord:"
    case MachineKey => "machine:"
    case NoKey => ""
  }

  lemma KeyIsTaggedPayload(n: NativeIdentity)
    ensures CanonicalKey(n) == Tag(KindOf(n)) + PayloadOf(n)
    ensures CanonicalKey(n) == "" <==> KindOf(n) == NoKey
  {
  }

  lemma TaggedStart(k: KeyKind, payload: string)
    ensures var s := Tag(k) + payload;
            match k
            case PciKey => |s| > 3 && s[0] == 'p'
            case StorageKey => |s| > 4 && s[0] == 's'
            case NetKey => |s| > 3 && s[0] == 'n'
            case CudaKey => |s| > 4 && s[0] == 'c' && s[4] == ':'
            case CudaOrdinalKey => |s| > 4 && s[0] == 'c' && s[4] == '-'
            case MachineKey => |s| > 4 && s[0] == 'm'
            case NoKey => s == payload
  {
  }

  // Keys of different kinds never collide, and keys of one kind collide only on equal facts.
  lemma KeysCollideOnEqualFacts(a: NativeIdentity, b: NativeIdentity)
    ensures CanonicalKey(a) == CanonicalKey(b) <==> KindOf(a) == KindOf(b) && PayloadOf(a) == PayloadOf(b)
  {
    KeyIsTaggedPayload(a);
    KeyIsTaggedPayload(b);
    TaggedStart(KindOf(a), PayloadOf(a));
    TaggedStart(KindOf(b), PayloadOf(b));
    if CanonicalKey(a) == CanonicalKey(b) {
      assert KindOf(a) == KindOf(b);
      var t := Tag(KindOf(a));
      assert PayloadOf(a) == CanonicalKey(a)[|t|..];
      assert PayloadOf(b) == CanonicalKey(b)[|t|..];
    }
  }
}
