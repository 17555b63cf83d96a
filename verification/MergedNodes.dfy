// What a merged node says, member by member.

module MergedNodes {
  import opened Types
  import opened Text
  import opened Names
  import opened Identity
  import opened Sorting
  import opened Merge
  import opened MergeGraph

  // ---- Which nodes are merged ---------------------------------------------------------------

  lemma TypeNameHasNoColon(t: NodeType)
    ensures ':' !in TypeName(t)
  {
  }

  lemma TypeKeyLayout(n: ContributedNode)
    requires CanonicalKey(n.native) == ""
    ensures GroupKey(n) == "type" + [':'] + (TypeName(n.nodeType) + [':'] + n.name)
  {
    hide CanonicalKey, TypeName;
    assert "type:" == "type" + [':'];
    assert "type" + [':'] + TypeName(n.nodeType) + ":" + n.name == "type" + [':'] + (TypeName(n.nodeType) + [':'] + n.name);
  }

  // Two contributed nodes meet in one group exactly when they report the same native fact, or
  // when neither reports one and type and name agree.
  lemma GroupsMeetExactly(a: ContributedNode, b: ContributedNode)
    ensures GroupKey(a) == GroupKey(b) <==>
            && KindOf(a.native) == KindOf(b.native)
            && if KindOf(a.native) == NoKey then a.nodeType == b.nodeType && a.name == b.name
               else PayloadOf(a.native) == PayloadOf(b.native)
  {
    hide CanonicalKey, TypeName, TypeNamed, KindOf, PayloadOf;
    KeysCollideOnEqualFacts(a.native, b.native);
    KeyIsTaggedPayload(a.native);
    KeyIsTaggedPayload(b.native);
    TypeKeysAreApart(a);
    TypeKeysAreApart(b);
    if CanonicalKey(a.native) == "" && CanonicalKey(b.native) == "" {
      TypeKeyLayout(a);
      TypeKeyLayout(b);
      TypeNameHasNoColon(a.nodeType);
      TypeNameHasNoColon(b.nodeType);
      TypeNameReadsBack(a.nodeType);
      TypeNameReadsBack(b.nodeType);
      if GroupKey(a) == GroupKey(b) {
        SplitUnique("type", TypeName(a.nodeType) + [':'] + a.name, "type", TypeName(b.nodeType) + [':'] + b.name, ':');
        SplitUnique(TypeName(a.nodeType), a.name, TypeName(b.nodeType), b.name, ':');
      }
    }
  }

  // ---- Orders of trust and detail ----------------------------------------------------------------

  const BY_TRUST: seq<Confidence> := [Authoritative, High, Medium, Low, UnknownConfidence]

  lemma TrustDescends(i: nat, j: nat)
    requires i < |BY_TRUST| && j < |BY_TRUST|
    ensures ConfidenceRank(BY_TRUST[i]) > ConfidenceRank(BY_TRUST[j]) <==> i < j
  {
  }

  // The types from the most to the least specific.
  const BY_DETAIL: seq<set<NodeType>> := [
    {AcceleratorMemoryDomain}, {Accelerator}, {NetworkInterface}, {StorageDevice, SharedMemoryDomain}, {PciDevice}, {PciBridge},
    {PciRoot}, {CpuPackage, CpuCore, CpuThread}, {NumaNode, HostMemoryDomain, Machine}, {UnknownType, Extension}]

  lemma DetailDescends(s: NodeType, t: NodeType)
    ensures TypeRank(s) > TypeRank(t) <==>
            exists i, j :: 0 <= i < j < |BY_DETAIL| && s in BY_DETAIL[i] && t in BY_DETAIL[j]
  {
    LevelOf(s);
    LevelOf(t);
    if TypeRank(s) > TypeRank(t) {
      assert s in BY_DETAIL[9 - TypeRank(s)] && t in BY_DETAIL[9 - TypeRank(t)];
    }
  }

  lemma LevelOf(t: NodeType)
    ensures 0 <= 9 - TypeRank(t) && forall i :: 0 <= i < |BY_DETAIL| ==> (t in BY_DETAIL[i] <==> i == 9 - TypeRank(t))
  {
  }

  // ---- The merged node ------------------------------------------------------------------------------

  predicate Has(caps: bv64, bits: bv64) {
    caps & bits == bits
  }

  predicate Lacks(caps: bv64, bits: bv64) {
    caps & bits == 0
  }

  function Join(a: bv64, b: bv64): bv64 {
    a | b
  }

  lemma JoinHasNew(a: bv64, b: bv64)
    ensures Has(Join(a, b), b)
  {
  }

  lemma JoinHasOld(a: bv64, b: bv64, c: bv64)
    requires Has(a, c)
    ensures Has(Join(a, b), c)
  {
  }

  lemma JoinLacks(a: bv64, b: bv64, c: bv64)
    ensures Lacks(Join(a, b), c) <==> Lacks(a, c) && Lacks(b, c)
  {
    assert (a | b) & c == (a & c) | (b & c);
    NoBitsLeft(a & c, b & c);
  }

  lemma NoBitsLeft(x: bv64, y: bv64)
    ensures x | y == 0 <==> x == 0 && y == 0
  {
  }

  lemma NextCapabilities(ms: seq<ContributedNode>)
    ensures ms == [] ==> AllCapabilities(ms) == 0
    ensures ms != [] ==> AllCapabilities(ms) == Join(AllCapabilities(ms[..|ms| - 1]), ms[|ms| - 1].capabilities)
    ensures forall bits :: Lacks(0, bits)
  {
  }

  // Exactly the capabilities of the members.
  lemma {:induction false} CapabilitiesUnite(ms: seq<ContributedNode>, bits: bv64)
    ensures forall m :: m in ms ==> Has(AllCapabilities(ms), m.capabilities)
    ensures Lacks(AllCapabilities(ms), bits) <==> forall m :: m in ms ==> Lacks(m.capabilities, bits)
  {
    hide Has, Lacks, Join, AllCapabilities;
    NextCapabilities(ms);
    if ms != [] {
      var n := |ms| - 1;
      var before, last := AllCapabilities(ms[..n]), ms[n].capabilities;
      CapabilitiesUnite(ms[..n], bits);
      assert ms == ms[..n] + [ms[n]];
      forall m | m in ms
        ensures Has(AllCapabilities(ms), m.capabilities)
      {
        if m == ms[n] {
          JoinHasNew(before, last);
        } else {
          JoinHasOld(before, last, m.capabilities);
        }
      }
      JoinLacks(before, last, bits);
    }
  }

  // The name of the first member of the type.
  lemma {:induction false} FirstOfType(ms: seq<ContributedNode>, t: NodeType, i: nat)
    requires i < |ms| && ms[i].nodeType == t && forall j :: 0 <= j < i ==> ms[j].nodeType != t
    ensures FirstNameOf(ms, t) == ms[i].name
    decreases |ms|
  {
    if i > 0 {
      FirstOfType(ms[1..], t, i - 1);
    }
  }

  lemma {:induction false} LongestIsLongest(ms: seq<ContributedNode>)
    ensures forall m :: m in ms ==> |m.name| <= |LongestName(ms)|
    ensures LongestName(ms) == "" || exists m :: m in ms && m.name == LongestName(ms)
  {
    if ms != [] {
      var n := |ms| - 1;
      LongestIsLongest(ms[..n]);
      assert ms == ms[..n] + [ms[n]];
    }
  }

  // The first member of the merged type names the node; if that has no name, a longest name does.
  lemma NameOfMerged(id: NodeId, ms: seq<ContributedNode>, i: nat)
    requires i < |ms| && ms[i].nodeType == BestType(ms) && forall j :: 0 <= j < i ==> ms[j].nodeType != BestType(ms)
    ensures var node := MergedNode(id, ms);
            && (ms[i].name != "" ==> node.name == ms[i].name)
            && (ms[i].name == "" ==> forall m :: m in ms ==> |m.name| <= |node.name|)
            && (node.name != "" ==> node.displayName == node.name && exists m :: m in ms && m.name == node.name)
            && (node.name == "" ==> node.displayName == ToHex(id))
  {
    hide BestType, MergedNative, AllCapabilities, WithBookkeeping, BestConfidence, AnySynthetic, ToHex;
    FirstOfType(ms, BestType(ms), i);
    LongestIsLongest(ms);
    assert ms[i] in ms;
  }

  lemma {:induction false} TagsInOrder(ms: seq<ContributedNode>)
    ensures |ProviderTags(ms)| == |ms|
    ensures forall i :: 0 <= i < |ms| ==> ProviderTags(ms)[i] == ms[i].provenance.provider + ":" + ms[i].ref
  {
    if ms != [] {
      TagsInOrder(ms[..|ms| - 1]);
    }
  }

  // Everything else the node says: the provenance and confidence of its first member, the first
  // report of each native fact, a synthetic mark if some member has one, and the most specific type.
  lemma MergedNodeFacts(id: NodeId, ms: seq<ContributedNode>)
    requires ms != [] && BestFirst(ms)
    ensures var node := MergedNode(id, ms);
            && node.id == id && node.category == "merged" && node.provenance == ms[0].provenance
            && node.confidence == ms[0].provenance.confidence && (node.synthetic <==> exists m :: m in ms && m.synthetic)
            && AreFirstReports(ms, node.native)
            && (exists m :: m in ms && m.nodeType == node.nodeType)
            && (forall m :: m in ms ==> TypeRank(m.nodeType) <= TypeRank(node.nodeType))
  {
    hide AreFirstReports, MergedNative, AllCapabilities, BestName, TypeRank, Rank, BestType, BestConfidence, WithBookkeeping;
    ConfidenceOfFirst(ms);
    MergedFieldsAreFirstReports(ms);
    BestTypeIsBest(ms);
  }

  // Its properties are those of the members, with how many there are and whence, unless a member
  // uses these two names itself.
  lemma MergedNodeProperties(id: NodeId, ms: seq<ContributedNode>, k: string)
    requires ms != [] && BestFirst(ms) && |ms| < 0x8000_0000_0000_0000
    ensures var ps := MergedNode(id, ms).properties;
            && ((exists m :: m in ms && k in m.properties) ==>
                  k in ps && exists o :: o in ms && k in o.properties && o.properties[k] == ps[k] &&
                                         forall m :: m in ms && k in m.properties ==> Rank(m) <= Rank(o))
            && ((forall m :: m in ms ==> k !in m.properties) ==>
                  if k == "tf.merged_members" then k in ps && ps[k] == IntProperty(|ms|)
                  else if k == "tf.merged_providers" then k in ps && ps[k].StringsProperty? && IsProviderList(ms, ps[k].ss)
                  else k !in ps)
  {
    hide MergedNative, AllCapabilities, BestName, Rank, MergedProperties, BestType, BestConfidence, ProviderTags;
    KeptValueIsMostConfident(ms, k);
    TagsInOrder(ms);
    assert "tf.merged_members" != "tf.merged_providers";
    if k in MergedProperties(ms) {
      var o :| BestHolder(ms, k, o);
      assert MergedNode(id, ms).properties[k] == MergedProperties(ms)[k];
    }
  }

  // Provider and reference of each member, in order.
  ghost predicate IsProviderList(ms: seq<ContributedNode>, ss: seq<string>) {
    |ss| == |ms| && forall i :: 0 <= i < |ms| ==> ss[i] == ms[i].provenance.provider + ":" + ms[i].ref
  }

  // ---- Ties -------------------------------------------------------------------------------------------

  // Of equally trusted members the earlier contribution comes first, and in one contribution the
  // earlier node.
  lemma TiesInOrder(ms: seq<Member>, k: string, i: nat, j: nat)
    requires i < j < |ByKey(ms, k)|
    ensures var s := Sort(MemberLess, ByKey(ms, k));
            var ri, rj := ConfidenceRank(s[i].node.provenance.confidence), ConfidenceRank(s[j].node.provenance.confidence);
            && Best(ms, k)[i] == s[i].node && Best(ms, k)[j] == s[j].node
            && (ri > rj || (ri == rj && (s[i].ci < s[j].ci || (s[i].ci == s[j].ci && s[i].idx <= s[j].idx))))
  {
    SortSorts(MemberLess, ByKey(ms, k));
    var s := Sort(MemberLess, ByKey(ms, k));
    assert !MemberLess(s[j], s[i]);
  }
}
