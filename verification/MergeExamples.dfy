// Contributions on which a merge fails to be what one expects.

module MergeExamples {
  import opened Types
  import opened Ordering
  import opened Builder
  import opened Merge
  import opened MergeGraph
  import opened MergeOrder
  import opened MergeEdges

  const SEEN: Provenance := Provenance(Discovered, High, "p", "", "", 0, "1.0", "")

  function Card(ref: string): ContributedNode {
    ContributedNode(ref, NetworkInterface, "", "", NO_IDENTITY.(networkHardwareId := "a"), 0, map[], SEEN, false)
  }

  function Disk(ref: string): ContributedNode {
    ContributedNode(ref, StorageDevice, "", "", NO_IDENTITY.(storageId := "b"), 0, map[], SEEN, false)
  }

  function Link(a: string, b: string): ContributedEdge {
    ContributedEdge(a, b, ConnectedTo, Directed, SEEN, High, None, None, None, None, 0, None, map[])
  }

  // One provider reports a card, a disk and a link.
  function Report(cardRef: string, diskRef: string, link: ContributedEdge): seq<Contribution> {
    [Contribution("p", "1", [Card(cardRef), Disk(diskRef)], [link], false, true)]
  }

  const CARD: string := "net:a"
  const DISK: string := "storage:b"

  lemma Keys(ref: string)
    ensures GroupKey(Card(ref)) == CARD && GroupKey(Disk(ref)) == DISK
    ensures CARD != DISK && StringLess(CARD, DISK)
  {
    assert "net:" + "a" == CARD && "storage:" + "b" == DISK;
    assert CARD[0] == 'n' && DISK[0] == 's';
  }

  lemma Members(cardRef: string, diskRef: string, link: ContributedEdge, maxNodes: nat)
    requires maxNodes > 0
    ensures var ms := [Member(Card(cardRef), 0, 0), Member(Disk(diskRef), 0, 1)];
            && Ingested(Report(cardRef, diskRef, link), maxNodes) == ms
            && KeysOf(ms) == {CARD, DISK} && KeyOrder({CARD, DISK}) == [CARD, DISK]
            && FlatEdges(Report(cardRef, diskRef, link)) == [link]
  {
    hide GroupKey, Card, Disk;
    Keys(cardRef);
    Keys(diskRef);
    var cs := Report(cardRef, diskRef, link);
    var a, b := Member(Card(cardRef), 0, 0), Member(Disk(diskRef), 0, 1);
    assert cs[..0] == [];
    var all := MembersOf(cs[0], 0);
    assert all == [a, b] && all[1..] == [b] && [b][1..] == [];
    assert KeysOf([a]) == {CARD};
    assert KeysOf([a, b]) == {CARD, DISK};
    assert [] + [a] == [a] && [a] + [b] == [a, b];
    assert TakeMembers([a], [b], maxNodes) == [a, b];
    assert TakeMembers([], all, maxNodes) == [a, b];
    assert IsKeyOrder({CARD, DISK}, [CARD, DISK]);
    KeyOrderIsUnique({CARD, DISK}, [CARD, DISK], KeyOrder({CARD, DISK}));
  }

  lemma Kept(derive: string -> NodeId, cardRef: string, diskRef: string, link: ContributedEdge, bounds: Bounds)
    requires bounds.maxNodes > 0 && derive(CARD) != derive(DISK)
    ensures var ids := KeptIds(derive, Report(cardRef, diskRef, link), bounds);
            && ids.Keys == (if bounds.maxNodes > 1 then {CARD, DISK} else {CARD}) && ids[CARD] == derive(CARD)
            && (bounds.maxNodes > 1 ==> ids[DISK] == derive(DISK))
  {
    hide GroupKey, Card, Disk, MergedNode, Best, Ingested, KeysOf;
    Members(cardRef, diskRef, link, bounds.maxNodes);
    var ms := Ingested(Report(cardRef, diskRef, link), bounds.maxNodes);
    BestMembers(ms, CARD);
    BestMembers(ms, DISK);
    assert [CARD, DISK][..1] == [CARD] && [CARD][..0] == [];
    assert TableOf(derive, ms, [CARD], bounds.maxNodes).ids == map[CARD := derive(CARD)];
    assert TableOf(derive, ms, [CARD], bounds.maxNodes).nodes.Keys == {derive(CARD)};
  }

  lemma LinkIsUsed(derive: string -> NodeId, cardRef: string, diskRef: string, link: ContributedEdge, bounds: Bounds)
    requires bounds.maxNodes > 0 && bounds.maxEdges > 0
    requires link.fromRef in {cardRef, diskRef} && link.toRef in {cardRef, diskRef}
    ensures UsedEdges(derive, Report(cardRef, diskRef, link), bounds) == [link]
  {
    hide GroupKey, KeptIds, Ingested;
    Members(cardRef, diskRef, link, bounds.maxNodes);
    var ms := Ingested(Report(cardRef, diskRef, link), bounds.maxNodes);
    assert ms[0].node.ref == cardRef && ms[1].node.ref == diskRef;
    assert ms[0] in ms && ms[1] in ms;
    var known := KnownRefs(ms, KeptIds(derive, Report(cardRef, diskRef, link), bounds));
    assert ms[0].node.ref in known && ms[1].node.ref in known;
    assert [link][..0] == [] && Usable(known, []) == [];
    assert Usable(known, [link]) == [link];
  }

  // With room for one node, the link of the card to the disk dangles at the dropped disk.
  lemma DroppedGroupLeavesDanglingEdge(derive: string -> NodeId, maxEdges: nat, maxStringBytes: nat, maxSnapshotBytes: nat)
    requires (forall k :: derive(k) != NULL_NODE_ID) && derive(CARD) != derive(DISK) && maxEdges > 0
    ensures exists g :: IsMerge(derive, Report("x", "y", Link("x", "y")), Bounds(1, maxEdges, maxStringBytes, maxSnapshotBytes), g) &&
                        !AllEndpointsKnown(g.nodes, g.edges)
  {
    hide IsMerge, UsedEdges, Ingested, KeptIds, GroupKey, AllEndpointsKnown;
    var bounds := Bounds(1, maxEdges, maxStringBytes, maxSnapshotBytes);
    var link := Link("x", "y");
    var cs := Report("x", "y", link);
    Members("x", "y", link, 1);
    Keys("y");
    Kept(derive, "x", "y", link, bounds);
    LinkIsUsed(derive, "x", "y", link, bounds);
    var ms, ids := Ingested(cs, 1), KeptIds(derive, cs, bounds);
    assert ms[1] in ms && ms[1].node.ref == "y" && "y" !in ids;
    assert !Lasting(ms, ids, "y");
    assert link in [link];
    assert !AllLasting(derive, cs, bounds);
    NoDanglingExactly(derive, cs, bounds);
  }

  // A card and a disk under one reference: the link means either, as the hash order has it.
  lemma SharedReferenceSplitsTheMerge(derive: string -> NodeId, bounds: Bounds)
    requires derive(CARD) != derive(DISK) && bounds.maxNodes > 1 && bounds.maxEdges > 0
    ensures exists g, h :: IsMerge(derive, Report("x", "x", Link("x", "x")), bounds, g) &&
                           IsMerge(derive, Report("x", "x", Link("x", "x")), bounds, h) && g.edges != h.edges
  {
    hide IsMerge, UsedEdges, Ingested, KeptIds, GroupKey;
    var link := Link("x", "x");
    var cs := Report("x", "x", link);
    Members("x", "x", link, bounds.maxNodes);
    Keys("x");
    Kept(derive, "x", "x", link, bounds);
    LinkIsUsed(derive, "x", "x", link, bounds);
    var ms, ids := Ingested(cs, bounds.maxNodes), KeptIds(derive, cs, bounds);
    assert ms[0] in ms && ms[1] in ms && "x" !in ids;
    DeclaredBy(ms, ids, ms[0]);
    DeclaredBy(ms, ids, ms[1]);
    assert !Settled(ms, ids, "x");
    UnsettledFirstEdgeSplits(derive, cs, bounds, "x");
  }
}
